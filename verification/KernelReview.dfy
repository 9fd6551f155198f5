/** A task held for review is released: whatever reviews it lacks can be assigned, handed in and counted. */
module KernelReview {
  import opened Common
  import opened Contract
  import opened Kernel

  // ---- exactly which reviews are taken ----

  /** A role is called for: the critical validator for security or delivery, the other two for delivery. */
  ghost predicate Calls(m: Manifest, r: Record, role: string) {
    var delivery := r.delivery || m.wantsDelivery(r.task.description, r.changed);
    || (role == "CRITICAL_VALIDATOR" && (delivery || r.security || exists f :: f in r.changed && m.isProtected(f)))
    || (role in {"SECOND_OPINION", "RELEASE_GATEKEEPER"} && delivery)
  }

  /** The record has a patch against its own base. */
  ghost predicate Patched(r: Record) {
    r.diff.Some? && r.diff.value.sha != "" && r.diff.value.base != "" && r.diff.value.base == r.base
  }

  /** An assignment was carried out for this patch by an independent reviewer who is not its writer. */
  ghost predicate Fits(m: Manifest, r: Record, role: string, a: Assignment) {
    && a.task == r.task.id && a.role == role && role in m.independent && Calls(m, r, role)
    && a.dispatched && a.provenance && !a.banned
    && r.worktree.Some? && a.writer == r.worktree.value.isolation && a.reviewer !in {"", a.writer}
    && Patched(r) && a.patch == Binding(r.diff.value.sha, r.base)
  }

  /** The first assignment with an id. */
  ghost predicate First(s: seq<Assignment>, id: string, i: nat) {
    i < |s| && s[i].id == id && forall j :: 0 <= j < i ==> s[j].id != id
  }

  lemma {:induction false} FindFirst(s: seq<Assignment>, id: string, i: nat)
    requires First(s, id, i)
    ensures Find(s, id) == Some(s[i])
  {
    if i == 0 {
    } else {
      assert First(s[1..], id, i - 1);
      FindFirst(s[1..], id, i - 1);
    }
  }

  lemma {:induction false} FindWhere(s: seq<Assignment>, id: string) returns (i: nat)
    requires Find(s, id).Some?
    ensures First(s, id, i)
  {
    i := 0;
    if s[0].id != id {
      i := FindWhere(s[1..], id);
      i := i + 1;
      assert forall j :: 0 < j < i ==> s[j] == s[1..][j - 1];
    }
  }

  lemma FindNoneExact(s: seq<Assignment>, id: string)
    ensures Find(s, id).None? <==> forall i :: 0 <= i < |s| ==> s[i].id != id
  {
    if Find(s, id).Some? { var i := FindWhere(s, id); } else { FindNoneAll(s, id); }
    if forall i :: 0 <= i < |s| ==> s[i].id != id { FindNone(s, id); }
  }

  lemma {:induction false} FindNoneAll(s: seq<Assignment>, id: string)
    requires Find(s, id).None?
    ensures forall i :: 0 <= i < |s| ==> s[i].id != id
  {
    if s == [] {
    } else {
      FindNoneAll(s[1..], id);
      assert forall i :: 0 < i < |s| ==> s[i] == s[1..][i - 1];
    }
  }

  lemma CallsExact(m: Manifest, r: Record, role: string)
    ensures role in Required(m, r) <==> Calls(m, r, role)
  {
  }

  lemma BoundExact(m: Manifest, r: Record, role: string, a: Assignment)
    ensures Bound(m, r, r.task.id, role, a) <==> Fits(m, r, role, a)
  {
    CallsExact(m, r, role);
  }

  /**
   An assignment is taken exactly for a called and independent role, by someone other than the writer,
   under a new id.
   */
  lemma AssignmentsExact(m: Manifest, r: Record, a: Assignment)
    ensures Registered(m, r, a).Some? <==>
      && r.phase == REVIEW_REQUIRED && Calls(m, r, a.role) && a.role in m.independent && Patched(r)
      && a.id != "" && (forall i :: 0 <= i < |r.assignments| ==> r.assignments[i].id != a.id)
      && r.worktree.Some? && r.worktree.value.isolation != "" && a.reviewer !in {"", r.worktree.value.isolation}
      && a.provenance && (a.dispatched ==> !a.banned)
    ensures Registered(m, r, a).Some? ==>
      var entry := a.(task := r.task.id, writer := r.worktree.value.isolation,
                      patch := Binding(r.diff.value.sha, r.base));
      Registered(m, r, a).value == r.(assignments := r.assignments + [entry], history := r.history + [REVIEW_REQUIRED])
  {
    CallsExact(m, r, a.role);
    FindNoneExact(r.assignments, a.id);
  }

  /** A review is taken exactly if it reports success on this task under an assignment that fits. */
  lemma ReviewsExact(m: Manifest, r: Record, path: string, report: Report)
    ensures Reviewed(m, r, path, report).Some? <==>
      && r.phase == REVIEW_REQUIRED && !report.degraded && report.result == "DONE" && report.task == r.task.id
      && report.specStatus == "SATISFIED" && report.escalation == "NONE" && report.assignmentId != ""
      && exists i: nat :: First(r.assignments, report.assignmentId, i) && Fits(m, r, report.role, r.assignments[i])
    ensures Reviewed(m, r, path, report).Some? ==> Patched(r)
    ensures Reviewed(m, r, path, report).Some? ==>
      var item := Review(path, report.role, report.assignmentId, Binding(r.diff.value.sha, r.base));
      var known := exists e :: e in r.evidence && e.Review? && e.path == path;
      Reviewed(m, r, path, report).value ==
        r.(evidence := r.evidence + (if known then [] else [item]), history := r.history + [REVIEW_REQUIRED])
  {
    if i: nat :| First(r.assignments, report.assignmentId, i) && Fits(m, r, report.role, r.assignments[i]) {
      FindFirst(r.assignments, report.assignmentId, i);
      BoundExact(m, r, report.role, r.assignments[i]);
    }
    if Reviewed(m, r, path, report).Some? {
      assert r.evidence + [] == r.evidence;
      var i := FindWhere(r.assignments, report.assignmentId);
      FindFirst(r.assignments, report.assignmentId, i);
      BoundExact(m, r, report.role, r.assignments[i]);
    }
  }

  /** A review on record that counts for a role. */
  ghost predicate Given(m: Manifest, r: Record, role: string, e: Evidence) {
    && e in r.evidence && e.Review? && e.role == role && e.path != ""
    && Patched(r) && e.patch == Binding(r.diff.value.sha, r.base)
    && exists i: nat :: First(r.assignments, e.assignmentId, i) && Fits(m, r, role, r.assignments[i])
  }

  lemma CountsExact(m: Manifest, r: Record, role: string, e: Evidence)
    ensures e in r.evidence && Counts(m, r, e) && e.role == role <==> Given(m, r, role, e)
  {
    if Given(m, r, role, e) {
      var i: nat :| First(r.assignments, e.assignmentId, i) && Fits(m, r, role, r.assignments[i]);
      FindFirst(r.assignments, e.assignmentId, i);
      BoundExact(m, r, role, r.assignments[i]);
    }
    if e in r.evidence && Counts(m, r, e) && e.role == role {
      var i := FindWhere(r.assignments, e.assignmentId);
      FindFirst(r.assignments, e.assignmentId, i);
      BoundExact(m, r, role, r.assignments[i]);
    }
  }

  /** Integration is ready exactly when every called role has a review that counts. */
  lemma ReadyExact(m: Manifest, r: Record)
    ensures IntegrationReady(m, r) <==>
      r.phase == INTEGRATE && forall role :: Calls(m, r, role) ==> exists e :: Given(m, r, role, e)
  {
    RequiredExact(m, r);
    if IntegrationReady(m, r) {
      forall role | Calls(m, r, role) ensures exists e :: Given(m, r, role, e) {
        CallsExact(m, r, role);
        var e :| e in r.evidence && Counts(m, r, e) && e.role == role;
        CountsExact(m, r, role, e);
      }
    }
    if forall role :: Calls(m, r, role) ==> exists e :: Given(m, r, role, e) {
      forall role | role in Required(m, r) ensures exists e :: e in r.evidence && Counts(m, r, e) && e.role == role {
        CallsExact(m, r, role);
        var e :| Given(m, r, role, e);
        CountsExact(m, r, role, e);
      }
    }
  }

  // ---- a held task is released ----

  /** A task held for review, with a writer and a patch that belongs to its base, and roles that may review it. */
  ghost predicate Reviewable(m: Manifest, r: Record, t: string) {
    && r.phase == REVIEW_REQUIRED && REVIEW_REQUIRED in m.transitions && r.task.id == t
    && r.worktree.Some? && r.worktree.value.isolation != ""
    && Patched(r) && Required(m, r) <= m.independent
  }

  /** A reviewer who is available and not the writer takes up a role. */
  function Offer(id: string, role: string, reviewer: string): Assignment {
    Assignment(id, "", role, reviewer, "", Binding("", ""), true, false, true)
  }

  function Approval(t: string, role: string, id: string): Report {
    Report(false, "DONE", t, role, "SATISFIED", "NONE", true, [], id)
  }

  /** The record with one more review in it. */
  function Extended(r: Record, role: string, reviewer: string, id: string, path: string): Record
    requires r.worktree.Some? && r.diff.Some?
  {
    var patch := Binding(r.diff.value.sha, r.diff.value.base);
    r.(assignments := r.assignments
         + [Assignment(id, r.task.id, role, reviewer, r.worktree.value.isolation, patch, true, false, true)],
       evidence := r.evidence + [Review(path, role, id, patch)],
       history := r.history + [r.phase] + [r.phase])
  }

  // ---- names not used yet ----

  lemma {:induction false} NewName(names: set<string>) returns (s: string)
    ensures s != "" && forall n :: n in names ==> |n| < |s|
  {
    if names == {} {
      s := "x";
    } else {
      var n :| n in names;
      var rest := NewName(names - {n});
      s := rest + n;
      forall k | k in names ensures |k| < |s| { if k != n { assert k in names - {n}; } }
    }
  }

  lemma {:induction false} FindNew(s: seq<Assignment>, a: Assignment, id: string)
    ensures Find(s + [a], id) == if Find(s, id).Some? then Find(s, id) else if a.id == id then Some(a) else None
  {
    if s == [] {
    } else {
      assert (s + [a])[0] == s[0] && (s + [a])[1..] == s[1..] + [a];
      FindNew(s[1..], a, id);
    }
  }

  lemma {:induction false} FindNone(s: seq<Assignment>, id: string)
    requires forall i :: 0 <= i < |s| ==> s[i].id != id
    ensures Find(s, id).None?
  {
    if s == [] {
    } else {
      FindNone(s[1..], id);
    }
  }

  // ---- one review ----

  /** The record with one more assignment in it. */
  function Enlisted(r: Record, role: string, reviewer: string, id: string): Record
    requires r.worktree.Some? && r.diff.Some?
  {
    var patch := Binding(r.diff.value.sha, r.diff.value.base);
    r.(assignments := r.assignments
         + [Assignment(id, r.task.id, role, reviewer, r.worktree.value.isolation, patch, true, false, true)],
       history := r.history + [r.phase])
  }

  lemma Enlists(m: Manifest, r: Record, t: string, role: string, reviewer: string, id: string)
    requires Reviewable(m, r, t) && role in Required(m, r)
    requires reviewer != "" && reviewer != r.worktree.value.isolation && id != "" && Find(r.assignments, id).None?
    ensures Registered(m, r, Offer(id, role, reviewer)) == Some(Enlisted(r, role, reviewer, id))
  {
  }

  lemma Extends(m: Manifest, r: Record, t: string, role: string, reviewer: string, id: string, path: string)
    requires Reviewable(m, r, t) && role in Required(m, r)
    requires reviewer != "" && reviewer != r.worktree.value.isolation && id != "" && Find(r.assignments, id).None?
    requires forall e :: e in r.evidence && e.Review? ==> e.path != path
    ensures var patch, v := Binding(r.diff.value.sha, r.diff.value.base), Extended(r, role, reviewer, id, path);
      && Reviewed(m, Enlisted(r, role, reviewer, id), path, Approval(t, role, id)) == Some(v)
      && Reviewable(m, v, t) && Required(m, v) == Required(m, r)
      && (path != "" ==> Counts(m, v, Review(path, role, id, patch)))
      && Find(Enlisted(r, role, reviewer, id).assignments, id).Some?
  {
    var u := Enlisted(r, role, reviewer, id);
    FindNew(r.assignments, u.assignments[|r.assignments|], id);
    assert Required(m, u) == Required(m, r) == Required(m, Extended(r, role, reviewer, id, path));
  }

  lemma AssignStep(m: Manifest, w: World, t: string, a: Assignment, r: Record)
    requires w.doing.Idle? && Loads(m, w, t) && Registered(m, w.store[t], a) == Some(r)
    ensures var u := Assigned(m, w, t, a);
      u == w.(store := w.store[t := r], log := u.log)
  {
  }

  lemma SubmitStep(m: Manifest, w: World, t: string, path: string, review: Report, r: Record)
    requires w.doing.Idle? && Loads(m, w, t) && Reviewed(m, w.store[t], path, review) == Some(r)
    ensures var v := Submitted(m, w, t, path, review);
      v == w.(store := w.store[t := r], doing := if HasEvidence(m, r) then Advancing(t) else Idle, log := v.log)
  {
  }

  /** The world with another record of the task and another log. */
  ghost predicate Became(w: World, v: World, t: string, r: Record, doing: Activity) {
    v == w.(store := w.store[t := r], doing := doing, log := v.log)
  }

  lemma BecameTwice(w: World, u: World, v: World, t: string, r: Record, s: Record, doing: Activity, next: Activity)
    requires Became(w, u, t, r, doing) && Became(u, v, t, s, next)
    ensures Became(w, v, t, s, next)
  {
    assert w.store[t := r][t := s] == w.store[t := s];
  }

  /** An assignment and its report add one review, and it counts. */
  lemma OneReview(m: Manifest, w: World, t: string, role: string, reviewer: string, id: string, path: string)
    returns (v: World)
    requires w.doing.Idle? && t in w.store && Reviewable(m, w.store[t], t) && role in Required(m, w.store[t])
    requires reviewer != "" && reviewer != w.store[t].worktree.value.isolation
    requires id != "" && Find(w.store[t].assignments, id).None?
    requires path != "" && forall e :: e in w.store[t].evidence && e.Review? ==> e.path != path
    ensures v == Submitted(m, Assigned(m, w, t, Offer(id, role, reviewer)), t, path, Approval(t, role, id))
    ensures var r := Extended(w.store[t], role, reviewer, id, path);
      && Became(w, v, t, r, if HasEvidence(m, r) then Advancing(t) else Idle)
      && Reviewable(m, r, t) && Missing(m, r) <= Missing(m, w.store[t]) - {role}
  {
    var r := w.store[t];
    var enlisted, extended := Enlisted(r, role, reviewer, id), Extended(r, role, reviewer, id, path);
    Enlists(m, r, t, role, reviewer, id);
    AssignStep(m, w, t, Offer(id, role, reviewer), enlisted);
    Extends(m, r, t, role, reviewer, id, path);
    FewerMissing(m, r, role, reviewer, id, path);
    var u := Assigned(m, w, t, Offer(id, role, reviewer));
    v := Submitted(m, u, t, path, Approval(t, role, id));
    SubmitStep(m, u, t, path, Approval(t, role, id), extended);
    BecameTwice(w, u, v, t, enlisted, extended, Idle, v.doing);
  }

  /** What counted before still counts. */
  lemma StillCounts(m: Manifest, r: Record, role: string, reviewer: string, id: string, path: string, e: Evidence)
    requires r.worktree.Some? && r.diff.Some? && Counts(m, r, e)
    ensures Counts(m, Extended(r, role, reviewer, id, path), e)
  {
    var s := Extended(r, role, reviewer, id, path);
    FindNew(r.assignments, s.assignments[|r.assignments|], e.assignmentId);
  }

  // ---- all reviews ----

  ghost predicate Covered(m: Manifest, r: Record, role: string) {
    exists e :: e in r.evidence && Counts(m, r, e) && e.role == role
  }

  /** The reviews still missing. */
  ghost function Missing(m: Manifest, r: Record): set<string> {
    set role | role in Required(m, r) && !Covered(m, r, role)
  }

  lemma CoveredStays(m: Manifest, r: Record, role: string, reviewer: string, id: string, path: string, x: string)
    requires r.worktree.Some? && r.diff.Some? && Covered(m, r, x)
    ensures Covered(m, Extended(r, role, reviewer, id, path), x)
  {
    var e :| e in r.evidence && Counts(m, r, e) && e.role == x;
    StillCounts(m, r, role, reviewer, id, path, e);
    assert e in Extended(r, role, reviewer, id, path).evidence;
  }

  lemma FewerMissing(m: Manifest, r: Record, role: string, reviewer: string, id: string, path: string)
    requires r.worktree.Some? && r.diff.Some?
    requires var v := Extended(r, role, reviewer, id, path);
      Required(m, v) == Required(m, r) && Counts(m, v, Review(path, role, id,
        Binding(r.diff.value.sha, r.diff.value.base)))
    ensures Missing(m, Extended(r, role, reviewer, id, path)) <= Missing(m, r) - {role}
  {
    var v := Extended(r, role, reviewer, id, path);
    var item := Review(path, role, id, Binding(r.diff.value.sha, r.diff.value.base));
    assert item in v.evidence && Covered(m, v, role);
    forall x | Covered(m, r, x) ensures Covered(m, v, x) { CoveredStays(m, r, role, reviewer, id, path, x); }
  }

  lemma MissingNone(m: Manifest, r: Record)
    ensures HasEvidence(m, r) <==> Missing(m, r) == {}
  {
    if Missing(m, r) == {} {
      forall role | role in Required(m, r) ensures Covered(m, r, role) { assert role !in Missing(m, r); }
    }
    if HasEvidence(m, r) {
      forall role | role in Required(m, r) ensures Covered(m, r, role) {}
    }
  }

  /** Nothing but the phase, the reviews and the history differs. */
  ghost predicate Carried(r: Record, v: Record) {
    v == r.(phase := v.phase, assignments := v.assignments, evidence := v.evidence, history := v.history)
  }

  lemma EvidenceStays(m: Manifest, r: Record, v: Record)
    requires v == r.(phase := v.phase, history := v.history) && HasEvidence(m, r)
    ensures HasEvidence(m, v)
  {
    assert Required(m, v) == Required(m, r);
    forall role | role in Required(m, v) ensures Covered(m, v, role) {
      assert Covered(m, r, role);
      var e :| e in r.evidence && Counts(m, r, e) && e.role == role;
      assert Counts(m, v, e);
    }
  }

  /** With all reviews in, two writes bring the task to its integration. */
  lemma Releases(m: Manifest, git: Git, w: World, t: string)
    requires w.doing == Advancing(t) && t in w.store && w.store[t].phase == REVIEW_REQUIRED
      && HasEvidence(m, w.store[t])
    requires ValidTransition(m, REVIEW_REQUIRED, REVIEW) && ValidTransition(m, REVIEW, INTEGRATE)
    ensures var v := Next(m, git, Next(m, git, w, Advance), Pass);
      && t in v.store && Became(w, v, t, v.store[t], Idle)
      && Carried(w.store[t], v.store[t]) && IntegrationReady(m, v.store[t])
  {
    var r := w.store[t];
    var passing := r.(phase := REVIEW, history := r.history + [REVIEW]);
    var ready := passing.(phase := INTEGRATE, history := passing.history + [INTEGRATE]);
    EvidenceStays(m, r, ready);
    var u := Next(m, git, w, Advance);
    assert Became(w, u, t, passing, Passing(t));
    var v := Next(m, git, u, Pass);
    assert Became(u, v, t, ready, Idle);
    BecameTwice(w, u, v, t, passing, ready, Passing(t), Idle);
  }

  lemma AfterTwo(m: Manifest, git: Git, w: World, a: Step, b: Step, rest: seq<Step>)
    ensures After(m, git, w, [a, b] + rest) == After(m, git, Next(m, git, Next(m, git, w, a), b), rest)
  {
    var steps := [a, b] + rest;
    assert steps[0] == a && steps[1..][0] == b && steps[1..][1..] == rest;
  }

  /** What reviewers and the controller do to release a task. */
  ghost predicate Releasing(s: Step, t: string) {
    (s.Assign? && s.id == t) || (s.Submit? && s.id == t) || s.Advance? || s.Pass?
  }

  ghost predicate AllReleasing(steps: seq<Step>, t: string) {
    forall i :: 0 <= i < |steps| ==> Releasing(steps[i], t)
  }

  lemma ReleasingMore(a: Step, b: Step, rest: seq<Step>, t: string)
    requires Releasing(a, t) && Releasing(b, t) && AllReleasing(rest, t)
    ensures AllReleasing([a, b] + rest, t)
  {
  }

  /** The task has come to its integration, and nothing else has changed. */
  ghost predicate Released(m: Manifest, w: World, v: World, t: string) {
    && t in w.store && t in v.store && Became(w, v, t, v.store[t], Idle)
    && Carried(w.store[t], v.store[t]) && IntegrationReady(m, v.store[t])
  }

  ghost predicate Waiting(m: Manifest, w: World, t: string, reviewer: string) {
    && t in w.store && Reviewable(m, w.store[t], t)
    && reviewer != "" && reviewer != w.store[t].worktree.value.isolation
  }

  lemma NewNames(r: Record) returns (id: string, path: string)
    ensures id != "" && Find(r.assignments, id).None?
    ensures path != "" && forall e :: e in r.evidence && e.Review? ==> e.path != path
  {
    var ids := set a | a in r.assignments :: a.id;
    id := NewName(ids);
    forall i | 0 <= i < |r.assignments| ensures r.assignments[i].id != id { assert r.assignments[i].id in ids; }
    FindNone(r.assignments, id);
    var paths := set e | e in r.evidence :: e.path;
    path := NewName(paths);
    forall e | e in r.evidence ensures e.path != path { assert e.path in paths; }
  }

  lemma NextTwo(m: Manifest, git: Git, w: World, t: string, a: Assignment, path: string, review: Report)
    ensures Next(m, git, Next(m, git, w, Assign(t, a)), Submit(t, path, review)) ==
      Submitted(m, Assigned(m, w, t, a), t, path, review)
  {
  }

  /** One of the missing reviews is given. */
  lemma NextReview(m: Manifest, git: Git, w: World, t: string, reviewer: string)
    returns (assign: Step, submit: Step, v: World)
    requires w.doing.Idle? && Waiting(m, w, t, reviewer) && !HasEvidence(m, w.store[t])
    ensures assign.Assign? && assign.id == t && submit.Submit? && submit.id == t
    ensures v == Next(m, git, Next(m, git, w, assign), submit)
    ensures Waiting(m, v, t, reviewer) && Carried(w.store[t], v.store[t])
    ensures Became(w, v, t, v.store[t], v.doing)
    ensures v.doing == if HasEvidence(m, v.store[t]) then Advancing(t) else Idle
    ensures |Missing(m, v.store[t])| < |Missing(m, w.store[t])|
  {
    var r := w.store[t];
    MissingNone(m, r);
    var role :| role in Missing(m, r);
    var id, path := NewNames(r);
    v := OneReview(m, w, t, role, reviewer, id, path);
    assign, submit := Assign(t, Offer(id, role, reviewer)), Submit(t, path, Approval(t, role, id));
    NextTwo(m, git, w, t, assign.a, path, submit.review);
    assert v.store[t] == Extended(r, role, reviewer, id, path);
    Shrinks(Missing(m, v.store[t]), Missing(m, r), role);
  }

  lemma ReleasedVia(m: Manifest, w: World, u: World, v: World, t: string, doing: Activity)
    requires t in w.store && t in u.store && Became(w, u, t, u.store[t], doing) && Carried(w.store[t], u.store[t])
    requires Released(m, u, v, t)
    ensures Released(m, w, v, t)
  {
    BecameTwice(w, u, v, t, u.store[t], v.store[t], doing, Idle);
  }

  lemma LastSteps(m: Manifest, git: Git, w: World, t: string)
    requires w.doing == Advancing(t) && t in w.store && w.store[t].phase == REVIEW_REQUIRED
      && HasEvidence(m, w.store[t])
    requires ValidTransition(m, REVIEW_REQUIRED, REVIEW) && ValidTransition(m, REVIEW, INTEGRATE)
    ensures Released(m, w, After(m, git, w, [Advance, Pass]), t)
  {
    Releases(m, git, w, t);
    AfterTwo(m, git, w, Advance, Pass, []);
    assert [Advance, Pass] + [] == [Advance, Pass];
  }

  /**
   Whatever reviews a held task lacks, any one reviewer who is not its writer can give them, and the task
   comes to its integration with nothing else changed.
   */
  lemma {:induction false} ReviewsSuffice(m: Manifest, git: Git, w: World, t: string, reviewer: string)
    returns (steps: seq<Step>)
    requires w.doing.Idle? && Waiting(m, w, t, reviewer) && !HasEvidence(m, w.store[t])
    requires ValidTransition(m, REVIEW_REQUIRED, REVIEW) && ValidTransition(m, REVIEW, INTEGRATE)
    ensures AllReleasing(steps, t)
    ensures Released(m, w, After(m, git, w, steps), t)
    decreases |Missing(m, w.store[t])|
  {
    var assign, submit, v := NextReview(m, git, w, t, reviewer);
    var rest;
    if HasEvidence(m, v.store[t]) {
      rest := [Advance, Pass];
      LastSteps(m, git, v, t);
    } else {
      rest := ReviewsSuffice(m, git, v, t, reviewer);
    }
    steps := [assign, submit] + rest;
    ReleasedBehind(m, git, w, assign, submit, v, rest, t);
  }

  lemma ReleasedBehind(m: Manifest, git: Git, w: World, a: Step, b: Step, v: World, rest: seq<Step>, t: string)
    requires v == Next(m, git, Next(m, git, w, a), b) && t in w.store && t in v.store
    requires Became(w, v, t, v.store[t], v.doing) && Carried(w.store[t], v.store[t])
    requires Released(m, v, After(m, git, v, rest), t)
    requires Releasing(a, t) && Releasing(b, t) && AllReleasing(rest, t)
    ensures Released(m, w, After(m, git, w, [a, b] + rest), t) && AllReleasing([a, b] + rest, t)
  {
    ReleasingMore(a, b, rest, t);
    AfterTwo(m, git, w, a, b, rest);
    ReleasedVia(m, w, v, After(m, git, v, rest), t, v.doing);
  }

  lemma Shrinks(a: set<string>, b: set<string>, x: string)
    requires a <= b - {x} && x in b
    ensures |a| < |b|
  {
    assert a < b;
    Smaller(a, b);
  }

  lemma {:induction false} Smaller(a: set<string>, b: set<string>)
    requires a < b
    ensures |a| < |b|
  {
    var rest := b - a;
    assert b == a + rest && rest != {};
  }
}
