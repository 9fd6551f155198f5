/**
 What every reachable state of the orchestration kernel satisfies, for any manifest, any git, any
 reviewers and workers, and crashes and outside changes at any point.
 */
module KernelSafety {
  import opened Common
  import opened Contract
  import opened Kernel
  import opened Markers

  // ---- what a log can show ----

  ghost predicate Captured(git: Git, log: seq<Event>, t: string, attempt: nat, base: string, sha: string) {
    exists p :: CapturedPatch(t, attempt, base, p) in log && git.sha256(p) == sha
  }

  /** A dispatched reviewer, isolated from the writer of this attempt, reviewed this patch in this attempt. */
  ghost predicate ReviewedBy(git: Git, log: seq<Event>, t: string, attempt: nat, role: string, patch: Binding) {
    exists a ::
      && AssignedReview(t, attempt, a) in log && RecordedReview(t, attempt, role, a.id, patch) in log
      && a.role == role && a.patch == patch && a.dispatched && a.provenance && !a.banned
      && a.reviewer != "" && a.reviewer != git.writer(t, attempt) && a.writer == git.writer(t, attempt)
  }

  /** The worker of this attempt reported success, from the worktree the patch was captured in. */
  predicate Succeeded(r: Record) {
    && r.result.Some? && !r.result.value.degraded && r.result.value.result == "DONE" && r.result.value.task == r.task.id
    && r.diff.Some? && r.worktree.Some? && r.diff.value.worktree == r.worktree.value.path
  }

  /** A dispatch goes to the isolation of its attempt; a passing of the gate is sound. */
  ghost predicate Good(m: Manifest, git: Git, log: seq<Event>, e: Event) {
    && (e.DispatchedWriter? ==> ValidId(e.task) && e.worktree.isolation == git.writer(e.task, e.attempt))
    && (e.PassedGate? ==> Sound(m, git, log, e))
  }

  /** The gate passed on the captured, in-scope patch over the recorded base, fully reviewed. */
  ghost predicate Sound(m: Manifest, git: Git, log: seq<Event>, e: Event)
    requires e.PassedGate?
  {
    var r, sha := e.record, git.sha256(e.payload);
    && Succeeded(r) && git.filesOf(e.payload) == Some(e.files) && e.files != []
    && multiset(e.files) == multiset(r.changed) && InScope(e.files, r.task.files)
    && e.head == r.base && AgreeOn(e.before, git.checkout(r.base), e.files)
    && git.applied(e.payload, e.before) == Some(e.after)
    && Captured(git, log, r.task.id, r.attempt, r.base, sha)
    && forall role :: role in Required(m, r) ==> ReviewedBy(git, log, r.task.id, r.attempt, role, Binding(sha, r.base))
  }

  /** No two attempts at a task share an isolation identity. */
  ghost predicate AttemptsApart(git: Git) {
    forall t, j, k :: git.writer(t, j) == git.writer(t, k) ==> j == k
  }

  // ---- the invariant ----

  predicate Late(p: Phase) {
    p == VERIFY || p == REVIEW_REQUIRED || p == REVIEW || p == INTEGRATE || p == COMPLETE
  }

  ghost predicate Shaped(m: Manifest, git: Git, t: string, r: Record) {
    && r.task.id == t && r.history != [] && r.history[|r.history| - 1] == r.phase && Lawful(m, r.history)
    && (r.worktree.Some? ==> r.worktree.value.isolation == git.writer(t, r.attempt))
  }

  /** The captured patch of the present attempt. */
  ghost predicate Held(git: Git, log: seq<Event>, t: string, r: Record) {
    r.diff.Some? && r.worktree.Some? && r.diff.value.base == r.base
      && Captured(git, log, t, r.attempt, r.base, r.diff.value.sha)
  }

  ghost predicate Traced(git: Git, log: seq<Event>, t: string, a: Assignment) {
    exists k: nat :: AssignedReview(t, k, a) in log && a.writer == git.writer(t, k)
  }

  ghost predicate Backed(git: Git, log: seq<Event>, t: string, r: Record) {
    && (forall a :: a in r.assignments ==> Traced(git, log, t, a))
    && (r.phase == WORKER_DONE || Late(r.phase) ==> forall e :: e in r.evidence && e.Review? ==>
          RecordedReview(t, r.attempt, e.role, e.assignmentId, e.patch) in log)
  }

  ghost predicate Gates(log: seq<Event>, r: Record) {
    r.phase == COMPLETE ==>
      exists e :: e in log && e.PassedGate? && r == e.record.(phase := COMPLETE, history := r.history)
  }

  ghost predicate RecordOk(m: Manifest, git: Git, log: seq<Event>, t: string, r: Record) {
    Shaped(m, git, t, r) && (Late(r.phase) ==> Held(git, log, t, r)) && Backed(git, log, t, r) && Gates(log, r)
  }

  ghost predicate StoreOk(m: Manifest, git: Git, store: map<string, Record>, log: seq<Event>) {
    forall t {:trigger On1(t)} :: On1(t) && t in store ==> RecordOk(m, git, log, t, store[t])
  }

  /** Every required role has reviewed the held patch in the present attempt. */
  ghost predicate Approved(m: Manifest, git: Git, log: seq<Event>, r: Record) {
    r.diff.Some? && forall role :: role in Required(m, r) ==>
      ReviewedBy(git, log, r.task.id, r.attempt, role, Binding(r.diff.value.sha, r.base))
  }

  ghost predicate ApplyOk(m: Manifest, git: Git, r: Record, w: World, payload: string, files: seq<string>, before: Tree)
  {
    && r.phase == INTEGRATE && Succeeded(r) && Approved(m, git, w.log, r) && git.sha256(payload) == r.diff.value.sha
    && git.filesOf(payload) == Some(files) && files != [] && multiset(files) == multiset(r.changed)
    && InScope(files, r.task.files) && w.head == r.base && AgreeOn(before, git.checkout(r.base), files)
    && git.applied(payload, before) == Some(w.tree)
  }

  ghost predicate DoingOk(m: Manifest, git: Git, w: World) {
    w.doing.Idle? || (w.doing.task in w.store &&
      var t := w.doing.task;
      assert On1(t);
      var r := w.store[t];
      match w.doing
      case Created(_, worktree) => ValidId(t) && worktree.isolation == git.writer(t, r.attempt + 1)
      case Working(_) => r.phase == DISPATCHED && r.worktree.Some?
      case Reported(_, _) => r.phase == WORKER_DONE && r.worktree.Some?
      case Saved(_, _) => r.phase == WORKER_DONE && r.worktree.Some?
      case Capturing(_) => r.phase == WORKER_DONE && Held(git, w.log, t, r)
      case Verified(_) => r.phase == VERIFY
      case Advancing(_) => r.phase == REVIEW_REQUIRED
      case Passing(_) => r.phase == REVIEW
      case Applied(_, payload, files, before) => ApplyOk(m, git, r, w, payload, files, before)
      case _ => true)
  }

  ghost predicate Inv(m: Manifest, git: Git, w: World) {
    && StoreOk(m, git, w.store, w.log) && DoingOk(m, git, w)
    && forall e {:trigger Good(m, git, w.log, e)} :: e in w.log ==> Good(m, git, w.log, e)
  }

  // ---- the log only grows ----

  lemma GoodGrows(m: Manifest, git: Git, log: seq<Event>, more: seq<Event>, e: Event)
    requires Good(m, git, log, e)
    ensures Good(m, git, log + more, e)
  {
    if e.PassedGate? {
      var r, sha := e.record, git.sha256(e.payload);
      forall role | role in Required(m, r)
          ensures ReviewedBy(git, log + more, r.task.id, r.attempt, role, Binding(sha, r.base)) {
        var a :| AssignedReview(r.task.id, r.attempt, a) in log
            && RecordedReview(r.task.id, r.attempt, role, a.id, Binding(sha, r.base)) in log
          && a.role == role && a.patch == Binding(sha, r.base) && a.dispatched && a.provenance && !a.banned
          && a.reviewer != "" && a.reviewer != git.writer(r.task.id, r.attempt)
          && a.writer == git.writer(r.task.id, r.attempt);
        assert AssignedReview(r.task.id, r.attempt, a) in log + more;
      }
    }
  }

  // ---- records ----

  lemma LawfulMore(m: Manifest, history: seq<Phase>, p: Phase)
    requires Lawful(m, history) && history != []
    requires history[|history| - 1] == p || ValidTransition(m, history[|history| - 1], p)
    ensures Lawful(m, history + [p])
  {
    var h := history + [p];
    forall i | 0 <= i < |h| - 1 ensures h[i] == h[i + 1] || ValidTransition(m, h[i], h[i + 1]) {
      if i < |history| - 1 { assert h[i] == history[i] && h[i + 1] == history[i + 1]; }
    }
  }

  /** Writing a record that is in order keeps the store in order. */
  lemma WriteOk(m: Manifest, git: Git, w: World, t: string, r: Record, target: Phase, next: Activity)
    requires StoreOk(m, git, w.store, w.log) && Shaped(m, git, t, r)
    requires ValidTransition(m, r.phase, target) ==>
      var q := r.(phase := target, history := r.history + [target]);
      (Late(target) ==> Held(git, w.log, t, q)) && Backed(git, w.log, t, q) && Gates(w.log, q)
    ensures StoreOk(m, git, Write(m, w, t, r, target, next).store, w.log)
    ensures Write(m, w, t, r, target, next).log == w.log
  {
    if ValidTransition(m, r.phase, target) { LawfulMore(m, r.history, target); }
  }

  /** Moving to a phase that promises nothing. */
  lemma PlainWrite(m: Manifest, git: Git, w: World, t: string, r: Record, target: Phase, next: Activity)
    requires Inv(m, git, w) && t in w.store && Shaped(m, git, t, r) && r.assignments == w.store[t].assignments
    requires target != WORKER_DONE && !Late(target)
    requires next == Idle || next == Entered(t)
    ensures Inv(m, git, Write(m, w, t, r, target, next))
  {
    assert On1(t);
    WriteOk(m, git, w, t, r, target, next);
  }

  lemma PlainOnward(m: Manifest, git: Git, w: World, target: Phase, next: Activity)
    requires Inv(m, git, w) && !w.doing.Idle?
    requires target != WORKER_DONE && !Late(target) && (next == Idle || next == Entered(w.doing.task))
    ensures Inv(m, git, Onward(m, w, target, next))
  {
    assert On1(w.doing.task);
    PlainWrite(m, git, w, w.doing.task, w.store[w.doing.task], target, next);
  }

  /** Moving on from one phase to a later one that rests on the same patch and evidence. */
  lemma LateOnward(m: Manifest, git: Git, w: World, target: Phase, next: Activity)
    requires Inv(m, git, w) && !w.doing.Idle?
    requires Late(w.store[w.doing.task].phase) || w.doing.Capturing?
    requires target == VERIFY || target == REVIEW_REQUIRED || target == REVIEW || target == INTEGRATE
    requires next == Idle || (target == VERIFY && next == Verified(w.doing.task))
      || (target == REVIEW && next == Passing(w.doing.task))
    ensures Inv(m, git, Onward(m, w, target, next))
  {
    assert On1(w.doing.task);
    WriteOk(m, git, w, w.doing.task, w.store[w.doing.task], target, next);
  }

  /** The store and the earlier events stay in order when an event is logged. */
  lemma LogMore(m: Manifest, git: Git, w: World, e: Event)
    requires Inv(m, git, w) && Good(m, git, w.log + [e], e)
    ensures StoreOk(m, git, w.store, w.log + [e])
    ensures forall x {:trigger Good(m, git, w.log + [e], x)} :: x in w.log + [e] ==> Good(m, git, w.log + [e], x)
  {
    forall x | x in w.log + [e] ensures Good(m, git, w.log + [e], x) {
      assert x in w.log ==> Good(m, git, w.log, x);
      if x in w.log { GoodGrows(m, git, w.log, [e], x); }
    }
  }

  // ---- the steps ----

  lemma StartedOk(m: Manifest, git: Git, w: World, task: Task, security: bool, delivery: bool, usable: bool)
    requires Inv(m, git, w)
    ensures Inv(m, git, Started(m, w, task, security, delivery, usable))
  {
  }

  lemma ProceededOk(m: Manifest, git: Git, w: World, promptExists: bool)
    requires Inv(m, git, w)
    ensures Inv(m, git, Proceeded(m, w, promptExists))
  {
    if w.doing.Entered? {
      var t := w.doing.task;
      assert On1(t);
      var r := w.store[t];
      match r.phase
      case INTAKE => PlainOnward(m, git, w, CLASSIFIED, Entered(t));
      case CLASSIFIED => PlainOnward(m, git, w, PACKET_READY, Entered(t));
      case RETRY => PlainOnward(m, git, w, PACKET_READY, Entered(t));
      case REVIEW => LateOnward(m, git, w, INTEGRATE, Idle);
      case REVIEW_REQUIRED =>
      case INTEGRATE =>
      case _ => PlainWrite(m, git, w, t, r.(diff := None), RETRY, Entered(t));
    }
  }

  lemma BegunOk(m: Manifest, git: Git, w: World, ok: bool)
    requires Inv(m, git, w)
    ensures Inv(m, git, Begun(m, git, w, ok))
  {
    if w.doing.Ready? { PlainOnward(m, git, w, BLOCKED, Idle); }
  }

  lemma DispatchedOk(m: Manifest, git: Git, w: World)
    requires Inv(m, git, w)
    ensures Inv(m, git, Dispatched(m, w))
  {
    if w.doing.Created? && ValidTransition(m, w.store[w.doing.task].phase, DISPATCHED) {
      var Created(t, worktree) := w.doing;
      assert On1(t);
      var r := w.store[t];
      var e := DispatchedWriter(t, r.attempt + 1, worktree);
      LogMore(m, git, w, e);
      SentOk(m, git, w.log, t, r, worktree);
    }
  }

  lemma SentOk(m: Manifest, git: Git, log: seq<Event>, t: string, r: Record, worktree: Worktree)
    requires RecordOk(m, git, log, t, r) && ValidTransition(m, r.phase, DISPATCHED)
    requires worktree.isolation == git.writer(t, r.attempt + 1)
    ensures RecordOk(m, git, log + [DispatchedWriter(t, r.attempt + 1, worktree)], t, r.(worktree := Some(worktree),
      attempt := r.attempt + 1, phase := DISPATCHED, history := r.history + [DISPATCHED]))
  {
    LawfulMore(m, r.history, DISPATCHED);
  }

  lemma FinishedOk(m: Manifest, git: Git, w: World, report: Report, changed: seq<string>, response: string,
                   exitOk: bool)
    requires Inv(m, git, w)
    ensures Inv(m, git, Finished(m, w, report, changed, response, exitOk))
  {
    if w.doing.Working? {
      var t := w.doing.task;
      assert On1(t);
      var r := w.store[t].(result := Some(report), changed := changed, evidence := [Response(response)]);
      WriteOk(m, git, w, t, r, WORKER_DONE, Reported(t, exitOk));
    }
  }

  lemma JudgedOk(m: Manifest, git: Git, w: World, payload: Option<string>)
    requires Inv(m, git, w)
    ensures Inv(m, git, Judged(m, w, payload))
  {
    if w.doing.Reported? {
      var verdict := Verdict(w.store[w.doing.task], w.doing.task, w.doing.exitOk);
      PlainOnward(m, git, w, if verdict.Some? then verdict.value else RETRY, Idle);
    }
  }

  lemma NotedOk(m: Manifest, git: Git, w: World)
    requires Inv(m, git, w)
    ensures Inv(m, git, Noted(git, w))
  {
    if w.doing.Saved? {
      var Saved(t, payload) := w.doing;
      assert On1(t);
      var r := w.store[t];
      var e := CapturedPatch(t, r.attempt, r.base, payload);
      LogMore(m, git, w, e);
      LawfulMore(m, r.history, r.phase);
      var next := Noted(git, w);
      assert e in next.log;
      assert Captured(git, next.log, t, r.attempt, r.base, git.sha256(payload));
    }
  }

  lemma RoutedOk(m: Manifest, git: Git, w: World)
    requires Inv(m, git, w)
    ensures Inv(m, git, Routed(m, w))
  {
    if w.doing.Verified? {
      assert On1(w.doing.task);
      LateOnward(m, git, w, REVIEW_REQUIRED, Idle);
      LateOnward(m, git, w, REVIEW, Passing(w.doing.task));
    }
  }

  lemma AdvancedOk(m: Manifest, git: Git, w: World)
    requires Inv(m, git, w)
    ensures Inv(m, git, Advanced(m, w))
  {
    if w.doing.Advancing? { LateOnward(m, git, w, REVIEW, Passing(w.doing.task)); }
  }

  lemma AssignedOk(m: Manifest, git: Git, w: World, t: string, a: Assignment)
    requires Inv(m, git, w)
    ensures Inv(m, git, Assigned(m, w, t, a))
  {
    if w.doing.Idle? && t in w.store && Registered(m, w.store[t], a).Some? {
      assert On1(t);
      var r := w.store[t];
      var q := Registered(m, r, a).value;
      var b := q.assignments[|q.assignments| - 1];
      var e := AssignedReview(t, q.attempt, b);
      LogMore(m, git, w, e);
      LawfulMore(m, r.history, r.phase);
      var log := w.log + [e];
      assert e in log;
      assert Traced(git, log, t, b);
      forall x | x in q.assignments ensures Traced(git, log, t, x) {
        if x != b { assert x in r.assignments; }
      }
    }
  }

  lemma SubmittedOk(m: Manifest, git: Git, w: World, t: string, path: string, review: Report)
    requires Inv(m, git, w)
    ensures Inv(m, git, Submitted(m, w, t, path, review))
  {
    if w.doing.Idle? && t in w.store && Reviewed(m, w.store[t], path, review).Some? {
      assert On1(t);
      var r := w.store[t];
      var patch := Find(r.assignments, review.assignmentId).value.patch;
      LogMore(m, git, w, RecordedReview(t, r.attempt, review.role, review.assignmentId, patch));
      ReviewedOk(m, git, w.log, t, r, path, review);
    }
  }

  lemma ReviewedOk(m: Manifest, git: Git, log: seq<Event>, t: string, r: Record, path: string, review: Report)
    requires RecordOk(m, git, log, t, r) && Reviewed(m, r, path, review).Some?
    ensures var patch := Find(r.assignments, review.assignmentId).value.patch;
      RecordOk(m, git, log + [RecordedReview(t, r.attempt, review.role, review.assignmentId, patch)], t,
        Reviewed(m, r, path, review).value)
  {
    var q := Reviewed(m, r, path, review).value;
    var patch := Find(r.assignments, review.assignmentId).value.patch;
    var e := RecordedReview(t, r.attempt, review.role, review.assignmentId, patch);
    LawfulMore(m, r.history, r.phase);
    assert e in log + [e];
    forall x | x in q.evidence && x.Review?
        ensures RecordedReview(t, q.attempt, x.role, x.assignmentId, x.patch) in log + [e] {
      if x !in r.evidence { assert x == Review(path, review.role, review.assignmentId, patch); }
    }
  }

  // ---- integration ----

  lemma {:induction false} Found(s: seq<Assignment>, id: string)
    requires Find(s, id).Some?
    ensures Find(s, id).value in s && Find(s, id).value.id == id
  {
    if s[0].id != id { Found(s[1..], id); }
  }

  /** Evidence that counts was assigned and recorded in the present attempt, for the present patch. */
  lemma CountingReviewed(m: Manifest, git: Git, log: seq<Event>, t: string, r: Record, e: Evidence)
    requires AttemptsApart(git) && RecordOk(m, git, log, t, r) && Late(r.phase) && e in r.evidence && Counts(m, r, e)
    ensures ReviewedBy(git, log, t, r.attempt, e.role, Binding(r.diff.value.sha, r.base))
  {
    var a := Find(r.assignments, e.assignmentId).value;
    Found(r.assignments, e.assignmentId);
    assert Traced(git, log, t, a);
    var k: nat :| AssignedReview(t, k, a) in log && a.writer == git.writer(t, k);
    assert RecordedReview(t, r.attempt, e.role, a.id, e.patch) in log;
  }

  lemma ReadyReviewed(m: Manifest, git: Git, log: seq<Event>, t: string, r: Record)
    requires AttemptsApart(git) && RecordOk(m, git, log, t, r) && IntegrationReady(m, r)
    ensures Approved(m, git, log, r)
  {
    forall role | role in Required(m, r)
        ensures ReviewedBy(git, log, t, r.attempt, role, Binding(r.diff.value.sha, r.base)) {
      assert ReviewRequired(m, r);
      var e :| e in r.evidence && Counts(m, r, e) && e.role == role;
      CountingReviewed(m, git, log, t, r, e);
    }
  }

  lemma CompletedOk(m: Manifest, git: Git, w: World, t: string, applyOk: bool)
    requires AttemptsApart(git) && Inv(m, git, w)
    ensures Inv(m, git, Completed(m, git, w, t, applyOk))
  {
    if w.doing.Idle? && t in w.store && IntegrationReady(m, w.store[t]) {
      assert On1(t);
      ReadyReviewed(m, git, w.log, t, w.store[t]);
      PlainWrite(m, git, w, t, w.store[t].(diff := None), RETRY, Idle);
    }
  }

  lemma GatedOk(m: Manifest, git: Git, w: World, passed: bool, undone: bool)
    requires Inv(m, git, w)
    ensures Inv(m, git, Gated(m, w, passed, undone))
  {
    if w.doing.Applied? {
      if passed {
        PassedOk(m, git, w);
      } else if undone {
        assert On1(w.doing.task);
        PlainWrite(m, git, w.(tree := w.doing.before, doing := Idle), w.doing.task, w.store[w.doing.task], RETRY, Idle);
      } else {
        PlainOnward(m, git, w, FAILED, Idle);
      }
    }
  }

  lemma PassedOk(m: Manifest, git: Git, w: World)
    requires Inv(m, git, w) && w.doing.Applied?
    ensures Inv(m, git, Passed(m, w))
  {
    var Applied(t, payload, files, before) := w.doing;
    assert On1(t);
    var r := w.store[t];
    if ValidTransition(m, r.phase, COMPLETE) {
      var e := PassedGate(r, payload, files, w.head, before, w.tree);
      assert Good(m, git, w.log, e);
      GoodGrows(m, git, w.log, [e], e);
      LogMore(m, git, w, e);
    }
  }

  // ---- every run ----

  lemma NextOk(m: Manifest, git: Git, w: World, step: Step)
    requires AttemptsApart(git) && Inv(m, git, w)
    ensures Inv(m, git, Next(m, git, w, step))
  {
    match step
    case Crash =>
    case Outside(_, _, _, _) =>
    case Start(task, security, delivery, usable) => StartedOk(m, git, w, task, security, delivery, usable);
    case Assign(t, a) => AssignedOk(m, git, w, t, a);
    case Submit(t, path, review) => SubmittedOk(m, git, w, t, path, review);
    case Complete(t, applyOk) => CompletedOk(m, git, w, t, applyOk);
    case Proceed(promptExists) => ProceededOk(m, git, w, promptExists);
    case Block => if w.doing.Refused? { PlainOnward(m, git, w, BLOCKED, Idle); }
    case Create(ok) => BegunOk(m, git, w, ok);
    case Dispatch => DispatchedOk(m, git, w);
    case Finish(report, changed, response, exitOk) => FinishedOk(m, git, w, report, changed, response, exitOk);
    case Judge(payload) => JudgedOk(m, git, w, payload);
    case Note => NotedOk(m, git, w);
    case Verify => if w.doing.Capturing? { LateOnward(m, git, w, VERIFY, Verified(w.doing.task)); }
    case Route => RoutedOk(m, git, w);
    case Advance => AdvancedOk(m, git, w);
    case Pass => if w.doing.Passing? { LateOnward(m, git, w, INTEGRATE, Idle); }
    case Gate(passed, undone) => GatedOk(m, git, w, passed, undone);
  }

  lemma {:induction false} AfterOk(m: Manifest, git: Git, w: World, steps: seq<Step>)
    requires AttemptsApart(git) && Inv(m, git, w)
    ensures Inv(m, git, After(m, git, w, steps))
    decreases |steps|
  {
    if steps == [] {
    } else {
      NextOk(m, git, w, steps[0]);
      AfterOk(m, git, Next(m, git, w, steps[0]), steps[1..]);
    }
  }
}
