/**
 The controller as a program over its durable files: each method performs one piece of an invocation
 and is proved to take exactly the step of the state machine in module Kernel.
 */
module Controllers {
  import opened Common
  import opened Contract
  import opened Kernel
  import opened KernelSafety
  import opened KernelRuns
  import opened KernelTasks
  import opened KernelWitness

  class Controller {
    const m: Manifest
    const git: Git
    var store: map<string, Record>      // the state files, one per task
    var patches: map<string, string>    // the patch files
    var worktrees: set<string>
    var head: string
    var tree: Tree
    var doing: Activity
    ghost var log: seq<Event>

    ghost function Now(): World
      reads this
    {
      World(store, patches, worktrees, head, tree, doing, log)
    }

    /** What every reachable state of the state machine satisfies. */
    ghost predicate Valid()
      reads this
    {
      AttemptsApart(git) && Inv(m, git, Now())
    }

    constructor (m: Manifest, git: Git, head: string, tree: Tree)
      requires Named(git)
      ensures Valid() && this.m == m && this.git == git && Now() == World(map[], map[], {}, head, tree, Idle, [])
    {
      this.m, this.git, this.head, this.tree := m, git, head, tree;
      store, patches, worktrees, doing, log := map[], map[], {}, Idle, [];
      NamedApart(git);
    }

    /** Move a record to a new phase on disk, or die without writing. */
    method WriteState(t: string, r: Record, target: Phase, next: Activity)
      modifies this`store, this`doing
      ensures Now() == Write(m, old(Now()), t, r, target, next)
    {
      if ValidTransition(m, r.phase, target) {
        store := store[t := r.(phase := target, history := r.history + [target])];
        doing := next;
      } else {
        doing := Idle;
      }
    }

    /** Write a record without changing its phase. */
    method UpdateState(t: string, r: Record)
      modifies this`store
      ensures store == old(store)[t := r.(history := r.history + [r.phase])]
    {
      store := store[t := r.(history := r.history + [r.phase])];
    }

    static method MatchingAssignment(assignments: seq<Assignment>, id: string) returns (found: Option<Assignment>)
      ensures found.Some? ==> found.value in assignments && found.value.id == id
      ensures found.None? ==> forall a :: a in assignments ==> a.id != id
      ensures found == Find(assignments, id)
    {
      var i := 0;
      while i < |assignments|
        invariant 0 <= i <= |assignments|
        invariant forall a :: a in assignments[..i] ==> a.id != id
        invariant Find(assignments, id) == Find(assignments[i..], id)
      {
        if assignments[i].id == id { return Some(assignments[i]); }
        i := i + 1;
      }
      return None;
    }

    method RegisterReviewAssignment(t: string, a: Assignment) returns (ok: bool)
      requires Valid() && doing.Idle?
      modifies this`store, this`log
      ensures Valid() && Now() == Assigned(m, old(Now()), t, a)
      ensures ok <==> old(Loads(m, Now(), t) && Registered(m, store[t], a).Some?)
    {
      AssignedOk(m, git, Now(), t, a);
      if t !in store || store[t].phase !in m.transitions || store[t].phase != REVIEW_REQUIRED { return false; }
      var r := store[t];
      if a.role !in Required(m, r) || a.role !in m.independent { return false; }
      var writer, patch := Writer(r), PatchBinding(r);
      if a.id == "" || a.reviewer == "" || writer.None? || writer.value == "" { return false; }
      if a.reviewer == writer.value || patch.None? { return false; }
      if !a.provenance || (a.dispatched && a.banned) { return false; }
      var known := MatchingAssignment(r.assignments, a.id);
      if known.Some? { return false; }
      var entry := a.(task := r.task.id, writer := writer.value, patch := patch.value);
      UpdateState(t, r.(assignments := r.assignments + [entry]));
      log := log + [AssignedReview(t, r.attempt, entry)];
      return true;
    }

    /** Record a review of the held patch; the caller goes on to advance when the evidence suffices. */
    method RecordReviewEvidence(t: string, path: string, review: Report)
      requires Valid() && doing.Idle?
      modifies this`store, this`doing, this`log
      ensures Valid() && Now() == Submitted(m, old(Now()), t, path, review)
    {
      SubmittedOk(m, git, Now(), t, path, review);
      if t !in store || store[t].phase !in m.transitions { return; }
      var r := store[t];
      var found := AcceptedAssignment(r, path, review);
      if found.None? { return; }
      var known := KnownReview(r.evidence, path);
      var item := Review(path, review.role, review.assignmentId, found.value.patch);
      UpdateState(t, if known then r else r.(evidence := r.evidence + [item]));
      log := log + [RecordedReview(t, r.attempt, review.role, review.assignmentId, found.value.patch)];
      if HasEvidence(m, store[t]) { doing := Advancing(t); }
    }

    /** The assignment a review answers, if the review can be taken. */
    method AcceptedAssignment(r: Record, path: string, review: Report) returns (found: Option<Assignment>)
      ensures found == if Reviewed(m, r, path, review).Some? then Find(r.assignments, review.assignmentId) else None
    {
      if r.phase != REVIEW_REQUIRED || review.degraded || review.result != "DONE" { return None; }
      if review.task != r.task.id || review.specStatus != "SATISFIED" || review.escalation != "NONE" { return None; }
      if review.role !in m.independent || review.assignmentId == "" { return None; }
      found := MatchingAssignment(r.assignments, review.assignmentId);
      if found.Some? && !Bound(m, r, review.task, review.role, found.value) { return None; }
    }

    static method KnownReview(evidence: seq<Evidence>, path: string) returns (known: bool)
      ensures known <==> exists e :: e in evidence && e.Review? && e.path == path
    {
      for i := 0 to |evidence|
        invariant forall e :: e in evidence[..i] ==> !e.Review? || e.path != path
      {
        if evidence[i].Review? && evidence[i].path == path { return true; }
      }
      return false;
    }

    /** From REVIEW_REQUIRED through REVIEW to INTEGRATE. */
    method AdvanceReview(t: string)
      requires Valid() && doing == Advancing(t) && t in store
      modifies this`store, this`doing
      ensures Valid() && doing.Idle? && Now() == Resumed(m, old(Now()))
    {
      ResumedOk(m, git, Now());
      if store[t].phase != REVIEW_REQUIRED || !HasEvidence(m, store[t]) {
        doing := Idle;
      } else {
        WriteState(t, store[t], REVIEW, Passing(t));
        if doing.Passing? { WriteState(t, store[t], INTEGRATE, Idle); }
      }
    }

    /** Verify the preserved patch, apply it, run the gate, and undo it if the gate fails. */
    method CompleteIntegration(t: string, applyOk: bool, passed: bool, undone: bool)
      requires Valid() && doing.Idle?
      modifies this
      ensures Valid() && Now() == Gated(m, Completed(m, git, old(Now()), t, applyOk), passed, undone)
      ensures t in store && store[t].phase == COMPLETE ==> Delivered(m, git, log, store[t])
    {
      ApplyWorkerDiff(t, applyOk);
      if doing.Applied? { RunGate(passed, undone); }
      if t in store && store[t].phase == COMPLETE { CompleteDelivered(m, git, Now(), t); }
    }

    method ApplyWorkerDiff(t: string, applyOk: bool)
      requires Valid() && doing.Idle?
      modifies this
      ensures Valid() && Now() == Completed(m, git, old(Now()), t, applyOk)
    {
      CompletedOk(m, git, Now(), t, applyOk);
      if t !in store || store[t].phase !in m.transitions || !IntegrationReady(m, store[t]) { return; }
      var r := store[t];
      var verified := VerifyWorkerDiff(t, r);
      if verified.None? || !applyOk {
        WriteState(t, r.(diff := None), RETRY, Idle);
      } else {
        var (payload, files) := verified.value;
        tree, doing := git.applied(payload, tree).value, Applied(t, payload, files, tree);
      }
    }

    method RunGate(passed: bool, undone: bool)
      requires Valid() && doing.Applied?
      modifies this
      ensures Valid() && Now() == Gated(m, old(Now()), passed, undone)
    {
      GatedOk(m, git, Now(), passed, undone);
      var Applied(t, payload, files, before) := doing;
      var r := store[t];
      if passed {
        var event := PassedGate(r, payload, files, head, before, tree);
        if r.phase in m.transitions && COMPLETE in m.transitions[r.phase] { log := log + [event]; }
        WriteState(t, r, COMPLETE, Idle);
      } else if undone {
        tree := before;
        WriteState(t, r, RETRY, Idle);
      } else {
        WriteState(t, r, FAILED, Idle);
      }
    }

    /**
     The preserved patch, if it can be trusted: it has the recorded hash, names exactly the changed files,
     all in scope, and applies to a checkout of the recorded base that is clean where the patch touches it.
     */
    method VerifyWorkerDiff(t: string, r: Record) returns (verified: Option<(string, seq<string>)>)
      ensures verified == VerifiedDiff(git, Now(), r, t)
      ensures verified.Some? ==>
        var (payload, files) := verified.value;
        && t in patches && payload == patches[t] && r.diff.Some? && git.sha256(payload) == r.diff.value.sha
        && git.filesOf(payload) == Some(files) && multiset(files) == multiset(r.changed)
        && InScope(files, r.task.files) && head == r.base && AgreeOn(tree, git.checkout(r.base), files)
        && git.applied(payload, tree).Some?
    {
      if r.diff.None? || r.worktree.None? || r.result.None? { return None; }
      var diff, report := r.diff.value, r.result.value;
      if report.degraded || report.result != "DONE" || report.task != t { return None; }
      if t !in patches || diff.base != r.base || diff.worktree != r.worktree.value.path { return None; }
      var payload := patches[t];
      if payload == "" || git.sha256(payload) != diff.sha { return None; }
      var named := git.filesOf(payload);
      if named.None? { return None; }
      var files := named.value;
      if files == [] || multiset(files) != multiset(r.changed) || !InScope(files, r.task.files) { return None; }
      if head != r.base || !AgreeOn(tree, git.checkout(head), files) { return None; }
      if git.applied(payload, tree).None? { return None; }
      return Some((payload, files));
    }

    /** Abandon an interrupted attempt before a fresh one. */
    method RecoverInterruptedDispatch(t: string)
      requires Valid() && doing == Entered(t) && t in store && store[t].phase in {DISPATCHED, WORKER_DONE, VERIFY}
      modifies this
      ensures Valid() && Now() == Proceeded(m, Proceeded(m, old(Now()), true), true)
    {
      RecoveredOk(m, git, Now(), t);
      WriteState(t, store[t].(diff := None), RETRY, Entered(t));
      if doing.Entered? { WriteState(t, store[t], PACKET_READY, Entered(t)); }
    }

    method CreateWorktree(t: string, ok: bool)
      requires Valid() && doing == Ready(t) && t in store
      modifies this
      ensures Valid() && Now() == Begun(m, git, old(Now()), ok)
      ensures doing.Idle? || (doing.Created? && doing.task == t && t in store)
    {
      BegunOk(m, git, Now(), ok);
      var attempt := store[t].attempt + 1;
      var path := WorktreeName(t, attempt);
      if !ValidId(t) {
        doing := Idle;
      } else if !ok || path in worktrees {
        WriteState(t, store[t], BLOCKED, Idle);
      } else {
        worktrees := worktrees + {path};
        doing := Created(t, Worktree(path, git.writer(t, attempt)));
      }
    }

    method Dispatch(t: string, worktree: Worktree)
      requires Valid() && doing == Created(t, worktree) && t in store
      modifies this`store, this`doing, this`log
      ensures Valid() && Now() == Dispatched(m, old(Now()))
      ensures doing.Idle? || (doing == Working(t) && t in store)
    {
      DispatchedOk(m, git, Now());
      var r := store[t];
      if ValidTransition(m, r.phase, DISPATCHED) { log := log + [DispatchedWriter(t, r.attempt + 1, worktree)]; }
      WriteState(t, r.(worktree := Some(worktree), attempt := r.attempt + 1), DISPATCHED, Working(t));
    }

    method Finish(t: string, report: Report, changed: seq<string>, response: string, exitOk: bool)
      requires Valid() && doing == Working(t) && t in store
      modifies this`store, this`doing
      ensures Valid() && Now() == Finished(m, old(Now()), report, changed, response, exitOk)
      ensures doing.Idle? || (doing == Reported(t, exitOk) && t in store && store[t].worktree.Some?)
    {
      FinishedOk(m, git, Now(), report, changed, response, exitOk);
      WriteState(t, store[t].(result := Some(report), changed := changed, evidence := [Response(response)]),
        WORKER_DONE, Reported(t, exitOk));
    }

    /** From WORKER_DONE: reject the worker's result, or keep its patch and bind the record to it. */
    method CaptureWorkerDiff(t: string, exitOk: bool, payload: Option<string>)
      requires Valid() && doing == Reported(t, exitOk) && t in store && store[t].worktree.Some?
      modifies this
      ensures Valid() && Now() == Noted(git, Judged(m, old(Now()), payload))
      ensures doing.Idle? || (doing == Capturing(t) && t in store)
    {
      JudgedOk(m, git, Now(), payload);
      NotedOk(m, git, Judged(m, Now(), payload));
      var r := store[t];
      var verdict := Verdict(r, t, exitOk);
      if verdict.Some? {
        WriteState(t, r, verdict.value, Idle);
      } else if payload.None? || payload.value == "" {
        WriteState(t, r, RETRY, Idle);
      } else {
        patches := patches[t := payload.value];
        doing := Saved(t, payload.value);
        assert Now() == Judged(m, old(Now()), payload);
        log := log + [CapturedPatch(t, r.attempt, r.base, payload.value)];
        UpdateState(t, r.(diff := Some(Diff(git.sha256(payload.value), r.base, r.worktree.value.path))));
        doing := Capturing(t);
      }
    }

    /** From the worktree to the worker's report. */
    method RunWorker(t: string, a: Answers)
      requires Valid() && doing == Ready(t) && t in store
      modifies this
      ensures Valid() && Now() == Worked(m, git, old(Now()), a)
      ensures doing.Idle? || (doing == Reported(t, a.exitOk) && t in store && store[t].worktree.Some?)
    {
      CreateWorktree(t, a.ok);
      IdleStays(m, git, Now(), a);
      if !doing.Created? { return; }
      Dispatch(t, doing.worktree);
      IdleStays(m, git, Now(), a);
      if !doing.Working? { return; }
      Finish(t, a.report, a.changed, a.response, a.exitOk);
    }

    /** One attempt from the worktree to the captured patch, with whatever the worker and git answer. */
    method RunAttempt(t: string, a: Answers)
      requires Valid() && doing == Ready(t) && t in store
      modifies this
      ensures Valid() && Now() == Attempted(m, git, old(Now()), a)
      ensures doing.Idle? || (doing == Capturing(t) && t in store)
    {
      RunWorker(t, a);
      IdleStays(m, git, Now(), a);
      if doing.Reported? { CaptureWorkerDiff(t, a.exitOk, a.payload); }
    }

    /** From the captured patch to REVIEW_REQUIRED, or through REVIEW to INTEGRATE. */
    method Conclude(t: string)
      requires Valid() && doing == Capturing(t) && t in store
      modifies this`store, this`doing
      ensures Valid() && doing.Idle? && Now() == Concluded(m, old(Now()))
    {
      ConcludedOk(m, git, Now());
      WriteState(t, store[t], VERIFY, Verified(t));
      if doing.Idle? { return; }
      if ReviewRequired(m, store[t]) {
        WriteState(t, store[t], REVIEW_REQUIRED, Idle);
      } else {
        WriteState(t, store[t], REVIEW, Passing(t));
        if doing.Passing? { WriteState(t, store[t], INTEGRATE, Idle); }
      }
    }

    /** Load or create the record of a task. */
    method StartTask(task: Task, security: bool, delivery: bool, usable: bool)
      requires Valid() && doing.Idle?
      modifies this`store, this`doing
      ensures Valid() && Now() == Entering(m, old(Now()), task, security, delivery, usable)
      ensures doing.Idle? || (doing == Entered(task.id) && task.id in store)
    {
      EnteringEnds(m, Now(), task, security, delivery, usable);
      EnteringReaches(m, git, Now(), task, security, delivery, usable);
      ReachesOk(m, git, Now(), Entering(m, Now(), task, security, delivery, usable));
      var t := task.id;
      if t !in store {
        if !usable {
          store, doing := store[t := Initial(task, head, security, delivery)], Refused(t);
          WriteState(t, store[t], BLOCKED, Idle);
        } else if Writes(task.role) {
          store, doing := store[t := Initial(task, head, security, delivery)], Entered(t);
        }
      } else if store[t].phase in m.transitions && store[t].phase !in m.terminal && usable
        && Writes(store[t].task.role) {
        doing := Entered(t);
      }
    }

    /** One durable write on the way to the packet, or the end of it. */
    method ProceedTask(t: string, prompt: bool)
      requires Valid() && doing == Entered(t) && t in store
      modifies this`store, this`doing
      ensures Valid() && t in store && Now() == Proceeded(m, old(Now()), prompt)
    {
      ProceededOk(m, git, Now(), prompt);
      var r := store[t];
      if r.phase == INTAKE {
        WriteState(t, r, CLASSIFIED, Entered(t));
      } else if r.phase == CLASSIFIED || r.phase == RETRY {
        WriteState(t, r, PACKET_READY, Entered(t));
      } else if r.phase == REVIEW_REQUIRED {
        doing := if HasEvidence(m, r) then Advancing(t) else Idle;
      } else if r.phase == REVIEW {
        WriteState(t, r, INTEGRATE, Idle);
      } else if r.phase == INTEGRATE || !prompt {
        doing := Idle;
      } else if r.phase == DISPATCHED || r.phase == WORKER_DONE || r.phase == VERIFY {
        WriteState(t, r.(diff := None), RETRY, Entered(t));
      } else {
        doing := Ready(t);
      }
    }

    /** Bring a loaded record to its packet: ready for an attempt, or reviewed, or done with for this pass. */
    method PrepareTask(t: string, prompt: bool)
      requires Valid() && doing == Entered(t) && t in store
      modifies this`store, this`doing
      ensures Valid() && Now() == Prepared(m, old(Now()), prompt)
      ensures doing.Idle? || (t in store && (doing == Ready(t) || doing == Advancing(t)))
    {
      PreparedEnds(m, Now(), prompt);
      PreparedEarly(m, Now(), prompt);
      ProceedTask(t, prompt);
      if doing == Entered(t) {
        ProceedTask(t, prompt);
        if doing == Entered(t) { ProceedTask(t, prompt); }
      }
    }

    /** One pass of the task loop; afterwards the controller is idle again, whatever happened. */
    method RunTask(task: Task, security: bool, delivery: bool, a: Answers)
      requires Valid() && doing.Idle?
      modifies this
      ensures Valid() && doing.Idle? && Now() == TaskRun(m, git, old(Now()), task, security, delivery, a)
    {
      StartTask(task, security, delivery, a.usable);
      if doing.Idle? {
        StaysPut(m, Now(), a.prompt);
        return;
      }
      PrepareTask(task.id, a.prompt);
      if doing.Ready? {
        RunAttempt(task.id, a);
        if doing.Capturing? { Conclude(task.id); }
      } else if doing.Advancing? {
        AdvanceReview(task.id);
      }
    }
  }

  /** The history of a record is a walk in the transition table that ends in its phase. */
  predicate Walks(m: Manifest, r: Record) {
    r.history != [] && r.history[|r.history| - 1] == r.phase && Lawful(m, r.history)
  }

  /**
   A write moves the record exactly when the manifest allows it and otherwise stores nothing. No other
   record is touched, and a history that is a walk stays one.
   */
  lemma WriteExact(m: Manifest, w: World, t: string, r: Record, target: Phase, next: Activity)
    ensures var v := Write(m, w, t, r, target, next);
      && v.store - {t} == w.store - {t}
      && (ValidTransition(m, r.phase, target) ==>
            t in v.store && v.store[t].phase == target && v.doing == next && (Walks(m, r) ==> Walks(m, v.store[t])))
      && (!ValidTransition(m, r.phase, target) ==> v == w.(doing := Idle))
  {
    var v := Write(m, w, t, r, target, next);
    assert v.store - {t} == w.store - {t};
    if Walks(m, r) && ValidTransition(m, r.phase, target) { LawfulMore(m, r.history, target); }
  }

  lemma ConcludedOk(m: Manifest, git: Git, w: World)
    requires AttemptsApart(git) && Inv(m, git, w)
    ensures Inv(m, git, Concluded(m, w))
  {
    ConcludedReaches(m, git, w);
    ReachesOk(m, git, w, Concluded(m, w));
  }

  lemma ResumedOk(m: Manifest, git: Git, w: World)
    requires AttemptsApart(git) && Inv(m, git, w)
    ensures Inv(m, git, Resumed(m, w))
  {
    ResumedReaches(m, git, w);
    ReachesOk(m, git, w, Resumed(m, w));
  }

  /** An attempt that has ended stays as it is. */
  lemma IdleStays(m: Manifest, git: Git, w: World, a: Answers)
    ensures w.doing.Idle? ==>
      && Dispatched(m, w) == Finished(m, w, a.report, a.changed, a.response, a.exitOk) == w
      && Judged(m, w, a.payload) == Noted(git, w) == w
  {
  }

  lemma StaysPut(m: Manifest, w: World, prompt: bool)
    ensures !w.doing.Entered? ==> Proceeded(m, w, prompt) == w
  {
  }

  /** A record that needs fewer writes to its packet is there earlier. */
  lemma PreparedEarly(m: Manifest, w: World, prompt: bool)
    requires w.doing.Entered? && Here(w)
    ensures var a, t := Proceeded(m, w, prompt), w.doing.task;
      var b := Proceeded(m, a, prompt);
      && t in a.store && (a.doing != Entered(t) ==> Prepared(m, w, prompt) == a)
      && (a.doing == Entered(t) ==> t in b.store && (b.doing != Entered(t) ==> Prepared(m, w, prompt) == b))
  {
    var a := Proceeded(m, w, prompt);
    var b := Proceeded(m, a, prompt);
    ProceededEnds(m, w, prompt);
    StaysPut(m, a, prompt);
    if a.doing.Entered? { ProceededEnds(m, a, prompt); }
    StaysPut(m, b, prompt);
  }

  /** Two durable writes: away from the interrupted attempt, then towards a new one. */
  function Recovered(m: Manifest, w: World, t: string): World
    requires t in w.store
  {
    var retried := Write(m, w, t, w.store[t].(diff := None), RETRY, Entered(t));
    if retried.doing.Entered? then Write(m, retried, t, retried.store[t], PACKET_READY, Entered(t)) else retried
  }

  lemma RecoveredOk(m: Manifest, git: Git, w: World, t: string)
    requires Inv(m, git, w) && w.doing == Entered(t) && t in w.store
    requires w.store[t].phase in {DISPATCHED, WORKER_DONE, VERIFY}
    ensures Inv(m, git, Recovered(m, w, t)) && Recovered(m, w, t) == Proceeded(m, Proceeded(m, w, true), true)
  {
    ProceededOk(m, git, w, true);
    ProceededOk(m, git, Proceeded(m, w, true), true);
  }

  /** A task for a writer who keeps to its packet, with everything to be had and a clean checkout. */
  predicate Deliverable(m: Manifest, git: Git, head: string, tree: Tree, task: Task, a: Answers) {
    && Straight(m) && ValidId(task.id) && Writes(task.role) && a.usable && a.prompt && a.ok && Kept(m, git, task, a)
    && tree == git.checkout(head) && git.applied(a.payload.value, tree).Some?
  }

  /**
   A controller of its own for one task: from the first start through the pass to the gate. A COMPLETE
   task was delivered, and work that keeps to its packet on a clean checkout does become COMPLETE.
   */
  method DeliverTask(m: Manifest, git: Git, head: string, tree: Tree, task: Task, a: Answers, applyOk: bool,
                     passed: bool, undone: bool)
    returns (k: Controller)
    requires Named(git)
    ensures fresh(k) && k.m == m && k.git == git && k.Valid()
    ensures task.id in k.store && k.store[task.id].phase == COMPLETE ==> Delivered(m, git, k.log, k.store[task.id])
    ensures Deliverable(m, git, head, tree, task, a) && applyOk && passed && !undone ==>
      task.id in k.store && k.store[task.id].phase == COMPLETE
  {
    k := new Controller(m, git, head, tree);
    ghost var start := k.Now();
    if Deliverable(m, git, head, tree, task, a) { KeptWorkDelivered(m, git, start, task, a); }
    k.RunTask(task, false, false, a);
    k.CompleteIntegration(task.id, applyOk, passed, undone);
  }
}
