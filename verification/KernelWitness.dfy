/**
 Runs of the orchestration kernel from a fresh start: a task that is delivered, a gate that passes on a
 checkout that is not the recorded base, work outside its packet, and two tasks that want one directory.
 */
module KernelWitness {
  import opened Common
  import opened Contract
  import opened Kernel
  import opened KernelSafety
  import opened KernelRuns
  import opened KernelTasks

  // ---- the first attempt at a task, stage by stage ----

  /** The lifecycle allows a task to go straight through. */
  predicate Straight(m: Manifest) {
    && ValidTransition(m, INTAKE, CLASSIFIED) && ValidTransition(m, CLASSIFIED, PACKET_READY)
    && ValidTransition(m, PACKET_READY, DISPATCHED) && ValidTransition(m, DISPATCHED, WORKER_DONE)
    && ValidTransition(m, WORKER_DONE, VERIFY) && ValidTransition(m, VERIFY, REVIEW)
    && ValidTransition(m, REVIEW, INTEGRATE) && ValidTransition(m, INTEGRATE, COMPLETE)
  }

  /** A new task for a writer, with a provider, a packet and a worktree to be had. */
  predicate Startable(w: World, task: Task, a: Answers) {
    && w.doing.Idle? && task.id !in w.store && task.id !in w.worktrees
    && ValidId(task.id) && Writes(task.role) && a.usable && a.prompt && a.ok
  }

  function Stepped(r: Record, target: Phase): Record { r.(phase := target, history := r.history + [target]) }

  function Packed(base: string, task: Task): Record {
    Stepped(Stepped(Initial(task, base, false, false), CLASSIFIED), PACKET_READY)
  }

  function Sent(git: Git, base: string, task: Task): Record {
    Stepped(Packed(base, task), DISPATCHED).(
      attempt := 1, worktree := Some(Worktree(task.id, git.writer(task.id, 1))))
  }

  function Done(git: Git, base: string, task: Task, a: Answers): Record {
    Stepped(Sent(git, base, task), WORKER_DONE).(
      result := Some(a.report), changed := a.changed, evidence := [Response(a.response)])
  }

  /** The world with another record of the task, and the controller somewhere else. */
  function With(w: World, t: string, r: Record, doing: Activity): World {
    w.(store := w.store[t := r], doing := doing)
  }

  /** The world in which the first writer of a task has been sent to its worktree. */
  function Dispatching(git: Git, w: World, t: string): World {
    w.(worktrees := w.worktrees + {t}, log := w.log + [DispatchedWriter(t, 1, Worktree(t, git.writer(t, 1)))])
  }

  lemma WithTwice(w: World, t: string, r: Record, doing: Activity, s: Record, next: Activity)
    ensures With(With(w, t, r, doing), t, s, next) == With(w, t, s, next)
  {
    assert w.store[t := r][t := s] == w.store[t := s];
  }

  /** One of the two writes before the worktree. */
  lemma Proceeds(m: Manifest, w: World, t: string, r: Record, target: Phase)
    requires (r.phase == INTAKE && target == CLASSIFIED)
      || (r.phase in {CLASSIFIED, RETRY} && target == PACKET_READY)
    requires ValidTransition(m, r.phase, target)
    ensures Proceeded(m, With(w, t, r, Entered(t)), true) == With(w, t, Stepped(r, target), Entered(t))
  {
    WithTwice(w, t, r, Entered(t), Stepped(r, target), Entered(t));
  }

  lemma Arrives(m: Manifest, w: World, t: string, r: Record)
    requires r.phase == PACKET_READY
    ensures Proceeded(m, With(w, t, r, Entered(t)), true) == With(w, t, r, Ready(t))
  {
  }

  lemma Packs(m: Manifest, w: World, task: Task, a: Answers)
    requires Straight(m) && Startable(w, task, a)
    ensures Prepared(m, Entering(m, w, task, false, false, true), true) ==
      With(w, task.id, Packed(w.head, task), Ready(task.id))
  {
    var t, r := task.id, Initial(task, w.head, false, false);
    assert Entering(m, w, task, false, false, true) == With(w, t, r, Entered(t));
    Proceeds(m, w, t, r, CLASSIFIED);
    Proceeds(m, w, t, Stepped(r, CLASSIFIED), PACKET_READY);
    Arrives(m, w, t, Packed(w.head, task));
  }

  lemma Sends(m: Manifest, git: Git, w: World, task: Task, a: Answers)
    requires Straight(m) && Startable(w, task, a)
    ensures Dispatched(m, Begun(m, git, With(w, task.id, Packed(w.head, task), Ready(task.id)), true)) ==
      With(Dispatching(git, w, task.id), task.id, Sent(git, w.head, task), Working(task.id))
  {
    var t := task.id;
    var ready, tree := With(w, t, Packed(w.head, task), Ready(t)), Worktree(t, git.writer(t, 1));
    var created := ready.(worktrees := w.worktrees + {t}, doing := Created(t, tree));
    assert Begun(m, git, ready, true) == created;
    WithTwice(Dispatching(git, w, t), t, Packed(w.head, task), Ready(t), Sent(git, w.head, task), Working(t));
  }

  /** A first attempt comes back with whatever the worker reports. */
  lemma Works(m: Manifest, git: Git, w: World, task: Task, a: Answers)
    requires Straight(m) && Startable(w, task, a)
    ensures Worked(m, git, With(w, task.id, Packed(w.head, task), Ready(task.id)), a) ==
      With(Dispatching(git, w, task.id), task.id, Done(git, w.head, task, a), Reported(task.id, a.exitOk))
  {
    var t, u := task.id, Dispatching(git, w, task.id);
    Sends(m, git, w, task, a);
    var sent := With(u, t, Sent(git, w.head, task), Working(t));
    WithTwice(u, t, Sent(git, w.head, task), Working(t), Done(git, w.head, task, a), Reported(t, a.exitOk));
    assert Finished(m, sent, a.report, a.changed, a.response, a.exitOk) ==
      With(sent, t, Done(git, w.head, task, a), Reported(t, a.exitOk));
  }

  lemma Tried(m: Manifest, git: Git, w: World, task: Task, a: Answers)
    requires Straight(m) && Startable(w, task, a)
    ensures TaskRun(m, git, w, task, false, false, a) == Concluded(m, Noted(git, Judged(m,
      With(Dispatching(git, w, task.id), task.id, Done(git, w.head, task, a), Reported(task.id, a.exitOk)), a.payload)))
  {
    Packs(m, w, task, a);
    Works(m, git, w, task, a);
  }

  // ---- a writer who keeps to the packet ----

  /** The report and the patch of a writer who kept to the packet, and no need of review. */
  predicate Kept(m: Manifest, git: Git, task: Task, a: Answers) {
    && a.exitOk && a.changed != [] && a.payload.Some? && a.payload.value != ""
    && InScope(a.changed, task.files) && InScope(a.report.files, task.files)
    && !a.report.degraded && a.report.result == "DONE" && a.report.complete && a.report.role == task.role
    && a.report.task == task.id && a.report.specStatus == "SATISFIED" && a.report.escalation == "NONE"
    && (forall f :: f in a.changed ==> !m.isProtected(f)) && !m.wantsDelivery(task.description, a.changed)
    && git.filesOf(a.payload.value) == Some(a.changed)
  }

  function Recorded(git: Git, base: string, task: Task, a: Answers): Record
    requires a.payload.Some?
  {
    Stepped(Done(git, base, task, a), WORKER_DONE).(diff := Some(Diff(git.sha256(a.payload.value), base, task.id)))
  }

  /** The record of the finished work, ready for integration. */
  function Ripe(git: Git, base: string, task: Task, a: Answers): Record
    requires a.payload.Some?
  {
    Stepped(Stepped(Stepped(Recorded(git, base, task, a), VERIFY), REVIEW), INTEGRATE)
  }

  /** The world after a task was taken up, worked on and found ready. */
  function Harvest(git: Git, w: World, task: Task, a: Answers): World
    requires a.payload.Some?
  {
    var t, u := task.id, Dispatching(git, w, task.id);
    With(u, t, Ripe(git, w.head, task, a), Idle).(
      patches := w.patches[t := a.payload.value], log := u.log + [CapturedPatch(t, 1, w.head, a.payload.value)])
  }

  lemma Captures(m: Manifest, git: Git, u: World, task: Task, a: Answers)
    requires Kept(m, git, task, a)
    ensures var t := task.id;
      Noted(git, Judged(m, With(u, t, Done(git, u.head, task, a), Reported(t, a.exitOk)), a.payload)) ==
      With(u, t, Recorded(git, u.head, task, a), Capturing(t)).(patches := u.patches[t := a.payload.value],
        log := u.log + [CapturedPatch(t, 1, u.head, a.payload.value)])
  {
    var t, r := task.id, Done(git, u.head, task, a);
    var reported := With(u, t, r, Reported(t, a.exitOk));
    assert Verdict(r, t, a.exitOk).None?;
    var saved := With(u, t, r, Saved(t, a.payload.value)).(patches := u.patches[t := a.payload.value]);
    assert Judged(m, reported, a.payload) == saved;
    WithTwice(u, t, r, Saved(t, a.payload.value), Recorded(git, u.head, task, a), Capturing(t));
  }

  lemma Ripens(m: Manifest, git: Git, x: World, task: Task, a: Answers, base: string)
    requires Straight(m) && Kept(m, git, task, a)
    ensures Concluded(m, With(x, task.id, Recorded(git, base, task, a), Capturing(task.id))) ==
      With(x, task.id, Ripe(git, base, task, a), Idle)
  {
    var t, r := task.id, Recorded(git, base, task, a);
    var checked := Stepped(r, VERIFY);
    var passing := Stepped(checked, REVIEW);
    WithTwice(x, t, r, Capturing(t), checked, Verified(t));
    assert Onward(m, With(x, t, r, Capturing(t)), VERIFY, Verified(t)) == With(x, t, checked, Verified(t));
    WithTwice(x, t, checked, Verified(t), passing, Passing(t));
    assert !ReviewRequired(m, checked);
    assert Routed(m, With(x, t, checked, Verified(t))) == With(x, t, passing, Passing(t));
    WithTwice(x, t, passing, Passing(t), Stepped(passing, INTEGRATE), Idle);
  }

  /** One pass of the task loop brings kept work to integration. */
  lemma Harvested(m: Manifest, git: Git, w: World, task: Task, a: Answers)
    requires Straight(m) && Startable(w, task, a) && Kept(m, git, task, a)
    ensures TaskRun(m, git, w, task, false, false, a) == Harvest(git, w, task, a)
  {
    var t, u := task.id, Dispatching(git, w, task.id);
    var x := u.(patches := u.patches[t := a.payload.value],
                log := u.log + [CapturedPatch(t, 1, u.head, a.payload.value)]);
    Tried(m, git, w, task, a);
    Captures(m, git, u, task, a);
    Ripens(m, git, x, task, a, u.head);
  }

  /** Ready work on a clean checkout is verified. */
  lemma HarvestVerified(m: Manifest, git: Git, v: World, task: Task, a: Answers)
    requires Kept(m, git, task, a) && v.tree == git.checkout(v.head)
    requires task.id in v.store && v.store[task.id] == Ripe(git, v.head, task, a)
    requires task.id in v.patches && v.patches[task.id] == a.payload.value
    requires git.applied(a.payload.value, v.tree).Some?
    ensures IntegrationReady(m, v.store[task.id])
    ensures VerifiedDiff(git, v, v.store[task.id], task.id) == Some((a.payload.value, a.changed))
  {
    assert !ReviewRequired(m, v.store[task.id]);
    assert AgreeOn(v.tree, git.checkout(v.head), a.changed);
  }

  /** From a clean checkout, kept work is delivered: one pass, and the gate passing on it, make it COMPLETE. */
  lemma KeptWorkDelivered(m: Manifest, git: Git, w: World, task: Task, a: Answers)
    requires Straight(m) && Startable(w, task, a) && Kept(m, git, task, a)
    requires w.tree == git.checkout(w.head) && git.applied(a.payload.value, w.tree).Some?
    ensures var ready := TaskRun(m, git, w, task, false, false, a);
      var last := Gated(m, Completed(m, git, ready, task.id, true), true, false);
      task.id in last.store && last.store[task.id].phase == COMPLETE
  {
    var ready := Harvest(git, w, task, a);
    assert TaskRun(m, git, w, task, false, false, a) == ready by { Harvested(m, git, w, task, a); }
    assert IntegrationReady(m, ready.store[task.id])
      && VerifiedDiff(git, ready, ready.store[task.id], task.id).Some? by {
      HarvestVerified(m, git, ready, task, a);
    }
    GateCompletes(m, git, ready, task.id);
  }

  lemma GateCompletes(m: Manifest, git: Git, w: World, t: string)
    requires w.doing.Idle? && t in w.store && IntegrationReady(m, w.store[t]) && ValidTransition(m, INTEGRATE, COMPLETE)
    requires VerifiedDiff(git, w, w.store[t], t).Some?
    ensures var last := Gated(m, Completed(m, git, w, t, true), true, false);
      t in last.store && last.store[t].phase == COMPLETE
  {
  }

  // ---- two tasks, one checkout ----

  /** The last gate to pass ran on a tree that differs from the task's base before its patch. */
  predicate OffBase(git: Git, w: World) {
    w.log != [] && var e := w.log[|w.log| - 1]; e.PassedGate? && e.before != git.checkout(e.record.base)
  }

  /** Both tasks are ready on a clean checkout, and their patches are for different files. */
  lemma BothReady(m: Manifest, git: Git, start: World, k: Task, a: Answers, l: Task, b: Answers)
    requires Straight(m) && Fresh(start) && start.tree == git.checkout(start.head) && k.id != l.id
    requires Startable(start, k, a) && Startable(start, l, b) && Kept(m, git, k, a) && Kept(m, git, l, b)
    requires git.applied(a.payload.value, start.tree).Some? && git.applied(b.payload.value, start.tree).Some?
    ensures var w := Harvest(git, Harvest(git, start, k, a), l, b);
      && Reaches(m, git, start, w) && w.tree == start.tree && w.head == start.head && w.doing.Idle?
      && k.id in w.store && IntegrationReady(m, w.store[k.id])
      && l.id in w.store && IntegrationReady(m, w.store[l.id])
      && VerifiedDiff(git, w, w.store[k.id], k.id) == Some((a.payload.value, a.changed))
      && VerifiedDiff(git, w, w.store[l.id], l.id) == Some((b.payload.value, b.changed))
  {
    var one := Harvest(git, start, k, a);
    var two := Harvest(git, one, l, b);
    Harvested(m, git, start, k, a);
    TaskReaches(m, git, start, k, false, false, a);
    Harvested(m, git, one, l, b);
    TaskReaches(m, git, one, l, false, false, b);
    ReachesOn(m, git, start, one, two);
    HarvestVerified(m, git, two, k, a);
    HarvestVerified(m, git, two, l, b);
  }

  /**
   From any clean start, two packets for different files end with the second COMPLETE after a gate that
   ran on a tree other than its base with its patch. Nobody crashed and nobody meddled.
   */
  lemma UncommittedHarms(m: Manifest, git: Git, start: World, k: Task, a: Answers, l: Task, b: Answers)
    requires Straight(m) && Local(git) && Fresh(start) && start.tree == git.checkout(start.head) && k.id != l.id
    requires Startable(start, k, a) && Startable(start, l, b) && Kept(m, git, k, a) && Kept(m, git, l, b)
    requires forall f :: f in a.changed ==> f !in b.changed
    requires git.applied(a.payload.value, start.tree).Some? && git.applied(b.payload.value, start.tree).Some?
    requires git.applied(a.payload.value, start.tree).value != start.tree
    ensures exists w ::
      && Reaches(m, git, start, w) && OffBase(git, w)
      && l.id in w.store && w.store[l.id].phase == COMPLETE
  {
    BothReady(m, git, start, k, a, l, b);
    SecondReached(m, git, start, Harvest(git, Harvest(git, start, k, a), l, b), k.id, l.id);
  }

  lemma GateReached(m: Manifest, git: Git, start: World, w: World, t: string)
    requires Reaches(m, git, start, w)
    ensures Reaches(m, git, start, Next(m, git, Next(m, git, w, Complete(t, true)), Gate(true, false)))
  {
    ReachesStep(m, git, start, w, Complete(t, true));
    ReachesStep(m, git, start, Next(m, git, w, Complete(t, true)), Gate(true, false));
  }

  lemma SecondReached(m: Manifest, git: Git, start: World, w: World, t: string, u: string)
    requires Local(git) && w.doing.Idle? && ValidTransition(m, INTEGRATE, COMPLETE) && w.tree == git.checkout(w.head)
    requires t != u && t in w.store && u in w.store
    requires IntegrationReady(m, w.store[t]) && IntegrationReady(m, w.store[u])
    requires VerifiedDiff(git, w, w.store[t], t).Some? && VerifiedDiff(git, w, w.store[u], u).Some?
    requires forall f :: f in VerifiedDiff(git, w, w.store[t], t).value.1 ==>
      f !in VerifiedDiff(git, w, w.store[u], u).value.1
    requires git.applied(VerifiedDiff(git, w, w.store[t], t).value.0, w.tree).value != w.tree
    requires Reaches(m, git, start, w)
    ensures exists x ::
      && Reaches(m, git, start, x) && OffBase(git, x)
      && u in x.store && x.store[u].phase == COMPLETE
  {
    var once := Next(m, git, Next(m, git, w, Complete(t, true)), Gate(true, false));
    var last := Next(m, git, Next(m, git, once, Complete(u, true)), Gate(true, false));
    assert OffBase(git, last) && u in last.store && last.store[u].phase == COMPLETE by {
      SecondOnTop(m, git, w, t, u);
    }
    GateReached(m, git, start, w, t);
    GateReached(m, git, start, once, u);
  }

  // ---- the shipped lifecycle ----

  const LIFECYCLE: map<Phase, seq<Phase>> := map[
    INTAKE := [CLASSIFIED, BLOCKED],
    CLASSIFIED := [PACKET_READY, PLAN_REQUIRED, OPERATOR_REQUIRED],
    PACKET_READY := [DISPATCHED, BLOCKED],
    DISPATCHED := [WORKER_DONE, RETRY, BLOCKED],
    WORKER_DONE := [VERIFY, RETRY, PLAN_REQUIRED, OPERATOR_REQUIRED],
    VERIFY := [REVIEW, RETRY, REVIEW_REQUIRED, FAILED],
    REVIEW := [INTEGRATE, RETRY, PLAN_REQUIRED, OPERATOR_REQUIRED],
    REVIEW_REQUIRED := [REVIEW, OPERATOR_REQUIRED],
    INTEGRATE := [COMPLETE, RETRY, FAILED],
    RETRY := [PACKET_READY, PLAN_REQUIRED, OPERATOR_REQUIRED, FAILED],
    PLAN_REQUIRED := [PACKET_READY, OPERATOR_REQUIRED],
    BLOCKED := [], FAILED := [], OPERATOR_REQUIRED := [], COMPLETE := []]

  /** The shipped manifest, up to its protected paths and delivery keywords. */
  predicate Shipped(m: Manifest) {
    && m.transitions == LIFECYCLE && m.terminal == {COMPLETE, FAILED, BLOCKED, OPERATOR_REQUIRED}
    && m.independent == {"CRITICAL_VALIDATOR", "SECOND_OPINION", "RELEASE_GATEKEEPER"}
  }

  lemma ShippedStraight(m: Manifest)
    requires Shipped(m)
    ensures Straight(m)
  {
    assert LIFECYCLE[INTAKE][0] == CLASSIFIED && LIFECYCLE[CLASSIFIED][0] == PACKET_READY;
    assert LIFECYCLE[PACKET_READY][0] == DISPATCHED && LIFECYCLE[DISPATCHED][0] == WORKER_DONE;
    assert LIFECYCLE[WORKER_DONE][0] == VERIFY && LIFECYCLE[VERIFY][0] == REVIEW;
    assert LIFECYCLE[REVIEW][0] == INTEGRATE && LIFECYCLE[INTEGRATE][0] == COMPLETE;
  }

  // ---- work outside the packet ----

  /** Work outside the packet's scope is recorded as FAILED exactly when the lifecycle lets a finished worker fail. */
  lemma ScopeFailureExact(m: Manifest, git: Git, w: World, payload: Option<string>)
    requires Inv(m, git, w) && w.doing.Reported?
      && Verdict(w.store[w.doing.task], w.doing.task, w.doing.exitOk) == Some(FAILED)
    ensures var v, t := Next(m, git, w, Judge(payload)), w.doing.task;
      && t in v.store && (v.store[t].phase == FAILED <==> ValidTransition(m, WORKER_DONE, FAILED))
      && (!ValidTransition(m, WORKER_DONE, FAILED) ==> v == w.(doing := Idle))
  {
    assert w.store[w.doing.task].phase == WORKER_DONE;
    assert Next(m, git, w, Judge(payload)) == Judged(m, w, payload);
  }

  /** The shipped lifecycle does not: the controller dies, and the resumed task is tried again. */
  lemma ShippedScopeRetried(m: Manifest, git: Git, w: World, payload: Option<string>, task: Task)
    requires Shipped(m) && Inv(m, git, w) && w.doing.Reported?
    requires Verdict(w.store[w.doing.task], w.doing.task, w.doing.exitOk) == Some(FAILED)
    requires task.id == w.doing.task && Writes(w.store[task.id].task.role)
    ensures Next(m, git, w, Judge(payload)) == w.(doing := Idle)
    ensures var resumed := Next(m, git, Next(m, git, w.(doing := Idle), Start(task, false, false, true)),
      Proceed(true));
      && resumed.doing == Entered(task.id)
      && task.id in resumed.store && resumed.store[task.id].phase == RETRY
      && resumed.store[task.id].attempt == w.store[task.id].attempt
  {
    ScopeFailureExact(m, git, w, payload);
    assert LIFECYCLE[WORKER_DONE][1] == RETRY;
    var entered := w.(doing := Entered(task.id));
    assert Next(m, git, w.(doing := Idle), Start(task, false, false, true)) == entered;
    assert Next(m, git, entered, Proceed(true)) == Proceeded(m, entered, true);
  }

  /** A worker who changes a file outside the packet. */
  predicate Strays(task: Task, a: Answers) {
    && a.exitOk && a.changed != [] && !InScope(a.changed, task.files)
    && !a.report.degraded && a.report.result == "DONE" && a.report.complete && a.report.role == task.role
    && a.report.task == task.id && a.report.specStatus == "SATISFIED" && a.report.escalation == "NONE"
  }

  /** It happens from any fresh start: the pass ends with the record as the worker left it, neither FAILED nor RETRY. */
  lemma StrayHappens(m: Manifest, git: Git, start: World, task: Task, a: Answers)
    requires Shipped(m) && Named(git) && Fresh(start) && Startable(start, task, a) && Strays(task, a)
    ensures var w := Worked(m, git, With(start, task.id, Packed(start.head, task), Ready(task.id)), a);
      && Reaches(m, git, start, w) && Inv(m, git, w) && w.doing == Reported(task.id, true) && task.id in w.store
      && Verdict(w.store[task.id], task.id, true) == Some(FAILED)
      && TaskRun(m, git, start, task, false, false, a) == w.(doing := Idle)
      && w.store[task.id].phase == WORKER_DONE
  {
    var ready := With(start, task.id, Packed(start.head, task), Ready(task.id));
    var w := Worked(m, git, ready, a);
    ShippedStraight(m);
    Packs(m, start, task, a);
    Works(m, git, start, task, a);
    EnteringReaches(m, git, start, task, false, false, true);
    PreparedReaches(m, git, Entering(m, start, task, false, false, true), true);
    ReachesOn(m, git, start, Entering(m, start, task, false, false, true), ready);
    WorkedReaches(m, git, ready, a);
    ReachesOn(m, git, start, ready, w);
    NamedApart(git);
    ReachesOk(m, git, start, w);
    StrayJudged(m, git, w, task, a);
  }

  lemma StrayJudged(m: Manifest, git: Git, w: World, task: Task, a: Answers)
    requires Shipped(m) && Strays(task, a) && w.doing == Reported(task.id, true)
    requires task.id in w.store && w.store[task.id].task == task && w.store[task.id].phase == WORKER_DONE
    requires w.store[task.id].result == Some(a.report) && w.store[task.id].changed == a.changed
    ensures Verdict(w.store[task.id], task.id, true) == Some(FAILED)
    ensures Concluded(m, Noted(git, Judged(m, w, a.payload))) == w.(doing := Idle)
  {
    assert FAILED !in LIFECYCLE[WORKER_DONE];
  }

  // ---- two tasks, one directory ----

  /** A task whose next directory is taken is blocked. */
  lemma TakenDirectoryBlocks(m: Manifest, git: Git, w: World, task: Task, a: Answers)
    requires w.doing.Idle? && task.id in w.store && w.store[task.id].phase == RETRY && RETRY !in m.terminal
    requires Writes(w.store[task.id].task.role) && a.usable && a.prompt && ValidId(task.id)
    requires ValidTransition(m, RETRY, PACKET_READY) && ValidTransition(m, PACKET_READY, BLOCKED)
    requires WorktreeName(task.id, w.store[task.id].attempt + 1) in w.worktrees
    ensures TaskRun(m, git, w, task, false, false, a) ==
      With(w, task.id, Stepped(Stepped(w.store[task.id], PACKET_READY), BLOCKED), Idle)
  {
    var t, r := task.id, w.store[task.id];
    var packed := Stepped(r, PACKET_READY);
    assert w.store[t := r] == w.store;
    assert Entering(m, w, task, false, false, true) == With(w, t, r, Entered(t));
    Proceeds(m, w, t, r, PACKET_READY);
    Arrives(m, w, t, packed);
    var ready := With(w, t, packed, Ready(t));
    assert Proceeded(m, ready, true) == ready;
    WithTwice(w, t, packed, Ready(t), Stepped(packed, BLOCKED), Idle);
    assert Begun(m, git, ready, a.ok) == With(w, t, Stepped(packed, BLOCKED), Idle);
  }

  /** A worker who fails sends its task back. */
  lemma FailureRetried(m: Manifest, git: Git, w: World, task: Task, a: Answers)
    requires Straight(m) && ValidTransition(m, WORKER_DONE, RETRY) && Startable(w, task, a) && !a.exitOk
    ensures TaskRun(m, git, w, task, false, false, a) ==
      With(Dispatching(git, w, task.id), task.id, Stepped(Done(git, w.head, task, a), RETRY), Idle)
  {
    var t, u, r := task.id, Dispatching(git, w, task.id), Done(git, w.head, task, a);
    Tried(m, git, w, task, a);
    WithTwice(u, t, r, Reported(t, a.exitOk), Stepped(r, RETRY), Idle);
    assert Judged(m, With(u, t, r, Reported(t, a.exitOk)), a.payload) == With(u, t, Stepped(r, RETRY), Idle);
  }

  /** The id that spells a second attempt. */
  function Second(id: string): string { id + "-attempt-" + Decimal(2) }

  lemma SecondValid(id: string)
    requires ValidId(id)
    ensures ValidId(Second(id)) && Second(id) != id && WorktreeName(id, 2) == Second(id)
  {
    DecimalDigits(2);
    var s := Second(id);
    forall i | 0 <= i < |s| ensures Alphanumeric(s[i]) || s[i] in ['_', '.', '-'] {
      if i >= |id| + 9 { assert s[i] == Decimal(2)[i - |id| - 9]; }
    }
  }

  /**
   From any fresh start under the shipped lifecycle: a task named like the second attempt at another is
   worked on, the other fails its first attempt, and its second attempt finds its directory taken.
   */
  lemma ClashHappens(m: Manifest, git: Git, start: World, task: Task, a: Answers, other: Task, b: Answers)
    requires Shipped(m) && Fresh(start) && Startable(start, task, a) && Startable(start, other, b)
    requires !a.exitOk && Kept(m, git, other, b) && other.id == Second(task.id)
    ensures ValidId(other.id)
    ensures exists w :: Reaches(m, git, start, w) && task.id in w.store && w.store[task.id].phase == BLOCKED
  {
    SecondValid(task.id);
    ClashPrepared(m, git, start, task, a, other, b);
    var x := Harvest(git, start, other, b);
    var y := With(Dispatching(git, x, task.id), task.id, Stepped(Done(git, x.head, task, a), RETRY), Idle);
    var z := TaskRun(m, git, y, task, false, false, a);
    SecondBlocked(m, git, x, task, a);
    TaskReaches(m, git, y, task, false, false, a);
    ReachesOn(m, git, start, y, z);
  }

  lemma SecondBlocked(m: Manifest, git: Git, x: World, task: Task, a: Answers)
    requires Shipped(m) && Writes(task.role) && ValidId(task.id) && a.usable && a.prompt
    requires WorktreeName(task.id, 2) in x.worktrees
    ensures var y := With(Dispatching(git, x, task.id), task.id, Stepped(Done(git, x.head, task, a), RETRY), Idle);
      var z := TaskRun(m, git, y, task, false, false, a);
      task.id in z.store && z.store[task.id].phase == BLOCKED
  {
    var y := With(Dispatching(git, x, task.id), task.id, Stepped(Done(git, x.head, task, a), RETRY), Idle);
    assert ValidTransition(m, RETRY, PACKET_READY) by { assert LIFECYCLE[RETRY][0] == PACKET_READY; }
    assert ValidTransition(m, PACKET_READY, BLOCKED) by { assert LIFECYCLE[PACKET_READY][1] == BLOCKED; }
    TakenDirectoryBlocks(m, git, y, task, a);
  }

  lemma ClashPrepared(m: Manifest, git: Git, start: World, task: Task, a: Answers, other: Task, b: Answers)
    requires Shipped(m) && Startable(start, task, a) && Startable(start, other, b) && other.id != task.id
    requires !a.exitOk && Kept(m, git, other, b)
    ensures var x := Harvest(git, start, other, b);
      Reaches(m, git, start, With(Dispatching(git, x, task.id), task.id, Stepped(Done(git, x.head, task, a), RETRY),
        Idle))
  {
    var x := Harvest(git, start, other, b);
    ShippedStraight(m);
    assert ValidTransition(m, WORKER_DONE, RETRY) by { assert LIFECYCLE[WORKER_DONE][1] == RETRY; }
    Harvested(m, git, start, other, b);
    TaskReaches(m, git, start, other, false, false, b);
    FailureRetried(m, git, x, task, a);
    TaskReaches(m, git, x, task, false, false, a);
    ReachesOn(m, git, start, x, TaskRun(m, git, x, task, false, false, a));
  }

  // ---- a git to run it on ----

  /** A patch is the name of a file, and writes that file. */
  function WriteFile(patch: string, tree: Tree): Option<Tree> { Some(tree[patch := patch]) }

  const FILES := Git((_: string) => map[], (p: string) => Some([p]), WriteFile, (p: string) => p, Identity)

  lemma FilesLocal()
    ensures Local(FILES) && Named(FILES)
  {
    forall p: string, s: Tree, f: string | f != p ensures SameAt(s, WriteFile(p, s).value, f) {}
  }

  function OneFile(id: string): Task { Task(id, "", [id], "IMPLEMENTER") }

  function Writing(id: string): Answers {
    Answers(true, true, true, Report(false, "DONE", id, "IMPLEMENTER", "SATISFIED", "NONE", true, [id], ""), [id], "",
            true, Some(id))
  }

  const BLANK := World(map[], map[], {}, "", map[], Idle, [])

  /** Such a run exists: two one-file tasks under the shipped lifecycle. */
  lemma HarmHappens(m: Manifest, a: string, b: string)
    requires Shipped(m) && ValidId(a) && ValidId(b) && a != b
    requires !m.isProtected(a) && !m.isProtected(b) && !m.wantsDelivery("", [a]) && !m.wantsDelivery("", [b])
    ensures Fresh(BLANK) && BLANK.tree == FILES.checkout(BLANK.head)
    ensures exists w ::
      && Reaches(m, FILES, BLANK, w) && OffBase(FILES, w)
      && b in w.store && w.store[b].phase == COMPLETE
  {
    ShippedStraight(m);
    FilesLocal();
    OneFileKept(m, a);
    OneFileKept(m, b);
    OneFilesApart(a, b);
    UncommittedHarms(m, FILES, BLANK, OneFile(a), Writing(a), OneFile(b), Writing(b));
  }

  lemma OneFilesApart(a: string, b: string)
    requires a != b
    ensures OneFile(a).id != OneFile(b).id && forall f :: f in Writing(a).changed ==> f !in Writing(b).changed
    ensures FILES.applied(Writing(a).payload.value, BLANK.tree).Some?
    ensures FILES.applied(Writing(b).payload.value, BLANK.tree).Some?
    ensures FILES.applied(Writing(a).payload.value, BLANK.tree).value != BLANK.tree
  {
    assert FILES.applied(a, BLANK.tree) == WriteFile(a, BLANK.tree);
    assert FILES.applied(b, BLANK.tree) == WriteFile(b, BLANK.tree);
    assert a in WriteFile(a, BLANK.tree).value && a !in BLANK.tree;
  }

  lemma OneFileKept(m: Manifest, id: string)
    requires ValidId(id) && !m.isProtected(id) && !m.wantsDelivery("", [id])
    ensures Startable(BLANK, OneFile(id), Writing(id)) && Kept(m, FILES, OneFile(id), Writing(id))
  {
    assert InScope([id], [id]) by { assert id in [id] && Norm(id) == Norm(id); }
    assert FILES.filesOf(id) == Some([id]);
  }
}
