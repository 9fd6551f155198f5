/** What is asked of a worker's report, what a failed gate leaves behind, and where a pass of the task loop ends. */
module KernelWork {
  import opened Common
  import opened Contract
  import opened Kernel
  import opened KernelSafety
  import opened KernelRuns
  import opened KernelTasks
  import opened Markers

  // ---- scope ----

  /** The same path, whichever way its slashes lean. */
  ghost predicate SamePath(f: string, a: string) {
    |f| == |a| && forall i :: 0 <= i < |f| ==> f[i] == a[i] || (f[i] in "/\\" && a[i] in "/\\")
  }

  ghost predicate Within(files: seq<string>, allowed: seq<string>) {
    forall f :: f in files ==> exists a :: a in allowed && SamePath(f, a)
  }

  lemma NormExact(f: string, a: string)
    ensures Norm(f) == Norm(a) <==> SamePath(f, a)
  {
    if Norm(f) == Norm(a) {
      assert |Norm(f)| == |f| && |Norm(a)| == |a|;
      forall i | 0 <= i < |f| ensures f[i] == a[i] || (f[i] in "/\\" && a[i] in "/\\") {
        assert Norm(f)[i] == Norm(a)[i];
      }
    }
  }

  lemma ScopeExact(files: seq<string>, allowed: seq<string>)
    ensures InScope(files, allowed) <==> Within(files, allowed)
  {
    if InScope(files, allowed) {
      forall f | f in files ensures exists a :: a in allowed && SamePath(f, a) {
        var a :| a in allowed && Norm(f) == Norm(a);
        NormExact(f, a);
      }
    }
    if Within(files, allowed) {
      forall f | f in files ensures exists a :: a in allowed && Norm(f) == Norm(a) {
        var a :| a in allowed && SamePath(f, a);
        NormExact(f, a);
      }
    }
  }

  // ---- the worker's report ----

  /** The worker reported full success on this very task, and changed something, within the packet only. */
  ghost predicate Satisfying(t: string, r: Record) {
    && r.result.Some?
    && var report := r.result.value;
      && !report.degraded && report.result == "DONE" && report.complete
      && report.role == r.task.role && report.task == t
      && report.specStatus == "SATISFIED" && report.escalation == "NONE"
      && r.changed != [] && Within(r.changed, r.task.files) && Within(report.files, r.task.files)
  }

  lemma VerdictExact(r: Record, t: string, exitOk: bool)
    ensures Verdict(r, t, exitOk).None? <==> exitOk && Satisfying(t, r)
    ensures Verdict(r, t, exitOk) in {None, Some(RETRY), Some(FAILED)}
  {
    ScopeExact(r.changed, r.task.files);
    if r.result.Some? { ScopeExact(r.result.value.files, r.task.files); }
  }

  /** Whoever is past the worker satisfied the packet. */
  ghost predicate Past(d: Activity) {
    d.Saved? || d.Capturing? || d.Verified? || d.Advancing? || d.Passing? || d.Applied?
  }

  ghost predicate WorkOk(w: World) {
    && (forall t {:trigger On1(t)} :: On1(t) && t in w.store && Late(w.store[t].phase) ==> Satisfying(t, w.store[t]))
    && (Past(w.doing) ==> w.doing.task in w.store && Satisfying(w.doing.task, w.store[w.doing.task]))
  }

  /** Another record of one task, with the same report, is as good. */
  lemma WriteWork(w: World, v: World, t: string, s: Record)
    requires WorkOk(w) && v.store == w.store[t := s]
    requires Late(s.phase) ==> Satisfying(t, s)
    requires Past(v.doing) ==> v.doing.task == t && Satisfying(t, s)
    ensures WorkOk(v)
  {
    forall u {:trigger On1(u)} | On1(u) && u in v.store && Late(v.store[u].phase) ensures Satisfying(u, v.store[u]) {
      if u != t { assert On1(u) && u in w.store; }
    }
  }

  lemma SameWork(t: string, r: Record, s: Record)
    requires Satisfying(t, r) && s.task == r.task && s.result == r.result && s.changed == r.changed
    ensures Satisfying(t, s)
  {
  }

  /** Writing a record as it is keeps the promise if its phase is early or its report is good. */
  lemma OnwardWork(m: Manifest, w: World, target: Phase, next: Activity)
    requires WorkOk(w) && Here(w)
    requires Late(target) || Past(next) ==> Satisfying(w.doing.task, w.store[w.doing.task])
    requires Past(next) ==> next.task == w.doing.task
    ensures WorkOk(Onward(m, w, target, next))
  {
    var t := w.doing.task;
    var r, v := w.store[t], Onward(m, w, target, next);
    if ValidTransition(m, r.phase, target) {
      var s := r.(phase := target, history := r.history + [target]);
      if Late(target) || Past(next) { SameWork(t, r, s); }
      WriteWork(w, v, t, s);
    }
  }

  lemma EarlyWork(m: Manifest, w: World, t: string, r: Record, target: Phase, next: Activity)
    requires WorkOk(w) && !Late(target) && !Past(next)
    ensures WorkOk(Write(m, w, t, r, target, next))
  {
    var v := Write(m, w, t, r, target, next);
    if ValidTransition(m, r.phase, target) {
      WriteWork(w, v, t, r.(phase := target, history := r.history + [target]));
    }
  }

  lemma ProceedEarly(m: Manifest, w: World, prompt: bool)
    requires WorkOk(w) && w.doing.Entered? && Here(w) && w.store[w.doing.task].phase in {INTAKE, CLASSIFIED, RETRY}
    ensures WorkOk(Proceeded(m, w, prompt))
  {
    var t := w.doing.task;
    match w.store[t].phase
    case INTAKE => OnwardWork(m, w, CLASSIFIED, Entered(t));
    case _ => OnwardWork(m, w, PACKET_READY, Entered(t));
  }

  lemma ProceedReviewed(m: Manifest, w: World, prompt: bool)
    requires WorkOk(w) && w.doing.Entered? && Here(w)
      && w.store[w.doing.task].phase in {REVIEW, REVIEW_REQUIRED, INTEGRATE}
    ensures WorkOk(Proceeded(m, w, prompt))
  {
    var t := w.doing.task;
    assert On1(t);
    if w.store[t].phase == REVIEW { OnwardWork(m, w, INTEGRATE, Idle); }
  }

  lemma ProceedLater(m: Manifest, w: World, prompt: bool)
    requires WorkOk(w) && w.doing.Entered? && Here(w)
    requires w.store[w.doing.task].phase !in {INTAKE, CLASSIFIED, RETRY, REVIEW, REVIEW_REQUIRED, INTEGRATE}
    ensures WorkOk(Proceeded(m, w, prompt))
  {
    var t := w.doing.task;
    EarlyWork(m, w, t, w.store[t].(diff := None), RETRY, Entered(t));
  }

  lemma ProceedWork(m: Manifest, w: World, prompt: bool)
    requires WorkOk(w)
    ensures WorkOk(Proceeded(m, w, prompt))
  {
    if w.doing.Entered? && Here(w) {
      var phase := w.store[w.doing.task].phase;
      if phase in {INTAKE, CLASSIFIED, RETRY} {
        ProceedEarly(m, w, prompt);
      } else if phase in {REVIEW, REVIEW_REQUIRED, INTEGRATE} {
        ProceedReviewed(m, w, prompt);
      } else {
        ProceedLater(m, w, prompt);
      }
    }
  }

  lemma FinishWork(m: Manifest, w: World, report: Report, changed: seq<string>, response: string, exitOk: bool)
    requires WorkOk(w)
    ensures WorkOk(Finished(m, w, report, changed, response, exitOk))
  {
    if w.doing.Working? && Here(w) {
      var t := w.doing.task;
      var r := w.store[t].(result := Some(report), changed := changed, evidence := [Response(response)]);
      EarlyWork(m, w, t, r, WORKER_DONE, Reported(t, exitOk));
    }
  }

  lemma AttemptWork(m: Manifest, git: Git, w: World, step: Step)
    requires WorkOk(w) && (step.Create? || step.Dispatch? || step.Finish? || step.Judge? || step.Note?)
    ensures WorkOk(Next(m, git, w, step))
  {
    match step
    case Create(ok) =>
      if w.doing.Ready? && Here(w) { OnwardWork(m, w, BLOCKED, Idle); }
    case Dispatch => DispatchWork(m, w);
    case Finish(report, changed, response, exitOk) => FinishWork(m, w, report, changed, response, exitOk);
    case Judge(payload) => JudgeWork(m, w, payload);
    case Note => NoteWork(git, w);
  }

  lemma DispatchWork(m: Manifest, w: World)
    requires WorkOk(w)
    ensures WorkOk(Dispatched(m, w))
  {
    if w.doing.Created? && Here(w) && ValidTransition(m, w.store[w.doing.task].phase, DISPATCHED) {
      var v, t := Dispatched(m, w), w.doing.task;
      WriteWork(w, v, t, v.store[t]);
    }
  }

  lemma JudgeWork(m: Manifest, w: World, payload: Option<string>)
    requires WorkOk(w)
    ensures WorkOk(Judged(m, w, payload))
  {
    if w.doing.Reported? && Here(w) {
      var t := w.doing.task;
      VerdictExact(w.store[t], t, w.doing.exitOk);
      var verdict := Verdict(w.store[t], t, w.doing.exitOk);
      OnwardWork(m, w, RETRY, Idle);
      if verdict.Some? { OnwardWork(m, w, verdict.value, Idle); }
    }
  }

  lemma NoteWork(git: Git, w: World)
    requires WorkOk(w)
    ensures WorkOk(Noted(git, w))
  {
    if w.doing.Saved? && Here(w) && w.store[w.doing.task].worktree.Some? {
      var v, t := Noted(git, w), w.doing.task;
      SameWork(t, w.store[t], v.store[t]);
      WriteWork(w, v, t, v.store[t]);
    }
  }

  lemma ReviewWork(m: Manifest, git: Git, w: World, step: Step)
    requires WorkOk(w) && (step.Verify? || step.Route? || step.Advance? || step.Pass?)
    ensures WorkOk(Next(m, git, w, step))
  {
    if Here(w) {
      var t := w.doing.task;
      match step
      case Verify => if w.doing.Capturing? { OnwardWork(m, w, VERIFY, Verified(t)); }
      case Route =>
        if w.doing.Verified? {
          OnwardWork(m, w, REVIEW_REQUIRED, Idle);
          OnwardWork(m, w, REVIEW, Passing(t));
        }
      case Advance => if w.doing.Advancing? { OnwardWork(m, w, REVIEW, Passing(t)); }
      case Pass => if w.doing.Passing? { OnwardWork(m, w, INTEGRATE, Idle); }
    }
  }

  lemma AssignWork(m: Manifest, w: World, t: string, a: Assignment)
    requires WorkOk(w)
    ensures WorkOk(Assigned(m, w, t, a))
  {
    if w.doing.Idle? && Loads(m, w, t) && Registered(m, w.store[t], a).Some? {
      var v := Assigned(m, w, t, a);
      assert On1(t);
      SameWork(t, w.store[t], v.store[t]);
      WriteWork(w, v, t, v.store[t]);
    }
  }

  lemma SubmitWork(m: Manifest, w: World, t: string, path: string, review: Report)
    requires WorkOk(w)
    ensures WorkOk(Submitted(m, w, t, path, review))
  {
    if w.doing.Idle? && Loads(m, w, t) && Reviewed(m, w.store[t], path, review).Some? {
      var v := Submitted(m, w, t, path, review);
      assert On1(t);
      SameWork(t, w.store[t], v.store[t]);
      WriteWork(w, v, t, v.store[t]);
    }
  }

  lemma CompleteWork(m: Manifest, git: Git, w: World, t: string, applyOk: bool)
    requires WorkOk(w)
    ensures WorkOk(Completed(m, git, w, t, applyOk))
  {
    if w.doing.Idle? && Loads(m, w, t) && IntegrationReady(m, w.store[t]) {
      assert On1(t);
      EarlyWork(m, w, t, w.store[t].(diff := None), RETRY, Idle);
    }
  }

  lemma GateWork(m: Manifest, w: World, passed: bool, undone: bool)
    requires WorkOk(w)
    ensures WorkOk(Gated(m, w, passed, undone))
  {
    if w.doing.Applied? && Here(w) {
      var t := w.doing.task;
      EarlyWork(m, w.(tree := w.doing.before), t, w.store[t], RETRY, Idle);
      OnwardWork(m, w, FAILED, Idle);
      var v := Gated(m, w, passed, undone);
      if passed && ValidTransition(m, w.store[t].phase, COMPLETE) {
        SameWork(t, w.store[t], v.store[t]);
        WriteWork(w, v, t, v.store[t]);
      }
    }
  }

  lemma StartWork(m: Manifest, w: World, task: Task, security: bool, delivery: bool, usable: bool)
    requires WorkOk(w)
    ensures WorkOk(Started(m, w, task, security, delivery, usable))
  {
    var v := Started(m, w, task, security, delivery, usable);
    if task.id !in w.store && v != w { WriteWork(w, v, task.id, v.store[task.id]); }
  }

  lemma NextWork(m: Manifest, git: Git, w: World, step: Step)
    requires WorkOk(w)
    ensures WorkOk(Next(m, git, w, step))
  {
    match step
    case Crash =>
    case Outside(_, _, _, _) =>
    case Start(task, security, delivery, usable) => StartWork(m, w, task, security, delivery, usable);
    case Assign(t, a) => AssignWork(m, w, t, a);
    case Submit(t, path, review) => SubmitWork(m, w, t, path, review);
    case Complete(t, applyOk) => CompleteWork(m, git, w, t, applyOk);
    case Proceed(prompt) => ProceedWork(m, w, prompt);
    case Block => if w.doing.Refused? && Here(w) { OnwardWork(m, w, BLOCKED, Idle); }
    case Gate(passed, undone) => GateWork(m, w, passed, undone);
    case Verify => ReviewWork(m, git, w, step);
    case Route => ReviewWork(m, git, w, step);
    case Advance => ReviewWork(m, git, w, step);
    case Pass => ReviewWork(m, git, w, step);
    case _ => AttemptWork(m, git, w, step);
  }

  lemma {:induction false} RunWork(m: Manifest, git: Git, w: World, steps: seq<Step>)
    requires WorkOk(w)
    ensures WorkOk(After(m, git, w, steps))
    decreases |steps|
  {
    if steps == [] {
    } else {
      NextWork(m, git, w, steps[0]);
      RunWork(m, git, Next(m, git, w, steps[0]), steps[1..]);
    }
  }

  /** In every run, a record past its worker has a satisfied report on it, whatever crashed. */
  lemma WorkSatisfies(m: Manifest, git: Git, start: World, steps: seq<Step>, t: string)
    requires Fresh(start) && t in After(m, git, start, steps).store
    ensures var r := After(m, git, start, steps).store[t];
      r.phase in {VERIFY, REVIEW_REQUIRED, REVIEW, INTEGRATE, COMPLETE} ==> Satisfying(t, r)
  {
    RunWork(m, git, start, steps);
    assert On1(t);
  }

  // ---- integration that does not succeed ----

  /** The record moved to a phase, if the lifecycle allows it. */
  ghost function Sent(m: Manifest, store: map<string, Record>, t: string, r: Record, target: Phase): map<string, Record>
    requires t in store
  {
    if r.phase in m.transitions && target in m.transitions[r.phase]
    then store[t := r.(phase := target, history := r.history + [target])] else store
  }

  /**
   A gate that fails leaves no trace when the patch is taken back, only a task to be tried again; when it
   cannot be taken back, the task has failed and the patch is still applied.
   */
  lemma FailedGate(m: Manifest, git: Git, w: World, t: string, undone: bool)
    requires Completed(m, git, w, t, true).doing.Applied? && w.doing.Idle?
    ensures t in w.store && t in w.patches && git.applied(w.patches[t], w.tree).Some?
    ensures var v := Gated(m, Completed(m, git, w, t, true), false, undone);
      v == w.(tree := if undone then w.tree else git.applied(w.patches[t], w.tree).value,
              store := Sent(m, w.store, t, w.store[t], if undone then RETRY else FAILED))
  {
    assert VerifiedDiff(git, w, w.store[t], t).value.0 == w.patches[t];
  }

  /** A patch that cannot be verified or applied is forgotten, and its task is tried again. */
  lemma RefusedPatch(m: Manifest, git: Git, w: World, t: string, applyOk: bool)
    requires w.doing.Idle? && Loads(m, w, t) && IntegrationReady(m, w.store[t])
    requires !Completed(m, git, w, t, applyOk).doing.Applied?
    ensures Completed(m, git, w, t, applyOk) == w.(store := Sent(m, w.store, t, w.store[t].(diff := None), RETRY))
  {
  }

  /** A task found in the middle of an attempt forgets its patch and is tried again. */
  lemma Recovered(m: Manifest, w: World, t: string)
    requires w.doing == Entered(t) && t in w.store && w.store[t].phase in {DISPATCHED, WORKER_DONE, VERIFY}
    ensures Proceeded(m, w, true).store == Sent(m, w.store, t, w.store[t].(diff := None), RETRY)
  {
  }

  // ---- which tasks are taken up ----

  /** A task is taken up exactly with a provider, as a writer's, and if it exists in a phase that is known and open. */
  lemma StartsExact(m: Manifest, w: World, task: Task, security: bool, delivery: bool, usable: bool)
    requires w.doing.Idle?
    ensures var v, t := Started(m, w, task, security, delivery, usable), task.id;
      && (v.doing == Entered(t) <==>
          && usable
          && (t in w.store ==> w.store[t].phase in m.transitions && w.store[t].phase !in m.terminal)
          && (if t in w.store then w.store[t].task else task).role in {"IMPLEMENTER", "PLATFORM_IMPLEMENTER"})
      && (v.doing == Refused(t) <==> t !in w.store && !usable)
      && (v.doing.Idle? ==> v == w)
  {
  }

  /** A record in a phase the manifest does not know is never touched. */
  lemma {:induction false} UnknownUntouched(m: Manifest, git: Git, w: World, steps: seq<Step>, t: string)
    requires t in w.store && w.store[t].phase !in m.transitions && (w.doing.Idle? || w.doing.task != t)
    ensures var v := After(m, git, w, steps);
      t in v.store && v.store[t] == w.store[t]
    decreases |steps|
  {
    if steps == [] {
    } else {
      UnknownStep(m, git, w, steps[0], t);
      UnknownUntouched(m, git, Next(m, git, w, steps[0]), steps[1..], t);
    }
  }

  /** The controller is somewhere else and has left this record alone. */
  ghost predicate Untouched(w: World, v: World, t: string) {
    t in w.store && t in v.store && v.store[t] == w.store[t] && (v.doing.Idle? || v.doing.task != t)
  }

  lemma WriteElsewhere(m: Manifest, w: World, u: string, r: Record, target: Phase, next: Activity, t: string)
    requires t in w.store && u != t && (next.Idle? || next.task != t)
    ensures Untouched(w, Write(m, w, u, r, target, next), t)
  {
  }

  lemma ProceedElsewhere(m: Manifest, w: World, prompt: bool, t: string)
    requires t in w.store && (w.doing.Idle? || w.doing.task != t)
    ensures Untouched(w, Proceeded(m, w, prompt), t)
  {
    if w.doing.Entered? && Here(w) {
      var u := w.doing.task;
      var r := w.store[u];
      WriteElsewhere(m, w, u, r, CLASSIFIED, Entered(u), t);
      WriteElsewhere(m, w, u, r, PACKET_READY, Entered(u), t);
      WriteElsewhere(m, w, u, r, INTEGRATE, Idle, t);
      WriteElsewhere(m, w, u, r.(diff := None), RETRY, Entered(u), t);
    }
  }

  lemma WorktreeElsewhere(m: Manifest, git: Git, w: World, step: Step, t: string)
    requires t in w.store && (w.doing.Idle? || w.doing.task != t)
    requires step.Create? || step.Dispatch? || step.Block?
    ensures Untouched(w, Next(m, git, w, step), t)
  {
  }

  lemma WorkerElsewhere(m: Manifest, git: Git, w: World, step: Step, t: string)
    requires t in w.store && (w.doing.Idle? || w.doing.task != t)
    requires step.Finish? || step.Judge? || step.Note?
    ensures Untouched(w, Next(m, git, w, step), t)
  {
  }

  lemma RouteElsewhere(m: Manifest, git: Git, w: World, step: Step, t: string)
    requires t in w.store && (w.doing.Idle? || w.doing.task != t)
    requires step.Verify? || step.Route?
    ensures Untouched(w, Next(m, git, w, step), t)
  {
  }

  lemma GateElsewhere(m: Manifest, git: Git, w: World, step: Step, t: string)
    requires t in w.store && (w.doing.Idle? || w.doing.task != t)
    requires step.Advance? || step.Pass? || step.Gate?
    ensures Untouched(w, Next(m, git, w, step), t)
  {
  }

  lemma UnknownCall(m: Manifest, git: Git, w: World, step: Step, t: string)
    requires t in w.store && w.store[t].phase !in m.transitions && (w.doing.Idle? || w.doing.task != t)
    requires step.Start? || step.Assign? || step.Submit?
    ensures Untouched(w, Next(m, git, w, step), t)
  {
  }

  lemma UnknownComplete(m: Manifest, git: Git, w: World, u: string, applyOk: bool, t: string)
    requires t in w.store && w.store[t].phase !in m.transitions && (w.doing.Idle? || w.doing.task != t)
    ensures Untouched(w, Completed(m, git, w, u, applyOk), t)
  {
    if u != t && u in w.store { WriteElsewhere(m, w, u, w.store[u].(diff := None), RETRY, Idle, t); }
  }

  lemma UnknownStep(m: Manifest, git: Git, w: World, step: Step, t: string)
    requires t in w.store && w.store[t].phase !in m.transitions && (w.doing.Idle? || w.doing.task != t)
    ensures Untouched(w, Next(m, git, w, step), t)
  {
    if step.Proceed? {
      ProceedElsewhere(m, w, step.promptExists, t);
    } else if step.Complete? {
      UnknownComplete(m, git, w, step.id, step.applyOk, t);
    } else if step.Start? || step.Assign? || step.Submit? {
      UnknownCall(m, git, w, step, t);
    } else if step.Create? || step.Dispatch? || step.Block? {
      WorktreeElsewhere(m, git, w, step, t);
    } else if step.Finish? || step.Judge? || step.Note? {
      WorkerElsewhere(m, git, w, step, t);
    } else if step.Verify? || step.Route? {
      RouteElsewhere(m, git, w, step, t);
    } else if step.Advance? || step.Pass? || step.Gate? {
      GateElsewhere(m, git, w, step, t);
    }
  }

  /** Others may do what they like to the checkout, the patch files and the worktrees, except during the gate. */
  lemma Unhindered(m: Manifest, git: Git, w: World, head: string, tree: Tree, patches: map<string, string>,
                   worktrees: set<string>)
    ensures Reaches(m, git, w, if w.doing.Applied? then w
      else w.(head := head, tree := tree, patches := patches, worktrees := worktrees))
  {
    ReachesItself(m, git, w);
    ReachesStep(m, git, w, w, Outside(head, tree, patches, worktrees));
  }

  // ---- where a pass ends ----

  /** Every pass of the task loop ends, done or dead, with the controller in the middle of nothing. */
  lemma PassEnds(m: Manifest, git: Git, w: World, task: Task, security: bool, delivery: bool, a: Answers)
    requires w.doing.Idle?
    ensures TaskRun(m, git, w, task, security, delivery, a).doing.Idle?
  {
    var entered := Entering(m, w, task, security, delivery, a.usable);
    var prepared := Prepared(m, entered, a.prompt);
    EnteringEnds(m, w, task, security, delivery, a.usable);
    PreparedEnds(m, entered, a.prompt);
    if prepared.doing.Ready? {
      AttemptEnds(m, git, prepared, a);
      ConcludedEnds(m, Attempted(m, git, prepared, a));
    } else {
      ResumedEnds(m, prepared);
    }
  }

  lemma ResumedEnds(m: Manifest, w: World)
    requires w.doing.Idle? || (w.doing.Advancing? && Here(w))
    ensures Resumed(m, w).doing.Idle?
  {
  }

  lemma AttemptEnds(m: Manifest, git: Git, w: World, a: Answers)
    requires w.doing.Ready? && Here(w)
    ensures var v := Attempted(m, git, w, a);
      v.doing.Idle? || (v.doing.Capturing? && Here(v))
  {
    WorkedEnds(m, git, w, a);
    JudgedEnds(m, git, Worked(m, git, w, a), a.payload);
  }

  lemma WorkedEnds(m: Manifest, git: Git, w: World, a: Answers)
    requires w.doing.Ready? && Here(w)
    ensures var v := Worked(m, git, w, a);
      v.doing.Idle? || (v.doing.Reported? && Here(v) && v.store[v.doing.task].worktree.Some?)
  {
  }

  lemma JudgedEnds(m: Manifest, git: Git, w: World, payload: Option<string>)
    requires w.doing.Idle? || (w.doing.Reported? && Here(w) && w.store[w.doing.task].worktree.Some?)
    ensures var v := Noted(git, Judged(m, w, payload));
      v.doing.Idle? || (v.doing.Capturing? && Here(v))
  {
  }

  lemma ConcludedEnds(m: Manifest, w: World)
    requires w.doing.Idle? || (w.doing.Capturing? && Here(w))
    ensures Concluded(m, w).doing.Idle?
  {
  }

  /** So does every run of the gate. */
  lemma GateEnds(m: Manifest, w: World, passed: bool, undone: bool)
    requires w.doing.Applied? && Here(w)
    ensures Gated(m, w, passed, undone).doing.Idle?
  {
  }

  /** From wherever, the controller advances a record only out of REVIEW_REQUIRED and with all reviews in. */
  lemma AdvanceNeeds(m: Manifest, w: World)
    ensures Advanced(m, w).store != w.store ==>
      Here(w) && w.store[w.doing.task].phase == REVIEW_REQUIRED && HasEvidence(m, w.store[w.doing.task])
  {
  }

  /** A held task that is taken up again goes on to its integration exactly if its reviews are complete. */
  lemma HeldResumes(m: Manifest, git: Git, w: World, task: Task, security: bool, delivery: bool, a: Answers)
    requires w.doing.Idle? && task.id in w.store && w.store[task.id].phase == REVIEW_REQUIRED
    requires Started(m, w, task, security, delivery, a.usable).doing.Entered?
    requires ValidTransition(m, REVIEW_REQUIRED, REVIEW) && ValidTransition(m, REVIEW, INTEGRATE)
    ensures var v, r := TaskRun(m, git, w, task, security, delivery, a), w.store[task.id];
      if HasEvidence(m, r)
      then v == w.(store := w.store[task.id := r.(phase := INTEGRATE, history := r.history + [REVIEW] + [INTEGRATE])])
      else v == w
  {
    var t := task.id;
    var r := w.store[t];
    var entered := w.(doing := Entered(t));
    assert Entering(m, w, task, security, delivery, a.usable) == entered;
    if HasEvidence(m, r) {
      var advancing := w.(doing := Advancing(t));
      assert Prepared(m, entered, a.prompt) == advancing;
      ResumedAdvances(m, w, t);
    } else {
      assert Prepared(m, entered, a.prompt) == w;
    }
  }

  lemma ResumedAdvances(m: Manifest, w: World, t: string)
    requires w.doing.Idle? && t in w.store && w.store[t].phase == REVIEW_REQUIRED && HasEvidence(m, w.store[t])
    requires ValidTransition(m, REVIEW_REQUIRED, REVIEW) && ValidTransition(m, REVIEW, INTEGRATE)
    ensures var r := w.store[t];
      Resumed(m, w.(doing := Advancing(t))) ==
        w.(store := w.store[t := r.(phase := INTEGRATE, history := r.history + [REVIEW] + [INTEGRATE])])
  {
    var r := w.store[t];
    var passing := r.(phase := REVIEW, history := r.history + [REVIEW]);
    var ready := passing.(phase := INTEGRATE, history := passing.history + [INTEGRATE]);
    assert Advanced(m, w.(doing := Advancing(t))) == w.(store := w.store[t := passing], doing := Passing(t));
    assert w.store[t := passing][t := ready] == w.store[t := ready];
  }
}
