/** Attempts over whole runs: every dispatch of a writer goes to an isolation identity of its own. */
module KernelAttempts {
  import opened Common
  import opened Contract
  import opened Kernel
  import opened KernelSafety
  import opened KernelRuns
  import opened Markers

  /** The attempts on record, by task. */
  ghost predicate Kept(a: map<string, Record>, b: map<string, Record>) {
    forall t {:trigger On1(t)} :: On1(t) && t in a ==> t in b && a[t].attempt <= b[t].attempt
  }

  ghost predicate Silent(log: seq<Event>, more: seq<Event>) {
    more == log || (|more| == |log| + 1 && more[..|log|] == log && !more[|log|].DispatchedWriter?)
  }

  /** A step that dispatches nobody: no attempt is forgotten and no dispatch is logged. */
  ghost predicate Quiet(w: World, v: World) { Kept(w.store, v.store) && Silent(w.log, v.log) }

  lemma QuietWrite(m: Manifest, w: World, t: string, r: Record, target: Phase, next: Activity)
    requires t in w.store ==> w.store[t].attempt <= r.attempt
    ensures Quiet(w, Write(m, w, t, r, target, next))
  {
  }

  lemma QuietOnward(m: Manifest, w: World, target: Phase, next: Activity)
    ensures Quiet(w, Onward(m, w, target, next))
  {
    if Here(w) { QuietWrite(m, w, w.doing.task, w.store[w.doing.task], target, next); }
  }

  lemma QuietProceeded(m: Manifest, w: World, promptExists: bool)
    ensures Quiet(w, Proceeded(m, w, promptExists))
  {
    if w.doing.Entered? && Here(w) {
      var t := w.doing.task;
      match w.store[t].phase
      case INTAKE => QuietOnward(m, w, CLASSIFIED, Entered(t));
      case CLASSIFIED => QuietOnward(m, w, PACKET_READY, Entered(t));
      case RETRY => QuietOnward(m, w, PACKET_READY, Entered(t));
      case REVIEW_REQUIRED =>
      case REVIEW => QuietOnward(m, w, INTEGRATE, Idle);
      case INTEGRATE =>
      case _ => QuietWrite(m, w, t, w.store[t].(diff := None), RETRY, Entered(t));
    }
  }

  lemma QuietJudged(m: Manifest, w: World, payload: Option<string>)
    ensures Quiet(w, Judged(m, w, payload))
  {
    if w.doing.Reported? && Here(w) {
      var verdict := Verdict(w.store[w.doing.task], w.doing.task, w.doing.exitOk);
      QuietOnward(m, w, if verdict.Some? then verdict.value else RETRY, Idle);
    }
  }

  lemma QuietRoute(m: Manifest, git: Git, w: World, step: Step)
    requires step.Note? || step.Verify? || step.Route?
    ensures Quiet(w, Next(m, git, w, step))
  {
  }

  lemma QuietWork(m: Manifest, git: Git, w: World, step: Step)
    requires step.Create? || step.Finish? || step.Judge? || step.Note? || step.Verify? || step.Route?
    ensures Quiet(w, Next(m, git, w, step))
  {
    if step.Judge? {
      QuietJudged(m, w, step.payload);
    } else if step.Note? || step.Verify? || step.Route? {
      QuietRoute(m, git, w, step);
    }
  }

  lemma QuietReview(m: Manifest, git: Git, w: World, step: Step)
    requires step.Assign? || step.Submit? || step.Advance?
    ensures Quiet(w, Next(m, git, w, step))
  {
  }

  lemma QuietGate(m: Manifest, git: Git, w: World, step: Step)
    requires step.Complete? || step.Gate?
    ensures Quiet(w, Next(m, git, w, step))
  {
  }

  lemma QuietNext(m: Manifest, git: Git, w: World, step: Step)
    requires !step.Dispatch?
    ensures Quiet(w, Next(m, git, w, step))
  {
    match step
    case Crash =>
    case Outside(_, _, _, _) =>
    case Start(_, _, _, _) =>
    case Block => QuietOnward(m, w, BLOCKED, Idle);
    case Proceed(promptExists) => QuietProceeded(m, w, promptExists);
    case Pass => QuietOnward(m, w, INTEGRATE, Idle);
    case _ =>
      if step.Create? || step.Finish? || step.Judge? || step.Note? || step.Verify? || step.Route? {
        QuietWork(m, git, w, step);
      } else if step.Complete? || step.Gate? {
        QuietGate(m, git, w, step);
      } else {
        QuietReview(m, git, w, step);
      }
  }

  // ---- every dispatch has its own attempt ----

  ghost predicate Logged(store: map<string, Record>, e: Event) {
    e.DispatchedWriter? ==> e.task in store && e.attempt <= store[e.task].attempt
  }

  ghost predicate Ordered(e: Event, f: Event) {
    e.DispatchedWriter? && f.DispatchedWriter? && e.task == f.task ==> e.attempt < f.attempt
  }

  ghost predicate Once(w: World) {
    && (forall i :: 0 <= i < |w.log| ==> Logged(w.store, w.log[i]))
    && (forall i, j :: 0 <= i < j < |w.log| ==> Ordered(w.log[i], w.log[j]))
  }

  lemma OnceQuiet(w: World, v: World)
    requires Once(w) && Quiet(w, v)
    ensures Once(v)
  {
    forall i | 0 <= i < |v.log| ensures Logged(v.store, v.log[i]) {
      if v.log[i].DispatchedWriter? {
        assert v.log[i] == w.log[i] && Logged(w.store, w.log[i]);
        assert On1(v.log[i].task);
      }
    }
    forall i, j | 0 <= i < j < |v.log| ensures Ordered(v.log[i], v.log[j]) {
      if j < |w.log| { assert v.log[i] == w.log[i] && v.log[j] == w.log[j]; }
    }
  }

  lemma {:induction false} OnceAfter(m: Manifest, git: Git, w: World, steps: seq<Step>)
    requires Once(w)
    ensures Once(After(m, git, w, steps))
    decreases |steps|
  {
    if steps == [] {
    } else {
      var v := Next(m, git, w, steps[0]);
      if steps[0].Dispatch? {
      } else {
        QuietNext(m, git, w, steps[0]);
        OnceQuiet(w, v);
      }
      OnceAfter(m, git, v, steps[1..]);
    }
  }

  /** In every run, with every crash and recovery, no two dispatched writers share an isolation identity. */
  lemma IsolationNeverShared(m: Manifest, git: Git, start: World, steps: seq<Step>, i: nat, j: nat)
    requires Named(git) && Fresh(start) && i < j < |After(m, git, start, steps).log|
    requires var log := After(m, git, start, steps).log; log[i].DispatchedWriter? && log[j].DispatchedWriter?
    ensures var log := After(m, git, start, steps).log; log[i].worktree.isolation != log[j].worktree.isolation
  {
    var w := After(m, git, start, steps);
    OnceAfter(m, git, start, steps);
    Reachable(m, git, start, steps);
    var e, f := w.log[i], w.log[j];
    assert Good(m, git, w.log, e) && Good(m, git, w.log, f) && Ordered(e, f);
    if Identity(e.task, e.attempt) == Identity(f.task, f.attempt) {
      IdentityInjective(e.task, e.attempt, f.task, f.attempt);
      assert false;
    }
  }
}
