/**
 One pass of the task loop over one task, on values: load or create the record, bring it to its packet,
 run an attempt, and go on to review or integration. Every pass is a run of the state machine.
 */
module KernelTasks {
  import opened Common
  import opened Contract
  import opened Kernel
  import opened KernelSafety

  // ---- reaching a world ----

  ghost predicate Reaches(m: Manifest, git: Git, w: World, v: World) {
    exists steps :: After(m, git, w, steps) == v
  }

  lemma {:induction false} AfterJoin(m: Manifest, git: Git, w: World, first: seq<Step>, rest: seq<Step>)
    ensures After(m, git, w, first + rest) == After(m, git, After(m, git, w, first), rest)
    decreases |first|
  {
    if first == [] {
      assert first + rest == rest;
    } else {
      assert (first + rest)[1..] == first[1..] + rest;
      AfterJoin(m, git, Next(m, git, w, first[0]), first[1..], rest);
    }
  }

  lemma ReachesOn(m: Manifest, git: Git, w: World, v: World, x: World)
    requires Reaches(m, git, w, v) && Reaches(m, git, v, x)
    ensures Reaches(m, git, w, x)
  {
    var first :| After(m, git, w, first) == v;
    var rest :| After(m, git, v, rest) == x;
    AfterJoin(m, git, w, first, rest);
    assert After(m, git, w, first + rest) == x;
  }

  lemma ReachesStep(m: Manifest, git: Git, w: World, v: World, step: Step)
    requires Reaches(m, git, w, v)
    ensures Reaches(m, git, w, Next(m, git, v, step))
  {
    var x := Next(m, git, v, step);
    assert After(m, git, v, [step]) == After(m, git, x, []) == x;
    ReachesOn(m, git, w, v, x);
  }

  lemma ReachesItself(m: Manifest, git: Git, w: World)
    ensures Reaches(m, git, w, w)
  {
    assert After(m, git, w, []) == w;
  }

  lemma ReachesOk(m: Manifest, git: Git, w: World, v: World)
    requires AttemptsApart(git) && Inv(m, git, w) && Reaches(m, git, w, v)
    ensures Inv(m, git, v)
  {
    var steps :| After(m, git, w, steps) == v;
    AfterOk(m, git, w, steps);
  }

  // ---- the pass ----

  /** What the provider, the file system, git and the worker answer in one pass. */
  datatype Answers = Answers(
    usable: bool, prompt: bool, ok: bool,
    report: Report, changed: seq<string>, response: string, exitOk: bool, payload: Option<string>)

  /** The record is loaded or created; a new one without a provider is blocked. */
  function Entering(m: Manifest, w: World, task: Task, security: bool, delivery: bool, usable: bool): World {
    var started := Started(m, w, task, security, delivery, usable);
    if started.doing.Refused? then Onward(m, started, BLOCKED, Idle) else started
  }

  /** Up to three durable writes bring the record to its packet. */
  function Prepared(m: Manifest, w: World, prompt: bool): World {
    Proceeded(m, Proceeded(m, Proceeded(m, w, prompt), prompt), prompt)
  }

  /** From the worktree to the report of the worker. */
  function Worked(m: Manifest, git: Git, w: World, a: Answers): World {
    Finished(m, Dispatched(m, Begun(m, git, w, a.ok)), a.report, a.changed, a.response, a.exitOk)
  }

  /** And to the captured patch. */
  function Attempted(m: Manifest, git: Git, w: World, a: Answers): World {
    Noted(git, Judged(m, Worked(m, git, w, a), a.payload))
  }

  /** Three durable writes: VERIFY, then REVIEW_REQUIRED, or REVIEW and INTEGRATE. */
  function Concluded(m: Manifest, w: World): World {
    if !w.doing.Capturing? then w else Passed(m, Routed(m, Onward(m, w, VERIFY, Verified(w.doing.task))))
  }

  function Passed(m: Manifest, w: World): World {
    if w.doing.Passing? then Onward(m, w, INTEGRATE, Idle) else w
  }

  /** A task that waited for review goes on when its evidence suffices. */
  function Resumed(m: Manifest, w: World): World {
    if w.doing.Advancing? then Passed(m, Advanced(m, w)) else w
  }

  function TaskRun(m: Manifest, git: Git, w: World, task: Task, security: bool, delivery: bool, a: Answers): World {
    var prepared := Prepared(m, Entering(m, w, task, security, delivery, a.usable), a.prompt);
    if prepared.doing.Ready? then Concluded(m, Attempted(m, git, prepared, a)) else Resumed(m, prepared)
  }

  // ---- every pass is a run ----

  lemma EnteringReaches(m: Manifest, git: Git, w: World, task: Task, security: bool, delivery: bool, usable: bool)
    ensures Reaches(m, git, w, Entering(m, w, task, security, delivery, usable))
  {
    var started := Started(m, w, task, security, delivery, usable);
    ReachesItself(m, git, w);
    ReachesStep(m, git, w, w, Start(task, security, delivery, usable));
    if started.doing.Refused? { ReachesStep(m, git, w, started, Block); }
  }

  lemma PreparedReaches(m: Manifest, git: Git, w: World, prompt: bool)
    ensures Reaches(m, git, w, Prepared(m, w, prompt))
  {
    var a := Proceeded(m, w, prompt);
    var b := Proceeded(m, a, prompt);
    ReachesItself(m, git, w);
    ReachesStep(m, git, w, w, Proceed(prompt));
    ReachesStep(m, git, w, a, Proceed(prompt));
    ReachesStep(m, git, w, b, Proceed(prompt));
  }

  lemma WorkedReaches(m: Manifest, git: Git, w: World, a: Answers)
    ensures Reaches(m, git, w, Worked(m, git, w, a))
  {
    var begun := Begun(m, git, w, a.ok);
    var sent := Dispatched(m, begun);
    ReachesItself(m, git, w);
    assert Reaches(m, git, w, begun) by { ReachesStep(m, git, w, w, Create(a.ok)); }
    assert Reaches(m, git, w, sent) by { ReachesStep(m, git, w, begun, Dispatch); }
    ReachesStep(m, git, w, sent, Finish(a.report, a.changed, a.response, a.exitOk));
  }

  lemma CapturedReaches(m: Manifest, git: Git, w: World, payload: Option<string>)
    ensures Reaches(m, git, w, Noted(git, Judged(m, w, payload)))
  {
    var judged := Judged(m, w, payload);
    ReachesItself(m, git, w);
    assert Reaches(m, git, w, judged) by { ReachesStep(m, git, w, w, Judge(payload)); }
    ReachesStep(m, git, w, judged, Note);
  }

  /** An attempt is a run of the state machine, so it can be cut short by a crash anywhere. */
  lemma AttemptReaches(m: Manifest, git: Git, w: World, a: Answers)
    ensures Reaches(m, git, w, Attempted(m, git, w, a))
  {
    WorkedReaches(m, git, w, a);
    CapturedReaches(m, git, Worked(m, git, w, a), a.payload);
    ReachesOn(m, git, w, Worked(m, git, w, a), Attempted(m, git, w, a));
  }

  lemma PassedReaches(m: Manifest, git: Git, w: World)
    ensures Reaches(m, git, w, Passed(m, w))
  {
    ReachesItself(m, git, w);
    ReachesStep(m, git, w, w, Pass);
  }

  /** So is what follows an attempt. */
  lemma ConcludedReaches(m: Manifest, git: Git, w: World)
    ensures Reaches(m, git, w, Concluded(m, w))
  {
    ReachesItself(m, git, w);
    if w.doing.Capturing? {
      var checked := Onward(m, w, VERIFY, Verified(w.doing.task));
      var routed := Routed(m, checked);
      ReachesStep(m, git, w, w, Verify);
      ReachesStep(m, git, w, checked, Route);
      PassedReaches(m, git, routed);
      ReachesOn(m, git, w, routed, Passed(m, routed));
    }
  }

  lemma ResumedReaches(m: Manifest, git: Git, w: World)
    ensures Reaches(m, git, w, Resumed(m, w))
  {
    ReachesItself(m, git, w);
    if w.doing.Advancing? {
      var advanced := Advanced(m, w);
      ReachesStep(m, git, w, w, Advance);
      PassedReaches(m, git, advanced);
      ReachesOn(m, git, w, advanced, Passed(m, advanced));
    }
  }

  /** A whole pass of the task loop is a run of the state machine. */
  lemma TaskReaches(m: Manifest, git: Git, w: World, task: Task, security: bool, delivery: bool, a: Answers)
    ensures Reaches(m, git, w, TaskRun(m, git, w, task, security, delivery, a))
  {
    var entered := Entering(m, w, task, security, delivery, a.usable);
    var prepared := Prepared(m, entered, a.prompt);
    EnteringReaches(m, git, w, task, security, delivery, a.usable);
    PreparedReaches(m, git, entered, a.prompt);
    ReachesOn(m, git, w, entered, prepared);
    if prepared.doing.Ready? {
      var attempted := Attempted(m, git, prepared, a);
      AttemptReaches(m, git, prepared, a);
      ConcludedReaches(m, git, attempted);
      ReachesOn(m, git, w, prepared, attempted);
      ReachesOn(m, git, w, attempted, Concluded(m, attempted));
    } else {
      ResumedReaches(m, git, prepared);
      ReachesOn(m, git, w, prepared, Resumed(m, prepared));
    }
  }

  // ---- where a pass ends ----

  lemma EnteringEnds(m: Manifest, w: World, task: Task, security: bool, delivery: bool, usable: bool)
    requires w.doing.Idle?
    ensures var v := Entering(m, w, task, security, delivery, usable);
      && (v.doing.Idle? || (v.doing == Entered(task.id) && task.id in v.store))
      && v.store - {task.id} == w.store - {task.id}
  {
    var v := Entering(m, w, task, security, delivery, usable);
    assert v.store - {task.id} == w.store - {task.id};
  }

  /** After the packet the task is ready for an attempt, has its evidence, or is done with for this pass. */
  lemma PreparedEnds(m: Manifest, w: World, prompt: bool)
    requires w.doing.Idle? || (w.doing.Entered? && Here(w))
    ensures var v := Prepared(m, w, prompt);
      v.doing.Idle? || (Here(v) && (v.doing == Ready(w.doing.task) || v.doing == Advancing(w.doing.task)))
  {
    if !w.doing.Idle? {
      var a := Proceeded(m, w, prompt);
      var b := Proceeded(m, a, prompt);
      ProceededEnds(m, w, prompt);
      if a.doing.Entered? {
        ProceededEnds(m, a, prompt);
        if b.doing.Entered? { ProceededEnds(m, b, prompt); }
      }
    }
  }

  /** How far a record is from its packet. */
  function Distance(p: Phase): nat {
    match p
    case INTAKE => 2
    case DISPATCHED => 2
    case WORKER_DONE => 2
    case VERIFY => 2
    case CLASSIFIED => 1
    case RETRY => 1
    case _ => 0
  }

  lemma WriteEnds(m: Manifest, w: World, t: string, r: Record, target: Phase, next: Activity)
    requires t in w.store
    ensures var v := Write(m, w, t, r, target, next);
      t in v.store && (v.doing.Idle? || (v.doing == next && v.store[t].phase == target))
  {
  }

  lemma ProceededEnds(m: Manifest, w: World, prompt: bool)
    requires w.doing.Entered? && Here(w)
    ensures var v, t := Proceeded(m, w, prompt), w.doing.task;
      && t in v.store
      && (v.doing.Idle? || v.doing == Ready(t) || v.doing == Advancing(t) ||
          (v.doing == Entered(t) && Distance(v.store[t].phase) < Distance(w.store[t].phase)))
  {
    var t := w.doing.task;
    var r := w.store[t];
    match r.phase
    case INTAKE => WriteEnds(m, w, t, r, CLASSIFIED, Entered(t));
    case CLASSIFIED => WriteEnds(m, w, t, r, PACKET_READY, Entered(t));
    case RETRY => WriteEnds(m, w, t, r, PACKET_READY, Entered(t));
    case REVIEW => WriteEnds(m, w, t, r, INTEGRATE, Idle);
    case REVIEW_REQUIRED =>
    case INTEGRATE =>
    case _ => WriteEnds(m, w, t, r.(diff := None), RETRY, Entered(t));
  }
}
