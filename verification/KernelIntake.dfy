/**
 What a task brings with it: the packet, the base and the two gate flags given when its record was
 created stay with it through every run, and decide which reviews it needs to become COMPLETE.
 */
module KernelIntake {
  import opened Common
  import opened Contract
  import opened Kernel
  import opened KernelSafety
  import opened KernelRuns
  import opened KernelTasks
  import opened Markers

  /** Two records of the same task, from the same intake. */
  predicate SameIntake(r: Record, q: Record) {
    q.task == r.task && q.base == r.base && q.security == r.security && q.delivery == r.delivery
  }

  /** No record is forgotten or given another intake. */
  ghost predicate Kept(a: map<string, Record>, b: map<string, Record>) {
    forall t {:trigger On1(t)} :: On1(t) && t in a ==> t in b && SameIntake(a[t], b[t])
  }

  /** No record appears. */
  ghost predicate Closed(a: map<string, Record>, b: map<string, Record>) {
    forall t {:trigger On1(t)} :: On1(t) && t in b ==> t in a
  }

  lemma WriteKeeps(m: Manifest, w: World, t: string, r: Record, target: Phase, next: Activity)
    requires t in w.store && SameIntake(w.store[t], r)
    ensures var v := Write(m, w, t, r, target, next); Kept(w.store, v.store) && Closed(w.store, v.store)
  {
    assert On1(t);
  }

  lemma OnwardKeeps(m: Manifest, w: World, target: Phase, next: Activity)
    ensures var v := Onward(m, w, target, next); Kept(w.store, v.store) && Closed(w.store, v.store)
  {
    if Here(w) { WriteKeeps(m, w, w.doing.task, w.store[w.doing.task], target, next); }
  }

  lemma ProceedEarlyKeeps(m: Manifest, w: World, prompt: bool)
    requires w.doing.Entered? && Here(w) && w.store[w.doing.task].phase in {INTAKE, CLASSIFIED, RETRY, REVIEW}
    ensures var v := Proceeded(m, w, prompt); Kept(w.store, v.store) && Closed(w.store, v.store)
  {
    var t := w.doing.task;
    var phase := w.store[t].phase;
    if phase == INTAKE {
      OnwardKeeps(m, w, CLASSIFIED, Entered(t));
    } else if phase == REVIEW {
      OnwardKeeps(m, w, INTEGRATE, Idle);
    } else {
      OnwardKeeps(m, w, PACKET_READY, Entered(t));
    }
  }

  lemma ProceedKeeps(m: Manifest, w: World, prompt: bool)
    ensures var v := Proceeded(m, w, prompt); Kept(w.store, v.store) && Closed(w.store, v.store)
  {
    if w.doing.Entered? && Here(w) {
      var t := w.doing.task;
      if w.store[t].phase in {INTAKE, CLASSIFIED, RETRY, REVIEW} {
        ProceedEarlyKeeps(m, w, prompt);
      } else {
        WriteKeeps(m, w, t, w.store[t].(diff := None), RETRY, Entered(t));
      }
    }
  }

  lemma DispatchKeeps(m: Manifest, git: Git, w: World, step: Step)
    requires step.Create? || step.Dispatch?
    ensures var v := Next(m, git, w, step); Kept(w.store, v.store) && Closed(w.store, v.store)
  {
    if !w.doing.Idle? { assert On1(w.doing.task); }
  }

  lemma JudgeKeeps(m: Manifest, w: World, payload: Option<string>)
    ensures var v := Judged(m, w, payload); Kept(w.store, v.store) && Closed(w.store, v.store)
  {
    if w.doing.Reported? && Here(w) {
      var verdict := Verdict(w.store[w.doing.task], w.doing.task, w.doing.exitOk);
      OnwardKeeps(m, w, if verdict.Some? then verdict.value else RETRY, Idle);
    }
  }

  lemma WorkKeeps(m: Manifest, git: Git, w: World, step: Step)
    requires step.Finish? || step.Note?
    ensures var v := Next(m, git, w, step); Kept(w.store, v.store) && Closed(w.store, v.store)
  {
    if !w.doing.Idle? { assert On1(w.doing.task); }
  }

  lemma ReviewKeeps(m: Manifest, git: Git, w: World, step: Step)
    requires step.Assign? || step.Submit?
    ensures var v := Next(m, git, w, step); Kept(w.store, v.store) && Closed(w.store, v.store)
  {
    assert On1(step.id);
  }

  lemma RouteKeeps(m: Manifest, git: Git, w: World, step: Step)
    requires step.Advance? || step.Verify? || step.Route? || step.Pass?
    ensures var v := Next(m, git, w, step); Kept(w.store, v.store) && Closed(w.store, v.store)
  {
    match step
    case Verify => if w.doing.Capturing? { OnwardKeeps(m, w, VERIFY, Verified(w.doing.task)); }
    case Pass => OnwardKeeps(m, w, INTEGRATE, Idle);
    case Advance => if w.doing.Advancing? { OnwardKeeps(m, w, REVIEW, Passing(w.doing.task)); }
    case Route =>
      if w.doing.Verified? {
        OnwardKeeps(m, w, REVIEW_REQUIRED, Idle);
        OnwardKeeps(m, w, REVIEW, Passing(w.doing.task));
      }
  }

  lemma CompleteKeeps(m: Manifest, git: Git, w: World, t: string, applyOk: bool)
    ensures var v := Completed(m, git, w, t, applyOk); Kept(w.store, v.store) && Closed(w.store, v.store)
  {
    assert On1(t);
  }

  lemma GateKeeps(m: Manifest, w: World, passed: bool, undone: bool)
    ensures var v := Gated(m, w, passed, undone); Kept(w.store, v.store) && Closed(w.store, v.store)
  {
    if !w.doing.Idle? { assert On1(w.doing.task); }
  }

  /** Only a start creates a record, and only one with the task's own id. */
  lemma StepKeeps(m: Manifest, git: Git, w: World, step: Step)
    ensures Kept(w.store, Next(m, git, w, step).store)
    ensures !step.Start? ==> Closed(w.store, Next(m, git, w, step).store)
  {
    if step.Proceed? {
      ProceedKeeps(m, w, step.promptExists);
    } else if step.Block? {
      OnwardKeeps(m, w, BLOCKED, Idle);
    } else if step.Complete? {
      CompleteKeeps(m, git, w, step.id, step.applyOk);
    } else if step.Gate? {
      GateKeeps(m, w, step.passed, step.undone);
    } else if step.Create? || step.Dispatch? {
      DispatchKeeps(m, git, w, step);
    } else if step.Judge? {
      JudgeKeeps(m, w, step.payload);
    } else if step.Finish? || step.Note? {
      WorkKeeps(m, git, w, step);
    } else if step.Assign? || step.Submit? {
      ReviewKeeps(m, git, w, step);
    } else if step.Advance? || step.Verify? || step.Route? || step.Pass? {
      RouteKeeps(m, git, w, step);
    }
  }

  lemma {:induction false} RunKeeps(m: Manifest, git: Git, w: World, steps: seq<Step>, t: string)
    requires t in w.store
    ensures t in After(m, git, w, steps).store && SameIntake(w.store[t], After(m, git, w, steps).store[t])
    decreases |steps|
  {
    assert On1(t);
    if steps == [] {
    } else {
      StepKeeps(m, git, w, steps[0]);
      RunKeeps(m, git, Next(m, git, w, steps[0]), steps[1..], t);
    }
  }

  /** Step i of a run creates the record of t. */
  ghost predicate Creates(m: Manifest, git: Git, start: World, steps: seq<Step>, i: nat, t: string) {
    && i < |steps| && t !in After(m, git, start, steps[..i]).store
    && t in After(m, git, start, steps[..i + 1]).store
  }

  /**
   The record of a task is created by a start with its id, and keeps the packet, the flags and the
   commit that were current at that start.
   */
  lemma IntakeKept(m: Manifest, git: Git, start: World, steps: seq<Step>, i: nat, t: string)
    requires Creates(m, git, start, steps, i, t)
    ensures steps[i].Start? && steps[i].task.id == t && t in After(m, git, start, steps).store
    ensures var r, given := After(m, git, start, steps).store[t], steps[i];
      && r.task == given.task && r.security == given.security && r.delivery == given.delivery
      && r.base == After(m, git, start, steps[..i]).head
  {
    var w := After(m, git, start, steps[..i]);
    var v := Next(m, git, w, steps[i]);
    AfterOne(m, git, start, steps, i);
    CreatedBy(m, git, w, steps[i], t);
    RunKeeps(m, git, v, steps[i + 1..], t);
  }

  /** A run in front of a step, the step, and the run behind it. */
  lemma AfterOne(m: Manifest, git: Git, start: World, steps: seq<Step>, i: nat)
    requires i < |steps|
    ensures var v := Next(m, git, After(m, git, start, steps[..i]), steps[i]);
      After(m, git, start, steps[..i + 1]) == v && After(m, git, start, steps) == After(m, git, v, steps[i + 1..])
  {
    var w := After(m, git, start, steps[..i]);
    assert steps[..i + 1] == steps[..i] + [steps[i]] && steps == steps[..i + 1] + steps[i + 1..];
    AfterJoin(m, git, start, steps[..i], [steps[i]]);
    assert After(m, git, w, [steps[i]]) == After(m, git, Next(m, git, w, steps[i]), []);
    AfterJoin(m, git, start, steps[..i + 1], steps[i + 1..]);
  }

  lemma CreatedBy(m: Manifest, git: Git, w: World, step: Step, t: string)
    requires t !in w.store && t in Next(m, git, w, step).store
    ensures step.Start? && step.task.id == t
    ensures var r := Next(m, git, w, step).store[t];
      r.task == step.task && r.security == step.security && r.delivery == step.delivery && r.base == w.head
  {
    if step.Start? {
      StartCreates(m, w, step.task, step.security, step.delivery, step.usable, t);
    } else {
      assert On1(t);
      StepKeeps(m, git, w, step);
    }
  }

  lemma StartCreates(m: Manifest, w: World, task: Task, security: bool, delivery: bool, usable: bool, t: string)
    requires t !in w.store && t in Started(m, w, task, security, delivery, usable).store
    ensures task.id == t
    ensures var r := Started(m, w, task, security, delivery, usable).store[t];
      r.task == task && r.security == security && r.delivery == delivery && r.base == w.head
  {
  }

  /** From a fresh start every record was created by one of the steps. */
  lemma {:induction false} SomeStepCreates(m: Manifest, git: Git, start: World, steps: seq<Step>, t: string)
    returns (i: nat)
    requires Fresh(start) && t in After(m, git, start, steps).store
    ensures Creates(m, git, start, steps, i, t)
    decreases |steps|
  {
    var n := |steps|;
    assert steps[..n] == steps;
    if n == 0 {
      assert false;
    } else {
      var front := steps[..n - 1];
      if t in After(m, git, start, front).store {
        i := SomeStepCreates(m, git, start, front, t);
        assert front[..i] == steps[..i] && front[..i + 1] == steps[..i + 1];
      } else {
        i := n - 1;
      }
    }
  }

  // ---- which reviews a task needs ----

  /** This role reviewed the patch that passed, in the attempt that made it. */
  ghost predicate RoleReviewed(git: Git, log: seq<Event>, e: Event, role: string)
    requires e.PassedGate?
  {
    ReviewedBy(git, log, e.record.task.id, e.record.attempt, role, Binding(git.sha256(e.payload), e.record.base))
  }

  ghost predicate AllReviewed(git: Git, log: seq<Event>, e: Event)
    requires e.PassedGate?
  {
    && RoleReviewed(git, log, e, "CRITICAL_VALIDATOR") && RoleReviewed(git, log, e, "SECOND_OPINION")
    && RoleReviewed(git, log, e, "RELEASE_GATEKEEPER")
  }

  /** The passing of the gate that a start with these flags and this packet calls for. */
  ghost predicate Called(m: Manifest, git: Git, log: seq<Event>, e: Event, given: Step, base: string)
    requires given.Start?
  {
    && e.PassedGate? && e.record.task == given.task && e.record.base == base && e.head == base
    && InScope(e.files, given.task.files)
    && (given.security ==> RoleReviewed(git, log, e, "CRITICAL_VALIDATOR"))
    && ((exists f :: f in e.files && m.isProtected(f)) ==> RoleReviewed(git, log, e, "CRITICAL_VALIDATOR"))
    && (given.delivery ==> AllReviewed(git, log, e))
    && (m.wantsDelivery(given.task.description, e.record.changed) ==> AllReviewed(git, log, e))
  }

  /**
   A task started with the security flag, or whose patch touches a protected path, is COMPLETE only
   after a critical validator's independent review of that patch; one started with the delivery flag,
   or that asks for delivery, only after those of all three roles. The patch is within the files of the
   packet given at the start, and the base is the commit that was current then.
   */
  lemma FlagsForceReview(m: Manifest, git: Git, start: World, steps: seq<Step>, i: nat, t: string)
    requires Named(git) && Fresh(start) && Creates(m, git, start, steps, i, t) && steps[i].Start?
    requires t in After(m, git, start, steps).store && After(m, git, start, steps).store[t].phase == COMPLETE
    ensures var log, base := After(m, git, start, steps).log, After(m, git, start, steps[..i]).head;
      exists e :: e in log && Called(m, git, log, e, steps[i], base)
  {
    var w, base := After(m, git, start, steps), After(m, git, start, steps[..i]).head;
    var r := w.store[t];
    IntakeKept(m, git, start, steps, i, t);
    CompleteOnlyIf(m, git, start, steps, t);
    var e :| e in w.log && e.PassedGate? && r == e.record.(phase := COMPLETE, history := r.history)
      && Sound(m, git, w.log, e);
    FlagsRequire(m, git, w.log, e);
    assert Called(m, git, w.log, e, steps[i], base);
  }

  lemma FlagsRequire(m: Manifest, git: Git, log: seq<Event>, e: Event)
    requires e.PassedGate? && Sound(m, git, log, e)
    ensures e.record.security || (exists f :: f in e.files && m.isProtected(f)) ==>
      RoleReviewed(git, log, e, "CRITICAL_VALIDATOR")
    ensures e.record.delivery || m.wantsDelivery(e.record.task.description, e.record.changed) ==>
      AllReviewed(git, log, e)
  {
    var r := e.record;
    if f :| f in e.files && m.isProtected(f) {
      assert f in multiset(e.files);
      assert f in r.changed;
    }
  }
}
