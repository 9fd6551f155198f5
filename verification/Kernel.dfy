/**
 The orchestration kernel as a state machine: one controller process, its durable files, the
 controller's checkout, and a crash between any two durable writes.
 */
module Kernel {
  import opened Common
  import opened Contract

  type Tree = map<string, string>

  /** Git, the hash function and the naming of isolated writers. */
  datatype Git = Git(
    checkout: string -> Tree,                 // the files of a commit
    filesOf: string -> Option<seq<string>>,   // the files a patch names, if it is well formed
    applied: (string, Tree) -> Option<Tree>,  // the tree after applying a patch
    sha256: string -> string,
    writer: (string, nat) -> string)          // the isolation identity of an attempt's writer

  /** What the controller process is in the middle of; a crash loses it. */
  datatype Activity =
    | Idle
    | Refused(task: string)                       // a new record without a provider
    | Entered(task: string)                       // the record was loaded or created
    | Ready(task: string)                         // about to create a worktree
    | Created(task: string, worktree: Worktree)   // the worktree exists
    | Working(task: string)                       // DISPATCHED is written, the worker runs
    | Reported(task: string, exitOk: bool)        // WORKER_DONE is written
    | Saved(task: string, payload: string)        // the patch file is written
    | Capturing(task: string)                     // the worker diff is recorded
    | Verified(task: string)                      // VERIFY is written
    | Advancing(task: string)                     // the evidence suffices, REVIEW comes next
    | Passing(task: string)                       // REVIEW is written, INTEGRATE comes next
    | Applied(task: string, payload: string, files: seq<string>, before: Tree)   // the gate runs

  /** What has happened, for the statements about runs. */
  datatype Event =
    | DispatchedWriter(task: string, attempt: nat, worktree: Worktree)
    | CapturedPatch(task: string, attempt: nat, base: string, payload: string)
    | AssignedReview(task: string, attempt: nat, a: Assignment)
    | RecordedReview(task: string, attempt: nat, role: string, assignmentId: string, patch: Binding)
    | PassedGate(record: Record, payload: string, files: seq<string>, head: string, before: Tree, after: Tree)

  datatype World = World(
    store: map<string, Record>, patches: map<string, string>, worktrees: set<string>,
    head: string, tree: Tree, doing: Activity, log: seq<Event>)

  // ---- paths and trees ----

  function Norm(path: string): string {
    seq(|path|, i requires 0 <= i < |path| => if path[i] == '\\' then '/' else path[i])
  }

  predicate InScope(files: seq<string>, allowed: seq<string>) {
    forall f :: f in files ==> exists a :: a in allowed && Norm(f) == Norm(a)
  }

  predicate AgreeOn(s: Tree, t: Tree, files: seq<string>) {
    forall f :: f in files ==> (f in s <==> f in t) && (f in s ==> s[f] == t[f])
  }

  // ---- the steps ----

  datatype Step =
    | Start(task: Task, security: bool, delivery: bool, usable: bool)
    | Proceed(promptExists: bool)
    | Block
    | Create(ok: bool)
    | Dispatch
    | Finish(report: Report, changed: seq<string>, response: string, exitOk: bool)
    | Judge(payload: Option<string>)
    | Note
    | Verify
    | Route
    | Advance
    | Pass
    | Assign(id: string, a: Assignment)
    | Submit(id: string, path: string, review: Report)
    | Complete(id: string, applyOk: bool)
    | Gate(passed: bool, undone: bool)
    | Crash
    | Outside(head: string, tree: Tree, patches: map<string, string>, worktrees: set<string>)

  /** Write a record, or die if the manifest forbids the move. */
  function Write(m: Manifest, w: World, t: string, r: Record, target: Phase, next: Activity): World {
    match Moved(m, r, target)
    case Some(moved) => w.(store := w.store[t := moved], doing := next)
    case None => w.(doing := Idle)
  }

  function Initial(task: Task, base: string, security: bool, delivery: bool): Record {
    Record(INTAKE, task, base, security, delivery, 0, None, [], None, None, [], [], [INTAKE])
  }

  /** The record of the task the controller is working on is in the store. */
  predicate Here(w: World) { !w.doing.Idle? && w.doing.task in w.store }

  /** Write the current record, as it is or changed by the step, and go on to `next`. */
  function Onward(m: Manifest, w: World, target: Phase, next: Activity): World {
    if Here(w) then Write(m, w, w.doing.task, w.store[w.doing.task], target, next) else w
  }

  /** The main loop from the loaded record up to the worktree, one durable write at a time. */
  function Proceeded(m: Manifest, w: World, promptExists: bool): World {
    if !w.doing.Entered? || !Here(w) then w
    else
      var t := w.doing.task;
      var r := w.store[t];
      match r.phase
      case INTAKE => Onward(m, w, CLASSIFIED, Entered(t))
      case CLASSIFIED => Onward(m, w, PACKET_READY, Entered(t))
      case RETRY => Onward(m, w, PACKET_READY, Entered(t))
      case REVIEW_REQUIRED => w.(doing := if HasEvidence(m, r) then Advancing(t) else Idle)
      case REVIEW => Onward(m, w, INTEGRATE, Idle)
      case INTEGRATE => w.(doing := Idle)
      case _ =>
        if !promptExists then w.(doing := Idle)
        else if r.phase == DISPATCHED || r.phase == WORKER_DONE || r.phase == VERIFY
        then Write(m, w, t, r.(diff := None), RETRY, Entered(t))
        else w.(doing := Ready(t))
  }

  /** Why a finished worker is not taken up; FAILED only for work outside the packet. */
  function Verdict(r: Record, t: string, exitOk: bool): Option<Phase> {
    if r.result.None? then Some(RETRY)
    else
      var report := r.result.value;
      if !exitOk || report.degraded || report.result != "DONE" then Some(RETRY)
      else if !report.complete || report.role != r.task.role || report.task != t then Some(RETRY)
      else if report.specStatus != "SATISFIED" || report.escalation != "NONE" then Some(RETRY)
      else if r.changed == [] then Some(RETRY)
      else if !InScope(r.changed, r.task.files) || !InScope(report.files, r.task.files) then Some(FAILED)
      else None
  }

  /** `verified_worker_diff`: the payload and its files, if every check passes. */
  function VerifiedDiff(git: Git, w: World, r: Record, t: string): Option<(string, seq<string>)> {
    if r.diff.None? || r.worktree.None? || r.result.None? || t !in w.patches then None
    else
      var diff, report, payload := r.diff.value, r.result.value, w.patches[t];
      if report.degraded || report.result != "DONE" || report.task != t then None
      else if diff.base != r.base || diff.worktree != r.worktree.value.path then None
      else if payload == "" || git.sha256(payload) != diff.sha then None
      else match git.filesOf(payload)
        case None => None
        case Some(files) =>
          if files == [] || multiset(files) != multiset(r.changed) || !InScope(files, r.task.files) then None
          else if w.head != r.base || !AgreeOn(w.tree, git.checkout(w.head), files) then None
          else if git.applied(payload, w.tree).None? then None
          else Some((payload, files))
  }

  function Completed(m: Manifest, git: Git, w: World, t: string, applyOk: bool): World {
    if !w.doing.Idle? || !Loads(m, w, t) || !IntegrationReady(m, w.store[t]) then w
    else
      var r := w.store[t];
      var verified := VerifiedDiff(git, w, r, t);
      if verified.None? || !applyOk then Write(m, w, t, r.(diff := None), RETRY, Idle)
      else
        var (payload, files) := verified.value;
        w.(tree := git.applied(payload, w.tree).value, doing := Applied(t, payload, files, w.tree))
  }

  function Gated(m: Manifest, w: World, passed: bool, undone: bool): World {
    if !w.doing.Applied? || !Here(w) then w
    else if passed then Passed(m, w)
    else if undone then Write(m, w.(tree := w.doing.before), w.doing.task, w.store[w.doing.task], RETRY, Idle)
    else Onward(m, w, FAILED, Idle)
  }

  /** The gate exited 0: the record becomes COMPLETE if the manifest allows it. */
  function Passed(m: Manifest, w: World): World
    requires w.doing.Applied? && Here(w)
  {
    var Applied(t, payload, files, before) := w.doing;
    var r := w.store[t];
    if !ValidTransition(m, r.phase, COMPLETE) then w.(doing := Idle)
    else
      w.(store := w.store[t := r.(phase := COMPLETE, history := r.history + [COMPLETE])], doing := Idle,
         log := w.log + [PassedGate(r, payload, files, w.head, before, w.tree)])
  }

  /** Create the isolated worktree of the next attempt; an existing directory blocks the task. */
  function Begun(m: Manifest, git: Git, w: World, ok: bool): World {
    if !w.doing.Ready? || !Here(w) then w
    else
      var t := w.doing.task;
      var attempt := w.store[t].attempt + 1;
      var path := WorktreeName(t, attempt);
      if !ValidId(t) then w.(doing := Idle)
      else if !ok || path in w.worktrees then Onward(m, w, BLOCKED, Idle)
      else w.(worktrees := w.worktrees + {path}, doing := Created(t, Worktree(path, git.writer(t, attempt))))
  }

  /** Record the dispatch of the next attempt before its writer starts. */
  function Dispatched(m: Manifest, w: World): World {
    if !w.doing.Created? || !Here(w) then w
    else
      var Created(t, worktree) := w.doing;
      var r := w.store[t];
      if !ValidTransition(m, r.phase, DISPATCHED) then w.(doing := Idle)
      else
        var sent := r.(worktree := Some(worktree), attempt := r.attempt + 1, phase := DISPATCHED,
            history := r.history + [DISPATCHED]);
        w.(store := w.store[t := sent], doing := Working(t),
          log := w.log + [DispatchedWriter(t, r.attempt + 1, worktree)])
  }

  function Finished(m: Manifest, w: World, report: Report, changed: seq<string>, response: string, exitOk: bool): World
  {
    if !w.doing.Working? || !Here(w) then w
    else
      var t := w.doing.task;
      Write(m, w, t, w.store[t].(result := Some(report), changed := changed, evidence := [Response(response)]),
            WORKER_DONE, Reported(t, exitOk))
  }

  /** Turn the worker down, or keep its patch in the patch file. */
  function Judged(m: Manifest, w: World, payload: Option<string>): World {
    if !w.doing.Reported? || !Here(w) then w
    else
      var Reported(t, exitOk) := w.doing;
      var verdict := Verdict(w.store[t], t, exitOk);
      if verdict.Some? then Onward(m, w, verdict.value, Idle)
      else if payload.None? || payload.value == "" then Onward(m, w, RETRY, Idle)
      else w.(patches := w.patches[t := payload.value], doing := Saved(t, payload.value))
  }

  /** Record the hash of the patch against the recorded base. */
  function Noted(git: Git, w: World): World {
    if !w.doing.Saved? || !Here(w) || w.store[w.doing.task].worktree.None? then w
    else
      var Saved(t, payload) := w.doing;
      var r := w.store[t];
      var diff := Diff(git.sha256(payload), r.base, r.worktree.value.path);
      w.(store := w.store[t := r.(diff := Some(diff), history := r.history + [r.phase])], doing := Capturing(t),
         log := w.log + [CapturedPatch(t, r.attempt, r.base, payload)])
  }

  function Routed(m: Manifest, w: World): World {
    if !w.doing.Verified? || !Here(w) then w
    else if ReviewRequired(m, w.store[w.doing.task]) then Onward(m, w, REVIEW_REQUIRED, Idle)
    else Onward(m, w, REVIEW, Passing(w.doing.task))
  }

  function Advanced(m: Manifest, w: World): World {
    if !w.doing.Advancing? || !Here(w) then w
    else
      var r := w.store[w.doing.task];
      if r.phase == REVIEW_REQUIRED && HasEvidence(m, r) then Onward(m, w, REVIEW, Passing(w.doing.task))
      else w.(doing := Idle)
  }

  function Assigned(m: Manifest, w: World, t: string, a: Assignment): World {
    if !w.doing.Idle? || !Loads(m, w, t) || Registered(m, w.store[t], a).None? then w
    else
      var r := Registered(m, w.store[t], a).value;
      w.(store := w.store[t := r], log := w.log + [AssignedReview(t, r.attempt, r.assignments[|r.assignments| - 1])])
  }

  function Submitted(m: Manifest, w: World, t: string, path: string, review: Report): World {
    if !w.doing.Idle? || !Loads(m, w, t) || Reviewed(m, w.store[t], path, review).None? then w
    else
      var r := Reviewed(m, w.store[t], path, review).value;
      var patch := Find(w.store[t].assignments, review.assignmentId).value.patch;
      w.(store := w.store[t := r], doing := if HasEvidence(m, r) then Advancing(t) else Idle,
         log := w.log + [RecordedReview(t, r.attempt, review.role, review.assignmentId, patch)])
  }

  predicate Writes(role: string) { role in ["IMPLEMENTER", "PLATFORM_IMPLEMENTER"] }

  /** A record that cannot be loaded is never touched. */
  predicate Loads(m: Manifest, w: World, t: string) { t in w.store && w.store[t].phase in m.transitions }

  /** Load or create the record; a resumed task keeps its recorded packet, provider and base. */
  function Started(m: Manifest, w: World, task: Task, security: bool, delivery: bool, usable: bool): World {
    var t := task.id;
    if !w.doing.Idle? then w
    else if t !in w.store then
      var created := w.(store := w.store[t := Initial(task, w.head, security, delivery)]);
      if !usable then created.(doing := Refused(t)) else if Writes(task.role) then created.(doing := Entered(t)) else w
    else if !Loads(m, w, t) || w.store[t].phase in m.terminal || !usable || !Writes(w.store[t].task.role) then w
    else w.(doing := Entered(t))
  }

  /**
   Others may change the checkout, the patch files and the worktrees, but not between apply and the
   gate's verdict.
   */
  function Meddled(w: World, head: string, tree: Tree, patches: map<string, string>, worktrees: set<string>): World {
    if w.doing.Applied? then w else w.(head := head, tree := tree, patches := patches, worktrees := worktrees)
  }

  /** A step that is not possible where the controller stands changes nothing. */
  function Next(m: Manifest, git: Git, w: World, step: Step): World {
    match step
    case Crash => w.(doing := Idle)
    case Outside(head, tree, patches, worktrees) => Meddled(w, head, tree, patches, worktrees)
    case Start(task, security, delivery, usable) => Started(m, w, task, security, delivery, usable)
    case Assign(t, a) => Assigned(m, w, t, a)
    case Submit(t, path, review) => Submitted(m, w, t, path, review)
    case Complete(t, applyOk) => Completed(m, git, w, t, applyOk)
    case Proceed(promptExists) => Proceeded(m, w, promptExists)
    case Block => if w.doing.Refused? then Onward(m, w, BLOCKED, Idle) else w
    case Create(ok) => Begun(m, git, w, ok)
    case Dispatch => Dispatched(m, w)
    case Finish(report, changed, response, exitOk) => Finished(m, w, report, changed, response, exitOk)
    case Judge(payload) => Judged(m, w, payload)
    case Note => Noted(git, w)
    case Verify => if w.doing.Capturing? then Onward(m, w, VERIFY, Verified(w.doing.task)) else w
    case Route => Routed(m, w)
    case Advance => Advanced(m, w)
    case Pass => if w.doing.Passing? then Onward(m, w, INTEGRATE, Idle) else w
    case Gate(passed, undone) => Gated(m, w, passed, undone)
  }

  function After(m: Manifest, git: Git, w: World, steps: seq<Step>): World
    decreases |steps|
  {
    if steps == [] then w else After(m, git, Next(m, git, w, steps[0]), steps[1..])
  }
}
