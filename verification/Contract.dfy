/**
 The durable record of one orchestrated task and the pure decisions taken on it: lifecycle
 transitions, required review roles, review bindings, integration readiness.
 */
module Contract {
  import opened Common

  /** The lifecycle states; the kernel never writes the last two. */
  datatype Phase =
    | INTAKE | CLASSIFIED | PACKET_READY | DISPATCHED | WORKER_DONE | VERIFY
    | REVIEW_REQUIRED | REVIEW | INTEGRATE | COMPLETE | RETRY | BLOCKED | FAILED
    | PLAN_REQUIRED | OPERATOR_REQUIRED

  /** What the kernel reads of the manifest; every statement is for an arbitrary one. */
  datatype Manifest = Manifest(
    transitions: map<Phase, seq<Phase>>,
    terminal: set<Phase>,
    independent: set<string>,                       // semantic roles marked independent
    isProtected: string -> bool,                    // a path under a protected prefix
    wantsDelivery: (string, seq<string>) -> bool)   // a delivery keyword in the description or a path

  datatype Task = Task(id: string, description: string, files: seq<string>, role: string)
  datatype Worktree = Worktree(path: string, isolation: string)
  datatype Binding = Binding(sha: string, base: string)
  datatype Diff = Diff(sha: string, base: string, worktree: string)
  datatype Report = Report(degraded: bool, result: string, task: string, role: string, specStatus: string,
                           escalation: string, complete: bool, files: seq<string>, assignmentId: string)
  datatype Assignment = Assignment(id: string, task: string, role: string, reviewer: string, writer: string,
                                   patch: Binding, dispatched: bool, banned: bool, provenance: bool)
  datatype Evidence = Response(path: string) | Review(path: string, role: string, assignmentId: string, patch: Binding)

  datatype Record = Record(
    phase: Phase, task: Task, base: string, security: bool, delivery: bool,
    attempt: nat, worktree: Option<Worktree>, changed: seq<string>, result: Option<Report>, diff: Option<Diff>,
    evidence: seq<Evidence>, assignments: seq<Assignment>, history: seq<Phase>)

  // ---- lifecycle ----

  predicate ValidTransition(m: Manifest, current: Phase, target: Phase) {
    current in m.transitions && target in m.transitions[current]
  }

  /** `write_state`: the record moved to a new phase, or nothing if the manifest forbids the move. */
  function Moved(m: Manifest, r: Record, target: Phase): Option<Record> {
    if ValidTransition(m, r.phase, target) then Some(r.(phase := target, history := r.history + [target])) else None
  }

  /** Every recorded change of phase is one the manifest allows. */
  predicate Lawful(m: Manifest, history: seq<Phase>) {
    forall i :: 0 <= i < |history| - 1 ==>
      history[i] == history[i + 1] || ValidTransition(m, history[i], history[i + 1])
  }

  // ---- review ----

  function Required(m: Manifest, r: Record): set<string> {
    var security := r.security || exists f :: f in r.changed && m.isProtected(f);
    var delivery := r.delivery || m.wantsDelivery(r.task.description, r.changed);
    (if security then {"CRITICAL_VALIDATOR"} else {}) +
    (if delivery then {"CRITICAL_VALIDATOR", "SECOND_OPINION", "RELEASE_GATEKEEPER"} else {})
  }

  predicate ReviewRequired(m: Manifest, r: Record) {
    r.security || r.delivery || (exists f :: f in r.changed && m.isProtected(f))
      || m.wantsDelivery(r.task.description, r.changed)
  }

  /** The two ways the kernel asks for review agree: some role is required exactly when review is. */
  lemma RequiredExact(m: Manifest, r: Record)
    ensures Required(m, r) != {} <==> ReviewRequired(m, r)
    ensures r.delivery || m.wantsDelivery(r.task.description, r.changed) ==> |Required(m, r)| == 3
    ensures (exists f :: f in r.changed && m.isProtected(f)) ==> "CRITICAL_VALIDATOR" in Required(m, r)
  {
    assert "CRITICAL_VALIDATOR" in Required(m, r) <==> ReviewRequired(m, r);
    if r.delivery || m.wantsDelivery(r.task.description, r.changed) {
      assert Required(m, r) == {"CRITICAL_VALIDATOR", "SECOND_OPINION", "RELEASE_GATEKEEPER"};
    }
  }

  function Writer(r: Record): Option<string> {
    if r.worktree.Some? then Some(r.worktree.value.isolation) else None
  }

  function PatchBinding(r: Record): Option<Binding> {
    if r.diff.Some? && r.diff.value.sha != "" && r.diff.value.base != "" && r.diff.value.base == r.base
    then Some(Binding(r.diff.value.sha, r.diff.value.base)) else None
  }

  /** The first assignment with the given id. */
  function Find(s: seq<Assignment>, id: string): Option<Assignment> {
    if s == [] then None else if s[0].id == id then Some(s[0]) else Find(s[1..], id)
  }

  /** `valid_review_assignment_binding`, for a footer naming a task and a role. */
  predicate Bound(m: Manifest, r: Record, task: string, role: string, a: Assignment) {
    && a.task == r.task.id == task
    && a.role == role && a.role in Required(m, r) && a.role in m.independent
    && a.dispatched && a.provenance && !a.banned
    && a.reviewer != "" && Some(a.reviewer) != Writer(r) && Some(a.writer) == Writer(r)
    && Some(a.patch) == PatchBinding(r)
  }

  predicate Counts(m: Manifest, r: Record, e: Evidence) {
    && e.Review? && e.role in m.independent && e.path != ""
    && Find(r.assignments, e.assignmentId).Some?
    && Bound(m, r, r.task.id, e.role, Find(r.assignments, e.assignmentId).value)
    && Some(e.patch) == PatchBinding(r)
  }

  predicate HasEvidence(m: Manifest, r: Record) {
    forall role :: role in Required(m, r) ==> exists e :: e in r.evidence && Counts(m, r, e) && e.role == role
  }

  predicate IntegrationReady(m: Manifest, r: Record) {
    r.phase == INTEGRATE && (ReviewRequired(m, r) ==> HasEvidence(m, r))
  }

  /** `register_review_assignment`: the record with one more assignment, or nothing. */
  function Registered(m: Manifest, r: Record, a: Assignment): Option<Record> {
    if r.phase != REVIEW_REQUIRED || a.role !in Required(m, r) || a.role !in m.independent then None
    else if a.id == "" || a.reviewer == "" || Writer(r).None? || Writer(r).value == "" then None
    else if a.reviewer == Writer(r).value then None
    else if PatchBinding(r).None? then None
    else if a.dispatched && (a.banned || !a.provenance) then None
    else if !a.dispatched && !a.provenance then None       // an unavailable reviewer needs a stated reason
    else if Find(r.assignments, a.id).Some? then None
    else
      var entry := a.(task := r.task.id, writer := Writer(r).value, patch := PatchBinding(r).value);
      Some(r.(assignments := r.assignments + [entry], history := r.history + [r.phase]))
  }

  /** `record_review_evidence`: the record with the review added unless its path is known, or nothing. */
  function Reviewed(m: Manifest, r: Record, path: string, report: Report): Option<Record> {
    if r.phase != REVIEW_REQUIRED then None
    else if report.degraded || report.result != "DONE" || report.task != r.task.id || report.specStatus != "SATISFIED"
            || report.escalation != "NONE" || report.role !in m.independent || report.assignmentId == "" then None
    else
      var a := Find(r.assignments, report.assignmentId);
      if a.None? || !Bound(m, r, report.task, report.role, a.value) then None
      else
        var known := exists e :: e in r.evidence && e.Review? && e.path == path;
        var item := Review(path, report.role, report.assignmentId, a.value.patch);
        Some(r.(evidence := if known then r.evidence else r.evidence + [item], history := r.history + [r.phase]))
  }

  // ---- isolation identities ----

  function Decimal(n: nat): string {
    if n < 10 then [Digit(n)] else Decimal(n / 10) + [Digit(n % 10)]
  }

  function Digit(d: nat): char
    requires d < 10
  {
    ['0', '1', '2', '3', '4', '5', '6', '7', '8', '9'][d]
  }

  /** The identity of the writer of an attempt. */
  function Identity(task: string, attempt: nat): string { "writer:" + task + ":attempt:" + Decimal(attempt) }

  lemma {:induction false} DecimalInjective(a: nat, b: nat)
    requires Decimal(a) == Decimal(b)
    ensures a == b
  {
    var s, t := Decimal(a), Decimal(b);
    assert s[|s| - 1] == Digit(a % 10) && t[|t| - 1] == Digit(b % 10);
    if a >= 10 && b >= 10 {
      assert s[..|s| - 1] == Decimal(a / 10) && t[..|t| - 1] == Decimal(b / 10);
      DecimalInjective(a / 10, b / 10);
    }
  }

  /** The task ids a worktree may be planned for. */
  predicate ValidId(task: string) {
    && task != [] && Alphanumeric(task[0])
    && forall i :: 0 <= i < |task| ==> Alphanumeric(task[i]) || task[i] in ['_', '.', '-']
  }

  /** Isolation identities tell apart both tasks and attempts. */
  lemma IdentityInjective(t: string, a: nat, u: string, b: nat)
    requires ValidId(t) && ValidId(u) && Identity(t, a) == Identity(u, b)
    ensures t == u && a == b
  {
    var s := Identity(t, a);
    var x, y := t + ":attempt:" + Decimal(a), u + ":attempt:" + Decimal(b);
    assert s == "writer:" + x && s == "writer:" + y;
    assert x == s[7..] && y == s[7..];
    assert x[|t|] == ':' && y[|u|] == ':';
    assert |t| == |u|;
    assert t == x[..|t|] && u == y[..|u|];
    assert Decimal(a) == x[|t| + 9..] && Decimal(b) == y[|u| + 9..];
    DecimalInjective(a, b);
  }

  // ---- worktree directories ----

  function WorktreeName(task: string, attempt: nat): string {
    if attempt == 1 then task else task + "-attempt-" + Decimal(attempt)
  }

  lemma {:induction false} DecimalDigits(n: nat)
    ensures Decimal(n) != [] && forall i :: 0 <= i < |Decimal(n)| ==> '0' <= Decimal(n)[i] <= '9'
  {
    if n < 10 {
    } else {
      DecimalDigits(n / 10);
    }
  }

  lemma LaterNames(t: string, a: nat, u: string, b: nat)
    requires t + "-attempt-" + Decimal(a) == u + "-attempt-" + Decimal(b)
    ensures t == u && a == b
  {
    var x, y := Decimal(a), Decimal(b);
    var s, n := t + "-attempt-" + x, |t + "-attempt-" + x|;
    DecimalDigits(a);
    DecimalDigits(b);
    assert s == u + "-attempt-" + y;
    assert s[n - |x| - 1] == '-' && s[n - |y| - 1] == '-';
    assert s[n - |x|..] == x && s[n - |y|..] == y;
    assert |x| == |y|;
    assert t == s[..|t|] && u == s[..|u|];
    DecimalInjective(a, b);
  }

  /**
   Two attempts get the same directory exactly when they are the same attempt, or one is the first
   attempt at a task whose id spells a later attempt at the other.
   */
  lemma WorktreeNameExact(t: string, a: nat, u: string, b: nat)
    requires a > 0 && b > 0
    ensures WorktreeName(t, a) == WorktreeName(u, b) <==>
      || (t == u && a == b)
      || (a == 1 && b > 1 && t == u + "-attempt-" + Decimal(b))
      || (b == 1 && a > 1 && u == t + "-attempt-" + Decimal(a))
  {
    if a > 1 && b > 1 && WorktreeName(t, a) == WorktreeName(u, b) { LaterNames(t, a, u, b); }
  }
}
