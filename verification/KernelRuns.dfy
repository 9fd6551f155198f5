/**
 The orchestration kernel over whole runs: what a COMPLETE record proves, which evidence can count,
 and which tree the authoritative gate saw.
 */
module KernelRuns {
  import opened Common
  import opened Contract
  import opened Kernel
  import opened KernelSafety
  import opened Markers

  /** Writers are named by task and attempt. */
  ghost predicate Named(git: Git) { forall t, k :: git.writer(t, k) == Identity(t, k) }

  /** No task has been taken up yet; the checkout, the patch files and the worktrees are arbitrary. */
  predicate Fresh(w: World) { w.store == map[] && w.doing.Idle? && w.log == [] }

  lemma NamedApart(git: Git)
    requires Named(git)
    ensures AttemptsApart(git)
  {
    forall t, j, k | git.writer(t, j) == git.writer(t, k) ensures j == k { SameTaskInjective(t, j, k); }
  }

  lemma SameTaskInjective(t: string, j: nat, k: nat)
    requires Identity(t, j) == Identity(t, k)
    ensures j == k
  {
    var prefix := "writer:" + t + ":attempt:";
    assert Identity(t, j)[|prefix|..] == Decimal(j) && Identity(t, k)[|prefix|..] == Decimal(k);
    DecimalInjective(j, k);
  }

  lemma Reachable(m: Manifest, git: Git, start: World, steps: seq<Step>)
    requires Named(git) && Fresh(start)
    ensures Inv(m, git, After(m, git, start, steps))
  {
    NamedApart(git);
    AfterOk(m, git, start, steps);
  }

  /** The gate passed for this very record, and the passing was good. */
  ghost predicate Delivered(m: Manifest, git: Git, log: seq<Event>, r: Record) {
    exists e :: e in log && e.PassedGate? && r == e.record.(phase := COMPLETE, history := r.history)
      && Sound(m, git, log, e)
  }

  lemma CompleteDelivered(m: Manifest, git: Git, w: World, t: string)
    requires Inv(m, git, w) && t in w.store && w.store[t].phase == COMPLETE
    ensures Delivered(m, git, w.log, w.store[t])
  {
    assert On1(t);
    var r := w.store[t];
    var e :| e in w.log && e.PassedGate? && r == e.record.(phase := COMPLETE, history := r.history);
    assert Good(m, git, w.log, e);
  }

  /**
   In every run a task is durably COMPLETE only if the gate exited 0 on a tree made from the recorded
   base by a patch captured in the same attempt and within the packet's scope, and every required role
   reviewed exactly that patch in that attempt from outside the writer's isolation.
   */
  lemma CompleteOnlyIf(m: Manifest, git: Git, start: World, steps: seq<Step>, t: string)
    requires Named(git) && Fresh(start)
    requires t in After(m, git, start, steps).store && After(m, git, start, steps).store[t].phase == COMPLETE
    ensures Delivered(m, git, After(m, git, start, steps).log, After(m, git, start, steps).store[t])
  {
    Reachable(m, git, start, steps);
    CompleteDelivered(m, git, After(m, git, start, steps), t);
  }

  /** If no two patches share a hash, the patch under the gate is the captured one. */
  lemma GateSawCapturedPatch(m: Manifest, git: Git, log: seq<Event>, e: Event)
    requires e.PassedGate? && Sound(m, git, log, e)
    requires forall p, q :: git.sha256(p) == git.sha256(q) ==> p == q
    ensures CapturedPatch(e.record.task.id, e.record.attempt, e.record.base, e.payload) in log
  {
  }

  /** Every history is a walk in the manifest's transition table and ends in the recorded phase. */
  lemma HistoryLawful(m: Manifest, git: Git, start: World, steps: seq<Step>, t: string)
    requires Named(git) && Fresh(start) && t in After(m, git, start, steps).store
    ensures var r := After(m, git, start, steps).store[t];
      r.task.id == t && r.history != [] && r.history[|r.history| - 1] == r.phase && Lawful(m, r.history)
  {
    Reachable(m, git, start, steps);
    assert On1(t);
  }

  /** Evidence that counts towards integration was assigned and recorded in the record's present attempt. */
  lemma OnlyPresentEvidenceCounts(m: Manifest, git: Git, start: World, steps: seq<Step>, t: string, e: Evidence)
    requires Named(git) && Fresh(start) && t in After(m, git, start, steps).store
    requires After(m, git, start, steps).store[t].phase in {REVIEW_REQUIRED, REVIEW, INTEGRATE}
    requires e in After(m, git, start, steps).store[t].evidence && Counts(m, After(m, git, start, steps).store[t], e)
    ensures var w := After(m, git, start, steps);
      w.store[t].diff.Some? &&
      ReviewedBy(git, w.log, t, w.store[t].attempt, e.role, Binding(w.store[t].diff.value.sha, w.store[t].base))
  {
    var w := After(m, git, start, steps);
    Reachable(m, git, start, steps);
    NamedApart(git);
    assert On1(t);
    CountingReviewed(m, git, w.log, t, w.store[t], e);
  }

  // ---- the tree under the gate ----

  /** Applying a patch reads and changes only the files the patch names. */
  ghost predicate Local(git: Git) {
    forall p, s: Tree, u: Tree {:trigger git.applied(p, s), git.applied(p, u)} ::
      git.filesOf(p).Some? && git.applied(p, s).Some? && AgreeOn(s, u, git.filesOf(p).value) ==>
        && git.applied(p, u).Some?
        && AgreeOn(git.applied(p, s).value, git.applied(p, u).value, git.filesOf(p).value)
        && (forall f :: f !in git.filesOf(p).value ==>
        SameAt(s, git.applied(p, s).value, f) && SameAt(u, git.applied(p, u).value, f))
  }

  predicate SameAt(s: Tree, u: Tree, f: string) { (f in s <==> f in u) && (f in s ==> s[f] == u[f]) }

  lemma SameTrees(s: Tree, u: Tree)
    requires forall f :: SameAt(s, u, f)
    ensures s == u
  {
    forall f ensures f in s <==> f in u { assert SameAt(s, u, f); }
    forall f | f in s ensures s[f] == u[f] { assert SameAt(s, u, f); }
  }

  /**
   The gate ran on exactly the base with the patch applied if and only if the checkout was the base
   when integration began: only the patch's own files are compared with the base beforehand.
   */
  lemma GateTreeExact(m: Manifest, git: Git, log: seq<Event>, e: Event)
    requires Local(git) && e.PassedGate? && Sound(m, git, log, e)
    ensures git.applied(e.payload, git.checkout(e.record.base)).Some?
    ensures e.after == git.applied(e.payload, git.checkout(e.record.base)).value <==>
      e.before == git.checkout(e.record.base)
  {
    var base := git.checkout(e.record.base);
    assert git.applied(e.payload, e.before).Some?;
    assert git.applied(e.payload, base).Some?;
    var after := git.applied(e.payload, base).value;
    if e.after == after {
      forall f ensures SameAt(e.before, base, f) {
        if f !in e.files { assert SameAt(e.before, e.after, f) && SameAt(base, after, f); }
      }
      SameTrees(e.before, base);
    }
  }

  // ---- a checkout that is not the base ----

  /** A ready task whose patch verifies is applied and passes the gate on the tree that is there. */
  lemma CompletesOn(m: Manifest, git: Git, w: World, t: string)
    requires w.doing.Idle? && t in w.store && IntegrationReady(m, w.store[t]) && ValidTransition(m, INTEGRATE, COMPLETE)
    requires VerifiedDiff(git, w, w.store[t], t).Some?
    ensures var (payload, files) := VerifiedDiff(git, w, w.store[t], t).value;
      var last := Next(m, git, Next(m, git, w, Complete(t, true)), Gate(true, false));
      var r, tree := w.store[t], git.applied(payload, w.tree).value;
      last == w.(store := w.store[t := r.(phase := COMPLETE, history := r.history + [COMPLETE])], tree := tree,
                 log := w.log + [PassedGate(r, payload, files, w.head, w.tree, tree)])
  {
    var applied := Completed(m, git, w, t, true);
    assert Next(m, git, w, Complete(t, true)) == applied;
    assert Next(m, git, applied, Gate(true, false)) == Passed(m, applied);
  }

  /**
   Completing does not commit. Two tasks with patches to different files, completed one after the other
   from a clean checkout, leave the second one tested on a tree that is not its base with its patch.
   */
  lemma SecondOnTop(m: Manifest, git: Git, w: World, t: string, u: string)
    requires Local(git) && w.doing.Idle? && ValidTransition(m, INTEGRATE, COMPLETE) && w.tree == git.checkout(w.head)
    requires t != u && t in w.store && u in w.store && IntegrationReady(m, w.store[t])
      && IntegrationReady(m, w.store[u])
    requires VerifiedDiff(git, w, w.store[t], t).Some? && VerifiedDiff(git, w, w.store[u], u).Some?
    requires forall f :: f in VerifiedDiff(git, w, w.store[t], t).value.1 ==>
      f !in VerifiedDiff(git, w, w.store[u], u).value.1
    requires git.applied(VerifiedDiff(git, w, w.store[t], t).value.0, w.tree).value != w.tree
    ensures var once := Next(m, git, Next(m, git, w, Complete(t, true)), Gate(true, false));
      var last := Next(m, git, Next(m, git, once, Complete(u, true)), Gate(true, false));
      && u in last.store && last.store[u].phase == COMPLETE && last.log != []
      && var e := last.log[|last.log| - 1];
      e.PassedGate? && e.record == w.store[u] && e.before != git.checkout(e.record.base)
  {
    CompletesOn(m, git, w, t);
    var once := Next(m, git, Next(m, git, w, Complete(t, true)), Gate(true, false));
    assert VerifiedDiff(git, once, w.store[u], u) == VerifiedDiff(git, w.(tree := once.tree), w.store[u], u);
    CompletesOn(m, git, once, u);
    assert w.store[u].base == w.head;
  }

  /** A crash during another task's gate leaves that task's patch behind, with the same effect. */
  lemma CrashLeavesPatch(m: Manifest, git: Git, w: World, t: string)
    requires w.doing.Applied? && w.doing.before == git.checkout(w.head) && w.tree != w.doing.before
    requires t != w.doing.task && t in w.store && IntegrationReady(m, w.store[t])
      && ValidTransition(m, INTEGRATE, COMPLETE)
    requires VerifiedDiff(git, w, w.store[t], t).Some?
    ensures var last := Next(m, git, Next(m, git, Next(m, git, w, Crash), Complete(t, true)), Gate(true, false));
      && t in last.store && last.store[t].phase == COMPLETE && last.log != []
      && var e := last.log[|last.log| - 1];
      e.PassedGate? && e.record == w.store[t] && e.before != git.checkout(e.record.base)
  {
    var idle := w.(doing := Idle);
    assert Next(m, git, w, Crash) == idle;
    assert VerifiedDiff(git, idle, w.store[t], t) == VerifiedDiff(git, w, w.store[t], t);
    CompletesOn(m, git, idle, t);
    assert w.store[t].base == w.head;
  }
}
