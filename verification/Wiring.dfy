/**
 The wiring gate: which declarations are live, which have no callers, and which are called only by
 dead ones.
 */
module Wiring {
  import opened Common

  type Name = string

  /** A declaration: whether its kind is reported at all, and the container of a nested one. */
  datatype Declaration = Declaration(name: Name, reportable: bool, container: Option<Name>)

  /** The callers of the code base as pairs (caller, callee); a caller may be a whole file. */
  type Calls = set<(Name, Name)>

  // ---- reachability ----

  /** A chain of calls from a root, every later member of which is not dead in the manifest. */
  ghost predicate Chain(roots: set<Name>, calls: Calls, dead: set<Name>, path: seq<Name>) {
    && path != [] && path[0] in roots
    && forall i :: 0 < i < |path| ==> (path[i - 1], path[i]) in calls && path[i] !in dead
  }

  ghost predicate Reachable(roots: set<Name>, calls: Calls, dead: set<Name>, n: Name) {
    exists path :: Chain(roots, calls, dead, path) && path[|path| - 1] == n
  }

  lemma ReachableStep(roots: set<Name>, calls: Calls, dead: set<Name>, n: Name, callee: Name)
    requires Reachable(roots, calls, dead, n) && (n, callee) in calls && callee !in dead
    ensures Reachable(roots, calls, dead, callee)
  {
    var path :| Chain(roots, calls, dead, path) && path[|path| - 1] == n;
    assert Chain(roots, calls, dead, path + [callee]);
    assert (path + [callee])[|path|] == callee;
  }

  ghost predicate Closed(live: set<Name>, calls: Calls, dead: set<Name>, n: Name) {
    forall callee :: (n, callee) in calls ==> callee in live || callee in dead
  }

  /** A set that holds the roots and is closed under calls holds everything reachable. */
  lemma {:induction false} ClosedHolds(roots: set<Name>, calls: Calls, dead: set<Name>, live: set<Name>,
                                       path: seq<Name>)
    requires roots <= live && (forall n :: n in live ==> Closed(live, calls, dead, n))
      && Chain(roots, calls, dead, path)
    ensures path[|path| - 1] in live
  {
    if |path| <= 1 {
    } else {
      var front := path[..|path| - 1];
      ClosedHolds(roots, calls, dead, live, front);
      assert Closed(live, calls, dead, front[|front| - 1]);
    }
  }

  /** The worklist computes exactly the reachable declarations. */
  method Live(roots: set<Name>, order: seq<Name>, calls: Calls, dead: set<Name>) returns (live: set<Name>)
    requires roots == set n | n in order
    ensures forall n :: n in live <==> Reachable(roots, calls, dead, n)
  {
    live := roots;
    var queue := order;
    ghost var all := roots + set c | c in calls :: c.1;
    forall n | n in roots ensures Reachable(roots, calls, dead, n) { assert Chain(roots, calls, dead, [n]); }
    while queue != []
      invariant roots <= live <= all
      invariant forall n :: n in queue ==> n in live
      invariant forall n :: n in live ==> Reachable(roots, calls, dead, n)
      invariant forall n :: n in live && n !in queue ==> Closed(live, calls, dead, n)
      decreases all - live, |queue|
    {
      live, queue := Propagate(roots, calls, dead, live, queue, all);
    }
    forall n | Reachable(roots, calls, dead, n) ensures n in live {
      var path :| Chain(roots, calls, dead, path) && path[|path| - 1] == n;
      ClosedHolds(roots, calls, dead, live, path);
    }
  }

  /** Take the first name off the queue and add its new callees to the live set and the queue. */
  method Propagate(ghost roots: set<Name>, calls: Calls, dead: set<Name>, live: set<Name>, queue: seq<Name>,
                   ghost all: set<Name>)
    returns (more: set<Name>, rest: seq<Name>)
    requires queue != [] && live <= all && (forall n :: n in queue ==> n in live)
    requires forall c :: c in calls ==> c.1 in all
    requires forall n :: n in live ==> Reachable(roots, calls, dead, n)
    requires forall n :: n in live && n !in queue ==> Closed(live, calls, dead, n)
    ensures live <= more <= all && (forall n :: n in rest ==> n in more)
    ensures forall n :: n in more ==> Reachable(roots, calls, dead, n)
    ensures forall n :: n in more && n !in rest ==> Closed(more, calls, dead, n)
    ensures more == live ==> |rest| < |queue|
  {
    var current := queue[0];
    more, rest := live, queue[1..];
    var callees := set c | c in calls && c.0 == current :: c.1;
    var left := callees;
    while left != {}
      invariant left <= callees && live <= more <= all
      invariant forall callee :: callee in callees - left ==> callee in more || callee in dead
      invariant queue[1..] <= rest && forall n :: n in rest ==> n in more
      invariant forall n :: n in more - live ==> n in rest
      invariant forall n :: n in more ==> Reachable(roots, calls, dead, n)
      invariant more == live ==> rest == queue[1..]
      decreases left
    {
      var callee :| callee in left;
      left := left - {callee};
      if callee !in more && callee !in dead {
        assert (current, callee) in calls;
        ReachableStep(roots, calls, dead, current, callee);
        more := more + {callee};
        rest := rest + [callee];
      }
    }
    forall n | n in more && n !in rest ensures Closed(more, calls, dead, n) {
      forall callee | (n, callee) in calls ensures callee in more || callee in dead {
        if n == current {
          assert callee in callees;
        } else {
          assert n in live && n !in queue;
          assert Closed(live, calls, dead, n);
        }
      }
    }
  }

  // ---- death ----

  function Callers(calls: Calls, n: Name): set<Name> { set c | c in calls && c.1 == n && c.0 != n :: c.0 }

  /** A declaration that may be reported: of a reported kind, not live, and not inside a live container. */
  predicate Suspect(live: set<Name>, d: Declaration) {
    d.reportable && d.name !in live && !(d.container.Some? && d.container.value in live)
  }

  predicate Uncalled(calls: Calls, live: set<Name>, d: Declaration) { Suspect(live, d) && Callers(calls, d.name) == {} }

  predicate CalledByDead(calls: Calls, live: set<Name>, dead: set<Name>, d: Declaration) {
    Suspect(live, d) && Callers(calls, d.name) != {} && Callers(calls, d.name) <= dead
  }

  /** Nothing more dies. */
  ghost predicate Settled(decls: seq<Declaration>, calls: Calls, live: set<Name>, dead: set<Name>) {
    forall d :: d in decls && CalledByDead(calls, live, dead, d) ==> d.name in dead
  }

  /** The dead declarations are the least settled set above the given ones. */
  ghost predicate Least(decls: seq<Declaration>, calls: Calls, live: set<Name>, start: set<Name>, dead: set<Name>) {
    && start <= dead && Settled(decls, calls, live, dead)
    && forall s :: start <= s && Settled(decls, calls, live, s) ==> dead <= s
  }

  /** No declaration is reported twice. */
  ghost predicate Once(findings: seq<Declaration>) {
    forall i, j :: 0 <= i < j < |findings| ==> findings[i].name != findings[j].name
  }

  method ZeroCallers(decls: seq<Declaration>, calls: Calls, live: set<Name>, manifestDead: set<Name>)
    returns (dead: set<Name>, findings: seq<Declaration>)
    ensures forall n :: n in dead <==>
      n in manifestDead || exists d :: d in decls && d.name == n && Uncalled(calls, live, d)
    ensures dead == manifestDead + (set d | d in findings :: d.name) && Once(findings)
    ensures forall d :: d in findings ==> d in decls && Uncalled(calls, live, d) && d.name !in manifestDead
    ensures forall d :: d in findings ==>
      && d.reportable && d.name !in live && (d.container.Some? ==> d.container.value !in live)
      && forall c :: c in calls && c.1 == d.name ==> c.0 == d.name
    ensures forall d | d in decls && d.reportable && d.name !in live ::
      && (d.container.Some? ==> d.container.value !in live)
      && (forall c :: c in calls && c.1 == d.name ==> c.0 == d.name)
      ==> d.name in dead
  {
    dead, findings := manifestDead, [];
    for i := 0 to |decls|
      invariant forall n :: n in dead <==>
        n in manifestDead || exists d :: d in decls[..i] && d.name == n && Uncalled(calls, live, d)
      invariant forall d :: d in findings ==> d in decls && Uncalled(calls, live, d) && d.name !in manifestDead
      invariant dead == manifestDead + (set d | d in findings :: d.name) && Once(findings)
    {
      var d := decls[i];
      assert decls[..i + 1] == decls[..i] + [d];
      if d.name !in dead && Suspect(live, d) && Callers(calls, d.name) == {} {
        dead, findings := dead + {d.name}, findings + [d];
      }
    }
    assert decls[..|decls|] == decls;
    forall d | d in decls ensures Callers(calls, d.name) == {} <==>
        forall c :: c in calls && c.1 == d.name ==> c.0 == d.name {
      CallersEmpty(calls, d.name);
    }
  }

  lemma CallersEmpty(calls: Calls, n: Name)
    ensures Callers(calls, n) == {} <==> forall c :: c in calls && c.1 == n ==> c.0 == n
  {
    if c :| c in calls && c.1 == n && c.0 != n { assert c.0 in Callers(calls, n); }
  }

  /** Repeated passes over the declarations, in the order given, reach the least settled set. */
  method TransitiveDeath(decls: seq<Declaration>, calls: Calls, live: set<Name>, start: set<Name>)
    returns (dead: set<Name>, findings: seq<Declaration>)
    ensures Least(decls, calls, live, start, dead)
    ensures dead == start + (set d | d in findings :: d.name) && Once(findings)
    ensures forall d :: d in findings ==>
      && d in decls && d.name !in start
      && d.reportable && d.name !in live && (d.container.Some? ==> d.container.value !in live)
    ensures forall d | d in decls && d.reportable && d.name !in live ::
      && (d.container.Some? ==> d.container.value !in live)
      && (exists c :: c in calls && c.1 == d.name && c.0 != d.name)
      && (forall c :: c in calls && c.1 == d.name && c.0 != d.name ==> c.0 in dead)
      ==> d.name in dead
  {
    dead, findings := start, [];
    ghost var all := start + set d | d in decls :: d.name;
    var changed := true;
    while changed
      invariant start <= dead <= all && Bounded(decls, calls, live, start, dead)
      invariant Recorded(decls, live, start, dead, findings)
      invariant !changed ==> Settled(decls, calls, live, dead)
      decreases all - dead, changed
    {
      changed := false;
      ghost var before := dead;
      for i := 0 to |decls|
        invariant start <= before <= dead <= all && Bounded(decls, calls, live, start, dead)
        invariant Recorded(decls, live, start, dead, findings)
        invariant changed <==> dead != before
        invariant !changed ==> forall d :: d in decls[..i] && CalledByDead(calls, live, dead, d) ==> d.name in dead
      {
        var d := decls[i];
        assert decls[..i + 1] == decls[..i] + [d];
        if d.name !in dead && CalledByDead(calls, live, dead, d) {
          RecordedMore(decls, live, start, dead, findings, d);
          BoundedMore(decls, calls, live, start, dead, d);
          dead, findings, changed := dead + {d.name}, findings + [d], true;
        }
      }
      assert decls[..|decls|] == decls;
    }
    SettledMeans(decls, calls, live, dead);
  }

  lemma SettledMeans(decls: seq<Declaration>, calls: Calls, live: set<Name>, dead: set<Name>)
    requires Settled(decls, calls, live, dead)
    ensures forall d | d in decls && d.reportable && d.name !in live ::
      && (d.container.Some? ==> d.container.value !in live)
      && (exists c :: c in calls && c.1 == d.name && c.0 != d.name)
      && (forall c :: c in calls && c.1 == d.name && c.0 != d.name ==> c.0 in dead)
      ==> d.name in dead
  {
    forall d | d in decls && Suspect(live, d) && (exists c :: c in calls && c.1 == d.name && c.0 != d.name)
      && (forall c :: c in calls && c.1 == d.name && c.0 != d.name ==> c.0 in dead)
      ensures d.name in dead
    {
      var c :| c in calls && c.1 == d.name && c.0 != d.name;
      assert c.0 in Callers(calls, d.name);
      assert CalledByDead(calls, live, dead, d);
    }
  }

  /** Everything dead is in every settled set above the start. */
  ghost predicate Bounded(decls: seq<Declaration>, calls: Calls, live: set<Name>, start: set<Name>, dead: set<Name>) {
    forall s :: start <= s && Settled(decls, calls, live, s) ==> dead <= s
  }

  ghost predicate Recorded(decls: seq<Declaration>, live: set<Name>, start: set<Name>, dead: set<Name>,
                           findings: seq<Declaration>)
  {
    && dead == start + (set d | d in findings :: d.name) && Once(findings)
    && forall d :: d in findings ==> d in decls && Suspect(live, d) && d.name !in start
  }

  lemma RecordedMore(decls: seq<Declaration>, live: set<Name>, start: set<Name>, dead: set<Name>,
                     findings: seq<Declaration>, d: Declaration)
    requires Recorded(decls, live, start, dead, findings) && d in decls && Suspect(live, d) && d.name !in dead
    ensures Recorded(decls, live, start, dead + {d.name}, findings + [d])
  {
    forall x | x in findings ensures x.name in dead {}
  }

  lemma BoundedMore(decls: seq<Declaration>, calls: Calls, live: set<Name>, start: set<Name>, dead: set<Name>,
                    d: Declaration)
    requires Bounded(decls, calls, live, start, dead) && d in decls && CalledByDead(calls, live, dead, d)
    ensures Bounded(decls, calls, live, start, dead + {d.name})
  {
    forall s | start <= s && Settled(decls, calls, live, s) ensures d.name in s {
      assert dead <= s;
      assert CalledByDead(calls, live, s, d);
    }
  }

  // ---- what the reports mean ----

  /** The order and repetition of the declarations do not matter. */
  lemma OrderIrrelevant(decls: seq<Declaration>, other: seq<Declaration>, calls: Calls, live: set<Name>,
                        start: set<Name>, dead: set<Name>, otherDead: set<Name>)
    requires forall d :: d in decls <==> d in other
    requires Least(decls, calls, live, start, dead) && Least(other, calls, live, start, otherDead)
    ensures dead == otherDead
  {
    assert Settled(decls, calls, live, otherDead) && Settled(other, calls, live, dead);
  }

  /** Declarations that keep each other called are never reported, even if nothing live calls them. */
  lemma CyclesUnreported(decls: seq<Declaration>, calls: Calls, live: set<Name>, start: set<Name>, dead: set<Name>,
                         cycle: set<Name>)
    requires Least(decls, calls, live, start, dead)
    requires cycle !! start && forall n :: n in cycle ==>
      exists caller :: caller in cycle && caller in Callers(calls, n)
    ensures cycle !! dead
  {
    var rest := dead - cycle;
    forall d | d in decls && CalledByDead(calls, live, rest, d) ensures d.name in rest {
      assert CalledByDead(calls, live, dead, d);
    }
    assert Settled(decls, calls, live, rest);
  }

  /** Two declarations that only call each other: neither live, both suspect, and nothing is ever reported. */
  lemma CycleHappens(a: Name, b: Name)
    requires a != b
    ensures var decls := [Declaration(a, true, None), Declaration(b, true, None)];
      && Suspect({}, decls[0]) && Suspect({}, decls[1]) && Least(decls, {(a, b), (b, a)}, {}, {}, {})
  {
    var calls := {(a, b), (b, a)};
    assert b in Callers(calls, a) by { assert (b, a) in calls; }
    assert a in Callers(calls, b) by { assert (a, b) in calls; }
  }

  /** Every way back along the callers of n ends within `depth` steps in a declaration dead from the start. */
  ghost predicate Doomed(decls: seq<Declaration>, calls: Calls, live: set<Name>, start: set<Name>, n: Name, depth: nat)
    decreases depth
  {
    n in start || (depth > 0 && Callers(calls, n) != {} && Suspected(decls, live, n) &&
      forall caller :: caller in Callers(calls, n) ==> Doomed(decls, calls, live, start, caller, depth - 1))
  }

  ghost predicate Finished(decls: seq<Declaration>, calls: Calls, live: set<Name>, start: set<Name>, n: Name) {
    exists depth: nat :: Doomed(decls, calls, live, start, n, depth)
  }

  ghost predicate Suspected(decls: seq<Declaration>, live: set<Name>, n: Name) {
    exists d :: d in decls && d.name == n && Suspect(live, d)
  }

  lemma {:induction false} DoomedMore(decls: seq<Declaration>, calls: Calls, live: set<Name>, start: set<Name>,
                                      n: Name, k: nat, depth: nat)
    requires Doomed(decls, calls, live, start, n, k) && k <= depth
    ensures Doomed(decls, calls, live, start, n, depth)
    decreases k
  {
    if n !in start {
      forall caller | caller in Callers(calls, n) ensures Doomed(decls, calls, live, start, caller, depth - 1) {
        DoomedMore(decls, calls, live, start, caller, k - 1, depth - 1);
      }
    }
  }

  lemma {:induction false} CommonDepth(decls: seq<Declaration>, calls: Calls, live: set<Name>, start: set<Name>,
                                       names: set<Name>)
    returns (depth: nat)
    requires forall n :: n in names ==> Finished(decls, calls, live, start, n)
    ensures forall n :: n in names ==> Doomed(decls, calls, live, start, n, depth)
  {
    depth := 0;
    if names == {} {
    } else {
      var n :| n in names;
      assert Finished(decls, calls, live, start, n);
      var k: nat :| Doomed(decls, calls, live, start, n, k);
      var rest := CommonDepth(decls, calls, live, start, names - {n});
      depth := k + rest;
      forall x | x in names ensures Doomed(decls, calls, live, start, x, depth) {
        DoomedMore(decls, calls, live, start, x, if x == n then k else rest, depth);
      }
    }
  }

  lemma {:induction false} DoomedDies(decls: seq<Declaration>, calls: Calls, live: set<Name>, start: set<Name>,
                                      dead: set<Name>, n: Name, depth: nat)
    requires start <= dead && Settled(decls, calls, live, dead) && Doomed(decls, calls, live, start, n, depth)
    ensures n in dead
    decreases depth
  {
    if n !in start {
      forall caller | caller in Callers(calls, n) ensures caller in dead {
        DoomedDies(decls, calls, live, start, dead, caller, depth - 1);
      }
      var d :| d in decls && d.name == n && Suspect(live, d);
      assert CalledByDead(calls, live, dead, d);
    }
  }

  /** Exactly the declarations from which every way back along the callers ends in a dead one are reported. */
  lemma DeadExactly(decls: seq<Declaration>, calls: Calls, live: set<Name>, start: set<Name>, dead: set<Name>, n: Name)
    requires Least(decls, calls, live, start, dead)
    ensures n in dead <==> Finished(decls, calls, live, start, n)
  {
    var doomed := set x | x in dead && Finished(decls, calls, live, start, x);
    forall x | x in start ensures x in doomed { assert Doomed(decls, calls, live, start, x, 0); }
    forall d | d in decls && CalledByDead(calls, live, doomed, d) ensures d.name in doomed {
      var depth := CommonDepth(decls, calls, live, start, Callers(calls, d.name));
      assert Doomed(decls, calls, live, start, d.name, depth + 1);
      DoomedDies(decls, calls, live, start, dead, d.name, depth + 1);
    }
    assert Settled(decls, calls, live, doomed);
    if Finished(decls, calls, live, start, n) {
      var depth: nat :| Doomed(decls, calls, live, start, n, depth);
      DoomedDies(decls, calls, live, start, dead, n, depth);
    }
  }
}
