/** The model router: a ladder of lakes, a rotation in each, and models that are cooling down. */
module LakeRouter {
  import opened Common
  import LittleEndian
  import Numbers

  /** A rung of the ladder for one tier: whether it has a key, and which of its models are available. */
  datatype Lake = Lake(name: string, hasKey: bool, available: seq<bool>)

  predicate Usable(lake: Lake) { lake.hasKey && exists i :: 0 <= i < |lake.available| && lake.available[i] }

  /** The position `offset` steps on from `start` in a list of n. */
  function At(start: nat, offset: nat, n: nat): nat
    requires n > 0
  {
    (start + offset) % n
  }

  /** The first available position in rotation order, from an offset on. */
  ghost predicate FirstFrom(available: seq<bool>, start: nat, offset: nat) {
    && offset < |available| && available[At(start, offset, |available|)]
    && forall k :: 0 <= k < offset ==> !available[At(start, k, |available|)]
  }

  /** `route` for one tier: the rung, the position of the model, and the advanced rotation. */
  method Route(ladder: seq<Lake>, rotation: map<string, nat>) returns (pick: Option<(nat, nat)>, next: map<string, nat>)
    ensures pick.None? <==> forall i :: 0 <= i < |ladder| ==> !Usable(ladder[i])
    ensures pick.None? ==> next == rotation
    ensures pick.Some? ==>
      var (i, p) := pick.value;
      && i < |ladder| && Usable(ladder[i]) && (forall j :: 0 <= j < i ==> !Usable(ladder[j]))
      && var start := if ladder[i].name in rotation then rotation[ladder[i].name] else 0;
      var n := |ladder[i].available|;
      && (exists offset :: FirstFrom(ladder[i].available, start, offset) && p == At(start, offset, n))
      && next == rotation[ladder[i].name := (p + 1) % n]
  {
    for i := 0 to |ladder|
      invariant forall j :: 0 <= j < i ==> !Usable(ladder[j])
    {
      var lake := ladder[i];
      if lake.hasKey && lake.available != [] {
        var start := if lake.name in rotation then rotation[lake.name] else 0;
        var n := |lake.available|;
        for offset := 0 to n
          invariant forall k :: 0 <= k < offset ==> !lake.available[At(start, k, n)]
        {
          var p := (start + offset) % n;
          if lake.available[p] {
            assert FirstFrom(lake.available, start, offset);
            return Some((i, p)), rotation[lake.name := (p + 1) % n];
          }
        }
        AllSeen(lake.available, start);
      }
    }
    return None, rotation;
  }

  /** A whole turn passes every position. */
  lemma AllSeen(available: seq<bool>, start: nat)
    requires available != [] && forall k :: 0 <= k < |available| ==> !available[At(start, k, |available|)]
    ensures forall i :: 0 <= i < |available| ==> !available[i]
  {
    var n := |available|;
    forall i | 0 <= i < n ensures !available[i] {
      var k := OffsetOf(start, i, n);
      assert At(start, k, n) == i;
    }
  }

  lemma OffsetOf(start: nat, i: nat, n: nat) returns (k: nat)
    requires i < n
    ensures k < n && At(start, k, n) == i
  {
    var s, q := start % n, start / n;
    if i >= s {
      k := i - s;
      LittleEndian.ModUnique(start + k, n, q, i);
    } else {
      k := i + n - s;
      Numbers.Distribute(n, q, 1);
      LittleEndian.ModUnique(start + k, n, q + 1, i);
    }
  }

  lemma ModAdd(a: nat, b: nat, n: nat)
    requires n > 0
    ensures (a % n + b) % n == (a + b) % n
  {
    var q, r := (a % n + b) / n, (a % n + b) % n;
    Numbers.Distribute(n, a / n, q);
    LittleEndian.ModUnique(a + b, n, a / n + q, r);
  }

  // ---- the rotation ----

  /** The position `offset` steps on, for a start and an offset within the list. */
  function Pos(start: nat, offset: nat, n: nat): nat
  {
    if start + offset < n then start + offset else start + offset - n
  }

  /** Both ways to count around the list agree; a stored start beyond the list counts as its remainder. */
  lemma AtIsPos(start: nat, offset: nat, n: nat)
    requires offset < n
    ensures At(start, offset, n) == Pos(start % n, offset, n)
  {
    var x := start % n + offset;
    ModAdd(start, offset, n);
    if x < n { LittleEndian.ModUnique(x, n, 0, x); } else { LittleEndian.ModUnique(x, n, 1, x - n); }
  }

  /** The offset of the next pick at or after `from`; the number of positions if there is none. */
  function Gap(available: seq<bool>, start: nat, from: nat): (k: nat)
    requires start < |available| && from <= |available|
    ensures from <= k <= |available| && (k < |available| ==> available[Pos(start, k, |available|)])
    ensures forall j :: from <= j < k ==> !available[Pos(start, j, |available|)]
    decreases |available| - from
  {
    if from == |available| || available[Pos(start, from, |available|)] then from else Gap(available, start, from + 1)
  }

  /** The positions of k consecutive picks while the same models are available. */
  function Picks(available: seq<bool>, start: nat, k: nat): seq<nat>
    requires start < |available|
    decreases k
  {
    if k == 0 || Gap(available, start, 0) == |available| then []
    else
      var p := Pos(start, Gap(available, start, 0), |available|);
      [p] + Picks(available, Pos(p, 1, |available|), k - 1)
  }

  /** What `Route` picks in a lake, and where it leaves the rotation, is one pick of the sequence. */
  lemma RouteIsPick(available: seq<bool>, start: nat, offset: nat, k: nat)
    requires FirstFrom(available, start, offset) && k > 0
    ensures var n := |available|;
      var p := At(start, offset, n);
      p < n && Picks(available, start % n, k) == [p] + Picks(available, (p + 1) % n, k - 1)
  {
    var n := |available|;
    var p := At(start, offset, n);
    forall j | 0 <= j <= offset ensures At(start, j, n) == Pos(start % n, j, n) { AtIsPos(start, j, n); }
    assert Gap(available, start % n, 0) == offset;
    if p + 1 < n { LittleEndian.ModUnique(p + 1, n, 0, p + 1); } else { LittleEndian.ModUnique(p + 1, n, 1, 0); }
  }

  /** The available positions among the first `length` in rotation order. */
  function Arc(available: seq<bool>, start: nat, length: nat): set<nat>
    requires start < |available| && length <= |available|
  {
    set i | 0 <= i < length && available[Pos(start, i, |available|)] :: Pos(start, i, |available|)
  }

  /** The first pick splits the arc: it comes first, and the others follow from the advanced start. */
  lemma ArcSplit(available: seq<bool>, start: nat, length: nat)
    requires start < |available| && length <= |available| && Gap(available, start, 0) < length
    ensures var n, g := |available|, Gap(available, start, 0);
      var p := Pos(start, g, n);
      var rest := Arc(available, Pos(p, 1, n), length - g - 1);
      Arc(available, start, length) == {p} + rest && p !in rest
  {
    var n, g := |available|, Gap(available, start, 0);
    var p := Pos(start, g, n);
    var next := Pos(p, 1, n);
    var all, rest := Arc(available, start, length), Arc(available, next, length - g - 1);
    forall i | 0 <= i < length - g - 1 ensures Pos(next, i, n) == Pos(start, g + 1 + i, n) {}
    forall x | x in all ensures x == p || x in rest {
      var i :| 0 <= i < length && available[Pos(start, i, n)] && x == Pos(start, i, n);
      if i > g { assert x == Pos(next, i - g - 1, n); }
    }
    forall x | x in rest ensures x in all && x != p {
      var i :| 0 <= i < length - g - 1 && available[Pos(next, i, n)] && x == Pos(next, i, n);
      assert x == Pos(start, g + 1 + i, n);
    }
    assert p in all by { assert p == Pos(start, g, n); }
  }

  lemma ArcEmpty(available: seq<bool>, start: nat, length: nat)
    requires start < |available| && length <= Gap(available, start, 0)
    ensures Arc(available, start, length) == {}
  {
  }

  predicate Distinct(s: seq<nat>) { forall i, j :: 0 <= i < j < |s| ==> s[i] != s[j] }

  /** As many picks as there are available positions in an arc are these positions, each once. */
  lemma {:induction false} PicksFill(available: seq<bool>, start: nat, length: nat, k: nat)
    requires start < |available| && length <= |available| && k == |Arc(available, start, length)|
    ensures |Picks(available, start, k)| == k && Distinct(Picks(available, start, k))
    ensures forall p :: p in Picks(available, start, k) <==> p in Arc(available, start, length)
    decreases k
  {
    var n, g := |available|, Gap(available, start, 0);
    if g >= length {
      ArcEmpty(available, start, length);
    } else {
      ArcSplit(available, start, length);
      var p := Pos(start, g, n);
      var next := Pos(p, 1, n);
      var rest := Arc(available, next, length - g - 1);
      assert |{p} + rest| == 1 + |rest|;
      PicksFill(available, next, length - g - 1, k - 1);
      var tail := Picks(available, next, k - 1);
      assert Picks(available, start, k) == [p] + tail;
      OneMore(p, tail, rest);
    }
  }

  lemma OneMore(p: nat, tail: seq<nat>, rest: set<nat>)
    requires Distinct(tail) && p !in rest && forall x :: x in tail <==> x in rest
    ensures Distinct([p] + tail) && forall x :: x in [p] + tail <==> x in {p} + rest
  {
  }

  function Open(available: seq<bool>): set<nat> { set i | 0 <= i < |available| && available[i] }

  /** With m positions available, any m consecutive picks return each of them exactly once. */
  lemma FairTurn(available: seq<bool>, start: nat, m: nat)
    requires start < |available| && m == |Open(available)|
    ensures |Picks(available, start, m)| == m && Distinct(Picks(available, start, m))
    ensures forall p :: p in Picks(available, start, m) <==> p in Open(available)
  {
    var n := |available|;
    forall x | x in Open(available) ensures x in Arc(available, start, n) {
      var i := if x >= start then x - start else x + n - start;
      assert Pos(start, i, n) == x;
    }
    assert Open(available) == Arc(available, start, n);
    PicksFill(available, start, n, m);
  }

  // ---- consecutive routes ----

  /** The rung every route takes while the ladder stays as it is. */
  ghost predicate FirstUsable(ladder: seq<Lake>, i: nat) {
    i < |ladder| && Usable(ladder[i]) && forall j :: 0 <= j < i ==> !Usable(ladder[j])
  }

  function Start(rotation: map<string, nat>, lake: Lake): nat {
    if lake.name in rotation then rotation[lake.name] else 0
  }

  lemma Remainder(x: nat, n: nat)
    requires n > 0
    ensures x % n < n && x % n % n == x % n
  {
    LittleEndian.ModUnique(x % n, n, 0, x % n);
  }

  /** One call goes to the usable rung and takes the next pick of its rotation. */
  method RouteOnce(ladder: seq<Lake>, rotation: map<string, nat>, ghost i: nat, ghost k: nat)
    returns (pick: (nat, nat), next: map<string, nat>)
    requires FirstUsable(ladder, i) && k > 0
    ensures pick.0 == i
    ensures var available := ladder[i].available;
      Picks(available, Start(rotation, ladder[i]) % |available|, k) ==
      [pick.1] + Picks(available, Start(next, ladder[i]) % |available|, k - 1)
  {
    ghost var available, from := ladder[i].available, Start(rotation, ladder[i]);
    var found;
    found, next := Route(ladder, rotation);
    pick := found.value;
    ghost var offset :| FirstFrom(available, from, offset) && pick.1 == At(from, offset, |available|);
    RouteIsPick(available, from, offset, k);
    Remainder(pick.1 + 1, |available|);
  }

  /**
   Any number of consecutive calls of `route`, each on the rotation the last one saved: all go to the
   same rung, and the positions are the picks of its rotation. As many calls as models are available
   take each of them exactly once.
   */
  method RouteTurn(ladder: seq<Lake>, rotation: map<string, nat>, count: nat, ghost i: nat)
    returns (rungs: seq<nat>, positions: seq<nat>, next: map<string, nat>)
    requires FirstUsable(ladder, i)
    ensures |rungs| == |positions| == count && forall k :: 0 <= k < count ==> rungs[k] == i
    ensures positions == Picks(ladder[i].available, Start(rotation, ladder[i]) % |ladder[i].available|, count)
    ensures count == |Open(ladder[i].available)| ==>
      Distinct(positions) && forall p :: p in positions <==> p in Open(ladder[i].available)
  {
    ghost var available := ladder[i].available;
    ghost var start := Start(rotation, ladder[i]) % |available|;
    rungs, positions, next := [], [], rotation;
    for k := 0 to count
      invariant |rungs| == |positions| == k && forall j :: 0 <= j < k ==> rungs[j] == i
      invariant positions + Picks(available, Start(next, ladder[i]) % |available|, count - k)
             == Picks(available, start, count)
    {
      var pick;
      pick, next := RouteOnce(ladder, next, i, count - k);
      rungs, positions := rungs + [pick.0], positions + [pick.1];
    }
    if count == |Open(available)| { FairTurn(available, start, count); }
  }
}
