/** What holds of one session whatever messages it is given, and along one receiving chain. */
module RatchetChains {
  import opened Common
  import opened Ratchet

  // ---- the store as a partial map ----

  predicate Unique<B(==)>(store: seq<Entry<B>>) {
    forall i, j :: 0 <= i < j < |store| ==> store[i].dh != store[j].dh || store[i].number != store[j].number
  }

  lemma {:induction false} LookupNone<B>(store: seq<Entry<B>>, dh: B, number: int)
    ensures Lookup(store, dh, number) == None <==>
            forall i :: 0 <= i < |store| ==> store[i].dh != dh || store[i].number != number
  {
    if store == [] {
    } else {
      LookupNone(store[1..], dh, number);
      if Lookup(store, dh, number) == None {
        forall i | 0 <= i < |store| ensures store[i].dh != dh || store[i].number != number {
          if i > 0 { assert store[i] == store[1..][i - 1]; }
        }
      }
    }
  }

  /** Entries of the new store come from the old one or are the new entry. */
  lemma {:induction false} WithEntries<B>(store: seq<Entry<B>>, dh: B, number: int, key: B)
    ensures |store| <= |With(store, dh, number, key)| <= |store| + 1
    ensures forall e :: e in With(store, dh, number, key) ==> e in store || e == Entry(dh, number, key)
    ensures Unique(store) ==> Unique(With(store, dh, number, key))
  {
    if store == [] {
    } else {
      WithEntries(store[1..], dh, number, key);
      var rest := With(store[1..], dh, number, key);
      if Unique(store) && !(store[0].dh == dh && store[0].number == number) {
        forall j | 0 <= j < |rest| ensures store[0].dh != rest[j].dh || store[0].number != rest[j].number {
          assert rest[j] in rest;
        }
      }
    }
  }

  lemma {:induction false} WithoutEntries<B>(store: seq<Entry<B>>, dh: B, number: int)
    ensures |store| - 1 <= |Without(store, dh, number)| <= |store|
    ensures forall e :: e in Without(store, dh, number) ==> e in store
    ensures Unique(store) ==> Unique(Without(store, dh, number))
  {
    if store == [] {
    } else {
      WithoutEntries(store[1..], dh, number);
      var rest := Without(store[1..], dh, number);
      if Unique(store) && !(store[0].dh == dh && store[0].number == number) {
        forall j | 0 <= j < |rest| ensures store[0].dh != rest[j].dh || store[0].number != rest[j].number {
          assert rest[j] in rest;
        }
      }
    }
  }

  // ---- any headers at all ----

  /** The chain key n steps after `start`. */
  function Chain<B>(p: Primitives<B>, start: B, n: nat): B {
    if n == 0 then start else p.nextKey(Chain(p, start, n - 1))
  }

  /** The most keys a session ever stores. */
  function Capacity(cfg: Config): nat { if cfg.maxSkipped < 1 then 1 else cfg.maxSkipped }

  ghost predicate Sound<B(!new)>(p: Primitives<B>, cfg: Config, s: Session<B>, start: B) {
    && s.recvKey == Chain(p, start, s.received)
    && |s.store| <= Capacity(cfg)
    && Unique(s.store)
  }

  lemma SkipOneSound<B(!new)>(p: Primitives<B>, cfg: Config, s: Session<B>, dh: B, start: B)
    requires Sound(p, cfg, s, start)
    ensures Sound(p, cfg, SkipOne(p, cfg, s, dh), start)
  {
    WithEntries(Trimmed(cfg, s.store), dh, s.received, p.messageKey(s.recvKey));
  }

  lemma {:induction false} SkipToSound<B(!new)>(p: Primitives<B>, cfg: Config, s: Session<B>, dh: B, number: int,
                                                start: B)
    requires Sound(p, cfg, s, start)
    ensures Sound(p, cfg, SkipTo(p, cfg, s, dh, number), start)
    ensures SkipTo(p, cfg, s, dh, number).received == if number > s.received then number else s.received
    decreases number - s.received
  {
    if s.received < number {
      SkipOneSound(p, cfg, s, dh, start);
      SkipToSound(p, cfg, SkipOne(p, cfg, s, dh), dh, number, start);
    }
  }

  lemma MessageKeySound<B(!new)>(p: Primitives<B>, cfg: Config, s: Session<B>, dh: B, number: int, start: B)
    requires Sound(p, cfg, s, start)
    ensures Sound(p, cfg, MessageKey(p, cfg, s, dh, number).0, start)
    ensures s.received <= MessageKey(p, cfg, s, dh, number).0.received
                       <= s.received + (if cfg.maxGap > 0 then cfg.maxGap else 0) + 1
  {
    SkipToSound(p, cfg, s, dh, number, start);
    WithoutEntries(s.store, dh, number);
  }

  lemma TurnSound<B(!new)>(p: Primitives<B>, cfg: Config, s: Session<B>, start: B, peer: B, priv: B)
    requires Sound(p, cfg, s, start)
    ensures var t := Turn(p, s, peer, priv);
            Sound(p, cfg, t, t.recvKey) && t.sendKey == Chain(p, t.sendKey, t.sent)
  {
  }

  /** The start of the receiving chain a session is on after a message. */
  function StartAfter<B(==)>(p: Primitives<B>, s: Session<B>, m: Message<B>, start: B): B {
    if m.header.dh == s.peer then start else p.chainHalf(p.dh(s.privKey, m.header.dh), s.root)
  }

  /**
   Whatever the header says, honest or not: the store stays within its capacity, at most maxGap
   keys are stored and one more is used, and the receiving key is where the counter says it is.
   */
  lemma DecryptSound<B(!new)>(p: Primitives<B>, cfg: Config, s: Session<B>, m: Message<B>, priv: B, start: B)
    requires Sound(p, cfg, s, start)
    ensures Sound(p, cfg, Decrypt(p, cfg, s, m, priv).0, StartAfter(p, s, m, start))
    ensures var before := if m.header.dh == s.peer then s.received else 0;
            var after := Decrypt(p, cfg, s, m, priv).0.received;
            before <= after <= before + (if cfg.maxGap > 0 then cfg.maxGap else 0) + 1
  {
    var turned := if m.header.dh == s.peer then s else Turn(p, s, m.header.dh, priv);
    assert Sound(p, cfg, turned, StartAfter(p, s, m, start));
    MessageKeySound(p, cfg, turned, m.header.dh, m.header.number, StartAfter(p, s, m, start));
  }

  datatype Call<+B> = Receive(m: Message<B>, priv: B) | Send(nonce: B, text: B)

  function Stepped<B(==)>(p: Primitives<B>, cfg: Config, s: Session<B>, c: Call<B>): Session<B> {
    match c
    case Receive(m, priv) => Decrypt(p, cfg, s, m, priv).0
    case Send(nonce, text) => Encrypt(p, s, nonce, text).0
  }

  function After<B(==)>(p: Primitives<B>, cfg: Config, s: Session<B>, calls: seq<Call<B>>): Session<B>
    decreases |calls|
  {
    if calls == [] then s else After(p, cfg, Stepped(p, cfg, s, calls[0]), calls[1..])
  }

  /** The start of the receiving chain after the calls: that of the last DH ratchet step. */
  function ChainStart<B(==)>(p: Primitives<B>, cfg: Config, s: Session<B>, calls: seq<Call<B>>, start: B): B
    decreases |calls|
  {
    if calls == [] then start
    else
      var next := if calls[0].Receive? then StartAfter(p, s, calls[0].m, start) else start;
      ChainStart(p, cfg, Stepped(p, cfg, s, calls[0]), calls[1..], next)
  }

  /** Over any sequence of calls, with any messages, a session stays sound. */
  lemma {:induction false} AlwaysSound<B(!new)>(p: Primitives<B>, cfg: Config, s: Session<B>, calls: seq<Call<B>>,
                                                start: B)
    requires Sound(p, cfg, s, start)
    ensures Sound(p, cfg, After(p, cfg, s, calls), ChainStart(p, cfg, s, calls, start))
    decreases |calls|
  {
    if calls == [] {
    } else {
      match calls[0] {
        case Receive(m, priv) =>
          DecryptSound(p, cfg, s, m, priv, start);
          AlwaysSound(p, cfg, Stepped(p, cfg, s, calls[0]), calls[1..], StartAfter(p, s, m, start));
        case Send(_, _) =>
          AlwaysSound(p, cfg, Stepped(p, cfg, s, calls[0]), calls[1..], start);
      }
    }
  }

  // ---- what skipping leaves in the store ----

  function Newest<T>(s: seq<T>, n: nat): seq<T> { if |s| > n then s[|s| - n..] else s }

  /** The keys of the next `count` messages of the chain a session receives along. */
  function Passed<B>(p: Primitives<B>, s: Session<B>, dh: B, count: nat): (r: seq<Entry<B>>)
    ensures |r| == count
    ensures forall i :: 0 <= i < count ==> r[i] == Entry(dh, s.received + i, p.messageKey(Chain(p, s.recvKey, i)))
  {
    seq(count, i requires 0 <= i < count => Entry(dh, s.received + i, p.messageKey(Chain(p, s.recvKey, i))))
  }

  lemma {:induction false} WithNew<B>(store: seq<Entry<B>>, dh: B, number: int, key: B)
    requires Lookup(store, dh, number) == None
    ensures With(store, dh, number, key) == store + [Entry(dh, number, key)]
  {
    if store == [] {
    } else {
      WithNew(store[1..], dh, number, key);
    }
  }

  lemma {:induction false} ChainNext<B>(p: Primitives<B>, start: B, n: nat)
    ensures Chain(p, p.nextKey(start), n) == Chain(p, start, n + 1)
  {
    if n == 0 {
      assert Chain(p, start, 1) == p.nextKey(Chain(p, start, 0));
    } else {
      ChainNext(p, start, n - 1);
    }
  }

  /** The store has no key of the chain announced by dh from `bound` on. */
  ghost predicate Below<B(!new)>(store: seq<Entry<B>>, dh: B, bound: int) {
    forall i :: 0 <= i < |store| && store[i].dh == dh ==> store[i].number < bound
  }

  lemma TrimmedNewest<B>(cfg: Config, store: seq<Entry<B>>, e: Entry<B>)
    requires |store| <= Capacity(cfg)
    ensures Trimmed(cfg, store) + [e] == Newest(store + [e], Capacity(cfg))
  {
  }

  lemma SkipOneStore<B(!new)>(p: Primitives<B>, cfg: Config, s: Session<B>, dh: B)
    requires Below(s.store, dh, s.received) && |s.store| <= Capacity(cfg)
    ensures var e := Entry(dh, s.received, p.messageKey(s.recvKey));
            SkipOne(p, cfg, s, dh).store == Newest(s.store + [e], Capacity(cfg))
  {
    var kept := Trimmed(cfg, s.store);
    LookupNone(kept, dh, s.received);
    WithNew(kept, dh, s.received, p.messageKey(s.recvKey));
    TrimmedNewest(cfg, s.store, Entry(dh, s.received, p.messageKey(s.recvKey)));
  }

  lemma BelowNewest<B(!new)>(store: seq<Entry<B>>, e: Entry<B>, n: nat)
    requires Below(store, e.dh, e.number)
    ensures Below(Newest(store + [e], n), e.dh, e.number + 1)
  {
  }

  lemma NewestAgain<T>(s: seq<T>, t: seq<T>, n: nat)
    ensures Newest(Newest(s, n) + t, n) == Newest(s + t, n)
  {
  }

  lemma {:induction false} SkipToFrame<B(!new)>(p: Primitives<B>, cfg: Config, s: Session<B>, dh: B, number: nat)
    requires s.received <= number
    ensures var t := SkipTo(p, cfg, s, dh, number);
            && t.recvKey == Chain(p, s.recvKey, number - s.received) && t.received == number
            && t == s.(store := t.store, recvKey := t.recvKey, received := t.received)
    decreases number - s.received
  {
    if s.received == number {
    } else {
      SkipToFrame(p, cfg, SkipOne(p, cfg, s, dh), dh, number);
      ChainNext(p, s.recvKey, number - s.received - 1);
    }
  }

  /**
   Skipping ahead keeps exactly the newest entries, up to the capacity, of the store followed by the
   skipped keys: what is evicted is always the oldest, so keys of abandoned chains go first.
   */
  lemma {:induction false} SkipToStore<B(!new)>(p: Primitives<B>, cfg: Config, s: Session<B>, dh: B, number: nat)
    requires Below(s.store, dh, s.received) && |s.store| <= Capacity(cfg) && s.received <= number
    ensures SkipTo(p, cfg, s, dh, number).store
         == Newest(s.store + Passed(p, s, dh, number - s.received), Capacity(cfg))
    decreases number - s.received
  {
    if s.received == number {
      assert s.store + Passed(p, s, dh, 0) == s.store;
    } else {
      var v, e := SkipOne(p, cfg, s, dh), Entry(dh, s.received, p.messageKey(s.recvKey));
      SkipOneStore(p, cfg, s, dh);
      BelowNewest(s.store, e, Capacity(cfg));
      SkipToStore(p, cfg, v, dh, number);
      PassedMore(p, s, v, dh, number - s.received);
      NewestJoin(s.store, e, Passed(p, v, dh, number - v.received), Capacity(cfg));
    }
  }

  lemma NewestJoin<T>(s: seq<T>, e: T, t: seq<T>, n: nat)
    ensures Newest(Newest(s + [e], n) + t, n) == Newest(s + ([e] + t), n)
  {
    NewestAgain(s + [e], t, n);
    assert s + [e] + t == s + ([e] + t);
  }

  lemma PassedMore<B>(p: Primitives<B>, s: Session<B>, v: Session<B>, dh: B, count: nat)
    requires count > 0 && v.received == s.received + 1 && v.recvKey == p.nextKey(s.recvKey)
    ensures Passed(p, s, dh, count) == [Entry(dh, s.received, p.messageKey(s.recvKey))] + Passed(p, v, dh, count - 1)
  {
    forall i | 0 < i < count ensures Passed(p, s, dh, count)[i] == Passed(p, v, dh, count - 1)[i - 1] {
      ChainNext(p, s.recvKey, i - 1);
    }
  }

  // ---- one receiving chain, any order, any loss, any eviction ----

  function KeyAt<B>(p: Primitives<B>, start: B, n: nat): B { p.messageKey(Chain(p, start, n)) }

  /** Whatever is stored for the chain announced by dh is the sender's key of a number passed by. */
  ghost predicate Right<B(!new)>(p: Primitives<B>, store: seq<Entry<B>>, dh: B, start: B, received: nat) {
    forall i :: 0 <= i < |store| && store[i].dh == dh ==>
      0 <= store[i].number < received && store[i].key == KeyAt(p, start, store[i].number)
  }

  ghost predicate Holds<B(!new)>(p: Primitives<B>, cfg: Config, s: Session<B>, dh: B, start: B) {
    Sound(p, cfg, s, start) && Right(p, s.store, dh, start, s.received)
  }

  lemma {:induction false} ChainSum<B>(p: Primitives<B>, start: B, a: nat, b: nat)
    ensures Chain(p, Chain(p, start, a), b) == Chain(p, start, a + b)
  {
    if b == 0 {
    } else {
      ChainSum(p, start, a, b - 1);
    }
  }

  lemma {:induction false} LookupRight<B(!new)>(p: Primitives<B>, store: seq<Entry<B>>, dh: B, start: B, received: nat,
                                                n: int)
    requires Right(p, store, dh, start, received) && Lookup(store, dh, n).Some?
    ensures 0 <= n < received && Lookup(store, dh, n) == Some(KeyAt(p, start, n))
  {
    if store[0].dh == dh && store[0].number == n {
    } else {
      LookupRight(p, store[1..], dh, start, received, n);
    }
  }

  lemma {:induction false} WithoutIs<B>(store: seq<Entry<B>>, dh: B, number: int) returns (i: nat)
    requires Lookup(store, dh, number).Some?
    ensures i < |store| && store[i].dh == dh && store[i].number == number
    ensures Without(store, dh, number) == store[..i] + store[i + 1..]
  {
    if store[0].dh == dh && store[0].number == number {
      i := 0;
    } else {
      i := WithoutIs(store[1..], dh, number);
      i := i + 1;
    }
  }

  lemma PassedRight<B(!new)>(p: Primitives<B>, s: Session<B>, dh: B, start: B, count: nat)
    requires s.recvKey == Chain(p, start, s.received)
    ensures Right(p, Passed(p, s, dh, count), dh, start, s.received + count)
  {
    forall i | 0 <= i < count ensures Passed(p, s, dh, count)[i].key == KeyAt(p, start, s.received + i) {
      ChainSum(p, start, s.received, i);
    }
  }

  /** Skipping to a number and using its key. */
  lemma SkipToHolds<B(!new)>(p: Primitives<B>, cfg: Config, s: Session<B>, dh: B, number: nat, start: B)
    requires Holds(p, cfg, s, dh, start) && s.received <= number
    ensures Holds(p, cfg, SkipTo(p, cfg, s, dh, number), dh, start)
    ensures SkipTo(p, cfg, s, dh, number).received == number
  {
    SkipToSound(p, cfg, s, dh, number, start);
    SkipToStore(p, cfg, s, dh, number);
    PassedRight(p, s, dh, start, number - s.received);
  }

  /** Whatever numbers are asked for, the session keeps holding right keys. */
  lemma MessageKeyHolds<B(!new)>(p: Primitives<B>, cfg: Config, s: Session<B>, dh: B, number: int, start: B)
    requires Holds(p, cfg, s, dh, start)
    ensures Holds(p, cfg, MessageKey(p, cfg, s, dh, number).0, dh, start)
  {
    MessageKeySound(p, cfg, s, dh, number, start);
    if Lookup(s.store, dh, number).Some? {
      var i := WithoutIs(s.store, dh, number);
    } else if s.received <= number {
      SkipToHolds(p, cfg, s, dh, number, start);
    }
  }

  /** A number can be read now: its key is stored, or it lies ahead within the gap. */
  predicate Reachable<B(==)>(cfg: Config, s: Session<B>, dh: B, number: int) {
    Lookup(s.store, dh, number).Some? || s.received <= number <= s.received + cfg.maxGap
  }

  ghost predicate KeysDiffer<B(!new)>(p: Primitives<B>, start: B) {
    forall i: nat, j: nat {:trigger KeyAt(p, start, i), KeyAt(p, start, j)} ::
      i < j ==> KeyAt(p, start, i) != KeyAt(p, start, j)
  }

  /** A readable number gets the sender's key. */
  lemma ReachableKey<B(!new)>(p: Primitives<B>, cfg: Config, s: Session<B>, dh: B, number: nat, start: B)
    requires Holds(p, cfg, s, dh, start) && Reachable(cfg, s, dh, number)
    ensures MessageKey(p, cfg, s, dh, number).1 == Some(KeyAt(p, start, number))
  {
    if Lookup(s.store, dh, number).Some? {
      LookupRight(p, s.store, dh, start, s.received, number);
    } else {
      SkipToHolds(p, cfg, s, dh, number, start);
    }
  }

  /**
   In any order, after any loss, replay and eviction: a message gets its own key exactly when the key
   is in the store or its number lies ahead within the gap.
   */
  lemma ChainKeyExact<B(!new)>(p: Primitives<B>, cfg: Config, s: Session<B>, dh: B, number: nat, start: B)
    requires Holds(p, cfg, s, dh, start) && KeysDiffer(p, start)
    ensures MessageKey(p, cfg, s, dh, number).1 == Some(KeyAt(p, start, number)) <==> Reachable(cfg, s, dh, number)
  {
    if Reachable(cfg, s, dh, number) {
      ReachableKey(p, cfg, s, dh, number, start);
    } else if number < s.received {
      assert KeyAt(p, start, number) != KeyAt(p, start, s.received);
    }
  }

  /** A message without a stored key takes the key of the next one, and that message is then lost. */
  lemma ReplayTakesNextKey<B(!new)>(p: Primitives<B>, cfg: Config, s: Session<B>, dh: B, number: nat, start: B)
    requires Holds(p, cfg, s, dh, start) && number < s.received && !Reachable(cfg, s, dh, number) && cfg.maxGap >= 0
    ensures var (t, key) := MessageKey(p, cfg, s, dh, number);
            && key == Some(KeyAt(p, start, s.received))
            && MessageKey(p, cfg, t, dh, s.received).1 == Some(KeyAt(p, start, s.received + 1))
  {
    LookupNone(s.store, dh, s.received);
  }

  // ---- exactly which keys are stored ----

  /** Keys of the chain announced by dh stand at the end of the store, in the order of their numbers. */
  ghost predicate Ordered<B(!new)>(store: seq<Entry<B>>, dh: B) {
    forall i, j :: 0 <= i < j < |store| && store[i].dh == dh ==> store[j].dh == dh && store[i].number < store[j].number
  }

  ghost predicate Stored<B(!new)>(store: seq<Entry<B>>, dh: B, n: int) {
    exists i :: 0 <= i < |store| && store[i].dh == dh && store[i].number == n
  }

  /** Exactly the undelivered numbers from `floor` up to the count are stored. */
  ghost predicate Keeps<B(!new)>(store: seq<Entry<B>>, dh: B, received: nat, delivered: set<nat>, floor: nat) {
    && Ordered(store, dh)
    && forall n: int :: Stored(store, dh, n) <==> floor <= n < received && n !in delivered
  }

  ghost predicate OnChain<B(!new)>(p: Primitives<B>, cfg: Config, s: Session<B>, dh: B, start: B, delivered: set<nat>,
                                   floor: nat)
  {
    && Holds(p, cfg, s, dh, start) && Keeps(s.store, dh, s.received, delivered, floor)
    && (forall n :: n in delivered ==> n < s.received)
  }

  /** The entries of other chains, which come first. */
  function Older<B(==)>(store: seq<Entry<B>>, dh: B): (k: nat)
    ensures k <= |store| && (forall i :: 0 <= i < k ==> store[i].dh != dh) && (k < |store| ==> store[k].dh == dh)
  {
    if store == [] || store[0].dh == dh then 0 else 1 + Older(store[1..], dh)
  }

  /** The skipped keys join the others at the end. */
  lemma KeepsPassed<B(!new)>(p: Primitives<B>, s: Session<B>, dh: B, count: nat, delivered: set<nat>, floor: nat)
    requires Keeps(s.store, dh, s.received, delivered, floor) && floor <= s.received
    requires forall n :: n in delivered ==> n < s.received
    ensures Keeps(s.store + Passed(p, s, dh, count), dh, s.received + count, delivered, floor)
  {
    var passed := Passed(p, s, dh, count);
    var all := s.store + passed;
    forall i | 0 <= i < |s.store| && s.store[i].dh == dh ensures s.store[i].number < s.received {
      assert Stored(s.store, dh, s.store[i].number);
    }
    forall n: int ensures Stored(all, dh, n) <==> floor <= n < s.received + count && n !in delivered {
      if Stored(s.store, dh, n) {
        var i :| 0 <= i < |s.store| && s.store[i].dh == dh && s.store[i].number == n;
        assert all[i] == s.store[i];
      }
      if s.received <= n < s.received + count { assert all[|s.store| + (n - s.received)] == passed[n - s.received]; }
      if Stored(all, dh, n) {
        var i :| 0 <= i < |all| && all[i].dh == dh && all[i].number == n;
        if i < |s.store| { assert Stored(s.store, dh, n); } else { assert all[i] == passed[i - |s.store|]; }
      }
    }
  }

  /** Dropping entries from the front raises the floor, and only once the other chains' entries are gone. */
  lemma KeepsDropped<B(!new)>(store: seq<Entry<B>>, dh: B, received: nat, delivered: set<nat>, floor: nat, d: nat)
    returns (next: nat)
    requires Keeps(store, dh, received, delivered, floor) && d < |store| && floor <= received
    ensures Keeps(store[d..], dh, received, delivered, next) && floor <= next <= received
    ensures d <= Older(store, dh) ==> next == floor
  {
    var rest := store[d..];
    if d <= Older(store, dh) {
      next := floor;
      forall n: int ensures Stored(rest, dh, n) <==> Stored(store, dh, n) {
        if Stored(store, dh, n) {
          var i :| 0 <= i < |store| && store[i].dh == dh && store[i].number == n;
          assert rest[i - d] == store[i];
        }
      }
    } else {
      assert store[d].dh == dh && Stored(store, dh, store[d].number);
      next := store[d].number;
      forall n: int ensures Stored(rest, dh, n) <==> Stored(store, dh, n) && n >= next {
        if Stored(store, dh, n) && n >= next {
          var i :| 0 <= i < |store| && store[i].dh == dh && store[i].number == n;
          assert rest[i - d] == store[i];
        }
      }
    }
  }

  lemma Removed<B(!new)>(store: seq<Entry<B>>, dh: B, i: nat)
    requires Ordered(store, dh) && i < |store| && store[i].dh == dh
    ensures var rest := store[..i] + store[i + 1..];
            Ordered(rest, dh) && forall n: int :: Stored(rest, dh, n) <==> Stored(store, dh, n) && n != store[i].number
  {
    var rest := store[..i] + store[i + 1..];
    assert forall j :: 0 <= j < |rest| ==> rest[j] == store[if j < i then j else j + 1];
    forall n: int | Stored(store, dh, n) && n != store[i].number ensures Stored(rest, dh, n) {
      var j :| 0 <= j < |store| && store[j].dh == dh && store[j].number == n;
      assert rest[if j < i then j else j - 1] == store[j];
    }
    forall n: int | Stored(rest, dh, n) ensures Stored(store, dh, n) && n != store[i].number {
      var j :| 0 <= j < |rest| && rest[j].dh == dh && rest[j].number == n;
      assert store[if j < i then j else j + 1] == rest[j];
    }
  }

  lemma KeepsWithout<B(!new)>(store: seq<Entry<B>>, dh: B, number: nat, received: nat, delivered: set<nat>, floor: nat)
    requires Keeps(store, dh, received, delivered, floor) && Lookup(store, dh, number).Some?
    ensures Keeps(Without(store, dh, number), dh, received, delivered + {number}, floor)
  {
    var i := WithoutIs(store, dh, number);
    Removed(store, dh, i);
  }

  /** The number after the skipped ones is delivered without ever being stored. */
  lemma KeepsUsed<B(!new)>(store: seq<Entry<B>>, dh: B, received: nat, delivered: set<nat>, floor: nat)
    requires Keeps(store, dh, received, delivered, floor)
    ensures Keeps(store, dh, received + 1, delivered + {received}, floor)
  {
  }

  lemma KeepsSkipped<B(!new)>(p: Primitives<B>, cfg: Config, s: Session<B>, dh: B, number: nat, start: B,
                              delivered: set<nat>, floor: nat)
    returns (next: nat)
    requires OnChain(p, cfg, s, dh, start, delivered, floor) && floor <= s.received <= number
    ensures Keeps(SkipTo(p, cfg, s, dh, number).store, dh, number, delivered, next) && floor <= next <= number
    ensures number == s.received || |s.store| - Older(s.store, dh) + (number - s.received) <= Capacity(cfg) ==>
      next == floor
  {
    var count := number - s.received;
    var all := s.store + Passed(p, s, dh, count);
    SkipToStore(p, cfg, s, dh, number);
    KeepsPassed(p, s, dh, count, delivered, floor);
    OlderJoin(s.store, Passed(p, s, dh, count), dh);
    next := KeepsNewest(all, dh, number, delivered, floor, Capacity(cfg));
  }

  lemma OlderJoin<B>(store: seq<Entry<B>>, more: seq<Entry<B>>, dh: B)
    ensures Older(store, dh) <= Older(store + more, dh)
  {
    var k, n := Older(store, dh), Older(store + more, dh);
    if n < |store| { assert (store + more)[n] == store[n]; }
  }

  lemma KeepsNewest<B(!new)>(all: seq<Entry<B>>, dh: B, received: nat, delivered: set<nat>, floor: nat, n: nat)
    returns (next: nat)
    requires Keeps(all, dh, received, delivered, floor) && n > 0 && floor <= received
    ensures Keeps(Newest(all, n), dh, received, delivered, next) && floor <= next <= received
    ensures |all| - n <= Older(all, dh) ==> next == floor
  {
    next := floor;
    if |all| > n { next := KeepsDropped(all, dh, received, delivered, floor, |all| - n); }
  }

  /**
   Along one chain, in any order and with any loss, a first delivery of a number not evicted gets the
   sender's key, and the store then holds exactly the undelivered numbers from the floor on. The floor
   stays unless the skipped numbers and the kept keys of this chain together exceed the capacity.
   */
  lemma ChainKeyRight<B(!new)>(p: Primitives<B>, cfg: Config, s: Session<B>, dh: B, number: nat, start: B,
                               delivered: set<nat>, floor: nat)
    returns (next: nat)
    requires OnChain(p, cfg, s, dh, start, delivered, floor) && floor <= s.received
    requires number !in delivered && floor <= number <= s.received + cfg.maxGap
    ensures var (t, key) := MessageKey(p, cfg, s, dh, number);
            && key == Some(KeyAt(p, start, number))
            && OnChain(p, cfg, t, dh, start, delivered + {number}, next) && floor <= next <= t.received
            && t.received == (if number < s.received then s.received else number + 1)
    ensures number <= s.received || |s.store| - Older(s.store, dh) + (number - s.received) <= Capacity(cfg) ==>
      next == floor
  {
    LookupNone(s.store, dh, number);
    MessageKeyHolds(p, cfg, s, dh, number, start);
    if number < s.received {
      assert Stored(s.store, dh, number);
      LookupRight(p, s.store, dh, start, s.received, number);
      KeepsWithout(s.store, dh, number, s.received, delivered, floor);
      next := floor;
    } else {
      assert !Stored(s.store, dh, number);
      ReachableKey(p, cfg, s, dh, number, start);
      next := KeepsSkipped(p, cfg, s, dh, number, start, delivered, floor);
      SkipToHolds(p, cfg, s, dh, number, start);
      KeepsUsed(SkipTo(p, cfg, s, dh, number).store, dh, number, delivered, next);
    }
  }

  // ---- a whole delivery ----

  /** Asking for a key changes nothing but the receiving chain and its keys. */
  lemma MessageKeyFrame<B(!new)>(p: Primitives<B>, cfg: Config, s: Session<B>, dh: B, number: int, start: B)
    requires Holds(p, cfg, s, dh, start)
    ensures var t := MessageKey(p, cfg, s, dh, number).0;
            && t == s.(store := t.store, recvKey := t.recvKey, received := t.received)
            && forall e :: e in t.store ==> e in s.store || e.dh == dh
  {
    if Lookup(s.store, dh, number).Some? {
      var i := WithoutIs(s.store, dh, number);
    } else if s.received <= number {
      SkipToFrame(p, cfg, s, dh, number);
      SkipToStore(p, cfg, s, dh, number);
    }
  }

  /** So does a whole delivery of a message of the current chain, read or not. */
  lemma DecryptFrame<B(!new)>(p: Primitives<B>, cfg: Config, s: Session<B>, m: Message<B>, priv: B, start: B)
    requires Holds(p, cfg, s, s.peer, start) && m.header.dh == s.peer
    ensures var t := Decrypt(p, cfg, s, m, priv).0;
            && Holds(p, cfg, t, s.peer, start)
            && t == s.(store := t.store, recvKey := t.recvKey, received := t.received)
            && forall e :: e in t.store ==> e in s.store || e.dh == s.peer
  {
    MessageKeyHolds(p, cfg, s, s.peer, m.header.number, start);
    MessageKeyFrame(p, cfg, s, s.peer, m.header.number, start);
  }

  /** A message of the chain that can be read, sealed by its sender, is read and leaves everything else alone. */
  lemma ChainRead<B(!new)>(p: Primitives<B>, cfg: Config, s: Session<B>, m: Message<B>, priv: B, number: nat, text: B,
                           start: B)
    requires Holds(p, cfg, s, s.peer, start) && Reachable(cfg, s, s.peer, number)
    requires m.header.dh == s.peer && m.header.number == number
    requires p.unseal(KeyAt(p, start, number), m.nonce, m.body) == Some(text)
    ensures var (t, outcome) := Decrypt(p, cfg, s, m, priv);
            && outcome == Plaintext(text) && Holds(p, cfg, t, s.peer, start)
            && t.received == (if number < s.received then s.received else number + 1)
            && t == s.(store := t.store, recvKey := t.recvKey, received := t.received)
            && (forall e :: e in t.store ==> e in s.store || e.dh == s.peer)
  {
    ReachableKey(p, cfg, s, s.peer, number, start);
    MessageKeyHolds(p, cfg, s, s.peer, number, start);
    MessageKeyFrame(p, cfg, s, s.peer, number, start);
    SkipToSound(p, cfg, s, s.peer, number, start);
    if number < s.received {
    } else {
      LookupNone(s.store, s.peer, number);
    }
  }

  lemma {:induction false} SkipKeepsKeys<B(!new)>(p: Primitives<B>, cfg: Config, s: Session<B>, dh: B, number: int)
    ensures var t := SkipTo(p, cfg, s, dh, number);
            t.privKey == s.privKey && t.peer == s.peer && t.root == s.root && t.received >= s.received
    decreases number - s.received
  {
    if s.received >= number {
    } else {
      SkipKeepsKeys(p, cfg, SkipOne(p, cfg, s, dh), dh, number);
    }
  }

  /**
   A call leaves the session as it was exactly when the message is of the current chain, its key is not
   stored and its number is too far ahead. Any other message, a forged one too, moves the session on.
   */
  lemma UnchangedExact<B(!new)>(p: Primitives<B>, cfg: Config, s: Session<B>, m: Message<B>, priv: B)
    ensures Decrypt(p, cfg, s, m, priv).0 == s <==>
            && m.header.dh == s.peer && Lookup(s.store, m.header.dh, m.header.number).None?
            && m.header.number - s.received > cfg.maxGap
  {
    var turned := if m.header.dh == s.peer then s else Turn(p, s, m.header.dh, priv);
    SkipKeepsKeys(p, cfg, turned, m.header.dh, m.header.number);
    if Lookup(turned.store, m.header.dh, m.header.number).Some? {
      var i := WithoutIs(turned.store, m.header.dh, m.header.number);
      assert |Without(turned.store, m.header.dh, m.header.number)| < |turned.store|;
    }
  }
}
