/** Exactly which letters can be read, in every state two parties can reach. */
module RatchetExact {
  import opened Common
  import opened Ratchet
  import opened RatchetChains
  import opened RatchetRuns
  import opened RatchetStale

  /** Where a chain can begin. */
  ghost predicate Begins<B(!new)>(p: Primitives<B>, a: B) { a == p.blank || exists x, r :: a == p.chainHalf(x, r) }

  /** Chains that begin differently have no message key in common, and no chain has one twice. */
  ghost predicate Apart<B(!new)>(p: Primitives<B>) {
    && (forall a: B, b: B, i: nat, j: nat {:trigger KeyAt(p, a, i), KeyAt(p, b, j)} ::
          Begins(p, a) && Begins(p, b) && KeyAt(p, a, i) == KeyAt(p, b, j) ==> a == b && i == j)
    && (forall x: B, r: B {:trigger p.chainHalf(x, r)} :: p.chainHalf(x, r) != p.blank)
  }

  /** The key of the letter is stored, or its number lies ahead within the gap in the current or the next chain. */
  predicate Readable<B(==)>(cfg: Config, s: Session<B>, e: int, l: Letter<B>) {
    || Lookup(s.store, l.message.header.dh, l.number).Some?
    || (l.epoch + 1 == e && s.received <= l.number <= s.received + cfg.maxGap)
    || (l.epoch == e + 1 && l.number <= cfg.maxGap)
  }

  lemma StartBegins<B(!new)>(p: Primitives<B>, secret: B, keys: seq<B>, e: nat)
    requires e < |keys|
    ensures Begins(p, StartAt(p, secret, keys, e))
  {
  }

  lemma StartDiffers<B(!new)>(p: Primitives<B>, secret: B, keys: seq<B>, e: nat)
    requires Apart(p) && e < |keys|
    ensures KeysDiffer(p, StartAt(p, secret, keys, e))
  {
    StartBegins(p, secret, keys, e);
  }

  /** A letter is read exactly when the session finds the letter's own key. */
  lemma KeyDecides<B(!new)>(p: Primitives<B>, cfg: Config, secret: B, keys: seq<B>, s: Session<B>, l: Letter<B>,
                            priv: B)
    requires Lawful(p) && Tight(p) && Genuine(p, secret, keys, l)
    ensures var turned := if l.message.header.dh == s.peer then s else Turn(p, s, l.message.header.dh, priv);
            Decrypt(p, cfg, s, l.message, priv).1 == Plaintext(l.text) <==>
            MessageKey(p, cfg, turned, l.message.header.dh, l.number).1 ==
              Some(KeyAt(p, StartAt(p, secret, keys, l.epoch), l.number))
  {
  }

  lemma SameExact<B(!new)>(p: Primitives<B>, cfg: Config, secret: B, keys: seq<B>, s: Session<B>, e: nat, l: Letter<B>,
                           priv: B)
    requires Lawful(p) && Tight(p) && 0 < e < |keys| && l.epoch == e - 1 && Genuine(p, secret, keys, l)
    requires Synced(p, secret, keys, s, e) && Receiving(p, cfg, secret, keys, s, e)
    requires KeysDiffer(p, StartAt(p, secret, keys, e - 1))
    ensures Decrypt(p, cfg, s, l.message, priv).1 == Plaintext(l.text) <==> Reachable(cfg, s, s.peer, l.number)
  {
    KeyDecides(p, cfg, secret, keys, s, l, priv);
    ChainKeyExact(p, cfg, s, s.peer, l.number, StartAt(p, secret, keys, e - 1));
  }

  lemma NewExact<B(!new)>(p: Primitives<B>, cfg: Config, secret: B, keys: seq<B>, s: Session<B>, e: nat, l: Letter<B>,
                          priv: B)
    requires Lawful(p) && Tight(p) && e + 2 == |keys| && l.epoch == e + 1 && Genuine(p, secret, keys, l)
    requires Synced(p, secret, keys, s, e) && Receiving(p, cfg, secret, keys, s, e) && KeysDistinct(p, keys)
    requires KeysDiffer(p, StartAt(p, secret, keys + [priv], e + 1))
    ensures Decrypt(p, cfg, s, l.message, priv).1 == Plaintext(l.text) <==> Readable(cfg, s, e, l)
  {
    var t := Turn(p, s, l.message.header.dh, priv);
    assert Decrypt(p, cfg, t, l.message, priv).1 == Plaintext(l.text) <==> Reachable(cfg, t, t.peer, l.number) by {
      NewTurned(p, cfg, secret, keys, s, e, l, priv);
      SameExact(p, cfg, secret, keys + [priv], t, e + 2, l, priv);
    }
    assert Decrypt(p, cfg, s, l.message, priv) == Decrypt(p, cfg, t, l.message, priv) by {
      NewTurned(p, cfg, secret, keys, s, e, l, priv);
    }
  }

  /** A stored key belongs to the chain it is stored for. */
  lemma StoredKey<B(!new)>(p: Primitives<B>, cfg: Config, secret: B, keys: seq<B>, s: Session<B>, e: nat, c: nat,
                           n: nat)
    requires KeysDistinct(p, keys) && e < |keys| && c < |keys| && Receiving(p, cfg, secret, keys, s, e)
    requires Lookup(s.store, p.pub(keys[c]), n).Some?
    ensures Lookup(s.store, p.pub(keys[c]), n) == Some(KeyAt(p, StartAt(p, secret, keys, c), n))
  {
    var k := WithoutIs(s.store, p.pub(keys[c]), n);
    LookupFirst(s.store, p.pub(keys[c]), n, k);
    assert s.store[k] in s.store;
    var i: nat :| i < e && OfChain(p, secret, keys, s.store[k], i);
    assert i == c;
  }

  lemma {:induction false} LookupFirst<B>(store: seq<Entry<B>>, dh: B, n: int, k: nat)
    requires Unique(store) && k < |store| && store[k].dh == dh && store[k].number == n
    ensures Lookup(store, dh, n) == Some(store[k].key)
  {
    if k == 0 {
    } else {
      LookupFirst(store[1..], dh, n, k - 1);
    }
  }

  /** The chain a stale letter makes its receiver derive is not the letter's own. */
  lemma StaleStart<B(!new)>(p: Primitives<B>, secret: B, keys: seq<B>, s: Session<B>, e: nat, c: nat, priv: B)
    requires Free(p) && Apart(p) && KeysDistinct(p, keys) && c + 1 < e < |keys| && s.privKey == keys[e]
    ensures Turn(p, s, p.pub(keys[c]), priv).recvKey != StartAt(p, secret, keys, c)
  {
    if c > 0 {
      assert p.dh(keys[e], p.pub(keys[c])) != p.dh(keys[c], p.pub(keys[c - 1]));
    }
  }

  lemma StaleExact<B(!new)>(p: Primitives<B>, cfg: Config, secret: B, keys: seq<B>, s: Session<B>, e: nat, l: Letter<B>,
                            priv: B)
    requires Lawful(p) && Free(p) && Tight(p) && Apart(p) && KeysDistinct(p, keys) && l.epoch + 1 < e < |keys|
    requires Synced(p, secret, keys, s, e) && Receiving(p, cfg, secret, keys, s, e) && Genuine(p, secret, keys, l)
    ensures Decrypt(p, cfg, s, l.message, priv).1 == Plaintext(l.text) <==> Readable(cfg, s, e, l)
  {
    var dh := l.message.header.dh;
    var turned := Turn(p, s, dh, priv);
    assert dh != s.peer;
    KeyDecides(p, cfg, secret, keys, s, l, priv);
    if Lookup(s.store, dh, l.number).Some? {
      StoredKey(p, cfg, secret, keys, s, e, l.epoch, l.number);
    } else if l.number <= cfg.maxGap {
      StaleStart(p, secret, keys, s, e, l.epoch, priv);
      StartBegins(p, secret, keys, l.epoch);
      SkipToSound(p, cfg, turned, dh, l.number, turned.recvKey);
      assert MessageKey(p, cfg, turned, dh, l.number).1 == Some(KeyAt(p, turned.recvKey, l.number));
    }
  }

  /** A party sending along chain e reads a genuine letter of its peer exactly when it is readable. */
  lemma ReadsExact<B(!new)>(p: Primitives<B>, cfg: Config, secret: B, keys: seq<B>, s: Session<B>, e: nat, l: Letter<B>,
                            priv: B)
    requires Lawful(p) && Free(p) && Tight(p) && Apart(p) && KeysDistinct(p, keys) && e < |keys| <= e + 2
    requires Synced(p, secret, keys, s, e) && Receiving(p, cfg, secret, keys, s, e) && Genuine(p, secret, keys, l)
    requires l.epoch != e
    ensures Decrypt(p, cfg, s, l.message, priv).1 == Plaintext(l.text) <==> Readable(cfg, s, e, l)
  {
    if l.epoch + 1 < e {
      StaleExact(p, cfg, secret, keys, s, e, l, priv);
    } else if l.epoch + 1 == e {
      StartDiffers(p, secret, keys, l.epoch);
      SameExact(p, cfg, secret, keys, s, e, l, priv);
    } else {
      StartDiffers(p, secret, keys + [priv], e + 1);
      NewExact(p, cfg, secret, keys, s, e, l, priv);
    }
  }

  // ---- every run ----

  /** Letters of the leading party are of the last chain, the one two before it, and so on. */
  predicate Addressed<B>(sys: System<B>) {
    forall i :: 0 <= i < |sys.mail| ==>
      (sys.mail[i].fromAlice == sys.aliceLeads <==> (sys.Last() - sys.mail[i].epoch) % 2 == 0)
  }

  /** A delivery changes no letter; if the receiver draws a key it takes the lead. */
  lemma DeliveredKeeps<B(!new)>(p: Primitives<B>, cfg: Config, sys: System<B>, l: Letter<B>, priv: B)
    ensures var after := Delivered(p, cfg, sys, l, priv).0;
            && after.mail == sys.mail
            && |after.keys| == |sys.keys| + (if after.aliceLeads == sys.aliceLeads then 0 else 1)
  {
  }

  lemma TakeAddressed<B(!new)>(p: Primitives<B>, cfg: Config, sys: System<B>, step: Step<B>)
    requires |sys.keys| >= 2 && (step.Deliver? ==> step.index < |sys.mail|) && Addressed(sys)
    ensures Addressed(Take(p, cfg, sys, step).0)
  {
    if step.Deliver? {
      DeliveredKeeps(p, cfg, sys, sys.mail[step.index], step.priv);
    }
  }

  lemma {:induction false} EndAddressed<B(!new)>(p: Primitives<B>, cfg: Config, sys: System<B>, steps: seq<Step<B>>)
    requires Run(p, cfg, sys, steps) && Addressed(sys)
    ensures Addressed(End(p, cfg, sys, steps))
    decreases |steps|
  {
    if steps == [] {
    } else {
      TakeAddressed(p, cfg, sys, steps[0]);
      EndAddressed(p, cfg, Take(p, cfg, sys, steps[0]).0, steps[1..]);
    }
  }

  /** The receiver of a letter, and the chain it sends along. */
  function Receiver<B>(sys: System<B>, l: Letter<B>): (Session<B>, int) {
    if ToLead(sys, l) then (sys.lead, sys.Last()) else (sys.follow, sys.Last() - 1)
  }

  lemma OtherChain<B>(sys: System<B>, i: nat)
    requires Addressed(sys) && i < |sys.mail|
    ensures sys.mail[i].epoch != Receiver(sys, sys.mail[i]).1
  {
    assert sys.mail[i].fromAlice == sys.aliceLeads <==> (sys.Last() - sys.mail[i].epoch) % 2 == 0;
  }

  lemma DecryptedExact<B(!new)>(p: Primitives<B>, cfg: Config, secret: B, sys: System<B>, l: Letter<B>, priv: B)
    requires Lawful(p) && Free(p) && Tight(p) && Apart(p) && Inv(p, cfg, secret, sys)
    requires Genuine(p, secret, sys.keys, l) && l.epoch != Receiver(sys, l).1
    ensures var (s, e) := Receiver(sys, l);
            Decrypt(p, cfg, s, l.message, priv).1 == Plaintext(l.text) <==> Readable(cfg, s, e, l)
  {
    if ToLead(sys, l) {
      ReadsExact(p, cfg, secret, sys.keys, sys.lead, sys.Last(), l, priv);
    } else {
      ReadsExact(p, cfg, secret, sys.keys, sys.follow, sys.Last() - 1, l, priv);
    }
  }

  lemma DeliveredOutcome<B(!new)>(p: Primitives<B>, cfg: Config, sys: System<B>, l: Letter<B>, priv: B)
    ensures Delivered(p, cfg, sys, l, priv).1 == Decrypt(p, cfg, Receiver(sys, l).0, l.message, priv).1
  {
  }

  /**
   In every run and for every letter ever posted, delivered in time or late, for the first time or again:
   it gives the words posted exactly when its key is stored, or its number lies ahead within the gap in
   its receiver's current chain or the one to come.
   */
  lemma ConversationExact<B(!new)>(p: Primitives<B>, cfg: Config, secret: B, k0: B, k1: B, steps: seq<Step<B>>, i: nat,
                                   priv: B)
    requires Lawful(p) && Free(p) && Tight(p) && Apart(p) && p.pub(k0) != p.blank && FreshKey(p, [k0], k1)
    requires Run(p, cfg, Begin(p, secret, k0, k1), steps)
    requires i < |End(p, cfg, Begin(p, secret, k0, k1), steps).mail|
    ensures var sys := End(p, cfg, Begin(p, secret, k0, k1), steps);
            var l := sys.mail[i];
            var (s, e) := Receiver(sys, l);
            e >= 0 && (Delivered(p, cfg, sys, l, priv).1 == Plaintext(l.text) <==> Readable(cfg, s, e, l))
  {
    var start := Begin(p, secret, k0, k1);
    BeginInv(p, cfg, secret, k0, k1);
    EndInv(p, cfg, secret, start, steps);
    EndAddressed(p, cfg, start, steps);
    var sys := End(p, cfg, start, steps);
    OtherChain(sys, i);
    DecryptedExact(p, cfg, secret, sys, sys.mail[i], priv);
    DeliveredOutcome(p, cfg, sys, sys.mail[i], priv);
  }
}
