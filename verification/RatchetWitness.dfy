/** Runs from the very beginning in which a late message and a replayed one do the harm described. */
module RatchetWitness {
  import opened Common
  import opened Ratchet
  import opened RatchetChains
  import opened RatchetRuns
  import opened RatchetStale

  lemma {:induction false} RunJoin<B(!new)>(p: Primitives<B>, cfg: Config, sys: System<B>, a: seq<Step<B>>,
                                            b: seq<Step<B>>)
    requires Run(p, cfg, sys, a) && Run(p, cfg, End(p, cfg, sys, a), b)
    ensures Run(p, cfg, sys, a + b) && End(p, cfg, sys, a + b) == End(p, cfg, End(p, cfg, sys, a), b)
    decreases |a|
  {
    if a == [] {
      assert a + b == b;
    } else {
      assert (a + b)[0] == a[0] && (a + b)[1..] == a[1..] + b;
      RunJoin(p, cfg, Take(p, cfg, sys, a[0]).0, a[1..], b);
    }
  }

  /** The second letter of a new chain stores the key of the first. */
  lemma StoreFirst<B(!new)>(p: Primitives<B>, cfg: Config, s: Session<B>, m: Message<B>, priv: B)
    requires m.header.dh != s.peer && m.header.number == 1 && s.store == [] && cfg.maxGap >= 1
    ensures Decrypt(p, cfg, s, m, priv).0.store ==
      [Entry(m.header.dh, 0, p.messageKey(Turn(p, s, m.header.dh, priv).recvKey))]
  {
    var turned := Turn(p, s, m.header.dh, priv);
    var skipped := SkipOne(p, cfg, turned, m.header.dh);
    assert SkipTo(p, cfg, turned, m.header.dh, 1) == SkipTo(p, cfg, skipped, m.header.dh, 1) == skipped;
  }

  /** The leader posts the first letter of its chain, the follower reads it and takes the lead. */
  function Volley<B>(sys: System<B>, nonce: B, words: B, priv: B): seq<Step<B>> {
    [Post(sys.aliceLeads, nonce, words), Deliver(|sys.mail|, priv)]
  }

  lemma VolleyEnd<B(!new)>(p: Primitives<B>, cfg: Config, secret: B, sys: System<B>, nonce: B, words: B, priv: B)
    requires Lawful(p) && Inv(p, cfg, secret, sys) && sys.lead.sent == 0 && FreshKey(p, sys.keys, priv)
      && cfg.maxGap >= 0
    ensures Run(p, cfg, sys, Volley(sys, nonce, words, priv))
    ensures var v := End(p, cfg, sys, Volley(sys, nonce, words, priv));
            && Inv(p, cfg, secret, v) && v.aliceLeads != sys.aliceLeads && v.keys == sys.keys + [priv]
            && |v.mail| == |sys.mail| + 1 && sys.mail <= v.mail && v.lead.sent == 0
            && v.lead.store == sys.follow.store && v.follow.store == sys.lead.store
  {
    var posted := Posted(p, sys, sys.aliceLeads, nonce, words);
    PostLead(p, cfg, secret, sys, nonce, words);
    ReadTurn(p, cfg, secret, posted, |sys.mail|, priv);
    ReadFirst(p, cfg, secret, posted, |sys.mail|, priv);
    RunTwo(p, cfg, sys, Post(sys.aliceLeads, nonce, words), Deliver(|sys.mail|, priv));
  }

  lemma RunTwo<B(!new)>(p: Primitives<B>, cfg: Config, sys: System<B>, a: Step<B>, b: Step<B>)
    requires |sys.keys| >= 2 && Allowed(p, cfg, sys, a)
    requires |Take(p, cfg, sys, a).0.keys| >= 2 && Allowed(p, cfg, Take(p, cfg, sys, a).0, b)
    ensures Run(p, cfg, sys, [a, b]) && End(p, cfg, sys, [a, b]) == Take(p, cfg, Take(p, cfg, sys, a).0, b).0
  {
    var v := Take(p, cfg, sys, a).0;
    assert [a, b][1..] == [b] && [b][1..] == [];
    assert Run(p, cfg, Take(p, cfg, v, b).0, []);
    assert Run(p, cfg, v, [b]) && End(p, cfg, v, [b]) == Take(p, cfg, v, b).0;
  }

  /** Reading a letter of the leader's chain makes the follower take the lead. */
  lemma ReadTurn<B(!new)>(p: Primitives<B>, cfg: Config, secret: B, sys: System<B>, i: nat, priv: B)
    requires Lawful(p) && Inv(p, cfg, secret, sys) && FreshKey(p, sys.keys, priv) && i < |sys.mail|
    requires !ToLead(sys, sys.mail[i]) && sys.mail[i].epoch == sys.Last() && sys.mail[i].number <= cfg.maxGap
    ensures Allowed(p, cfg, sys, Deliver(i, priv))
    ensures var v := Take(p, cfg, sys, Deliver(i, priv)).0;
            && Inv(p, cfg, secret, v) && v.lead.sent == 0
            && v == System(!sys.aliceLeads, Decrypt(p, cfg, sys.follow, sys.mail[i].message, priv).0, sys.lead,
                           sys.keys + [priv], sys.mail)
  {
    assert Genuine(p, secret, sys.keys, sys.mail[i]);
    DeliverTurn(p, cfg, secret, sys, sys.mail[i], priv);
    Unmet(p, cfg, secret, sys);
  }

  /** The first letter of the leader's chain. */
  lemma ReadFirst<B(!new)>(p: Primitives<B>, cfg: Config, secret: B, sys: System<B>, i: nat, priv: B)
    requires Inv(p, cfg, secret, sys) && cfg.maxGap >= 0 && i < |sys.mail|
    requires sys.mail[i].epoch == sys.Last() && sys.mail[i].number == 0
    ensures Decrypt(p, cfg, sys.follow, sys.mail[i].message, priv).0.store == sys.follow.store
  {
    assert Genuine(p, secret, sys.keys, sys.mail[i]);
    Unmet(p, cfg, secret, sys);
  }

  /** The follower has stored nothing of the leader's chain and does not know its key yet. */
  lemma Unmet<B(!new)>(p: Primitives<B>, cfg: Config, secret: B, sys: System<B>)
    requires Inv(p, cfg, secret, sys)
    ensures var dh := p.pub(sys.keys[sys.Last()]); dh != sys.follow.peer && Lookup(sys.follow.store, dh, 0) == None
  {
    var dh := p.pub(sys.keys[sys.Last()]);
    LookupNone(sys.follow.store, dh, 0);
    forall i | 0 <= i < |sys.follow.store| ensures sys.follow.store[i].dh != dh {
      var x := sys.follow.store[i];
      assert x in sys.follow.store;
      var j :| 0 <= j < sys.Last() - 1 && x.dh == p.pub(sys.keys[j]);
    }
  }

  // ---- a late message ----

  /** Alice posts twice; Bob reads the second letter first and keeps the key of the first. */
  function Opening<B>(nonce: B, first: B, second: B, k2: B): seq<Step<B>> {
    [Post(true, nonce, first), Post(true, nonce, second), Deliver(1, k2)]
  }

  lemma OpeningEnd<B(!new)>(p: Primitives<B>, cfg: Config, secret: B, k0: B, k1: B, k2: B, nonce: B, first: B,
                            second: B)
    requires Lawful(p) && KeysDistinct(p, [k0, k1, k2]) && cfg.maxGap >= 1
    ensures Run(p, cfg, Begin(p, secret, k0, k1), Opening(nonce, first, second, k2))
    ensures var v := End(p, cfg, Begin(p, secret, k0, k1), Opening(nonce, first, second, k2));
            && Inv(p, cfg, secret, v) && !v.aliceLeads && v.keys == [k0, k1, k2] && |v.mail| == 2 && v.lead.sent == 0
            && v.mail[0].fromAlice && v.mail[0].epoch == 1 && v.mail[0].number == 0 && v.mail[0].text == first
            && v.lead.store == [Entry(p.pub(k1), 0, KeyAt(p, StartAt(p, secret, [k0, k1], 1), 0))]
  {
    var start := Begin(p, secret, k0, k1);
    var a := Posted(p, start, true, nonce, first);
    var b := Posted(p, a, true, nonce, second);
    KeysApart(p, k0, k1, k2);
    BeginInv(p, cfg, secret, k0, k1);
    PostLead(p, cfg, secret, start, nonce, first);
    PostLead(p, cfg, secret, a, nonce, second);
    ReadTurn(p, cfg, secret, b, 1, k2);
    assert Genuine(p, secret, b.keys, b.mail[1]);
    Unmet(p, cfg, secret, b);
    SecondStore(p, cfg, secret, b.keys, b.follow, b.mail[1], k2);
    assert [k0, k1] + [k2] == [k0, k1, k2];
    RunTwo(p, cfg, start, Post(true, nonce, first), Post(true, nonce, second));
    RunJoin(p, cfg, start, [Post(true, nonce, first), Post(true, nonce, second)], [Deliver(1, k2)]);
    assert [Post(true, nonce, first), Post(true, nonce, second)] + [Deliver(1, k2)] ==
      Opening(nonce, first, second, k2);
  }

  lemma KeysApart<B(!new)>(p: Primitives<B>, k0: B, k1: B, k2: B)
    requires KeysDistinct(p, [k0, k1, k2])
    ensures p.pub(k0) != p.blank && FreshKey(p, [k0], k1) && FreshKey(p, [k0, k1], k2)
  {
    var keys := [k0, k1, k2];
    assert keys[0] == k0 && keys[1] == k1 && keys[2] == k2;
  }

  lemma SecondStore<B(!new)>(p: Primitives<B>, cfg: Config, secret: B, keys: seq<B>, s: Session<B>, l: Letter<B>,
                             priv: B)
    requires Lawful(p) && |keys| >= 2 && Synced(p, secret, keys, s, |keys| - 2) && s.store == [] && cfg.maxGap >= 1
    requires Genuine(p, secret, keys, l) && l.epoch == |keys| - 1 && l.number == 1 && l.message.header.dh != s.peer
    ensures Decrypt(p, cfg, s, l.message, priv).0.store
         == [Entry(p.pub(keys[|keys| - 1]), 0, KeyAt(p, StartAt(p, secret, keys, |keys| - 1), 0))]
  {
    var start := StartAt(p, secret, keys, |keys| - 1);
    assert Turn(p, s, l.message.header.dh, priv).recvKey == start by {
      TurnSynced(p, secret, keys, s, |keys| - 2, priv);
      ScheduleGrows(p, secret, keys, priv, |keys| - 1);
    }
    assert KeyAt(p, start, 0) == p.messageKey(start);
    StoreFirst(p, cfg, s, l.message, priv);
  }

  /**
   With any primitives that do not collide and any six different keys: Alice's first letter overtaken by
   her second and by two turns of the ratchet is still read by Bob, and from then on Bob cannot read the
   chain Alice sends along.
   */
  lemma LateLetterHarms<B(!new)>(p: Primitives<B>, cfg: Config, secret: B, keys: seq<B>, nonce: B, words: seq<B>)
    returns (steps: seq<Step<B>>)
    requires Lawful(p) && Free(p) && |keys| == 6 && KeysDistinct(p, keys) && |words| == 4 && cfg.maxGap >= 1
    ensures Run(p, cfg, Begin(p, secret, keys[0], keys[1]), steps)
    ensures var sys := End(p, cfg, Begin(p, secret, keys[0], keys[1]), steps);
            && !sys.aliceLeads && sys.keys == keys[..5] && sys.mail != [] && sys.mail[0].fromAlice
            && sys.mail[0].text == words[0]
            && var (bob, outcome) := Decrypt(p, cfg, sys.lead, sys.mail[0].message, keys[5]);
            outcome == Plaintext(words[0]) && !Follows(p, bob, p.pub(keys[3]), StartAt(p, secret, keys[..5], 3))
  {
    var start := Begin(p, secret, keys[0], keys[1]);
    steps := Opening(nonce, words[0], words[1], keys[2]);
    assert KeysDistinct(p, [keys[0], keys[1], keys[2]]);
    OpeningEnd(p, cfg, secret, keys[0], keys[1], keys[2], nonce, words[0], words[1]);
    var a := End(p, cfg, start, steps);
    assert a.keys == keys[..3];
    steps := Onward(p, cfg, secret, start, steps, nonce, words[2], keys, 3);
    var b := End(p, cfg, start, steps);
    steps := Onward(p, cfg, secret, start, steps, nonce, words[3], keys, 4);
    var c := End(p, cfg, start, steps);
    var l := c.mail[0];
    assert l == a.mail[0] && Genuine(p, secret, c.keys, l);
    StaleMayRead(p, cfg, secret, c.keys, c.lead, l, keys[5]);
    StaleCutsOff(p, cfg, secret, c.keys, c.lead, 4, l, keys[5], 3);
  }

  /** One more volley at the end of a run. */
  lemma Onward<B(!new)>(p: Primitives<B>, cfg: Config, secret: B, start: System<B>, steps: seq<Step<B>>, nonce: B,
                        words: B, keys: seq<B>, n: nat)
    returns (more: seq<Step<B>>)
    requires Lawful(p) && cfg.maxGap >= 0 && n < |keys| && KeysDistinct(p, keys) && Run(p, cfg, start, steps)
    requires var v := End(p, cfg, start, steps); Inv(p, cfg, secret, v) && v.lead.sent == 0 && v.keys == keys[..n]
    ensures Run(p, cfg, start, more)
    ensures var u, v := End(p, cfg, start, steps), End(p, cfg, start, more);
            && Inv(p, cfg, secret, v) && v.aliceLeads != u.aliceLeads && v.keys == keys[..n + 1]
            && u.mail <= v.mail && v.lead.sent == 0 && v.lead.store == u.follow.store && v.follow.store == u.lead.store
  {
    var u := End(p, cfg, start, steps);
    NextFresh(p, keys, n);
    VolleyEnd(p, cfg, secret, u, nonce, words, keys[n]);
    more := steps + Volley(u, nonce, words, keys[n]);
    RunJoin(p, cfg, start, steps, Volley(u, nonce, words, keys[n]));
  }

  lemma NextFresh<B(!new)>(p: Primitives<B>, keys: seq<B>, n: nat)
    requires KeysDistinct(p, keys) && n < |keys|
    ensures FreshKey(p, keys[..n], keys[n]) && keys[..n] + [keys[n]] == keys[..n + 1]
  {
  }

  // ---- a replayed message ----

  /**
   After Bob has read Alice's first letter, the same letter again fails and takes the key of her second
   letter with it, which then fails as well.
   */
  lemma ReplayHarms<B(!new)>(p: Primitives<B>, cfg: Config, secret: B, k0: B, k1: B, k2: B, nonce: B, first: B,
                             second: B, priv: B)
    returns (steps: seq<Step<B>>)
    requires Lawful(p) && Tight(p) && KeysDistinct(p, [k0, k1, k2]) && cfg.maxGap >= 0
    requires KeysDiffer(p, StartAt(p, secret, [k0, k1], 1))
    ensures Run(p, cfg, Begin(p, secret, k0, k1), steps)
    ensures var sys := End(p, cfg, Begin(p, secret, k0, k1), steps);
            && |sys.mail| == 2 && sys.mail[0].text == first && sys.mail[1].text == second
            && var (once, again) := Decrypt(p, cfg, sys.lead, sys.mail[0].message, priv);
            && again == DecryptionFailed && once != sys.lead
            && Decrypt(p, cfg, once, sys.mail[1].message, priv).1 == DecryptionFailed
  {
    var start := Begin(p, secret, k0, k1);
    var a := Posted(p, start, true, nonce, first);
    var b := Posted(p, a, true, nonce, second);
    KeysApart(p, k0, k1, k2);
    BeginInv(p, cfg, secret, k0, k1);
    PostLead(p, cfg, secret, start, nonce, first);
    PostLead(p, cfg, secret, a, nonce, second);
    ReadTurn(p, cfg, secret, b, 0, k2);
    ReadFirst(p, cfg, secret, b, 0, k2);
    var c := Take(p, cfg, b, Deliver(0, k2)).0;
    DeliverTurn(p, cfg, secret, b, b.mail[0], k2);
    RunTwo(p, cfg, start, Post(true, nonce, first), Post(true, nonce, second));
    steps := [Post(true, nonce, first), Post(true, nonce, second)] + [Deliver(0, k2)];
    RunJoin(p, cfg, start, [Post(true, nonce, first), Post(true, nonce, second)], [Deliver(0, k2)]);
    ScheduleGrows(p, secret, [k0, k1], k2, 1);
    assert Genuine(p, secret, b.keys, b.mail[0]) && Genuine(p, secret, b.keys, b.mail[1]);
    ReplayFails(p, cfg, c.lead, b.mail[0].message, b.mail[1].message, StartAt(p, secret, [k0, k1], 1), first, second,
      priv);
    UnchangedExact(p, cfg, c.lead, b.mail[0].message, priv);
  }

  lemma ReplayFails<B(!new)>(p: Primitives<B>, cfg: Config, s: Session<B>, m: Message<B>, next: Message<B>, start: B,
                             text: B, words: B, priv: B)
    requires Tight(p) && KeysDiffer(p, start) && Holds(p, cfg, s, s.peer, start) && s.received == 1 && s.store == []
      && cfg.maxGap >= 0
    requires m.header.dh == next.header.dh == s.peer && m.header.number == 0 && next.header.number == 1
    requires m.body == p.seal(KeyAt(p, start, 0), m.nonce, text)
      && next.body == p.seal(KeyAt(p, start, 1), next.nonce, words)
    ensures var (t, outcome) := Decrypt(p, cfg, s, m, priv);
            outcome == DecryptionFailed && Decrypt(p, cfg, t, next, priv).1 == DecryptionFailed
  {
    ReplayTakesNextKey(p, cfg, s, s.peer, 0, start);
    assert KeyAt(p, start, 0) != KeyAt(p, start, 1) && KeyAt(p, start, 1) != KeyAt(p, start, 2);
  }
}
