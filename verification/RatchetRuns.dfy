/** Two parties, any network: runs of a whole Double Ratchet conversation. */
module RatchetRuns {
  import opened Common
  import opened Ratchet
  import opened RatchetChains

  ghost predicate Lawful<B(!new)>(p: Primitives<B>) {
    && (forall a: B, b: B {:trigger p.dh(a, p.pub(b))} :: p.dh(a, p.pub(b)) == p.dh(b, p.pub(a)))
    && (forall k: B, n: B, t: B {:trigger p.seal(k, n, t)} :: p.unseal(k, n, p.seal(k, n, t)) == Some(t))
  }

  /** A sealed text opens under no other key. */
  ghost predicate Tight<B(!new)>(p: Primitives<B>) {
    forall k: B, other: B, n: B, t: B {:trigger p.unseal(other, n, p.seal(k, n, t))} ::
      other != k ==> p.unseal(other, n, p.seal(k, n, t)) == None
  }

  // ---- the key schedule ----

  // keys[0] is the receiver's first private key, keys[1] the sender's, keys[2] the receiver's next,
  // and so on. The owner of keys[e] sends along chain e, and the other party receives along it.

  function Shared<B>(p: Primitives<B>, keys: seq<B>, e: nat): B
    requires 0 < e < |keys|
  {
    p.dh(keys[e], p.pub(keys[e - 1]))
  }

  function RootAt<B>(p: Primitives<B>, secret: B, keys: seq<B>, e: nat): B
    requires e < |keys|
  {
    if e == 0 then secret else p.rootHalf(Shared(p, keys, e), RootAt(p, secret, keys, e - 1))
  }

  function StartAt<B>(p: Primitives<B>, secret: B, keys: seq<B>, e: nat): B
    requires e < |keys|
  {
    if e == 0 then p.blank else p.chainHalf(Shared(p, keys, e), RootAt(p, secret, keys, e - 1))
  }

  lemma {:induction false} ScheduleGrows<B>(p: Primitives<B>, secret: B, keys: seq<B>, k: B, e: nat)
    requires e < |keys|
    ensures RootAt(p, secret, keys + [k], e) == RootAt(p, secret, keys, e)
    ensures StartAt(p, secret, keys + [k], e) == StartAt(p, secret, keys, e)
  {
    if e == 0 {
    } else {
      ScheduleGrows(p, secret, keys, k, e - 1);
    }
  }

  // ---- the system ----

  /** A sent message, with what the sender knows about it. */
  datatype Letter<+B> = Letter(fromAlice: bool, epoch: nat, number: nat, text: B, message: Message<B>)

  /** The party that drew the last key leads; the other follows one chain behind. */
  datatype System<+B> = System(
    aliceLeads: bool, lead: Session<B>, follow: Session<B>, keys: seq<B>, mail: seq<Letter<B>>)
  {
    function Last(): int { |keys| - 1 }
  }

  datatype Step<+B> = Post(fromAlice: bool, nonce: B, words: B) | Deliver(index: nat, priv: B)

  /** Alice is initialised as the sender, Bob as the receiver. */
  function Begin<B>(p: Primitives<B>, secret: B, k0: B, k1: B): System<B> {
    System(true, InitSender(p, secret, p.pub(k0), k1), InitReceiver(p, secret, p.pub(k0), k0), [k0, k1], [])
  }

  ghost predicate FreshKey<B(!new)>(p: Primitives<B>, keys: seq<B>, k: B) {
    p.pub(k) != p.blank && forall i :: 0 <= i < |keys| ==> p.pub(keys[i]) != p.pub(k)
  }

  predicate ToLead<B>(sys: System<B>, l: Letter<B>) { l.fromAlice != sys.aliceLeads }

  /**
   What the network must respect for a delivery: the letter is not from a chain its receiver has
   moved on from, its key is stored or it lies ahead within the gap, and a key drawn for a new chain
   is fresh. Order, delay, loss and eviction are free.
   */
  ghost predicate Deliverable<B(!new)>(p: Primitives<B>, cfg: Config, sys: System<B>, l: Letter<B>, priv: B) {
    if ToLead(sys, l) then
      l.epoch == sys.Last() - 1 && Reachable(cfg, sys.lead, sys.lead.peer, l.number)
    else if l.epoch == sys.Last() then
      l.number <= cfg.maxGap && FreshKey(p, sys.keys, priv)
    else
      l.epoch == sys.Last() - 2 && Reachable(cfg, sys.follow, sys.follow.peer, l.number)
  }

  ghost predicate Allowed<B(!new)>(p: Primitives<B>, cfg: Config, sys: System<B>, step: Step<B>) {
    step.Deliver? ==> step.index < |sys.mail| && Deliverable(p, cfg, sys, sys.mail[step.index], step.priv)
  }

  function Posted<B>(p: Primitives<B>, sys: System<B>, fromAlice: bool, nonce: B, words: B): System<B>
    requires |sys.keys| >= 2
  {
    if fromAlice == sys.aliceLeads then
      var (s, m) := Encrypt(p, sys.lead, nonce, words);
      sys.(lead := s, mail := sys.mail + [Letter(fromAlice, sys.Last(), sys.lead.sent, words, m)])
    else
      var (s, m) := Encrypt(p, sys.follow, nonce, words);
      sys.(follow := s, mail := sys.mail + [Letter(fromAlice, sys.Last() - 1, sys.follow.sent, words, m)])
  }

  /** The follower takes the lead when it has to draw a key. */
  function Delivered<B(==)>(p: Primitives<B>, cfg: Config, sys: System<B>, l: Letter<B>,
                            priv: B): (System<B>, Outcome<B>)
  {
    if ToLead(sys, l) then
      var (s, outcome) := Decrypt(p, cfg, sys.lead, l.message, priv);
      (sys.(lead := s), outcome)
    else
      var (s, outcome) := Decrypt(p, cfg, sys.follow, l.message, priv);
      if l.message.header.dh == sys.follow.peer then
        (sys.(follow := s), outcome)
      else
        (System(!sys.aliceLeads, s, sys.lead, sys.keys + [priv], sys.mail), outcome)
  }

  // ---- the invariant ----

  /** What the party sending along chain e knows. */
  ghost predicate Synced<B(!new)>(p: Primitives<B>, secret: B, keys: seq<B>, s: Session<B>, e: nat)
    requires e < |keys|
  {
    && s.privKey == keys[e] && s.pubKey == p.pub(keys[e])
    && s.root == RootAt(p, secret, keys, e)
    && s.sendKey == Chain(p, StartAt(p, secret, keys, e), s.sent)
    && s.peer == (if e == 0 then p.blank else p.pub(keys[e - 1]))
  }

  /** A stored key is the one its sender used along chain i. */
  ghost predicate OfChain<B(!new)>(p: Primitives<B>, secret: B, keys: seq<B>, x: Entry<B>, i: nat)
    requires i < |keys|
  {
    x.dh == p.pub(keys[i]) && x.number >= 0 && x.key == KeyAt(p, StartAt(p, secret, keys, i), x.number)
  }

  /** What it has of the chain it receives along and of earlier ones, and nothing of later chains. */
  ghost predicate Receiving<B(!new)>(p: Primitives<B>, cfg: Config, secret: B, keys: seq<B>, s: Session<B>, e: nat)
    requires e < |keys|
  {
    && Unique(s.store) && |s.store| <= Capacity(cfg)
    && (e > 0 ==> Holds(p, cfg, s, p.pub(keys[e - 1]), StartAt(p, secret, keys, e - 1)))
    && (forall x :: x in s.store ==> exists i: nat :: i < e && OfChain(p, secret, keys, x, i))
  }

  ghost predicate Genuine<B(!new)>(p: Primitives<B>, secret: B, keys: seq<B>, l: Letter<B>) {
    && l.epoch < |keys|
    && l.message.header.dh == p.pub(keys[l.epoch])
    && l.message.header.number == l.number
    && l.message.body == p.seal(KeyAt(p, StartAt(p, secret, keys, l.epoch), l.number), l.message.nonce, l.text)
  }

  ghost predicate KeysDistinct<B(!new)>(p: Primitives<B>, keys: seq<B>) {
    && (forall i, j :: 0 <= i < j < |keys| ==> p.pub(keys[i]) != p.pub(keys[j]))
    && (forall i :: 0 <= i < |keys| ==> p.pub(keys[i]) != p.blank)
  }

  ghost predicate Inv<B(!new)>(p: Primitives<B>, cfg: Config, secret: B, sys: System<B>) {
    && |sys.keys| >= 2 && KeysDistinct(p, sys.keys)
    && Synced(p, secret, sys.keys, sys.lead, sys.Last())
    && Synced(p, secret, sys.keys, sys.follow, sys.Last() - 1)
    && Receiving(p, cfg, secret, sys.keys, sys.lead, sys.Last())
    && Receiving(p, cfg, secret, sys.keys, sys.follow, sys.Last() - 1)
    && (forall i :: 0 <= i < |sys.mail| ==> Genuine(p, secret, sys.keys, sys.mail[i]))
  }

  lemma BeginInv<B(!new)>(p: Primitives<B>, cfg: Config, secret: B, k0: B, k1: B)
    requires Lawful(p) && p.pub(k0) != p.blank && FreshKey(p, [k0], k1)
    ensures Inv(p, cfg, secret, Begin(p, secret, k0, k1))
  {
    var sys := Begin(p, secret, k0, k1);
    assert sys.keys[0] == k0 && sys.keys[1] == k1;
    assert RootAt(p, secret, sys.keys, 0) == secret;
    assert Chain(p, p.blank, 0) == p.blank;
  }

  // ---- a new key leaves the past as it was ----

  lemma GrowSynced<B(!new)>(p: Primitives<B>, secret: B, keys: seq<B>, k: B, s: Session<B>, e: nat)
    requires e < |keys| && Synced(p, secret, keys, s, e)
    ensures Synced(p, secret, keys + [k], s, e)
  {
    ScheduleGrows(p, secret, keys, k, e);
  }

  lemma GrowReceiving<B(!new)>(p: Primitives<B>, cfg: Config, secret: B, keys: seq<B>, k: B, s: Session<B>, e: nat)
    requires e < |keys| && Receiving(p, cfg, secret, keys, s, e)
    ensures Receiving(p, cfg, secret, keys + [k], s, e)
  {
    if e > 0 { ScheduleGrows(p, secret, keys, k, e - 1); }
    forall x | x in s.store ensures exists i: nat :: i < e && OfChain(p, secret, keys + [k], x, i) {
      var i: nat :| i < e && OfChain(p, secret, keys, x, i);
      ScheduleGrows(p, secret, keys, k, i);
      assert OfChain(p, secret, keys + [k], x, i);
    }
  }

  lemma GrowGenuine<B(!new)>(p: Primitives<B>, secret: B, keys: seq<B>, k: B, l: Letter<B>)
    requires Genuine(p, secret, keys, l)
    ensures Genuine(p, secret, keys + [k], l)
  {
    ScheduleGrows(p, secret, keys, k, l.epoch);
  }

  /** Whatever letter of the chain it is on a receiver is given, it stays on the schedule. */
  lemma KeepSame<B(!new)>(p: Primitives<B>, cfg: Config, secret: B, keys: seq<B>, s: Session<B>, e: nat, l: Letter<B>,
                          priv: B)
    requires 0 < e < |keys| && l.epoch == e - 1 && Genuine(p, secret, keys, l)
    requires Synced(p, secret, keys, s, e) && Receiving(p, cfg, secret, keys, s, e)
    ensures var t := Decrypt(p, cfg, s, l.message, priv).0;
            Synced(p, secret, keys, t, e) && Receiving(p, cfg, secret, keys, t, e) && t.sent == s.sent
  {
    var start := StartAt(p, secret, keys, e - 1);
    DecryptFrame(p, cfg, s, l.message, priv, start);
    var t := Decrypt(p, cfg, s, l.message, priv).0;
    StoreOfChains(p, secret, keys, s.store, t, e);
  }

  lemma StoreOfChains<B(!new)>(p: Primitives<B>, secret: B, keys: seq<B>, store: seq<Entry<B>>, t: Session<B>, e: nat)
    requires 0 < e < |keys| && Right(p, t.store, p.pub(keys[e - 1]), StartAt(p, secret, keys, e - 1), t.received)
    requires forall x :: x in store ==> exists i: nat :: i < e && OfChain(p, secret, keys, x, i)
    requires forall x :: x in t.store ==> x in store || x.dh == p.pub(keys[e - 1])
    ensures forall x :: x in t.store ==> exists i: nat :: i < e && OfChain(p, secret, keys, x, i)
  {
    forall x | x in t.store ensures exists i: nat :: i < e && OfChain(p, secret, keys, x, i) {
      if x.dh == p.pub(keys[e - 1]) { assert OfChain(p, secret, keys, x, e - 1); }
    }
  }

  /** The session of a receiver after a letter of the chain it is on. */
  lemma ReadSame<B(!new)>(p: Primitives<B>, cfg: Config, secret: B, keys: seq<B>, s: Session<B>, e: nat, l: Letter<B>,
                          priv: B)
    requires Lawful(p) && 0 < e < |keys| && l.epoch == e - 1 && Genuine(p, secret, keys, l)
    requires Synced(p, secret, keys, s, e) && Receiving(p, cfg, secret, keys, s, e)
    requires Reachable(cfg, s, s.peer, l.number)
    ensures var (t, outcome) := Decrypt(p, cfg, s, l.message, priv);
            && outcome == Plaintext(l.text)
            && Synced(p, secret, keys, t, e) && Receiving(p, cfg, secret, keys, t, e)
            && t.sent == s.sent && t.received == (if l.number < s.received then s.received else l.number + 1)
  {
    KeepSame(p, cfg, secret, keys, s, e, l, priv);
    ChainRead(p, cfg, s, l.message, priv, l.number, l.text, StartAt(p, secret, keys, e - 1));
  }

  /** A DH ratchet step lands on the next two chains of the schedule. */
  lemma TurnSynced<B(!new)>(p: Primitives<B>, secret: B, keys: seq<B>, s: Session<B>, e: nat, priv: B)
    requires Lawful(p) && e + 2 == |keys| && Synced(p, secret, keys, s, e)
    ensures var t := Turn(p, s, p.pub(keys[e + 1]), priv);
            && Synced(p, secret, keys + [priv], t, e + 2)
            && t.recvKey == StartAt(p, secret, keys + [priv], e + 1)
  {
    var more := keys + [priv];
    ScheduleGrows(p, secret, keys, priv, e); ScheduleGrows(p, secret, keys, priv, e + 1);
    assert p.dh(keys[e], p.pub(keys[e + 1])) == Shared(p, keys, e + 1);
    assert Shared(p, more, e + 2) == p.dh(priv, p.pub(keys[e + 1]));
    assert Chain(p, StartAt(p, secret, more, e + 2), 0) == StartAt(p, secret, more, e + 2);
  }

  lemma TurnReceiving<B(!new)>(p: Primitives<B>, cfg: Config, secret: B, keys: seq<B>, s: Session<B>, e: nat, priv: B)
    requires Lawful(p) && e + 2 == |keys| && Synced(p, secret, keys, s, e) && Receiving(p, cfg, secret, keys, s, e)
    requires KeysDistinct(p, keys)
    ensures Receiving(p, cfg, secret, keys + [priv], Turn(p, s, p.pub(keys[e + 1]), priv), e + 2)
  {
    var more, t := keys + [priv], Turn(p, s, p.pub(keys[e + 1]), priv);
    TurnSynced(p, secret, keys, s, e, priv);
    var dh := p.pub(more[e + 1]);
    forall i | 0 <= i < |t.store| ensures t.store[i].dh != dh {
      var x := t.store[i];
      assert x in s.store;
      var j: nat :| j < e && OfChain(p, secret, keys, x, j);
    }
    forall x | x in t.store ensures exists i: nat :: i < e + 2 && OfChain(p, secret, more, x, i) {
      var j: nat :| j < e && OfChain(p, secret, keys, x, j);
      ScheduleGrows(p, secret, keys, priv, j);
      assert OfChain(p, secret, more, x, j);
    }
  }

  /** A letter of the next chain is given to the session after its DH ratchet step. */
  lemma NewTurned<B(!new)>(p: Primitives<B>, cfg: Config, secret: B, keys: seq<B>, s: Session<B>, e: nat, l: Letter<B>,
                           priv: B)
    requires Lawful(p) && e + 2 == |keys| && l.epoch == e + 1 && Genuine(p, secret, keys, l) && KeysDistinct(p, keys)
    requires Synced(p, secret, keys, s, e) && Receiving(p, cfg, secret, keys, s, e)
    ensures var turned := Turn(p, s, l.message.header.dh, priv);
            && l.message.header.dh != s.peer && turned.sent == 0 && turned.received == 0
            && Decrypt(p, cfg, s, l.message, priv) == Decrypt(p, cfg, turned, l.message, priv)
            && Synced(p, secret, keys + [priv], turned, e + 2)
            && Receiving(p, cfg, secret, keys + [priv], turned, e + 2)
            && Genuine(p, secret, keys + [priv], l)
  {
    assert l.message.header.dh != s.peer;
    TurnSynced(p, secret, keys, s, e, priv);
    TurnReceiving(p, cfg, secret, keys, s, e, priv);
    GrowGenuine(p, secret, keys, priv, l);
  }

  /** Whatever its number, the first letter a receiver sees of a new chain takes it to the next two chains. */
  lemma KeepNew<B(!new)>(p: Primitives<B>, cfg: Config, secret: B, keys: seq<B>, s: Session<B>, e: nat, l: Letter<B>,
                         priv: B)
    requires Lawful(p) && e + 2 == |keys| && l.epoch == e + 1 && Genuine(p, secret, keys, l) && KeysDistinct(p, keys)
    requires Synced(p, secret, keys, s, e) && Receiving(p, cfg, secret, keys, s, e)
    ensures var t := Decrypt(p, cfg, s, l.message, priv).0;
            Synced(p, secret, keys + [priv], t, e + 2) && Receiving(p, cfg, secret, keys + [priv], t, e + 2)
  {
    NewTurned(p, cfg, secret, keys, s, e, l, priv);
    KeepSame(p, cfg, secret, keys + [priv], Turn(p, s, l.message.header.dh, priv), e + 2, l, priv);
  }

  /** The session of a receiver after the first letter it sees of a new chain. */
  lemma ReadNew<B(!new)>(p: Primitives<B>, cfg: Config, secret: B, keys: seq<B>, s: Session<B>, e: nat, l: Letter<B>,
                         priv: B)
    requires Lawful(p) && e + 2 == |keys| && l.epoch == e + 1 && Genuine(p, secret, keys, l)
    requires Synced(p, secret, keys, s, e) && Receiving(p, cfg, secret, keys, s, e)
    requires KeysDistinct(p, keys)
    requires l.number <= cfg.maxGap
    ensures var (t, outcome) := Decrypt(p, cfg, s, l.message, priv);
            && outcome == Plaintext(l.text) && l.message.header.dh != s.peer
            && Synced(p, secret, keys + [priv], t, e + 2)
            && Receiving(p, cfg, secret, keys + [priv], t, e + 2)
            && t.sent == 0 && t.received == l.number + 1
  {
    NewTurned(p, cfg, secret, keys, s, e, l, priv);
    ReadSame(p, cfg, secret, keys + [priv], Turn(p, s, l.message.header.dh, priv), e + 2, l, priv);
  }

  lemma KeysGrow<B(!new)>(p: Primitives<B>, keys: seq<B>, k: B)
    requires KeysDistinct(p, keys) && FreshKey(p, keys, k)
    ensures KeysDistinct(p, keys + [k])
  {}

  lemma MailGrows<B(!new)>(p: Primitives<B>, secret: B, keys: seq<B>, k: B, mail: seq<Letter<B>>)
    requires forall i :: 0 <= i < |mail| ==> Genuine(p, secret, keys, mail[i])
    ensures forall i :: 0 <= i < |mail| ==> Genuine(p, secret, keys + [k], mail[i])
  {
    forall i | 0 <= i < |mail| ensures Genuine(p, secret, keys + [k], mail[i]) {
      GrowGenuine(p, secret, keys, k, mail[i]);
    }
  }

  // ---- the kinds of step ----

  lemma LeadInv<B(!new)>(p: Primitives<B>, cfg: Config, secret: B, sys: System<B>, t: Session<B>)
    requires Inv(p, cfg, secret, sys)
    requires Synced(p, secret, sys.keys, t, sys.Last()) && Receiving(p, cfg, secret, sys.keys, t, sys.Last())
    ensures Inv(p, cfg, secret, sys.(lead := t))
  {}

  lemma TurnInv<B(!new)>(p: Primitives<B>, cfg: Config, secret: B, sys: System<B>, t: Session<B>, priv: B)
    requires Inv(p, cfg, secret, sys) && FreshKey(p, sys.keys, priv)
    requires Synced(p, secret, sys.keys + [priv], t, sys.Last() + 1)
    requires Receiving(p, cfg, secret, sys.keys + [priv], t, sys.Last() + 1)
    ensures Inv(p, cfg, secret, System(!sys.aliceLeads, t, sys.lead, sys.keys + [priv], sys.mail))
  {
    var more := sys.keys + [priv];
    assert Synced(p, secret, more, sys.lead, sys.Last()) by {
      GrowSynced(p, secret, sys.keys, priv, sys.lead, sys.Last());
    }
    assert Receiving(p, cfg, secret, more, sys.lead, sys.Last()) by {
      GrowReceiving(p, cfg, secret, sys.keys, priv, sys.lead, sys.Last());
    }
    assert KeysDistinct(p, more) by { KeysGrow(p, sys.keys, priv); }
    MailGrows(p, secret, sys.keys, priv, sys.mail);
  }

  lemma PostLead<B(!new)>(p: Primitives<B>, cfg: Config, secret: B, sys: System<B>, nonce: B, words: B)
    requires Inv(p, cfg, secret, sys)
    ensures Inv(p, cfg, secret, Posted(p, sys, sys.aliceLeads, nonce, words))
  {
    var (t, m) := Encrypt(p, sys.lead, nonce, words);
    var l := Letter(sys.aliceLeads, sys.Last(), sys.lead.sent, words, m);
    LeadInv(p, cfg, secret, sys, t);
  }

  lemma PostFollow<B(!new)>(p: Primitives<B>, cfg: Config, secret: B, sys: System<B>, nonce: B, words: B)
    requires Inv(p, cfg, secret, sys)
    ensures Inv(p, cfg, secret, Posted(p, sys, !sys.aliceLeads, nonce, words))
  {
    var (t, m) := Encrypt(p, sys.follow, nonce, words);
    var l := Letter(!sys.aliceLeads, sys.Last() - 1, sys.follow.sent, words, m);
  }

  lemma DeliverLead<B(!new)>(p: Primitives<B>, cfg: Config, secret: B, sys: System<B>, l: Letter<B>, priv: B)
    requires Lawful(p) && Inv(p, cfg, secret, sys) && Genuine(p, secret, sys.keys, l)
      && Deliverable(p, cfg, sys, l, priv)
    requires ToLead(sys, l)
    ensures var (after, outcome) := Delivered(p, cfg, sys, l, priv);
            && Inv(p, cfg, secret, after) && outcome == Plaintext(l.text)
            && after == sys.(lead := after.lead) && after.lead.sent == sys.lead.sent
            && after.lead.received == (if l.number < sys.lead.received then sys.lead.received else l.number + 1)
  {
    ReadSame(p, cfg, secret, sys.keys, sys.lead, sys.Last(), l, priv);
    LeadInv(p, cfg, secret, sys, Decrypt(p, cfg, sys.lead, l.message, priv).0);
  }

  lemma DeliverFollow<B(!new)>(p: Primitives<B>, cfg: Config, secret: B, sys: System<B>, l: Letter<B>, priv: B)
    requires Lawful(p) && Inv(p, cfg, secret, sys) && Genuine(p, secret, sys.keys, l)
      && Deliverable(p, cfg, sys, l, priv)
    requires !ToLead(sys, l) && l.epoch != sys.Last()
    ensures var (after, outcome) := Delivered(p, cfg, sys, l, priv);
            && Inv(p, cfg, secret, after) && outcome == Plaintext(l.text)
            && after == sys.(follow := after.follow) && after.follow.sent == sys.follow.sent
            && after.follow.received == (if l.number < sys.follow.received then sys.follow.received else l.number + 1)
  {
    ReadSame(p, cfg, secret, sys.keys, sys.follow, sys.Last() - 1, l, priv);
  }

  lemma DeliverTurn<B(!new)>(p: Primitives<B>, cfg: Config, secret: B, sys: System<B>, l: Letter<B>, priv: B)
    requires Lawful(p) && Inv(p, cfg, secret, sys) && Genuine(p, secret, sys.keys, l)
      && Deliverable(p, cfg, sys, l, priv)
    requires !ToLead(sys, l) && l.epoch == sys.Last()
    ensures var (after, outcome) := Delivered(p, cfg, sys, l, priv);
            && Inv(p, cfg, secret, after) && outcome == Plaintext(l.text)
            && after == System(!sys.aliceLeads, after.lead, sys.lead, sys.keys + [priv], sys.mail)
            && after.lead.sent == 0 && after.lead.received == l.number + 1
  {
    ReadNew(p, cfg, secret, sys.keys, sys.follow, sys.Last() - 1, l, priv);
    TurnInv(p, cfg, secret, sys, Decrypt(p, cfg, sys.follow, l.message, priv).0, priv);
  }

  // ---- every run ----

  function Take<B(==)>(p: Primitives<B>, cfg: Config, sys: System<B>, step: Step<B>): (System<B>, Option<Outcome<B>>)
    requires |sys.keys| >= 2 && (step.Deliver? ==> step.index < |sys.mail|)
  {
    match step
    case Post(fromAlice, nonce, words) => (Posted(p, sys, fromAlice, nonce, words), None)
    case Deliver(index, priv) =>
      var (after, outcome) := Delivered(p, cfg, sys, sys.mail[index], priv);
      (after, Some(outcome))
  }

  /** Every allowed step keeps the invariant, and every delivery yields the words that were posted. */
  lemma StepRight<B(!new)>(p: Primitives<B>, cfg: Config, secret: B, sys: System<B>, step: Step<B>)
    requires Lawful(p) && Inv(p, cfg, secret, sys) && Allowed(p, cfg, sys, step)
    ensures Inv(p, cfg, secret, Take(p, cfg, sys, step).0)
    ensures step.Deliver? ==> Take(p, cfg, sys, step).1 == Some(Plaintext(sys.mail[step.index].text))
  {
    if step.Post? {
      if step.fromAlice == sys.aliceLeads {
        PostLead(p, cfg, secret, sys, step.nonce, step.words);
      } else {
        PostFollow(p, cfg, secret, sys, step.nonce, step.words);
      }
    } else {
      var l := sys.mail[step.index];
      if ToLead(sys, l) {
        DeliverLead(p, cfg, secret, sys, l, step.priv);
      } else if l.epoch == sys.Last() {
        DeliverTurn(p, cfg, secret, sys, l, step.priv);
      } else {
        DeliverFollow(p, cfg, secret, sys, l, step.priv);
      }
    }
  }

  /** Each step is allowed in the state the steps before it lead to. */
  ghost predicate Run<B(!new)>(p: Primitives<B>, cfg: Config, sys: System<B>, steps: seq<Step<B>>)
    decreases |steps|
  {
    steps == [] ||
    (|sys.keys| >= 2 && Allowed(p, cfg, sys, steps[0]) && Run(p, cfg, Take(p, cfg, sys, steps[0]).0, steps[1..]))
  }

  /** The state a run leads to. */
  ghost function End<B(!new)>(p: Primitives<B>, cfg: Config, sys: System<B>, steps: seq<Step<B>>): System<B>
    requires Run(p, cfg, sys, steps)
    decreases |steps|
  {
    if steps == [] then sys else End(p, cfg, Take(p, cfg, sys, steps[0]).0, steps[1..])
  }

  /** Every delivery along the way yields the words of its letter. */
  ghost predicate AllRead<B(!new)>(p: Primitives<B>, cfg: Config, sys: System<B>, steps: seq<Step<B>>)
    requires Run(p, cfg, sys, steps)
    decreases |steps|
  {
    steps != [] ==>
      && (steps[0].Deliver? ==> Take(p, cfg, sys, steps[0]).1 == Some(Plaintext(sys.mail[steps[0].index].text)))
      && AllRead(p, cfg, Take(p, cfg, sys, steps[0]).0, steps[1..])
  }

  lemma {:induction false} EndInv<B(!new)>(p: Primitives<B>, cfg: Config, secret: B, sys: System<B>,
                                           steps: seq<Step<B>>)
    requires Lawful(p) && Inv(p, cfg, secret, sys) && Run(p, cfg, sys, steps)
    ensures Inv(p, cfg, secret, End(p, cfg, sys, steps))
    decreases |steps|
  {
    if steps == [] {
    } else {
      StepRight(p, cfg, secret, sys, steps[0]);
      EndInv(p, cfg, secret, Take(p, cfg, sys, steps[0]).0, steps[1..]);
    }
  }

  lemma {:induction false} RunRight<B(!new)>(p: Primitives<B>, cfg: Config, secret: B, sys: System<B>,
                                             steps: seq<Step<B>>)
    requires Lawful(p) && Inv(p, cfg, secret, sys) && Run(p, cfg, sys, steps)
    ensures AllRead(p, cfg, sys, steps)
    decreases |steps|
  {
    if steps == [] {
    } else {
      StepRight(p, cfg, secret, sys, steps[0]);
      RunRight(p, cfg, secret, Take(p, cfg, sys, steps[0]).0, steps[1..]);
    }
  }

  /**
   A conversation over a network that may delay, reorder and lose: from the two initialised
   sessions, every delivered message decrypts to the plaintext sent.
   */
  lemma ConversationRight<B(!new)>(p: Primitives<B>, cfg: Config, secret: B, k0: B, k1: B, steps: seq<Step<B>>)
    requires Lawful(p) && p.pub(k0) != p.blank && FreshKey(p, [k0], k1)
    requires Run(p, cfg, Begin(p, secret, k0, k1), steps)
    ensures AllRead(p, cfg, Begin(p, secret, k0, k1), steps)
  {
    BeginInv(p, cfg, secret, k0, k1);
    RunRight(p, cfg, secret, Begin(p, secret, k0, k1), steps);
  }

  // ---- the chain before the first turn ----

  /** Neither half of the root KDF loses anything of its inputs. */
  ghost predicate Faithful<B(!new)>(p: Primitives<B>) {
    && (forall x: B, r: B, y: B, q: B {:trigger p.rootHalf(x, r), p.rootHalf(y, q)} ::
          p.rootHalf(x, r) == p.rootHalf(y, q) ==> x == y && r == q)
    && (forall x: B, r: B, y: B, q: B {:trigger p.chainHalf(x, r), p.chainHalf(y, q)} ::
          p.chainHalf(x, r) == p.chainHalf(y, q) ==> x == y && r == q)
  }

  lemma {:induction false} RootSecret<B(!new)>(p: Primitives<B>, secret: B, other: B, keys: seq<B>, e: nat)
    requires Faithful(p) && e < |keys|
    ensures RootAt(p, secret, keys, e) == RootAt(p, other, keys, e) <==> secret == other
  {
    if e == 0 {
    } else {
      RootSecret(p, secret, other, keys, e - 1);
    }
  }

  /** A chain depends on the shared secret exactly when it is not the receiver's chain before its first turn. */
  lemma SecretMatters<B(!new)>(p: Primitives<B>, secret: B, other: B, keys: seq<B>, e: nat)
    requires Faithful(p) && e < |keys|
    ensures StartAt(p, secret, keys, e) == StartAt(p, other, keys, e) <==> e == 0 || secret == other
  {
    if e > 0 { RootSecret(p, secret, other, keys, e - 1); }
  }

  /** Such a letter is posted by the shortest run there is. */
  lemma FirstChainHappens<B(!new)>(p: Primitives<B>, cfg: Config, secret: B, k0: B, k1: B, nonce: B, words: B)
    ensures var steps := [Post(false, nonce, words)];
            && Run(p, cfg, Begin(p, secret, k0, k1), steps)
            && var mail := End(p, cfg, Begin(p, secret, k0, k1), steps).mail;
            |mail| == 1 && mail[0].epoch == 0 && mail[0].text == words
  {
    var sys, steps := Begin(p, secret, k0, k1), [Post(false, nonce, words)];
    var after := Posted(p, sys, false, nonce, words);
    assert steps[1..] == [] && Take(p, cfg, sys, steps[0]).0 == after;
    assert Run(p, cfg, after, []) && End(p, cfg, after, []) == after;
  }

  /** In every run, what the receiver posts before it first receives opens under a key that no secret enters. */
  lemma FirstChainOpen<B(!new)>(p: Primitives<B>, cfg: Config, secret: B, k0: B, k1: B, steps: seq<Step<B>>, i: nat)
    requires Lawful(p) && p.pub(k0) != p.blank && FreshKey(p, [k0], k1) && Run(p, cfg, Begin(p, secret, k0, k1), steps)
    requires i < |End(p, cfg, Begin(p, secret, k0, k1), steps).mail|
    ensures var l := End(p, cfg, Begin(p, secret, k0, k1), steps).mail[i];
            l.epoch == 0 ==> p.unseal(KeyAt(p, p.blank, l.number), l.message.nonce, l.message.body) == Some(l.text)
  {
    var sys := Begin(p, secret, k0, k1);
    BeginInv(p, cfg, secret, k0, k1);
    EndInv(p, cfg, secret, sys, steps);
    assert Genuine(p, secret, End(p, cfg, sys, steps).keys, End(p, cfg, sys, steps).mail[i]);
  }
}
