/** What the header of every message says about the chain its sender used before. */
module RatchetHeaders {
  import opened Common
  import opened Ratchet
  import opened RatchetChains
  import opened RatchetRuns

  /** How many letters were posted along a chain. */
  function Count<B>(mail: seq<Letter<B>>, e: int): nat {
    if mail == [] then 0 else Count(mail[..|mail| - 1], e) + (if mail[|mail| - 1].epoch == e then 1 else 0)
  }

  lemma CountMore<B>(mail: seq<Letter<B>>, l: Letter<B>, e: int)
    ensures Count(mail + [l], e) == Count(mail, e) + (if l.epoch == e then 1 else 0)
  {
    assert (mail + [l])[..|mail|] == mail;
  }

  lemma {:induction false} CountNone<B>(mail: seq<Letter<B>>, e: int)
    requires forall i :: 0 <= i < |mail| ==> mail[i].epoch != e
    ensures Count(mail, e) == 0
  {
    if mail == [] {
    } else {
      CountNone(mail[..|mail| - 1], e);
    }
  }

  /** The header numbers a letter within its chain and tells the length of its sender's chain before. */
  predicate Telling<B>(mail: seq<Letter<B>>, i: nat)
    requires i < |mail|
  {
    var l := mail[i];
    l.message.header.previous == Count(mail, l.epoch - 2) && l.message.header.number == Count(mail[..i], l.epoch)
  }

  /** What a party that sends along chain e has counted. */
  predicate CountedBy<B>(mail: seq<Letter<B>>, s: Session<B>, e: int) {
    s.sent == Count(mail, e) && s.previous == Count(mail, e - 2)
  }

  ghost predicate Counted<B>(sys: System<B>) {
    && |sys.keys| >= 2 && AllTelling(sys.mail, sys.Last())
    && CountedBy(sys.mail, sys.lead, sys.Last()) && CountedBy(sys.mail, sys.follow, sys.Last() - 1)
  }

  lemma TellingMore<B>(mail: seq<Letter<B>>, l: Letter<B>, i: nat)
    requires i < |mail| && Telling(mail, i) && mail[i].epoch - 2 != l.epoch
    ensures Telling(mail + [l], i)
  {
    CountMore(mail, l, mail[i].epoch - 2);
    assert (mail + [l])[..i] == mail[..i];
  }

  ghost predicate AllTelling<B>(mail: seq<Letter<B>>, last: int) {
    forall i :: 0 <= i < |mail| ==> mail[i].epoch <= last && Telling(mail, i)
  }

  /** A letter of one of the two chains in use, with the right header, joins the others. */
  lemma JoinTelling<B>(mail: seq<Letter<B>>, l: Letter<B>, last: int)
    requires AllTelling(mail, last) && last - 1 <= l.epoch <= last
    requires l.message.header.previous == Count(mail, l.epoch - 2) && l.message.header.number == Count(mail, l.epoch)
    ensures AllTelling(mail + [l], last)
  {
    var more := mail + [l];
    forall i | 0 <= i < |more| ensures more[i].epoch <= last && Telling(more, i) {
      if i < |mail| {
        TellingMore(mail, l, i);
      } else {
        assert more[..i] == mail;
        CountMore(mail, l, l.epoch - 2);
      }
    }
  }

  /** A party that posts counts its letter. */
  lemma EncryptCounted<B>(p: Primitives<B>, mail: seq<Letter<B>>, s: Session<B>, e: nat, last: int, nonce: B, words: B,
                          fromAlice: bool)
    requires CountedBy(mail, s, e) && AllTelling(mail, last) && last - 1 <= e <= last
    ensures var (t, m) := Encrypt(p, s, nonce, words);
      var more := mail + [Letter(fromAlice, e, s.sent, words, m)];
      CountedBy(more, t, e) && AllTelling(more, last)
  {
    var (t, m) := Encrypt(p, s, nonce, words);
    var l := Letter(fromAlice, e, s.sent, words, m);
    JoinTelling(mail, l, last);
    CountMore(mail, l, e);
    CountMore(mail, l, e - 2);
  }

  lemma OtherCounted<B>(mail: seq<Letter<B>>, l: Letter<B>, o: Session<B>, f: int)
    requires CountedBy(mail, o, f) && l.epoch != f && l.epoch != f - 2
    ensures CountedBy(mail + [l], o, f)
  {
    CountMore(mail, l, f);
    CountMore(mail, l, f - 2);
  }

  lemma LeadCounted<B>(p: Primitives<B>, sys: System<B>, nonce: B, words: B)
    requires Counted(sys)
    ensures Counted(Posted(p, sys, sys.aliceLeads, nonce, words))
  {
    var last, after := sys.Last(), Posted(p, sys, sys.aliceLeads, nonce, words);
    assert AllTelling(after.mail, last) && CountedBy(after.mail, after.lead, last) by {
      EncryptCounted(p, sys.mail, sys.lead, last, last, nonce, words, sys.aliceLeads);
    }
    assert CountedBy(after.mail, after.follow, last - 1) by {
      OtherCounted(sys.mail, after.mail[|sys.mail|], sys.follow, last - 1);
    }
  }

  lemma FollowCounted<B>(p: Primitives<B>, sys: System<B>, nonce: B, words: B)
    requires Counted(sys)
    ensures Counted(Posted(p, sys, !sys.aliceLeads, nonce, words))
  {
    var last, after := sys.Last(), Posted(p, sys, !sys.aliceLeads, nonce, words);
    assert AllTelling(after.mail, last) && CountedBy(after.mail, after.follow, last - 1) by {
      EncryptCounted(p, sys.mail, sys.follow, last - 1, last, nonce, words, !sys.aliceLeads);
    }
    assert CountedBy(after.mail, after.lead, last) by {
      OtherCounted(sys.mail, after.mail[|sys.mail|], sys.lead, last);
    }
  }

  lemma PostedCounted<B>(p: Primitives<B>, sys: System<B>, fromAlice: bool, nonce: B, words: B)
    requires Counted(sys)
    ensures Counted(Posted(p, sys, fromAlice, nonce, words))
  {
    if fromAlice == sys.aliceLeads {
      LeadCounted(p, sys, nonce, words);
    } else {
      FollowCounted(p, sys, nonce, words);
    }
  }

  /** Reading along the current chain touches neither count; a turn starts a chain and remembers the last one. */
  lemma DecryptCounts<B(!new)>(p: Primitives<B>, cfg: Config, s: Session<B>, m: Message<B>, priv: B)
    ensures var t := Decrypt(p, cfg, s, m, priv).0;
      if m.header.dh == s.peer then t.sent == s.sent && t.previous == s.previous
      else t.sent == 0 && t.previous == s.sent
  {
    var turned := if m.header.dh == s.peer then s else Turn(p, s, m.header.dh, priv);
    SkipKeepsCounts(p, cfg, turned, m.header.dh, m.header.number);
  }

  lemma {:induction false} SkipKeepsCounts<B(!new)>(p: Primitives<B>, cfg: Config, s: Session<B>, dh: B, number: int)
    ensures var t := SkipTo(p, cfg, s, dh, number); t.sent == s.sent && t.previous == s.previous
    decreases number - s.received
  {
    if s.received >= number {
    } else {
      SkipKeepsCounts(p, cfg, SkipOne(p, cfg, s, dh), dh, number);
    }
  }

  /** Only a letter of the last chain, to the party behind, calls for a turn. */
  lemma WhoTurns<B(!new)>(p: Primitives<B>, cfg: Config, secret: B, sys: System<B>, l: Letter<B>, priv: B)
    requires Inv(p, cfg, secret, sys) && Genuine(p, secret, sys.keys, l) && Deliverable(p, cfg, sys, l, priv)
    ensures ToLead(sys, l) ==> l.message.header.dh == sys.lead.peer
    ensures !ToLead(sys, l) ==> (l.message.header.dh != sys.follow.peer <==> l.epoch == sys.Last())
  {
  }

  lemma DeliveredCounted<B(!new)>(p: Primitives<B>, cfg: Config, sys: System<B>, l: Letter<B>, priv: B)
    requires Counted(sys) && (ToLead(sys, l) ==> l.message.header.dh == sys.lead.peer)
    ensures Counted(Delivered(p, cfg, sys, l, priv).0)
  {
    DecryptCounts(p, cfg, if ToLead(sys, l) then sys.lead else sys.follow, l.message, priv);
    CountNone(sys.mail, sys.Last() + 1);
  }

  lemma {:induction false} EndCounted<B(!new)>(p: Primitives<B>, cfg: Config, secret: B, sys: System<B>,
                                               steps: seq<Step<B>>)
    requires Lawful(p) && Inv(p, cfg, secret, sys) && Counted(sys) && Run(p, cfg, sys, steps)
    ensures Counted(End(p, cfg, sys, steps))
    decreases |steps|
  {
    if steps == [] {
    } else {
      var step, after := steps[0], Take(p, cfg, sys, steps[0]).0;
      StepRight(p, cfg, secret, sys, step);
      if step.Post? {
        PostedCounted(p, sys, step.fromAlice, step.nonce, step.words);
      } else {
        WhoTurns(p, cfg, secret, sys, sys.mail[step.index], step.priv);
        DeliveredCounted(p, cfg, sys, sys.mail[step.index], step.priv);
      }
      EndCounted(p, cfg, secret, after, steps[1..]);
    }
  }

  /**
   In every run each message is numbered by the messages of its chain before it, and announces how many
   messages its sender sent along its chain before, none for the first chain of either side.
   */
  lemma HeadersTell<B(!new)>(p: Primitives<B>, cfg: Config, secret: B, k0: B, k1: B, steps: seq<Step<B>>, i: nat)
    requires Lawful(p) && p.pub(k0) != p.blank && FreshKey(p, [k0], k1) && Run(p, cfg, Begin(p, secret, k0, k1), steps)
    requires i < |End(p, cfg, Begin(p, secret, k0, k1), steps).mail|
    ensures var mail := End(p, cfg, Begin(p, secret, k0, k1), steps).mail;
      var l := mail[i];
      && l.message.header.number == Count(mail[..i], l.epoch)
      && l.message.header.previous == (if l.epoch < 2 then 0 else Count(mail, l.epoch - 2))
  {
    var start := Begin(p, secret, k0, k1);
    BeginInv(p, cfg, secret, k0, k1);
    EndCounted(p, cfg, secret, start, steps);
    var mail := End(p, cfg, start, steps).mail;
    assert Telling(mail, i);
    if mail[i].epoch < 2 { CountNone(mail, mail[i].epoch - 2); }
  }
}
