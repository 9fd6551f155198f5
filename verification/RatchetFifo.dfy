/** Conversations over two first-in-first-out channels that lose nothing. */
module RatchetFifo {
  import opened Ratchet
  import opened RatchetRuns

  /** A conversation and what is still under way in each direction. */
  datatype Wire<+B> = Wire(sys: System<B>, toLead: seq<Letter<B>>, toFollow: seq<Letter<B>>)

  datatype Move<+B> = Write(fromAlice: bool, nonce: B, words: B) | Read(byAlice: bool, priv: B)

  predicate Enabled<B>(w: Wire<B>, move: Move<B>) {
    && |w.sys.keys| >= 2
    && (move.Read? ==> (if move.byAlice == w.sys.aliceLeads then w.toLead else w.toFollow) != [])
  }

  function Sent<B>(p: Primitives<B>, w: Wire<B>, fromAlice: bool, nonce: B, words: B): Wire<B>
    requires |w.sys.keys| >= 2
  {
    var after := Posted(p, w.sys, fromAlice, nonce, words);
    var l := after.mail[|w.sys.mail|];
    if fromAlice == w.sys.aliceLeads then Wire(after, w.toLead, w.toFollow + [l])
    else Wire(after, w.toLead + [l], w.toFollow)
  }

  /** When the follower takes the lead the channels change sides. */
  function Got<B(==)>(p: Primitives<B>, cfg: Config, w: Wire<B>, byAlice: bool, priv: B): (Wire<B>, Outcome<B>)
    requires Enabled(w, Read(byAlice, priv))
  {
    if byAlice == w.sys.aliceLeads then
      var (after, outcome) := Delivered(p, cfg, w.sys, w.toLead[0], priv);
      (Wire(after, w.toLead[1..], w.toFollow), outcome)
    else
      var (after, outcome) := Delivered(p, cfg, w.sys, w.toFollow[0], priv);
      (if after.aliceLeads == w.sys.aliceLeads then Wire(after, w.toLead, w.toFollow[1..])
       else Wire(after, w.toFollow[1..], w.toLead), outcome)
  }

  function Moved<B(==)>(p: Primitives<B>, cfg: Config, w: Wire<B>, move: Move<B>): Wire<B>
    requires Enabled(w, move)
  {
    match move
    case Write(fromAlice, nonce, words) => Sent(p, w, fromAlice, nonce, words)
    case Read(byAlice, priv) => Got(p, cfg, w, byAlice, priv).0
  }

  // ---- what is on the wire ----

  /** The counters of a conversation. */
  datatype Counts = Counts(aliceLeads: bool, last: int, leadSent: nat, leadReceived: nat, followSent: nat,
                           followReceived: nat)

  function CountsOf<B>(sys: System<B>): Counts {
    Counts(sys.aliceLeads, sys.Last(), sys.lead.sent, sys.lead.received, sys.follow.sent, sys.follow.received)
  }

  /** Letters of one chain, numbered without a gap from `first`. */
  ghost predicate Numbered<B>(q: seq<Letter<B>>, fromAlice: bool, epoch: int, first: nat) {
    forall i :: 0 <= i < |q| ==> q[i].fromAlice == fromAlice && q[i].epoch == epoch && q[i].number == first + i
  }

  /**
   Towards the leader: the rest of the follower's chain. Towards the follower: the rest of the chain
   it is on, which is the first c letters, then the leader's new chain from its beginning.
   */
  ghost predicate Shape<B>(k: Counts, toLead: seq<Letter<B>>, toFollow: seq<Letter<B>>, c: nat) {
    && Numbered(toLead, !k.aliceLeads, k.last - 1, k.leadReceived)
    && k.leadReceived + |toLead| == k.followSent
    && c + k.leadSent == |toFollow|
    && Numbered(toFollow[..c], k.aliceLeads, k.last - 2, k.followReceived)
    && Numbered(toFollow[c..], k.aliceLeads, k.last, 0)
  }

  lemma ShapeSent<B>(k: Counts, toLead: seq<Letter<B>>, toFollow: seq<Letter<B>>, c: nat, l: Letter<B>)
    requires Shape(k, toLead, toFollow, c)
    ensures l.fromAlice == k.aliceLeads && l.epoch == k.last && l.number == k.leadSent ==>
              Shape(k.(leadSent := k.leadSent + 1), toLead, toFollow + [l], c)
    ensures l.fromAlice != k.aliceLeads && l.epoch == k.last - 1 && l.number == k.followSent ==>
              Shape(k.(followSent := k.followSent + 1), toLead + [l], toFollow, c)
  {
    assert (toFollow + [l])[..c] == toFollow[..c] && (toFollow + [l])[c..] == toFollow[c..] + [l];
  }

  lemma ShapeReadLead<B>(k: Counts, toLead: seq<Letter<B>>, toFollow: seq<Letter<B>>, c: nat)
    requires Shape(k, toLead, toFollow, c) && toLead != []
    ensures toLead[0].fromAlice != k.aliceLeads && toLead[0].epoch == k.last - 1 && toLead[0].number == k.leadReceived
    ensures Shape(k.(leadReceived := k.leadReceived + 1), toLead[1..], toFollow, c)
  {}

  lemma ShapeReadFollow<B>(k: Counts, toLead: seq<Letter<B>>, toFollow: seq<Letter<B>>, c: nat)
    requires Shape(k, toLead, toFollow, c) && c > 0
    ensures var l := toFollow[0]; l.fromAlice == k.aliceLeads && l.epoch == k.last - 2 && l.number == k.followReceived
    ensures Shape(k.(followReceived := k.followReceived + 1), toLead, toFollow[1..], c - 1)
  {
    assert toFollow[0] == toFollow[..c][0];
    assert toFollow[1..][..c - 1] == toFollow[..c][1..] && toFollow[1..][c - 1..] == toFollow[c..];
  }

  /** Reading the first letter of the leader's new chain swaps the roles. */
  lemma ShapeTurn<B>(k: Counts, toLead: seq<Letter<B>>, toFollow: seq<Letter<B>>)
    requires Shape(k, toLead, toFollow, 0) && toFollow != []
    ensures var l := toFollow[0]; l.fromAlice == k.aliceLeads && l.epoch == k.last && l.number == 0
    ensures Shape(Counts(!k.aliceLeads, k.last + 1, 0, 1, k.leadSent, k.leadReceived), toFollow[1..], toLead, |toLead|)
  {
    assert toFollow[0..] == toFollow;
    assert toLead[..|toLead|] == toLead;
  }

  // ---- every move ----

  ghost predicate InMail<B(!new)>(sys: System<B>, q: seq<Letter<B>>) { forall l :: l in q ==> l in sys.mail }

  ghost predicate WireInv<B(!new)>(p: Primitives<B>, cfg: Config, secret: B, w: Wire<B>, c: nat) {
    && Inv(p, cfg, secret, w.sys)
    && Shape(CountsOf(w.sys), w.toLead, w.toFollow, c)
    && InMail(w.sys, w.toLead) && InMail(w.sys, w.toFollow)
  }

  lemma SentInv<B(!new)>(p: Primitives<B>, cfg: Config, secret: B, w: Wire<B>, c: nat, fromAlice: bool, nonce: B,
                         words: B)
    requires Lawful(p) && WireInv(p, cfg, secret, w, c)
    ensures WireInv(p, cfg, secret, Sent(p, w, fromAlice, nonce, words), c)
  {
    StepRight(p, cfg, secret, w.sys, Post(fromAlice, nonce, words));
    var v := Sent(p, w, fromAlice, nonce, words);
    ShapeSent(CountsOf(w.sys), w.toLead, w.toFollow, c, v.sys.mail[|w.sys.mail|]);
  }

  lemma GotLead<B(!new)>(p: Primitives<B>, cfg: Config, secret: B, w: Wire<B>, c: nat, priv: B)
    requires Lawful(p) && WireInv(p, cfg, secret, w, c) && cfg.maxGap >= 0 && w.toLead != []
    ensures WireInv(p, cfg, secret, Got(p, cfg, w, w.sys.aliceLeads, priv).0, c)
    ensures Got(p, cfg, w, w.sys.aliceLeads, priv).1 == Plaintext(w.toLead[0].text)
  {
    ShapeReadLead(CountsOf(w.sys), w.toLead, w.toFollow, c);
    assert w.toLead[0] in w.sys.mail;
    DeliverLead(p, cfg, secret, w.sys, w.toLead[0], priv);
  }

  lemma OrderedFollow<B(!new)>(p: Primitives<B>, cfg: Config, secret: B, sys: System<B>, l: Letter<B>, priv: B)
    requires Lawful(p) && Inv(p, cfg, secret, sys) && cfg.maxGap >= 0 && l in sys.mail
    requires !ToLead(sys, l) && l.epoch == sys.Last() - 2 && l.number == sys.follow.received
    ensures var (after, outcome) := Delivered(p, cfg, sys, l, priv);
            && Inv(p, cfg, secret, after) && outcome == Plaintext(l.text) && after.mail == sys.mail
            && CountsOf(after) == CountsOf(sys).(followReceived := sys.follow.received + 1)
  {
    DeliverFollow(p, cfg, secret, sys, l, priv);
  }

  lemma OrderedTurn<B(!new)>(p: Primitives<B>, cfg: Config, secret: B, sys: System<B>, l: Letter<B>, priv: B)
    requires Lawful(p) && Inv(p, cfg, secret, sys) && cfg.maxGap >= 0 && l in sys.mail
    requires !ToLead(sys, l) && l.epoch == sys.Last() && l.number == 0 && FreshKey(p, sys.keys, priv)
    ensures var (after, outcome) := Delivered(p, cfg, sys, l, priv);
            && Inv(p, cfg, secret, after) && outcome == Plaintext(l.text) && after.mail == sys.mail
            && CountsOf(after) == Counts(!sys.aliceLeads, sys.Last() + 1, 0, 1, sys.lead.sent, sys.lead.received)
  {
    DeliverTurn(p, cfg, secret, sys, l, priv);
  }

  /** What the follower's channels become, given what the delivery made of the conversation. */
  lemma GotBy<B(!new)>(p: Primitives<B>, cfg: Config, w: Wire<B>, priv: B, after: System<B>, outcome: Outcome<B>)
    requires Enabled(w, Read(!w.sys.aliceLeads, priv))
      && Delivered(p, cfg, w.sys, w.toFollow[0], priv) == (after, outcome)
    ensures Got(p, cfg, w, !w.sys.aliceLeads, priv) ==
            (if after.aliceLeads == w.sys.aliceLeads then Wire(after, w.toLead, w.toFollow[1..])
             else Wire(after, w.toFollow[1..], w.toLead), outcome)
  {}

  lemma GotFollow<B(!new)>(p: Primitives<B>, cfg: Config, secret: B, w: Wire<B>, c: nat, priv: B)
    requires Lawful(p) && WireInv(p, cfg, secret, w, c) && cfg.maxGap >= 0 && c > 0
    ensures w.toFollow != [] && WireInv(p, cfg, secret, Got(p, cfg, w, !w.sys.aliceLeads, priv).0, c - 1)
    ensures Got(p, cfg, w, !w.sys.aliceLeads, priv).1 == Plaintext(w.toFollow[0].text)
  {
    ShapeReadFollow(CountsOf(w.sys), w.toLead, w.toFollow, c);
    OrderedFollow(p, cfg, secret, w.sys, w.toFollow[0], priv);
    var (after, outcome) := Delivered(p, cfg, w.sys, w.toFollow[0], priv);
    GotBy(p, cfg, w, priv, after, outcome);
  }

  lemma GotTurn<B(!new)>(p: Primitives<B>, cfg: Config, secret: B, w: Wire<B>, priv: B)
    requires Lawful(p) && WireInv(p, cfg, secret, w, 0) && cfg.maxGap >= 0 && w.toFollow != []
      && FreshKey(p, w.sys.keys, priv)
    ensures WireInv(p, cfg, secret, Got(p, cfg, w, !w.sys.aliceLeads, priv).0, |w.toLead|)
    ensures Got(p, cfg, w, !w.sys.aliceLeads, priv).1 == Plaintext(w.toFollow[0].text)
  {
    ShapeTurn(CountsOf(w.sys), w.toLead, w.toFollow);
    OrderedTurn(p, cfg, secret, w.sys, w.toFollow[0], priv);
    var (after, outcome) := Delivered(p, cfg, w.sys, w.toFollow[0], priv);
    GotBy(p, cfg, w, priv, after, outcome);
  }

  /** A run: moves are possible, and every key drawn is new. */
  ghost predicate WireRun<B(!new)>(p: Primitives<B>, cfg: Config, w: Wire<B>, moves: seq<Move<B>>)
    decreases |moves|
  {
    moves == [] ||
    (Enabled(w, moves[0]) && (moves[0].Read? ==> FreshKey(p, w.sys.keys, moves[0].priv)) &&
     WireRun(p, cfg, Moved(p, cfg, w, moves[0]), moves[1..]))
  }

  ghost predicate AllGot<B(!new)>(p: Primitives<B>, cfg: Config, w: Wire<B>, moves: seq<Move<B>>)
    requires WireRun(p, cfg, w, moves)
    decreases |moves|
  {
    moves != [] ==>
      && (moves[0].Read? ==>
            var q := if moves[0].byAlice == w.sys.aliceLeads then w.toLead else w.toFollow;
            Got(p, cfg, w, moves[0].byAlice, moves[0].priv).1 == Plaintext(q[0].text))
      && AllGot(p, cfg, Moved(p, cfg, w, moves[0]), moves[1..])
  }

  lemma MoveRight<B(!new)>(p: Primitives<B>, cfg: Config, secret: B, w: Wire<B>, c: nat, move: Move<B>) returns (d: nat)
    requires Lawful(p) && cfg.maxGap >= 0 && WireInv(p, cfg, secret, w, c)
    requires Enabled(w, move) && (move.Read? ==> FreshKey(p, w.sys.keys, move.priv))
    ensures WireInv(p, cfg, secret, Moved(p, cfg, w, move), d)
    ensures move.Read? ==>
              var q := if move.byAlice == w.sys.aliceLeads then w.toLead else w.toFollow;
              Got(p, cfg, w, move.byAlice, move.priv).1 == Plaintext(q[0].text)
  {
    if move.Write? {
      SentInv(p, cfg, secret, w, c, move.fromAlice, move.nonce, move.words);
      d := c;
    } else if move.byAlice == w.sys.aliceLeads {
      GotLead(p, cfg, secret, w, c, move.priv);
      d := c;
    } else if c > 0 {
      GotFollow(p, cfg, secret, w, c, move.priv);
      d := c - 1;
    } else {
      GotTurn(p, cfg, secret, w, move.priv);
      d := |w.toLead|;
    }
  }

  lemma {:induction false} WireRunRight<B(!new)>(p: Primitives<B>, cfg: Config, secret: B, w: Wire<B>, c: nat,
                                                 moves: seq<Move<B>>)
    requires Lawful(p) && cfg.maxGap >= 0 && WireInv(p, cfg, secret, w, c) && WireRun(p, cfg, w, moves)
    ensures AllGot(p, cfg, w, moves)
    decreases |moves|
  {
    if moves == [] {
    } else {
      var d := MoveRight(p, cfg, secret, w, c, moves[0]);
      WireRunRight(p, cfg, secret, Moved(p, cfg, w, moves[0]), d, moves[1..]);
    }
  }

  /** Over lossless first-in-first-out channels every message received decrypts to what was sent. */
  lemma FifoRight<B(!new)>(p: Primitives<B>, cfg: Config, secret: B, k0: B, k1: B, moves: seq<Move<B>>)
    requires Lawful(p) && cfg.maxGap >= 0 && p.pub(k0) != p.blank && FreshKey(p, [k0], k1)
    requires WireRun(p, cfg, Wire(Begin(p, secret, k0, k1), [], []), moves)
    ensures AllGot(p, cfg, Wire(Begin(p, secret, k0, k1), [], []), moves)
  {
    BeginInv(p, cfg, secret, k0, k1);
    WireRunRight(p, cfg, secret, Wire(Begin(p, secret, k0, k1), [], []), 0, moves);
  }
}
