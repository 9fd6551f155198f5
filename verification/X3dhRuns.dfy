/** Prekeys over any run of manager operations, and the agreement of the two sides of X3DH. */
module X3dhRuns {
  import opened Common
  import opened X3dh

  datatype Op<B> = Replenish(draw: nat -> B) | Rotate(private: B, time: int) | Mark(id: nat, wiped: B)

  function Next<B>(c: Crypto<B>, cfg: Config, b: KeyBundle<B>, op: Op<B>): KeyBundle<B> {
    match op
    case Replenish(draw) => Replenished(c, cfg, b, draw)
    case Rotate(private, time) => Rotated(c, b, private, time)
    case Mark(id, wiped) => Marked(b, id, wiped)
  }

  function After<B>(c: Crypto<B>, cfg: Config, b: KeyBundle<B>, ops: seq<Op<B>>): KeyBundle<B>
    decreases |ops|
  {
    if ops == [] then b else After(c, cfg, Next(c, cfg, b, ops[0]), ops[1..])
  }

  // ---- what every operation keeps ----

  ghost predicate Paired<B>(c: Crypto<B>, k: Prekey<B>) { !k.used ==> k.public == c.publicOf(k.private) }

  /** Ids ascend and lie below the next one; keys come in pairs; the signed prekey is signed. */
  ghost predicate Sound<B>(c: Crypto<B>, b: KeyBundle<B>) {
    && (forall i, j :: 0 <= i < j < |b.oneTime| ==> b.oneTime[i].id < b.oneTime[j].id)
    && (forall i :: 0 <= i < |b.oneTime| ==> b.oneTime[i].id < b.nextOneTime && Paired(c, b.oneTime[i]))
    && b.signed.public == c.publicOf(b.signed.private) && b.signed.signature == c.sign(b.signed.public, b.seed)
    && b.signed.id < b.nextSigned
  }

  lemma BatchOk<B>(c: Crypto<B>, first: nat, count: nat, draw: nat -> B)
    ensures |Batch(c, first, count, draw)| == count
    ensures forall i :: 0 <= i < count ==> Batch(c, first, count, draw)[i] == NewPrekey(c, first + i, draw(i))
  {
  }

  lemma GeneratedSound<B>(c: Crypto<B>, cfg: Config, seed: B, private: B, draw: nat -> B, time: int)
    ensures Sound(c, Generated(c, cfg, seed, private, draw, time))
  {
    var b := Generated(c, cfg, seed, private, draw, time);
    BatchOk(c, 1, cfg.initial, draw);
    assert forall i :: 0 <= i < |b.oneTime| ==> b.oneTime[i] == NewPrekey(c, 1 + i, draw(i));
  }

  lemma ReplenishedSound<B>(c: Crypto<B>, cfg: Config, b: KeyBundle<B>, draw: nat -> B)
    requires Sound(c, b)
    ensures Sound(c, Replenished(c, cfg, b, draw))
  {
    var v, n := Replenished(c, cfg, b, draw), |b.oneTime|;
    BatchOk(c, b.nextOneTime, Needed(cfg, b), draw);
    assert forall i :: 0 <= i < n ==> v.oneTime[i] == b.oneTime[i];
    assert forall i :: n <= i < |v.oneTime| ==> v.oneTime[i] == NewPrekey(c, b.nextOneTime + (i - n), draw(i - n));
  }

  lemma NextSound<B>(c: Crypto<B>, cfg: Config, b: KeyBundle<B>, op: Op<B>)
    requires Sound(c, b)
    ensures Sound(c, Next(c, cfg, b, op)) && Next(c, cfg, b, op).seed == b.seed
  {
    if op.Replenish? { ReplenishedSound(c, cfg, b, op.draw); }
  }

  lemma {:induction false} AfterSound<B>(c: Crypto<B>, cfg: Config, b: KeyBundle<B>, ops: seq<Op<B>>)
    requires Sound(c, b)
    ensures Sound(c, After(c, cfg, b, ops)) && After(c, cfg, b, ops).seed == b.seed
    decreases |ops|
  {
    if ops == [] {
    } else {
      NextSound(c, cfg, b, ops[0]);
      AfterSound(c, cfg, Next(c, cfg, b, ops[0]), ops[1..]);
    }
  }

  // ---- lookups by id ----

  lemma Found<B>(s: seq<Prekey<B>>, i: nat)
    requires i < |s| && forall j, k :: 0 <= j < k < |s| ==> s[j].id < s[k].id
    ensures Position(s, s[i].id) == i
  {
    var k := Position(s, s[i].id);
    assert k >= i;
  }

  predicate Rotates<B>(ops: seq<Op<B>>) { exists i :: 0 <= i < |ops| && ops[i].Rotate? }

  predicate Marks<B>(ops: seq<Op<B>>, id: nat) { exists i :: 0 <= i < |ops| && ops[i].Mark? && ops[i].id == id }

  /** A signed prekey replaced is never found again. */
  lemma {:induction false} SignedGone<B>(c: Crypto<B>, cfg: Config, b: KeyBundle<B>, ops: seq<Op<B>>, id: nat)
    requires Sound(c, b) && id < b.signed.id
    ensures id < After(c, cfg, b, ops).signed.id
    decreases |ops|
  {
    if ops == [] {
    } else {
      NextSound(c, cfg, b, ops[0]);
      SignedGone(c, cfg, Next(c, cfg, b, ops[0]), ops[1..], id);
    }
  }

  /** The signed prekey of now is found by its id exactly as long as there is no rotation. */
  lemma {:induction false} SignedExact<B>(c: Crypto<B>, cfg: Config, b: KeyBundle<B>, ops: seq<Op<B>>)
    requires Sound(c, b)
    ensures SignedPrivate(After(c, cfg, b, ops), b.signed.id) == if Rotates(ops) then None else Some(b.signed.private)
    decreases |ops|
  {
    if ops == [] {
    } else {
      var v, rest := Next(c, cfg, b, ops[0]), ops[1..];
      NextSound(c, cfg, b, ops[0]);
      if ops[0].Rotate? {
        SignedGone(c, cfg, v, rest, b.signed.id);
      } else {
        SignedExact(c, cfg, v, rest);
        assert Rotates(rest) ==> Rotates(ops);
        assert Rotates(ops) ==> Rotates(rest) by {
          if i :| 0 <= i < |ops| && ops[i].Rotate? { assert ops[i] == rest[i - 1]; }
        }
      }
    }
  }

  ghost predicate Known<B>(b: KeyBundle<B>, id: nat) { exists i :: 0 <= i < |b.oneTime| && b.oneTime[i].id == id }

  /** How one operation changes the lookup of a known one-time prekey. */
  lemma OneTimeStep<B>(c: Crypto<B>, cfg: Config, b: KeyBundle<B>, op: Op<B>, id: nat)
    requires Sound(c, b) && Known(b, id)
    ensures Known(Next(c, cfg, b, op), id)
    ensures OneTimePrivate(Next(c, cfg, b, op), id) == if op.Mark? && op.id == id then None else OneTimePrivate(b, id)
  {
    var v := Next(c, cfg, b, op);
    var i :| 0 <= i < |b.oneTime| && b.oneTime[i].id == id;
    assert Position(b.oneTime, id) == i by { Found(b.oneTime, i); }
    assert Position(v.oneTime, id) == i by {
      NextSound(c, cfg, b, op);
      Found(v.oneTime, i);
    }
  }

  /** A one-time prekey is found exactly until it is marked used, and never again after. */
  lemma {:induction false} OneTimeExact<B>(c: Crypto<B>, cfg: Config, b: KeyBundle<B>, ops: seq<Op<B>>, id: nat)
    requires Sound(c, b) && Known(b, id)
    ensures OneTimePrivate(After(c, cfg, b, ops), id) == if Marks(ops, id) then None else OneTimePrivate(b, id)
    decreases |ops|
  {
    if ops == [] {
    } else {
      var v, rest := Next(c, cfg, b, ops[0]), ops[1..];
      NextSound(c, cfg, b, ops[0]);
      OneTimeStep(c, cfg, b, ops[0], id);
      OneTimeExact(c, cfg, v, rest, id);
      assert Marks(rest, id) ==> Marks(ops, id) by {
        if i :| 0 <= i < |rest| && rest[i].Mark? && rest[i].id == id { assert ops[i + 1] == rest[i]; }
      }
      assert Marks(ops, id) ==> Marks(rest, id) || (ops[0].Mark? && ops[0].id == id) by {
        if i :| 0 <= i < |ops| && ops[i].Mark? && ops[i].id == id { assert i > 0 ==> ops[i] == rest[i - 1]; }
      }
    }
  }

  // ---- supply ----

  lemma {:induction false} UnusedJoin<B>(s: seq<Prekey<B>>, t: seq<Prekey<B>>)
    ensures Unused(s + t) == Unused(s) + Unused(t)
  {
    if s == [] {
      assert s + t == t;
    } else {
      assert (s + t)[1..] == s[1..] + t;
      UnusedJoin(s[1..], t);
    }
  }

  lemma {:induction false} AllUnused<B>(s: seq<Prekey<B>>)
    requires forall i :: 0 <= i < |s| ==> !s[i].used
    ensures Unused(s) == s
  {
    if s == [] {
    } else {
      AllUnused(s[1..]);
    }
  }

  /** After replenishing, the minimum is met exactly when it is at most the initial number or was met before. */
  lemma ReplenishExact<B>(c: Crypto<B>, cfg: Config, b: KeyBundle<B>, draw: nat -> B)
    ensures |Unused(Replenished(c, cfg, b, draw).oneTime)| == |Unused(b.oneTime)| + Needed(cfg, b)
    ensures |Unused(Replenished(c, cfg, b, draw).oneTime)| >= cfg.min <==>
      cfg.min <= cfg.initial || |Unused(b.oneTime)| >= cfg.min
  {
    var batch := Batch(c, b.nextOneTime, Needed(cfg, b), draw);
    UnusedJoin(b.oneTime, batch);
    BatchOk(c, b.nextOneTime, Needed(cfg, b), draw);
    AllUnused(batch);
  }

  // ---- agreement ----

  lemma {:induction false} UnusedMember<B>(s: seq<Prekey<B>>, i: nat)
    requires i < |Unused(s)|
    ensures !Unused(s)[i].used && exists k :: 0 <= k < |s| && s[k] == Unused(s)[i]
  {
    if !s[0].used && i == 0 {
      assert Unused(s)[i] == s[0];
    } else {
      var j := if s[0].used then i else i - 1;
      assert Unused(s)[i] == Unused(s[1..])[j];
      UnusedMember(s[1..], j);
      var k :| 0 <= k < |s[1..]| && s[1..][k] == Unused(s[1..])[j];
      assert s[k + 1] == Unused(s)[i];
    }
  }

  /** Every one-time prekey on offer belongs to an unused pair of the bundle. */
  lemma Offered<B>(c: Crypto<B>, b: KeyBundle<B>, time: int, i: nat)
    requires Sound(c, b) && i < |Published(c, b, time).offers|
    ensures var o := Published(c, b, time).offers[i];
      Known(b, o.id) && OneTimePrivate(b, o.id).Some? && o.public == c.publicOf(OneTimePrivate(b, o.id).value)
  {
    var o, u := Published(c, b, time).offers[i], Unused(b.oneTime)[i];
    UnusedMember(b.oneTime, i);
    var k :| 0 <= k < |b.oneTime| && b.oneTime[k] == u;
    Found(b.oneTime, k);
    assert Paired(c, b.oneTime[k]);
  }

  /** The private keys a message asks for, if the manager still has them. */
  function Keys<B>(b: KeyBundle<B>, msg: InitialMessage<B>): Option<(B, Option<B>)> {
    var signed := SignedPrivate(b, msg.signedId);
    if signed.None? then None
    else if msg.oneTimeId.None? then Some((signed.value, None))
    else
      var oneTime := OneTimePrivate(b, msg.oneTimeId.value);
      if oneTime.None? then None else Some((signed.value, oneTime))
  }

  /**
   A published bundle, used within a day, always lets the sender initiate. The receiver still has the
   keys exactly when it has not rotated the signed prekey nor used the chosen one-time prekey, and then
   both sides derive the same secret and the same associated data.
   */
  lemma Agree<B(!new)>(c: Crypto<B>, cfg: Config, b: KeyBundle<B>, time: int, seed: B, ephemeral: B, choice: nat,
                       now: int, ops: seq<Op<B>>)
    requires Lawful(c) && Sound(c, b) && 0 <= now - time <= DAY
    requires Published(c, b, time).offers == [] || choice < |Published(c, b, time).offers|
    ensures var initiated := Initiate(c, seed, Published(c, b, time), ephemeral, choice, now);
      initiated.Some? &&
      var (agreement, msg) := initiated.value;
      var keys := Keys(After(c, cfg, b, ops), msg);
      && (keys.Some? <==> !Rotates(ops) && (msg.oneTimeId.Some? ==> !Marks(ops, msg.oneTimeId.value)))
      && (keys.Some? ==> Complete(c, b.seed, keys.value.0, keys.value.1, msg) == agreement)
  {
    var p := Published(c, b, time);
    var (agreement, msg) := Initiate(c, seed, p, ephemeral, choice, now).value;
    KeysExact(c, cfg, b, time, choice, msg, ops);
    if Keys(After(c, cfg, b, ops), msg).Some? { SameAgreement(c, b, time, seed, ephemeral, choice, now); }
  }

  /** The same for every bundle a manager can come to have. */
  lemma AgreeAlways<B(!new)>(c: Crypto<B>, cfg: Config, own: B, private: B, draw: nat -> B, created: int,
                             earlier: seq<Op<B>>,
                             time: int, seed: B, ephemeral: B, choice: nat, now: int, ops: seq<Op<B>>)
    requires Lawful(c) && 0 <= now - time <= DAY
    requires var b := After(c, cfg, Generated(c, cfg, own, private, draw, created), earlier);
      var offers := Published(c, b, time).offers;
      offers == [] || choice < |offers|
    ensures var b := After(c, cfg, Generated(c, cfg, own, private, draw, created), earlier);
      var initiated := Initiate(c, seed, Published(c, b, time), ephemeral, choice, now);
      initiated.Some? &&
      var (agreement, msg) := initiated.value;
      var keys := Keys(After(c, cfg, b, ops), msg);
      && (keys.Some? <==> !Rotates(ops) && (msg.oneTimeId.Some? ==> !Marks(ops, msg.oneTimeId.value)))
      && (keys.Some? ==> Complete(c, own, keys.value.0, keys.value.1, msg) == agreement)
  {
    var generated := Generated(c, cfg, own, private, draw, created);
    GeneratedSound(c, cfg, own, private, draw, created);
    AfterSound(c, cfg, generated, earlier);
    Agree(c, cfg, After(c, cfg, generated, earlier), time, seed, ephemeral, choice, now, ops);
  }

  /** Which keys a message can ask for, and what the manager answers later. */
  lemma KeysExact<B>(c: Crypto<B>, cfg: Config, b: KeyBundle<B>, time: int, choice: nat, msg: InitialMessage<B>,
                     ops: seq<Op<B>>)
    requires Sound(c, b) && msg.signedId == b.signed.id
    requires var offers := Published(c, b, time).offers;
      if offers == [] then msg.oneTimeId == None else choice < |offers| && msg.oneTimeId == Some(offers[choice].id)
    ensures Keys(After(c, cfg, b, ops), msg) ==
      if Rotates(ops) || (msg.oneTimeId.Some? && Marks(ops, msg.oneTimeId.value)) then None else Keys(b, msg)
    ensures Keys(b, msg).Some?
  {
    SignedExact(c, cfg, b, ops);
    if msg.oneTimeId.Some? {
      Offered(c, b, time, choice);
      OneTimeExact(c, cfg, b, ops, msg.oneTimeId.value);
    }
  }

  /** With the keys it published, the receiver derives what the sender derived. */
  lemma SameAgreement<B(!new)>(c: Crypto<B>, b: KeyBundle<B>, time: int, seed: B, ephemeral: B, choice: nat, now: int)
    requires Lawful(c) && Sound(c, b) && 0 <= now - time <= DAY
    requires Published(c, b, time).offers == [] || choice < |Published(c, b, time).offers|
    ensures var (agreement, msg) := Initiate(c, seed, Published(c, b, time), ephemeral, choice, now).value;
      Keys(b, msg).Some? && Complete(c, b.seed, Keys(b, msg).value.0, Keys(b, msg).value.1, msg) == agreement
  {
    var p := Published(c, b, time);
    var dh := [c.agree(c.privateX(seed), p.signedPublic), c.agree(ephemeral, c.publicX(p.identity)),
        c.agree(ephemeral, p.signedPublic)];
    if p.offers == [] {
      assert dh + [] == dh;
    } else {
      Offered(c, b, time, choice);
      var last := c.agree(ephemeral, p.offers[choice].public);
      assert dh + [last] == [dh[0], dh[1], dh[2], last];
    }
  }

}
