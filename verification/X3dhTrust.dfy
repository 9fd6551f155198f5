/** Which bundles the initiating side trusts, what enters the shared secret, and which prekeys are on offer. */
module X3dhTrust {
  import opened Common
  import opened X3dh
  import opened X3dhRuns

  // ---- refusals ----

  /** A signature that verifies was made by the owner of the key, and tells its message. */
  ghost predicate Unforgeable<B(!new)>(c: Crypto<B>) {
    && (forall m, s, k {:trigger c.verify(m, s, c.identityOf(k))} :: c.verify(m, s, c.identityOf(k)) ==>
    s == c.sign(m, k))
    && (forall m, n, k {:trigger c.sign(m, k), c.sign(n, k)} :: c.sign(m, k) == c.sign(n, k) ==> m == n)
  }

  /** Whoever's bundle is accepted has signed exactly the prekey in it, and it is at most a day old. */
  lemma AcceptedIsSigned<B(!new)>(c: Crypto<B>, seed: B, p: PublicBundle<B>, owner: B, ephemeral: B, choice: nat,
                                  now: int)
    requires Unforgeable(c) && p.identity == c.identityOf(owner) && (p.offers == [] || choice < |p.offers|)
    requires Initiate(c, seed, p, ephemeral, choice, now).Some?
    ensures p.signature == c.sign(p.signedPublic, owner) && 0 <= now - p.time <= 86_400_000
  {
  }

  /**
   A published bundle is refused exactly when its age is negative or more than a day, or its signed
   prekey was replaced.
   */
  lemma RefusedExactly<B(!new)>(c: Crypto<B>, b: KeyBundle<B>, time: int, x: B, seed: B, ephemeral: B, choice: nat,
                                now: int)
    requires Lawful(c) && Unforgeable(c) && Sound(c, b)
    requires Published(c, b, time).offers == [] || choice < |Published(c, b, time).offers|
    ensures Initiate(c, seed, Published(c, b, time).(signedPublic := x), ephemeral, choice, now).None? <==>
      now - time < 0 || now - time > 86_400_000 || x != b.signed.public
  {
    assert c.verify(b.signed.public, c.sign(b.signed.public, b.seed), c.identityOf(b.seed));
  }

  // ---- what enters the secret ----

  /** The key derivation loses nothing of the agreements. */
  ghost predicate Deriving<B(!new)>(c: Crypto<B>) { forall x, y :: c.derive(x) == c.derive(y) ==> x == y }

  /**
   Two initiations with the same secret agreed on all three or four shared values: identity with signed
   prekey, ephemeral with identity, ephemeral with signed prekey, and ephemeral with one-time prekey.
   */
  lemma SecretCovers<B(!new)>(c: Crypto<B>, seed: B, p: PublicBundle<B>, e: B, i: nat, now: int,
                              other: B, q: PublicBundle<B>, f: B, j: nat, later: int)
    requires Deriving(c) && (p.offers == [] || i < |p.offers|) && (q.offers == [] || j < |q.offers|)
    requires var one, two := Initiate(c, seed, p, e, i, now), Initiate(c, other, q, f, j, later);
      one.Some? && two.Some? && one.value.0.secret == two.value.0.secret
    ensures c.agree(c.privateX(seed), p.signedPublic) == c.agree(c.privateX(other), q.signedPublic)
    ensures c.agree(e, c.publicX(p.identity)) == c.agree(f, c.publicX(q.identity))
    ensures c.agree(e, p.signedPublic) == c.agree(f, q.signedPublic)
    ensures p.offers == [] <==> q.offers == []
    ensures p.offers != [] ==> c.agree(e, p.offers[i].public) == c.agree(f, q.offers[j].public)
    ensures var dh := [c.agree(c.privateX(seed), p.signedPublic), c.agree(e, c.publicX(p.identity)),
                       c.agree(e, p.signedPublic)];
      Initiate(c, seed, p, e, i, now).value.0.secret ==
        c.derive(if p.offers == [] then dh else dh + [c.agree(e, p.offers[i].public)])
  {
    if p.offers != [] {
      var dh1, dh2, dh3, dh4 := c.agree(c.privateX(seed), p.signedPublic), c.agree(e, c.publicX(p.identity)),
                                c.agree(e, p.signedPublic), c.agree(e, p.offers[i].public);
      assert [dh1, dh2, dh3, dh4] == [dh1, dh2, dh3] + [dh4];
    }
  }

  /** The message names the sender, its ephemeral key and the prekeys used; both names are bound to the secret. */
  lemma MessageNames<B>(c: Crypto<B>, seed: B, p: PublicBundle<B>, e: B, i: nat, now: int)
    requires (p.offers == [] || i < |p.offers|) && Initiate(c, seed, p, e, i, now).Some?
    ensures var (agreement, msg) := Initiate(c, seed, p, e, i, now).value;
      && agreement.associated == (c.identityOf(seed), p.identity)
      && msg.identity == c.identityOf(seed) && msg.ephemeral == c.publicOf(e) && msg.signedId == p.signedId
      && (if p.offers == [] then msg.oneTimeId.None? else msg.oneTimeId == Some(p.offers[i].id))
  {
  }

  // ---- which keys a manager has ----

  /** A generated bundle has one private key for every draw, under the ids from 1 on, and the given signed prekey. */
  lemma GeneratedKeys<B>(c: Crypto<B>, cfg: Config, seed: B, private: B, draw: nat -> B, time: int, id: nat)
    ensures var b := Generated(c, cfg, seed, private, draw, time);
      && OneTimePrivate(b, id) == (if 1 <= id <= cfg.initial then Some(draw(id - 1)) else None)
      && SignedPrivate(b, id) == (if id == 1 then Some(private) else None) && b.signed.time == time
  {
    var b := Generated(c, cfg, seed, private, draw, time);
    BatchOk(c, 1, cfg.initial, draw);
    if 1 <= id <= cfg.initial {
      GeneratedSound(c, cfg, seed, private, draw, time);
      Found(b.oneTime, id - 1);
    }
  }

  /** Replenishing adds one private key for every draw under the next ids, and changes no other. */
  lemma ReplenishedKeys<B>(c: Crypto<B>, cfg: Config, b: KeyBundle<B>, draw: nat -> B, id: nat)
    requires Sound(c, b)
    ensures var v, next := Replenished(c, cfg, b, draw), b.nextOneTime;
      OneTimePrivate(v, id) ==
        if next <= id < next + Needed(cfg, b) then Some(draw(id - next)) else OneTimePrivate(b, id)
  {
    var v, more := Replenished(c, cfg, b, draw), Batch(c, b.nextOneTime, Needed(cfg, b), draw);
    assert Ordered(v.oneTime) by { ReplenishedSound(c, cfg, b, draw); }
    BatchOk(c, b.nextOneTime, Needed(cfg, b), draw);
    AddedPrivate(b, v, more, draw, id);
  }

  ghost predicate Ordered<B>(s: seq<Prekey<B>>) { forall i, j :: 0 <= i < j < |s| ==> s[i].id < s[j].id }

  lemma AddedPrivate<B>(b: KeyBundle<B>, v: KeyBundle<B>, more: seq<Prekey<B>>, draw: nat -> B, id: nat)
    requires v.oneTime == b.oneTime + more && Ordered(v.oneTime)
    requires forall i :: 0 <= i < |b.oneTime| ==> b.oneTime[i].id < b.nextOneTime
    requires forall i :: 0 <= i < |more| ==>
      more[i].id == b.nextOneTime + i && more[i].private == draw(i) && !more[i].used
    ensures OneTimePrivate(v, id) ==
      if b.nextOneTime <= id < b.nextOneTime + |more| then Some(draw(id - b.nextOneTime)) else OneTimePrivate(b, id)
  {
    AddedKeys(b.oneTime, more, b.nextOneTime, id);
  }

  lemma AddedKeys<B>(had: seq<Prekey<B>>, more: seq<Prekey<B>>, next: nat, id: nat)
    requires forall i, j :: 0 <= i < j < |had + more| ==> (had + more)[i].id < (had + more)[j].id
    requires forall i :: 0 <= i < |had| ==> had[i].id < next
    requires forall i :: 0 <= i < |more| ==> more[i].id == next + i
    ensures Position(had + more, id) ==
      if next <= id < next + |more| then |had| + id - next
      else if Position(had, id) < |had| then Position(had, id) else |had + more|
  {
    var all := had + more;
    if next <= id < next + |more| {
      assert all[|had| + id - next] == more[id - next];
      Found(all, |had| + id - next);
    } else if Position(had, id) < |had| {
      assert all[Position(had, id)] == had[Position(had, id)];
      Found(all, Position(had, id));
    } else {
      forall i | 0 <= i < |all| ensures all[i].id != id {
        if i < |had| { assert all[i] == had[i]; } else { assert all[i] == more[i - |had|]; }
      }
    }
  }

  /** Below the minimum the supply is brought up to the initial number, and otherwise left alone. */
  lemma SupplyExact<B>(c: Crypto<B>, cfg: Config, b: KeyBundle<B>, draw: nat -> B)
    ensures var had, has := |Unused(b.oneTime)|, |Unused(Replenished(c, cfg, b, draw).oneTime)|;
      has == if had < cfg.min && had < cfg.initial then cfg.initial else had
  {
    ReplenishExact(c, cfg, b, draw);
  }

  /** A used prekey is wiped where it stands, and no other is touched. */
  lemma MarkWipes<B>(c: Crypto<B>, b: KeyBundle<B>, id: nat, wiped: B, i: nat)
    requires Sound(c, b) && i < |b.oneTime|
    ensures var v := Marked(b, id, wiped);
      && |v.oneTime| == |b.oneTime|
      && (b.oneTime[i].id != id || b.oneTime[i].used ==> v.oneTime[i] == b.oneTime[i])
      && (b.oneTime[i].id == id ==> v.oneTime[i].used && v.oneTime[i].id == id)
      && (b.oneTime[i].id == id && !b.oneTime[i].used ==> v.oneTime[i].private == wiped)
  {
    Found(b.oneTime, i);
  }

  /** How often the signed prekey was replaced. */
  function Rotations<B>(ops: seq<Op<B>>): nat {
    if ops == [] then 0 else (if ops[0].Rotate? then 1 else 0) + Rotations(ops[1..])
  }

  /** The one-time prekeys are numbered 1, 2, 3 and so on without a gap, and the next number is free. */
  ghost predicate Numbered<B>(b: KeyBundle<B>) {
    b.nextOneTime == |b.oneTime| + 1 && forall i :: 0 <= i < |b.oneTime| ==> b.oneTime[i].id == i + 1
  }

  lemma {:induction false} NumberedAfter<B>(c: Crypto<B>, cfg: Config, b: KeyBundle<B>, ops: seq<Op<B>>)
    requires Numbered(b) && b.nextSigned == b.signed.id + 1
    ensures var v := After(c, cfg, b, ops);
      Numbered(v) && v.signed.id == b.signed.id + Rotations(ops) && v.nextSigned == v.signed.id + 1
    decreases |ops|
  {
    if ops == [] {
    } else {
      if ops[0].Replenish? { BatchOk(c, b.nextOneTime, Needed(cfg, b), ops[0].draw); }
      NumberedAfter(c, cfg, Next(c, cfg, b, ops[0]), ops[1..]);
    }
  }

  /**
   Whatever happens to a generated bundle, no id is skipped or used again, and the signed one counts the
   rotations.
   */
  lemma IdsCount<B>(c: Crypto<B>, cfg: Config, seed: B, private: B, draw: nat -> B, time: int, ops: seq<Op<B>>)
    ensures var b := After(c, cfg, Generated(c, cfg, seed, private, draw, time), ops);
      Numbered(b) && b.signed.id == 1 + Rotations(ops)
  {
    BatchOk(c, 1, cfg.initial, draw);
    NumberedAfter(c, cfg, Generated(c, cfg, seed, private, draw, time), ops);
  }

  // ---- which prekeys are on offer ----

  lemma {:induction false} UnusedOrdered<B>(s: seq<Prekey<B>>)
    requires forall i, j :: 0 <= i < j < |s| ==> s[i].id < s[j].id
    ensures forall i, j :: 0 <= i < j < |Unused(s)| ==> Unused(s)[i].id < Unused(s)[j].id
  {
    if s == [] {
    } else {
      UnusedOrdered(s[1..]);
      var rest := Unused(s[1..]);
      forall i | 0 <= i < |rest| ensures s[0].id < rest[i].id {
        UnusedMember(s[1..], i);
        var k :| 0 <= k < |s[1..]| && s[1..][k] == rest[i];
        assert s[k + 1] == rest[i];
      }
    }
  }

  /**
   The offers are in the order of their ids. A prekey whose private key is there is offered exactly when
   fewer than twenty such prekeys come before it.
   */
  lemma OfferedExactly<B>(c: Crypto<B>, b: KeyBundle<B>, time: int, k: nat)
    requires Sound(c, b) && k < |b.oneTime| && !b.oneTime[k].used
    ensures var offers, key := Published(c, b, time).offers, b.oneTime[k];
      && |offers| <= 20 && (forall i, j :: 0 <= i < j < |offers| ==> offers[i].id < offers[j].id)
      && (Offer(key.id, key.public) in offers <==> |Unused(b.oneTime[..k])| < 20)
  {
    UnusedOrdered(b.oneTime);
    UnusedAt(b.oneTime, k);
    OffersExactly(Unused(b.oneTime), |Unused(b.oneTime[..k])|);
  }

  /** An unused prekey stands in the list of unused ones behind those before it. */
  lemma UnusedAt<B>(s: seq<Prekey<B>>, k: nat)
    requires k < |s| && !s[k].used
    ensures |Unused(s[..k])| < |Unused(s)| && Unused(s)[|Unused(s[..k])|] == s[k]
  {
    var rest := [s[k]] + s[k + 1..];
    assert s == s[..k] + rest;
    UnusedJoin(s[..k], rest);
    assert Unused(rest)[0] == s[k];
  }

  lemma OffersExactly<B>(unused: seq<Prekey<B>>, n: nat)
    requires n < |unused| && forall i, j :: 0 <= i < j < |unused| ==> unused[i].id < unused[j].id
    ensures var offers := Offers(if |unused| > 20 then unused[..20] else unused);
      Offer(unused[n].id, unused[n].public) in offers <==> n < 20
  {
    var offers := Offers(if |unused| > 20 then unused[..20] else unused);
    if n < 20 {
      assert offers[n] == Offer(unused[n].id, unused[n].public);
    } else {
      forall i | 0 <= i < |offers| ensures offers[i].id != unused[n].id { assert offers[i].id == unused[i].id; }
    }
  }
}
