/**
 Messages that arrive after their receiver has moved on to a later chain. The session looks at the
 DH key before it looks at its stored keys, so such a message makes it draw a new key and leave the
 schedule it shares with its peer.
 */
module RatchetStale {
  import opened Common
  import opened Ratchet
  import opened RatchetChains
  import opened RatchetRuns

  /** Key agreement and the root KDF do not collide. */
  ghost predicate Free<B(!new)>(p: Primitives<B>) {
    && (forall a: B, b: B, c: B, d: B {:trigger p.dh(a, p.pub(b)), p.dh(c, p.pub(d))} ::
          p.dh(a, p.pub(b)) == p.dh(c, p.pub(d)) ==> p.pub(a) == p.pub(c) || p.pub(a) == p.pub(d))
    && (forall x: B, r: B, y: B, q: B {:trigger p.chainHalf(x, r), p.chainHalf(y, q)} ::
          p.chainHalf(x, r) == p.chainHalf(y, q) ==> x == y)
  }

  /** Where a session starts reading the chain announced by dh. */
  ghost predicate Follows<B(!new)>(p: Primitives<B>, s: Session<B>, dh: B, start: B) {
    if s.peer == dh then s.recvKey == Chain(p, start, s.received)
    else forall priv :: Turn(p, s, dh, priv).recvKey == start
  }

  /** After a DH ratchet step with a fresh key, no chain of the schedule but the one just met can be read. */
  lemma TurnForgets<B(!new)>(p: Primitives<B>, secret: B, keys: seq<B>, s: Session<B>, peer: B, priv: B, c: nat)
    requires Free(p) && FreshKey(p, keys, priv) && 0 < c < |keys| && s.privKey == priv && s.peer == peer
    requires peer != p.pub(keys[c])
    ensures !Follows(p, s, p.pub(keys[c]), StartAt(p, secret, keys, c))
  {
    var x, y := p.dh(priv, p.pub(keys[c])), p.dh(keys[c], p.pub(keys[c - 1]));
    assert x != y;
    assert Turn(p, s, p.pub(keys[c]), priv).recvKey == p.chainHalf(x, s.root);
    assert StartAt(p, secret, keys, c) == p.chainHalf(y, RootAt(p, secret, keys, c - 1));
  }

  lemma DecryptKeys<B(!new)>(p: Primitives<B>, cfg: Config, s: Session<B>, m: Message<B>, priv: B)
    requires m.header.dh != s.peer
    ensures var t := Decrypt(p, cfg, s, m, priv).0; t.privKey == priv && t.peer == m.header.dh
  {
    SkipKeepsKeys(p, cfg, Turn(p, s, m.header.dh, priv), m.header.dh, m.header.number);
  }

  /** A letter from a chain the receiver has left cuts it off from every other chain. */
  lemma StaleCutsOff<B(!new)>(p: Primitives<B>, cfg: Config, secret: B, keys: seq<B>, s: Session<B>, e: nat,
                              l: Letter<B>, priv: B, c: nat)
    requires Free(p) && KeysDistinct(p, keys) && FreshKey(p, keys, priv)
    requires e < |keys| && Synced(p, secret, keys, s, e) && Genuine(p, secret, keys, l) && l.epoch + 1 < e
    requires 0 < c < |keys| && c != l.epoch
    ensures !Follows(p, Decrypt(p, cfg, s, l.message, priv).0, p.pub(keys[c]), StartAt(p, secret, keys, c))
  {
    assert l.message.header.dh == p.pub(keys[l.epoch]) && s.peer == p.pub(keys[e - 1]);
    DecryptKeys(p, cfg, s, l.message, priv);
    TurnForgets(p, secret, keys, Decrypt(p, cfg, s, l.message, priv).0, l.message.header.dh, priv, c);
  }

  /** That letter itself is read all the same if its key had been stored. */
  lemma StaleMayRead<B(!new)>(p: Primitives<B>, cfg: Config, secret: B, keys: seq<B>, s: Session<B>, l: Letter<B>,
                              priv: B)
    requires Lawful(p) && Genuine(p, secret, keys, l)
    requires Lookup(s.store, l.message.header.dh, l.number) ==
      Some(KeyAt(p, StartAt(p, secret, keys, l.epoch), l.number))
    ensures Decrypt(p, cfg, s, l.message, priv).1 == Plaintext(l.text)
  {}

  /** A synced session follows the chain it is on and the next one of its peer. */
  lemma SyncedFollows<B(!new)>(p: Primitives<B>, cfg: Config, secret: B, keys: seq<B>, s: Session<B>, e: nat, c: nat)
    requires Lawful(p) && KeysDistinct(p, keys) && e < |keys|
    requires Synced(p, secret, keys, s, e) && Receiving(p, cfg, secret, keys, s, e)
    requires c < |keys| && (c + 1 == e || c == e + 1)
    ensures Follows(p, s, p.pub(keys[c]), StartAt(p, secret, keys, c))
  {
    if c == e + 1 {
      assert s.peer != p.pub(keys[c]);
      assert Shared(p, keys, c) == p.dh(keys[e], p.pub(keys[c]));
    }
  }

  /** After any letter of the chain it is on, a replay or one too far ahead included, a session still follows. */
  lemma SameFollows<B(!new)>(p: Primitives<B>, cfg: Config, secret: B, keys: seq<B>, s: Session<B>, e: nat,
                             l: Letter<B>, priv: B, c: nat)
    requires Lawful(p) && KeysDistinct(p, keys) && 0 < e < |keys|
    requires Synced(p, secret, keys, s, e) && Receiving(p, cfg, secret, keys, s, e) && Genuine(p, secret, keys, l)
    requires l.epoch == e - 1 && c < |keys| && (c + 1 == e || c == e + 1)
    ensures Follows(p, Decrypt(p, cfg, s, l.message, priv).0, p.pub(keys[c]), StartAt(p, secret, keys, c))
  {
    KeepSame(p, cfg, secret, keys, s, e, l, priv);
    SyncedFollows(p, cfg, secret, keys, Decrypt(p, cfg, s, l.message, priv).0, e, c);
  }

  /** So it does after the first letter it sees of its peer's next chain, whatever its number. */
  lemma NewFollows<B(!new)>(p: Primitives<B>, cfg: Config, secret: B, keys: seq<B>, s: Session<B>, e: nat,
                            l: Letter<B>, priv: B)
    requires Lawful(p) && KeysDistinct(p, keys) && FreshKey(p, keys, priv) && e + 2 == |keys|
    requires Synced(p, secret, keys, s, e) && Receiving(p, cfg, secret, keys, s, e) && Genuine(p, secret, keys, l)
    requires l.epoch == e + 1
    ensures Follows(p, Decrypt(p, cfg, s, l.message, priv).0, p.pub(keys[e + 1]), StartAt(p, secret, keys, e + 1))
  {
    KeepNew(p, cfg, secret, keys, s, e, l, priv);
    ScheduleGrows(p, secret, keys, priv, e + 1);
    KeysGrow(p, keys, priv);
    SyncedFollows(p, cfg, secret, keys + [priv], Decrypt(p, cfg, s, l.message, priv).0, e + 2, e + 1);
    assert (keys + [priv])[e + 1] == keys[e + 1];
  }

  /**
   A party sending along chain e reads a genuine letter of its peer, who now sends along chain c. The
   party can still read what its peer sends next exactly when the letter is not from a chain the party
   has left, whether or not the letter itself can be read.
   */
  lemma FollowsIff<B(!new)>(p: Primitives<B>, cfg: Config, secret: B, keys: seq<B>, s: Session<B>, e: nat,
                            l: Letter<B>, priv: B, c: nat)
    requires Lawful(p) && Free(p) && KeysDistinct(p, keys) && FreshKey(p, keys, priv) && |keys| <= e + 2 && e < |keys|
    requires Synced(p, secret, keys, s, e) && Receiving(p, cfg, secret, keys, s, e) && Genuine(p, secret, keys, l)
    requires l.epoch != e && l.epoch <= c && 0 < c < |keys| && (c + 1 == e || c == e + 1)
    ensures Follows(p, Decrypt(p, cfg, s, l.message, priv).0, p.pub(keys[c]), StartAt(p, secret, keys, c)) <==>
      l.epoch + 1 >= e
  {
    if l.epoch + 1 < e {
      StaleCutsOff(p, cfg, secret, keys, s, e, l, priv, c);
    } else if l.epoch + 1 == e {
      SameFollows(p, cfg, secret, keys, s, e, l, priv, c);
    } else {
      NewFollows(p, cfg, secret, keys, s, e, l, priv);
    }
  }
}
