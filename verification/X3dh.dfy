/**
 X3DH key agreement (sections 3.3 and 3.4 of the Signal X3DH specification) and the prekeys behind it.
 Cryptography is an arbitrary family of functions with the laws it promises.
 */
module X3dh {
  import opened Common

  datatype Crypto<!B> = Crypto(
    publicOf: B -> B,              // X25519 public key of a private key
    agree: (B, B) -> B,            // X25519 of a private and a public key
    identityOf: B -> B,            // Ed25519 public key of a seed
    privateX: B -> B,              // X25519 private key of a seed
    publicX: B -> B,               // X25519 public key of an Ed25519 public key
    sign: (B, B) -> B,             // signature of a message under a seed
    verify: (B, B, B) -> bool,     // message, signature, Ed25519 public key
    derive: seq<B> -> B)           // HKDF of the concatenated agreements

  ghost predicate Lawful<B(!new)>(c: Crypto<B>) {
    && (forall a, b :: c.agree(a, c.publicOf(b)) == c.agree(b, c.publicOf(a)))
    && (forall s :: c.publicX(c.identityOf(s)) == c.publicOf(c.privateX(s)))
    && (forall m, s :: c.verify(m, c.sign(m, s), c.identityOf(s)))
  }

  datatype Config = Config(initial: nat, min: nat)
  const DAY: int := 24 * 60 * 60 * 1000

  datatype Prekey<B> = Prekey(id: nat, private: B, public: B, used: bool)
  datatype SignedPrekey<B> = SignedPrekey(id: nat, private: B, public: B, signature: B, time: int)
  datatype KeyBundle<B> = KeyBundle(seed: B, signed: SignedPrekey<B>, oneTime: seq<Prekey<B>>, nextOneTime: nat,
                                    nextSigned: nat)

  datatype Offer<B> = Offer(id: nat, public: B)
  datatype PublicBundle<B> = PublicBundle(identity: B, signedPublic: B, signedId: nat, signature: B,
                                          offers: seq<Offer<B>>, time: int)
  datatype InitialMessage<B> = InitialMessage(identity: B, ephemeral: B, signedId: nat, oneTimeId: Option<nat>)
  datatype Agreement<B> = Agreement(secret: B, associated: (B, B))

  // ---- the manager's key bundle ----

  function NewPrekey<B>(c: Crypto<B>, id: nat, private: B): Prekey<B>
  {
    Prekey(id, private, c.publicOf(private), false)
  }

  function NewSigned<B>(c: Crypto<B>, seed: B, id: nat, private: B, time: int): SignedPrekey<B> {
    SignedPrekey(id, private, c.publicOf(private), c.sign(c.publicOf(private), seed), time)
  }

  /** `count` fresh prekeys with consecutive ids. */
  function Batch<B>(c: Crypto<B>, first: nat, count: nat, draw: nat -> B): seq<Prekey<B>> {
    seq(count, i requires 0 <= i < count => NewPrekey(c, first + i, draw(i)))
  }

  function Generated<B>(c: Crypto<B>, cfg: Config, seed: B, private: B, draw: nat -> B, time: int): KeyBundle<B> {
    KeyBundle(seed, NewSigned(c, seed, 1, private, time), Batch(c, 1, cfg.initial, draw), cfg.initial + 1, 2)
  }

  function Unused<B>(s: seq<Prekey<B>>): seq<Prekey<B>> {
    if s == [] then [] else (if s[0].used then [] else [s[0]]) + Unused(s[1..])
  }

  function Offers<B>(s: seq<Prekey<B>>): seq<Offer<B>> {
    seq(|s|, i requires 0 <= i < |s| => Offer(s[i].id, s[i].public))
  }

  function Published<B>(c: Crypto<B>, b: KeyBundle<B>, now: int): PublicBundle<B> {
    var unused := Unused(b.oneTime);
    PublicBundle(c.identityOf(b.seed), b.signed.public, b.signed.id, b.signed.signature,
                 Offers(if |unused| > 20 then unused[..20] else unused), now)
  }

  function Needed<B>(cfg: Config, b: KeyBundle<B>): nat {
    var count := |Unused(b.oneTime)|;
    if count >= cfg.min || cfg.initial <= count then 0 else cfg.initial - count
  }

  function Replenished<B>(c: Crypto<B>, cfg: Config, b: KeyBundle<B>, draw: nat -> B): KeyBundle<B> {
    var needed := Needed(cfg, b);
    b.(oneTime := b.oneTime + Batch(c, b.nextOneTime, needed, draw), nextOneTime := b.nextOneTime + needed)
  }

  function Rotated<B>(c: Crypto<B>, b: KeyBundle<B>, private: B, time: int): KeyBundle<B> {
    b.(signed := NewSigned(c, b.seed, b.nextSigned, private, time), nextSigned := b.nextSigned + 1)
  }

  /** The position of the first prekey with the given id, or the length. */
  function Position<B>(s: seq<Prekey<B>>, id: nat): (k: nat)
    ensures k <= |s| && (k < |s| ==> s[k].id == id) && forall i :: 0 <= i < k ==> s[i].id != id
  {
    if s == [] then 0 else if s[0].id == id then 0 else 1 + Position(s[1..], id)
  }

  function Marked<B>(b: KeyBundle<B>, id: nat, wiped: B): KeyBundle<B> {
    var k := Position(b.oneTime, id);
    if k < |b.oneTime| && !b.oneTime[k].used
    then b.(oneTime := b.oneTime[k := b.oneTime[k].(used := true, private := wiped)]) else b
  }

  function OneTimePrivate<B>(b: KeyBundle<B>, id: nat): Option<B> {
    var k := Position(b.oneTime, id);
    if k < |b.oneTime| && !b.oneTime[k].used then Some(b.oneTime[k].private) else None
  }

  function SignedPrivate<B>(b: KeyBundle<B>, id: nat): Option<B> {
    if b.signed.id == id then Some(b.signed.private) else None
  }

  // ---- the two sides ----

  predicate Verified<B>(c: Crypto<B>, p: PublicBundle<B>, now: int) {
    0 <= now - p.time <= DAY && c.verify(p.signedPublic, p.signature, p.identity)
  }

  /** The initiating side; `choice` stands for the random index into a list that is not empty. */
  function Initiate<B>(c: Crypto<B>, seed: B, p: PublicBundle<B>, ephemeral: B, choice: nat, now: int)
    : Option<(Agreement<B>, InitialMessage<B>)>
    requires p.offers == [] || choice < |p.offers|
  {
    if !Verified(c, p, now) then None
    else
      var dh1, dh2, dh3 := c.agree(c.privateX(seed), p.signedPublic), c.agree(ephemeral, c.publicX(p.identity)),
                           c.agree(ephemeral, p.signedPublic);
      var associated := (c.identityOf(seed), p.identity);
      if p.offers == [] then
        Some((Agreement(c.derive([dh1, dh2, dh3]), associated),
              InitialMessage(c.identityOf(seed), c.publicOf(ephemeral), p.signedId, None)))
      else
        Some((Agreement(c.derive([dh1, dh2, dh3, c.agree(ephemeral, p.offers[choice].public)]), associated),
              InitialMessage(c.identityOf(seed), c.publicOf(ephemeral), p.signedId, Some(p.offers[choice].id))))
  }

  /** The completing side, with the private keys looked up by the ids of the message. */
  function Complete<B>(c: Crypto<B>, seed: B, signedPrivate: B, oneTimePrivate: Option<B>,
                       msg: InitialMessage<B>): Agreement<B>
  {
    var dh1, dh2, dh3 := c.agree(signedPrivate, c.publicX(msg.identity)), c.agree(c.privateX(seed), msg.ephemeral),
                         c.agree(signedPrivate, msg.ephemeral);
    Agreement(c.derive([dh1, dh2, dh3]
      + (if oneTimePrivate.Some? then [c.agree(oneTimePrivate.value, msg.ephemeral)] else [])),
              (msg.identity, c.identityOf(seed)))
  }
}
