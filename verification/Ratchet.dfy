/**
 One side of a Double Ratchet session, on values. Hashing, key agreement and encryption are given
 as functions, so every statement holds for whatever library supplies them.
 */
module Ratchet {
  import opened Common

  datatype Primitives<!B> = Primitives(
    blank: B,                             // thirty-two zero bytes
    pub: B -> B,                          // the public key of a private key
    dh: (B, B) -> B,                      // a private key with a public key
    rootHalf: (B, B) -> B,                // the first half of the root KDF, of a DH output and a root key
    chainHalf: (B, B) -> B,               // and its second half
    messageKey: B -> B,                   // the message key of a chain key
    nextKey: B -> B,                      // the chain key after a chain key
    seal: (B, B, B) -> B,                 // encryption with a key and a nonce
    unseal: (B, B, B) -> Option<B>)       // authenticated decryption

  datatype Config = Config(maxSkipped: int, maxGap: int)

  datatype Entry<+B> = Entry(dh: B, number: int, key: B)

  datatype Session<+B> = Session(
    root: B, sendKey: B, recvKey: B, pubKey: B, privKey: B, peer: B,
    sent: nat, received: nat, previous: nat, store: seq<Entry<B>>)

  datatype Header<+B> = Header(dh: B, number: int, previous: int)
  datatype Message<+B> = Message(header: Header<B>, nonce: B, body: B)
  datatype Outcome<+B> = Plaintext(text: B) | GapTooLarge | DecryptionFailed

  // ---- the skipped keys, in order of insertion ----

  function Lookup<B(==)>(store: seq<Entry<B>>, dh: B, number: int): Option<B> {
    if store == [] then None
    else if store[0].dh == dh && store[0].number == number then Some(store[0].key)
    else Lookup(store[1..], dh, number)
  }

  function Without<B(==)>(store: seq<Entry<B>>, dh: B, number: int): seq<Entry<B>> {
    if store == [] then []
    else if store[0].dh == dh && store[0].number == number then store[1..]
    else [store[0]] + Without(store[1..], dh, number)
  }

  /** Setting a key that is present keeps its place; a new one goes last. */
  function With<B(==)>(store: seq<Entry<B>>, dh: B, number: int, key: B): seq<Entry<B>> {
    if store == [] then [Entry(dh, number, key)]
    else if store[0].dh == dh && store[0].number == number then [Entry(dh, number, key)] + store[1..]
    else [store[0]] + With(store[1..], dh, number, key)
  }

  /** Room for one more: at the limit the oldest entry goes. */
  function Trimmed<B>(cfg: Config, store: seq<Entry<B>>): seq<Entry<B>> {
    if |store| >= cfg.maxSkipped && store != [] then store[1..] else store
  }

  // ---- a session ----

  function InitSender<B>(p: Primitives<B>, secret: B, peer: B, priv: B): Session<B> {
    var shared := p.dh(priv, peer);
    Session(p.rootHalf(shared, secret), p.chainHalf(shared, secret), p.blank, p.pub(priv), priv, peer, 0, 0, 0, [])
  }

  function InitReceiver<B>(p: Primitives<B>, secret: B, pub: B, priv: B): Session<B> {
    Session(secret, p.blank, p.blank, pub, priv, p.blank, 0, 0, 0, [])
  }

  function Encrypt<B>(p: Primitives<B>, s: Session<B>, nonce: B, text: B): (Session<B>, Message<B>) {
    (s.(sendKey := p.nextKey(s.sendKey), sent := s.sent + 1),
     Message(Header(s.pubKey, s.sent, s.previous), nonce, p.seal(p.messageKey(s.sendKey), nonce, text)))
  }

  /** The DH ratchet step towards a new public key of the peer. */
  function Turn<B>(p: Primitives<B>, s: Session<B>, peer: B, priv: B): Session<B> {
    var inward := p.dh(s.privKey, peer);
    var root := p.rootHalf(inward, s.root);
    var outward := p.dh(priv, peer);
    Session(p.rootHalf(outward, root), p.chainHalf(outward, root), p.chainHalf(inward, s.root),
            p.pub(priv), priv, peer, 0, 0, s.sent, s.store)
  }

  /** Store the key of the next message of the receiving chain and move past it. */
  function SkipOne<B(==)>(p: Primitives<B>, cfg: Config, s: Session<B>, dh: B): Session<B> {
    s.(store := With(Trimmed(cfg, s.store), dh, s.received, p.messageKey(s.recvKey)),
       recvKey := p.nextKey(s.recvKey), received := s.received + 1)
  }

  function SkipTo<B(==)>(p: Primitives<B>, cfg: Config, s: Session<B>, dh: B, number: int): Session<B>
    decreases number - s.received
  {
    if s.received < number then SkipTo(p, cfg, SkipOne(p, cfg, s, dh), dh, number) else s
  }

  /** The message key for a header, and nothing when its number is too far ahead. */
  function MessageKey<B(==)>(p: Primitives<B>, cfg: Config, s: Session<B>, dh: B, number: int): (Session<B>, Option<B>)
  {
    match Lookup(s.store, dh, number)
    case Some(key) => (s.(store := Without(s.store, dh, number)), Some(key))
    case None =>
      if number - s.received > cfg.maxGap then (s, None)
      else
        var t := SkipTo(p, cfg, s, dh, number);
        (t.(recvKey := p.nextKey(t.recvKey), received := t.received + 1), Some(p.messageKey(t.recvKey)))
  }

  /** `priv` is the private key drawn if the message calls for a DH ratchet step. */
  function Decrypt<B(==)>(p: Primitives<B>, cfg: Config, s: Session<B>, m: Message<B>,
                          priv: B): (Session<B>, Outcome<B>)
  {
    var turned := if m.header.dh == s.peer then s else Turn(p, s, m.header.dh, priv);
    var (t, key) := MessageKey(p, cfg, turned, m.header.dh, m.header.number);
    match key
    case None => (t, GapTooLarge)
    case Some(k) =>
      match p.unseal(k, m.nonce, m.body)
      case Some(text) => (t, Plaintext(text))
      case None => (t, DecryptionFailed)
  }
}
