/** `reference/double-ratchet.ts`: the same session updated in place. */
module DoubleRatchet {
  import opened Common
  import opened Ratchet
  import opened RatchetChains
  import opened RatchetRuns

  class DoubleRatchet<B(==,!new)> {
    const p: Primitives<B>
    const cfg: Config
    var rootKey: B
    var sendingChainKey: B
    var receivingChainKey: B
    var publicKey: B
    var privateKey: B
    var peerDHPublicKey: B
    var sendingChainLength: nat
    var receivingChainLength: nat
    var previousSendingChainLength: nat
    var skippedMessageKeys: seq<Entry<B>>
    ghost var sendStart: B                // where the sending chain began
    ghost var recvStart: B                // where the receiving chain began

    function State(): Session<B>
      reads this
    {
      Session(rootKey, sendingChainKey, receivingChainKey, publicKey, privateKey, peerDHPublicKey,
              sendingChainLength, receivingChainLength, previousSendingChainLength, skippedMessageKeys)
    }

    /** Both chain keys are where their counters say, and the store keeps its bounds. */
    ghost predicate Valid()
      reads this
    {
      Sound(p, cfg, State(), recvStart) && sendingChainKey == Chain(p, sendStart, sendingChainLength)
    }

    /** The sender stands at chain 1 of the schedule it shares with whoever holds the private key of `peer`. */
    constructor AsSender(p: Primitives<B>, cfg: Config, sharedSecret: B, peer: B, random: B)
      ensures this.p == p && this.cfg == cfg && Valid() && State() == InitSender(p, sharedSecret, peer, random)
      ensures forall k0 {:trigger p.pub(k0)} :: p.pub(k0) == peer ==> Synced(p, sharedSecret, [k0, random], State(), 1)
    {
      this.p, this.cfg := p, cfg;
      var dhOutput := p.dh(random, peer);
      rootKey, sendingChainKey := p.rootHalf(dhOutput, sharedSecret), p.chainHalf(dhOutput, sharedSecret);
      receivingChainKey := p.blank;
      publicKey, privateKey, peerDHPublicKey := p.pub(random), random, peer;
      sendingChainLength, receivingChainLength, previousSendingChainLength := 0, 0, 0;
      skippedMessageKeys := [];
      sendStart, recvStart := p.chainHalf(dhOutput, sharedSecret), p.blank;
      new;
      forall k0 | p.pub(k0) == peer ensures Synced(p, sharedSecret, [k0, random], State(), 1) {
        assert RootAt(p, sharedSecret, [k0, random], 0) == sharedSecret;
      }
    }

    /** The receiver stands at chain 0 of that schedule, whatever key the sender draws. */
    constructor AsReceiver(p: Primitives<B>, cfg: Config, sharedSecret: B, pub: B, priv: B)
      ensures this.p == p && this.cfg == cfg && Valid() && State() == InitReceiver(p, sharedSecret, pub, priv)
      ensures pub == p.pub(priv) ==> forall k1 {:trigger p.pub(k1)} :: Synced(p, sharedSecret, [priv, k1], State(), 0)
    {
      this.p, this.cfg := p, cfg;
      rootKey, sendingChainKey, receivingChainKey := sharedSecret, p.blank, p.blank;
      publicKey, privateKey, peerDHPublicKey := pub, priv, p.blank;
      sendingChainLength, receivingChainLength, previousSendingChainLength := 0, 0, 0;
      skippedMessageKeys := [];
      sendStart, recvStart := p.blank, p.blank;
      new;
      forall k1 | pub == p.pub(priv) ensures Synced(p, sharedSecret, [priv, k1], State(), 0) {}
    }

    /** The message is numbered by its place in the chain and opens under the key of that place. */
    method Encrypt(nonce: B, plaintext: B) returns (m: Message<B>)
      requires Valid()
      modifies this
      ensures Valid() && sendStart == old(sendStart) && recvStart == old(recvStart)
      ensures (State(), m) == Ratchet.Encrypt(p, old(State()), nonce, plaintext)
      ensures m.header.dh == publicKey && m.header.number == old(sendingChainLength)
      ensures Lawful(p) ==> p.unseal(KeyAt(p, sendStart, old(sendingChainLength)), m.nonce, m.body) == Some(plaintext)
    {
      var messageKey := p.messageKey(sendingChainKey);
      var ciphertext := p.seal(messageKey, nonce, plaintext);
      m := Message(Header(publicKey, sendingChainLength, previousSendingChainLength), nonce, ciphertext);
      sendingChainKey := p.nextKey(sendingChainKey);
      sendingChainLength := sendingChainLength + 1;
    }

    method PerformDHRatchet(dhPublicKey: B, random: B)
      requires Valid()
      modifies this
      ensures Valid() && recvStart == p.chainHalf(p.dh(old(privateKey), dhPublicKey), old(rootKey))
      ensures State() == Turn(p, old(State()), dhPublicKey, random)
    {
      ghost var turned := Turn(p, State(), dhPublicKey, random);
      TurnSound(p, cfg, State(), recvStart, dhPublicKey, random);
      previousSendingChainLength := sendingChainLength;
      peerDHPublicKey := dhPublicKey;
      var dhOutput, root := p.dh(privateKey, dhPublicKey), rootKey;
      rootKey := p.rootHalf(dhOutput, root);
      receivingChainKey := p.chainHalf(dhOutput, root);
      receivingChainLength := 0;
      var dhOutput2, root2 := p.dh(random, dhPublicKey), rootKey;
      rootKey := p.rootHalf(dhOutput2, root2);
      sendingChainKey := p.chainHalf(dhOutput2, root2);
      sendingChainLength := 0;
      publicKey := p.pub(random);
      privateKey := random;
      assert receivingChainKey == turned.recvKey && sendingChainKey == turned.sendKey && rootKey == turned.root;
      sendStart, recvStart := turned.sendKey, turned.recvKey;
      assert State() == turned;
    }

    /** The body of the loop that skips messages. */
    method StoreSkippedKey(dhPublicKey: B)
      requires Valid()
      modifies this
      ensures Valid() && sendStart == old(sendStart) && recvStart == old(recvStart)
      ensures State() == SkipOne(p, cfg, old(State()), dhPublicKey)
    {
      SkipOneSound(p, cfg, State(), dhPublicKey, recvStart);
      var skippedMessageKey := p.messageKey(receivingChainKey);
      if |skippedMessageKeys| >= cfg.maxSkipped {
        if skippedMessageKeys != [] { skippedMessageKeys := skippedMessageKeys[1..]; }
      }
      skippedMessageKeys := With(skippedMessageKeys, dhPublicKey, receivingChainLength, skippedMessageKey);
      receivingChainKey := p.nextKey(receivingChainKey);
      receivingChainLength := receivingChainLength + 1;
    }

    method GetMessageKey(dhPublicKey: B, messageNumber: int) returns (key: Option<B>)
      requires Valid()
      modifies this
      ensures Valid() && sendStart == old(sendStart) && recvStart == old(recvStart)
      ensures (State(), key) == MessageKey(p, cfg, old(State()), dhPublicKey, messageNumber)
    {
      MessageKeySound(p, cfg, State(), dhPublicKey, messageNumber, recvStart);
      var skippedKey := Lookup(skippedMessageKeys, dhPublicKey, messageNumber);
      if skippedKey.Some? {
        skippedMessageKeys := Without(skippedMessageKeys, dhPublicKey, messageNumber);
        return skippedKey;
      }
      if messageNumber - receivingChainLength > cfg.maxGap { return None; }
      while receivingChainLength < messageNumber
        invariant Valid() && sendStart == old(sendStart) && recvStart == old(recvStart)
        invariant SkipTo(p, cfg, State(), dhPublicKey, messageNumber) ==
          SkipTo(p, cfg, old(State()), dhPublicKey, messageNumber)
        decreases messageNumber - receivingChainLength
      {
        StoreSkippedKey(dhPublicKey);
      }
      key := Some(p.messageKey(receivingChainKey));
      receivingChainKey := p.nextKey(receivingChainKey);
      receivingChainLength := receivingChainLength + 1;
    }

    method Decrypt(m: Message<B>, random: B) returns (r: Outcome<B>)
      requires Valid()
      modifies this
      ensures Valid() && recvStart == StartAfter(p, old(State()), m, old(recvStart))
      ensures (State(), r) == Ratchet.Decrypt(p, cfg, old(State()), m, random)
    {
      var needsDHRatchet := m.header.dh != peerDHPublicKey;
      if needsDHRatchet {
        PerformDHRatchet(m.header.dh, random);
      }
      var messageKey := GetMessageKey(m.header.dh, m.header.number);
      if messageKey.None? { return GapTooLarge; }
      var plaintext := p.unseal(messageKey.value, m.nonce, m.body);
      return if plaintext.Some? then Plaintext(plaintext.value) else DecryptionFailed;
    }
  }

  /** Two objects made from the same secret: the first message of the sender is read by the receiver. */
  method FirstMessage<B(==,!new)>(p: Primitives<B>, cfg: Config, secret: B, k0: B, k1: B, k2: B, nonce: B, text: B)
    returns (r: Outcome<B>)
    requires Lawful(p) && KeysDistinct(p, [k0, k1]) && cfg.maxGap >= 0
    ensures r == Plaintext(text)
  {
    var alice := new DoubleRatchet.AsSender(p, cfg, secret, p.pub(k0), k1);
    var bob := new DoubleRatchet.AsReceiver(p, cfg, secret, p.pub(k0), k0);
    ghost var keys, sender := [k0, k1], alice.State();
    var m := alice.Encrypt(nonce, text);
    ReadNew(p, cfg, secret, keys, bob.State(), 0, Letter(true, 1, 0, text, m), k2);
    r := bob.Decrypt(m, k2);
  }
}
