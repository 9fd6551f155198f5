/** The key manager as an object that updates its bundle in place. */
module KeyManagers {
  import opened Common
  import opened X3dh
  import opened X3dhRuns

  class KeyManager<B(0)> {
    const c: Crypto<B>
    const cfg: Config
    var bundle: Option<KeyBundle<B>>

    /** What every operation keeps of a bundle. */
    ghost predicate Valid()
      reads this
    {
      bundle.Some? ==> Sound(c, bundle.value)
    }

    constructor (c: Crypto<B>, cfg: Config)
      ensures Valid() && this.c == c && this.cfg == cfg && bundle == None
    {
      this.c, this.cfg, bundle := c, cfg, None;
    }

    method GenerateKeyBundle(seed: B, private: B, draw: nat -> B, time: int)
      modifies this
      ensures Valid() && bundle == Some(Generated(c, cfg, seed, private, draw, time))
    {
      var keys := [];
      for i := 0 to cfg.initial
        invariant keys == Batch(c, 1, i, draw)
      {
        keys := keys + [NewPrekey(c, i + 1, draw(i))];
      }
      bundle := Some(KeyBundle(seed, NewSigned(c, seed, 1, private, time), keys, cfg.initial + 1, 2));
      GeneratedSound(c, cfg, seed, private, draw, time);
    }

    method ReplenishOneTimePrekeys(draw: nat -> B) returns (generated: nat)
      requires Valid()
      modifies this
      ensures Valid()
      ensures old(bundle).None? ==> bundle == None && generated == 0
      ensures old(bundle).Some? ==> generated == Needed(cfg, old(bundle).value)
      ensures old(bundle).Some? ==> bundle == Some(Replenished(c, cfg, old(bundle).value, draw))
    {
      generated := 0;
      if bundle.None? { return; }
      var b := bundle.value;
      var needed := Needed(cfg, b);
      var keys := b.oneTime;
      assert b.oneTime + Batch(c, b.nextOneTime, 0, draw) == b.oneTime;
      while generated < needed
        invariant generated <= needed && keys == b.oneTime + Batch(c, b.nextOneTime, generated, draw)
      {
        keys := keys + [NewPrekey(c, b.nextOneTime + generated, draw(generated))];
        generated := generated + 1;
        assert keys == b.oneTime + Batch(c, b.nextOneTime, generated, draw);
      }
      bundle := Some(b.(oneTime := keys, nextOneTime := b.nextOneTime + generated));
      ReplenishedSound(c, cfg, b, draw);
    }

    /** From now on only the new signed prekey is found, under an id never used before; one-time prekeys stay. */
    method RotateSignedPrekey(private: B, time: int)
      requires Valid()
      modifies this
      ensures Valid() && bundle == if old(bundle).None? then None
        else Some(Rotated(c, old(bundle).value, private, time))
      ensures bundle.Some? ==>
        var was, b := old(bundle).value, bundle.value;
        && was.signed.id < b.signed.id
        && (forall id :: SignedPrivate(b, id) == if id == b.signed.id then Some(private) else None)
        && (forall id :: OneTimePrivate(b, id) == OneTimePrivate(was, id))
    {
      if bundle.Some? {
        var b := bundle.value;
        bundle := Some(b.(signed := NewSigned(c, b.seed, b.nextSigned, private, time), nextSigned := b.nextSigned + 1));
      }
    }

    /** True exactly when the private key was still there; from then on it never is. */
    method MarkOneTimePrekeyUsed(id: nat, wiped: B) returns (ok: bool)
      requires Valid()
      modifies this
      ensures Valid() && bundle == if old(bundle).None? then None else Some(Marked(old(bundle).value, id, wiped))
      ensures ok <==> old(bundle.Some? && OneTimePrivate(bundle.value, id).Some?)
      ensures bundle.Some? ==> OneTimePrivate(bundle.value, id).None?
    {
      ok := false;
      if bundle.None? { return; }
      var b := bundle.value;
      var k := Position(b.oneTime, id);
      if k < |b.oneTime| {
        if !b.oneTime[k].used {
          bundle := Some(b.(oneTime := b.oneTime[k := b.oneTime[k].(used := true, private := wiped)]));
          ok := true;
        }
        OneTimeStep(c, cfg, b, Mark(id, wiped), id);
        NextSound(c, cfg, b, Mark(id, wiped));
      }
    }
  }

}
