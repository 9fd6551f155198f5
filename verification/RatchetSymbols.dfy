/** Symbolic primitives, which never collide: what the witnesses ask of the primitives can be had. */
module RatchetSymbols {
  import opened Common
  import opened Ratchet
  import opened RatchetChains
  import opened RatchetRuns
  import opened RatchetExact
  import opened RatchetStale
  import opened RatchetWitness

  /** Symbolic byte strings. */
  datatype Term =
    | Blank | Atom(n: nat) | Pub(key: Term) | Agreed(pair: set<Term>) | Mixed(a: Term, b: Term)
    | Root(dh: Term, root: Term) | ChainOf(dh: Term, root: Term) | KeyOf(chain: Term) | Next(chain: Term)
    | Sealed(key: Term, nonce: Term, text: Term)

  function Agree(a: Term, b: Term): Term { if b.Pub? then Agreed({a, b.key}) else Mixed(a, b) }

  function Open(k: Term, n: Term, c: Term): Option<Term> {
    if c.Sealed? && c.key == k && c.nonce == n then Some(c.text) else None
  }

  const SYMBOLIC: Primitives<Term> :=
    Primitives(Blank, (k: Term) => Pub(k), Agree, (x: Term, r: Term) => Root(x, r), (x: Term, r: Term) => ChainOf(x, r),
               (c: Term) => KeyOf(c), (c: Term) => Next(c), (k: Term, n: Term, t: Term) => Sealed(k, n, t), Open)

  lemma SymbolicFree()
    ensures Lawful(SYMBOLIC) && Free(SYMBOLIC) && Faithful(SYMBOLIC) && Tight(SYMBOLIC)
  {
    forall a: Term, b: Term ensures Agree(a, Pub(b)) == Agree(b, Pub(a)) { assert {a, b} == {b, a}; }
    forall a: Term, b: Term, c: Term, d: Term | Agree(a, Pub(b)) == Agree(c, Pub(d)) ensures a == c || a == d {
      assert a in {a, b};
    }
  }

  /** How many steps a chain key has taken. */
  function Steps(t: Term): nat { if t.Next? then 1 + Steps(t.chain) else 0 }

  /** The chain key it has taken them from. */
  function Origin(t: Term): Term { if t.Next? then Origin(t.chain) else t }

  lemma {:induction false} ChainOrigin(start: Term, n: nat)
    requires !start.Next?
    ensures Steps(Chain(SYMBOLIC, start, n)) == n && Origin(Chain(SYMBOLIC, start, n)) == start
  {
    if n == 0 {
    } else {
      ChainOrigin(start, n - 1);
    }
  }

  /** No two chains share a message key. */
  lemma SymbolicApart()
    ensures Apart(SYMBOLIC)
  {
    forall a: Term, b: Term, i: nat, j: nat |
      Begins(SYMBOLIC, a) && Begins(SYMBOLIC, b) && KeyAt(SYMBOLIC, a, i) == KeyAt(SYMBOLIC, b, j)
      ensures a == b && i == j
    {
      ChainOrigin(a, i);
      ChainOrigin(b, j);
    }
  }

  const KEYS: seq<Term> := [Atom(0), Atom(1), Atom(2), Atom(3), Atom(4), Atom(5)]

  /** The late letter does its harm in a concrete run. */
  lemma LateHappens(secret: Term, nonce: Term, words: seq<Term>, cfg: Config) returns (steps: seq<Step<Term>>)
    requires |words| == 4 && cfg.maxGap >= 1
    ensures Run(SYMBOLIC, cfg, Begin(SYMBOLIC, secret, Atom(0), Atom(1)), steps)
    ensures var sys := End(SYMBOLIC, cfg, Begin(SYMBOLIC, secret, Atom(0), Atom(1)), steps);
            && sys.mail != [] && sys.mail[0].text == words[0]
            && var (bob, outcome) := Decrypt(SYMBOLIC, cfg, sys.lead, sys.mail[0].message, Atom(5));
            && outcome == Plaintext(words[0])
            && !Follows(SYMBOLIC, bob, Pub(Atom(3)), StartAt(SYMBOLIC, secret, KEYS[..5], 3))
  {
    SymbolicFree();
    assert KeysDistinct(SYMBOLIC, KEYS);
    steps := LateLetterHarms(SYMBOLIC, cfg, secret, KEYS, nonce, words);
  }

  /** So does the replay: it fails, changes the session, and the next message fails with it. */
  lemma ReplayHappens(secret: Term, nonce: Term, first: Term, second: Term, cfg: Config)
    returns (steps: seq<Step<Term>>)
    requires cfg.maxGap >= 0
    ensures Run(SYMBOLIC, cfg, Begin(SYMBOLIC, secret, Atom(0), Atom(1)), steps)
    ensures var sys := End(SYMBOLIC, cfg, Begin(SYMBOLIC, secret, Atom(0), Atom(1)), steps);
            && |sys.mail| == 2 && var (bob, again) := Decrypt(SYMBOLIC, cfg, sys.lead, sys.mail[0].message, Atom(3));
            && again == DecryptionFailed && bob != sys.lead
            && Decrypt(SYMBOLIC, cfg, bob, sys.mail[1].message, Atom(3)).1 == DecryptionFailed
  {
    SymbolicFree();
    SymbolicApart();
    assert KeysDistinct(SYMBOLIC, [Atom(0), Atom(1), Atom(2)]);
    StartBegins(SYMBOLIC, secret, [Atom(0), Atom(1)], 1);
    steps := ReplayHarms(SYMBOLIC, cfg, secret, Atom(0), Atom(1), Atom(2), nonce, first, second, Atom(3));
  }
}
