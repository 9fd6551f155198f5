/** Base58 decoding of peer ids, as a change of positional base that keeps leading zeros. */
module Base58 {
  import opened Common
  import opened Positional

  // ---- changing base ----

  function Leading(s: seq<nat>): nat { if s != [] && s[0] == 0 then 1 + Leading(s[1..]) else 0 }

  function Zeros(n: nat): seq<nat> { seq(n, _ => 0) }

  function Recoded(s: seq<nat>, from: nat, to: nat): seq<nat>
    requires to > 1
  {
    Zeros(Leading(s)) + Digits(Value(s, from), to)
  }

  lemma {:induction false} LeadingSplit(s: seq<nat>)
    ensures Leading(s) <= |s| && s == Zeros(Leading(s)) + s[Leading(s)..]
    ensures s[Leading(s)..] == [] || s[Leading(s)..][0] != 0
  {
    if s != [] && s[0] == 0 {
      LeadingSplit(s[1..]);
      var k := Leading(s[1..]);
      assert s == [0] + (Zeros(k) + s[1..][k..]);
      assert Zeros(k + 1) == [0] + Zeros(k) && s[k + 1..] == s[1..][k..];
    }
  }

  lemma {:induction false} LeadingOf(k: nat, rest: seq<nat>)
    requires rest == [] || rest[0] != 0
    ensures Leading(Zeros(k) + rest) == k && (Zeros(k) + rest)[k..] == rest
  {
    if k == 0 {
      assert Zeros(0) + rest == rest;
    } else {
      assert (Zeros(k) + rest)[1..] == Zeros(k - 1) + rest;
      LeadingOf(k - 1, rest);
    }
  }

  lemma {:induction false} ValueIgnoresZeros(k: nat, rest: seq<nat>, base: nat)
    ensures Value(Zeros(k) + rest, base) == Value(rest, base)
    decreases k + |rest|
  {
    var s := Zeros(k) + rest;
    if rest != [] {
      assert s[..|s| - 1] == Zeros(k) + rest[..|rest| - 1];
      ValueIgnoresZeros(k, rest[..|rest| - 1], base);
    } else if k > 0 {
      assert s[..|s| - 1] == Zeros(k - 1) + rest;
      ValueIgnoresZeros(k - 1, rest, base);
    }
  }

  /** A digit string is its leading zeros and the digits of its value. */
  lemma Normal(s: seq<nat>, base: nat)
    requires base > 1 && Digital(s, base)
    ensures s == Zeros(Leading(s)) + Digits(Value(s, base), base)
  {
    LeadingSplit(s);
    var rest := s[Leading(s)..];
    ValueIgnoresZeros(Leading(s), rest, base);
    Canonical(rest, base);
  }

  /** Zeros in front of the digits of a number are its leading zeros and do not change it. */
  lemma Padded(k: nat, n: nat, base: nat)
    requires base > 1
    ensures var s := Zeros(k) + Digits(n, base);
      Digital(s, base) && Leading(s) == k && Value(s, base) == n
  {
    DigitsDigital(n, base);
    DigitsValue(n, base);
    if n > 0 { DigitsLead(n, base); }
    LeadingOf(k, Digits(n, base));
    ValueIgnoresZeros(k, Digits(n, base), base);
  }

  /** Changing base and back is the identity on all digit strings, leading zeros included. */
  lemma RecodedBack(s: seq<nat>, from: nat, to: nat)
    requires from > 1 && to > 1 && Digital(s, from)
    ensures Digital(Recoded(s, from, to), to) && Recoded(Recoded(s, from, to), to, from) == s
    ensures Leading(Recoded(s, from, to)) == Leading(s)
  {
    Normal(s, from);
    Padded(Leading(s), Value(s, from), to);
  }

  // ---- peer ids ----

  const ALPHABET := "1" + "23456789ABCDEFGHJKLMNPQRSTUVWXYZabcdefghijkmnopqrstuvwxyz"

  /** The first position of a character, or the length if there is none. */
  function Index(c: char, alphabet: string): (k: nat)
    ensures k <= |alphabet| && (k < |alphabet| ==> alphabet[k] == c) && (k == |alphabet| ==> c !in alphabet)
  {
    if alphabet == [] then 0 else if alphabet[0] == c then 0 else 1 + Index(c, alphabet[1..])
  }

  predicate Spelled(s: string, alphabet: string) { forall i :: 0 <= i < |s| ==> s[i] in alphabet }

  function Indexes(s: string, alphabet: string): seq<nat> {
    seq(|s|, i requires 0 <= i < |s| => Index(s[i], alphabet))
  }

  /** `b58d`: the bytes of a base58 string; a foreign character is an error. */
  method Decode(s: string) returns (r: Option<seq<nat>>)
    ensures r == if Spelled(s, ALPHABET) then Some(Recoded(Indexes(s, ALPHABET), 58, 256)) else None
  {
    var alphabet := ALPHABET;
    assert |alphabet| == 58 && alphabet[0] == '1';
    r := DecodeIn(s, alphabet);
  }

  method DecodeIn(s: string, alphabet: string) returns (r: Option<seq<nat>>)
    requires |alphabet| == 58 && alphabet[0] == '1'
    ensures r == if Spelled(s, alphabet) then Some(Recoded(Indexes(s, alphabet), 58, 256)) else None
  {
    var n := 0;
    ghost var digits := Indexes(s, alphabet);
    for i := 0 to |s|
      invariant Spelled(s[..i], alphabet) && n == Value(digits[..i], 58)
    {
      var k := Index(s[i], alphabet);
      if k == 58 {
        assert s[i] !in alphabet;
        return None;
      }
      n := n * 58 + k;
      assert digits[..i + 1][..i] == digits[..i] && digits[..i + 1][i] == k;
      assert s[..i + 1] == s[..i] + [s[i]];
    }
    assert s[..|s|] == s && digits[..|s|] == digits;
    var pad := 0;
    while pad < |s| && s[pad] == '1'
      invariant pad <= |s| && Leading(digits) == pad + Leading(digits[pad..])
    {
      assert digits[pad] == 0 && digits[pad..][1..] == digits[pad + 1..];
      pad := pad + 1;
    }
    assert pad < |s| ==> digits[pad] != 0;
    return Some(Zeros(pad) + Digits(n, 256));
  }

  lemma SameIndexes(s: string, t: string, alphabet: string)
    requires Spelled(s, alphabet) && Spelled(t, alphabet) && Indexes(s, alphabet) == Indexes(t, alphabet)
    ensures s == t
  {
    assert |s| == |Indexes(s, alphabet)| == |t|;
    forall i | 0 <= i < |s| ensures s[i] == t[i] {
      assert Index(s[i], alphabet) == Indexes(s, alphabet)[i] == Indexes(t, alphabet)[i] == Index(t[i], alphabet);
    }
  }

  /** Decoding is injective on all base58 strings. */
  lemma DecodeInjective(s: string, t: string)
    requires Spelled(s, ALPHABET) && Spelled(t, ALPHABET)
    requires Recoded(Indexes(s, ALPHABET), 58, 256) == Recoded(Indexes(t, ALPHABET), 58, 256)
    ensures s == t
  {
    Injective(s, t, ALPHABET, 58, 256);
  }

  lemma Injective(s: string, t: string, alphabet: string, from: nat, to: nat)
    requires |alphabet| == from > 1 && to > 1 && Spelled(s, alphabet) && Spelled(t, alphabet)
    requires Recoded(Indexes(s, alphabet), from, to) == Recoded(Indexes(t, alphabet), from, to)
    ensures s == t
  {
    RecodedBack(Indexes(s, alphabet), from, to);
    RecodedBack(Indexes(t, alphabet), from, to);
    SameIndexes(s, t, alphabet);
  }
}
