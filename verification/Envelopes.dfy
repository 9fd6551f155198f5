/** The binary envelope formats: serialisation, its inverse, and the bytes a signature covers. */
module Envelopes {
  import opened Common
  import LittleEndian
  import opened Positional

  type Bytes = seq<u8>

  datatype Result<+T> = Ok(value: T) | TooShort

  /** A JavaScript number: a real number, or one of the values that are none. */
  datatype Number = Num(x: real) | NaN

  /** Addition rounds; integers up to 2^53 are exact. */
  ghost predicate Exact(round: nat -> nat) { forall n: nat :: n < LIMIT ==> round(n) == n }
  const LIMIT: nat := 0x20_0000_0000_0000

  /** A time that survives being written and read: a whole number of milliseconds below 2^53. */
  predicate Stamp(n: Number) { n.Num? && 0.0 <= n.x < LIMIT as real && n.x == n.x.Floor as real }

  datatype Encrypted = Encrypted(version: u8, key: Bytes, nonce: Bytes, ciphertext: Bytes, signature: Bytes,
                                 time: Number)

  // ---- big-endian numbers ----

  /** The low k bytes of n, in two's complement if it is negative. */
  function Big(n: int, k: nat): Bytes
    decreases if n < 0 then -n else n, k
  {
    if k == 0 then [] else Big(n / 256, k - 1) + [n % 256]
  }

  /** Conversion to an integer cuts the fraction off. */
  function Cut(x: real): int { if x >= 0.0 then x.Floor else -((-x).Floor) }

  /** The integer part is the nearest whole number on the way to zero. */
  lemma CutTowardZero(x: real)
    ensures x >= 0.0 ==> 0.0 <= Cut(x) as real <= x < Cut(x) as real + 1.0
    ensures x < 0.0 ==> Cut(x) as real - 1.0 < x <= Cut(x) as real <= 0.0
  {
  }

  /** The lowest byte comes from the number without its fraction, the others from the number rounded down. */
  function BigNumber(n: Number): Bytes { if n.Num? then Big(n.x.Floor / 256, 7) + [Cut(n.x) % 256] else Big(0, 8) }

  /** `bytesToNumber`: rounding at every step, and not a number when a byte is missing. */
  function Rounded(s: Bytes, round: nat -> nat): nat {
    if s == [] then 0 else round(Rounded(s[..|s| - 1], round) * 256 + s[|s| - 1])
  }

  function ReadNumber(s: Bytes, round: nat -> nat): Number {
    if |s| < 8 then NaN else Num(Rounded(s[..8], round) as real)
  }

  lemma FloorDivision(x: real)
    ensures (x / 256.0).Floor == x.Floor / 256
  {
    var q := x.Floor / 256;
    assert (256 * q) as real <= x < (256 * q + 256) as real;
    assert q as real <= x / 256.0 < (q + 1) as real;
  }

  method NumberToBytes(n: Number) returns (out: array<u8>)
    ensures fresh(out) && out[..] == BigNumber(n)
  {
    out := new u8[8];
    if n.NaN? {
      forall i | 0 <= i < 8 { out[i] := 0; }
      assert out[..] == Big(0, 8);
      return;
    }
    var left := n.x;
    var i := 8;
    while i > 0
      invariant 0 <= i <= 8
      invariant i == 8 ==> left == n.x
      invariant i < 8 ==> left == left.Floor as real && Big(left.Floor, i) + out[i..] == BigNumber(n)
    {
      i := i - 1;
      FloorDivision(left);
      out[i] := Cut(left) % 256;
      assert out[i..] == [out[i]] + out[i + 1..];
      left := (left / 256.0).Floor as real;
    }
    assert out[0..] == out[..];
  }

  method BytesToNumber(s: Bytes, round: nat -> nat) returns (n: nat)
    requires |s| == 8
    ensures n == Rounded(s, round)
  {
    n := 0;
    for i := 0 to 8
      invariant n == Rounded(s[..i], round)
    {
      assert s[..i + 1][..i] == s[..i];
      n := round(n * 256 + s[i]);
    }
    assert s[..8] == s;
  }

  lemma {:induction false} BigLength(n: int, k: nat)
    ensures |Big(n, k)| == k
    decreases k
  {
    if k == 0 {
    } else {
      BigLength(n / 256, k - 1);
    }
  }

  lemma {:induction false} BigValue(n: nat, k: nat)
    requires n < LittleEndian.Radix(k)
    ensures Value(Big(n, k), 256) == n
  {
    if k == 0 {
    } else {
      BigValue(n / 256, k - 1);
      BigLength(n / 256, k - 1);
      assert Big(n, k)[..k - 1] == Big(n / 256, k - 1);
    }
  }

  lemma {:induction false} ValueBig(s: Bytes)
    ensures Big(Value(s, 256), |s|) == s && Value(s, 256) < LittleEndian.Radix(|s|)
  {
    if s == [] {
    } else {
      ValueBig(s[..|s| - 1]);
      assert s == s[..|s| - 1] + [s[|s| - 1]];
    }
  }

  /** Below 2^53 nothing is rounded. */
  lemma {:induction false} RoundedExact(s: Bytes, round: nat -> nat)
    requires Exact(round) && Value(s, 256) < LIMIT
    ensures Rounded(s, round) == Value(s, 256)
  {
    if s == [] {
    } else {
      RoundedExact(s[..|s| - 1], round);
    }
  }

  lemma NumberBack(n: nat, round: nat -> nat)
    requires Exact(round) && n < LIMIT
    ensures |Big(n, 8)| == 8 && Rounded(Big(n, 8), round) == n
  {
    BigLength(n, 8);
    BigValue(n, 8);
    RoundedExact(Big(n, 8), round);
  }

  lemma BigNumberLength(n: Number)
    ensures |BigNumber(n)| == 8
  {
    if n.Num? { BigLength(n.x.Floor / 256, 7); } else { BigLength(0, 8); }
  }

  /** Of the numbers below 2^53, whole non-negative ones are read as what was written, and no others. */
  lemma StampExact(n: Number, round: nat -> nat)
    requires Exact(round) && (n.Num? ==> n.x < LIMIT as real)
    ensures ReadNumber(BigNumber(n), round) == n <==> Stamp(n)
  {
    BigNumberLength(n);
    var s := BigNumber(n);
    assert s[..8] == s;
    if Stamp(n) {
      NumberBack(n.x.Floor, round);
    }
  }

  // ---- encrypted envelopes ----

  /** The common end of both formats: a length, that many bytes, a signature and a time. */
  function Tail(data: Bytes, signature: Bytes, time: Bytes): Bytes {
    Big(|data|, 8) + data + signature + time
  }

  function Serialized(e: Encrypted): Bytes {
    [e.version] + e.key + e.nonce + Tail(e.ciphertext, e.signature, BigNumber(e.time))
  }

  /** JavaScript slices stop at the end of the array. */
  function Slice(s: Bytes, from: nat, to: nat): Bytes
    requires from <= to
  {
    if from >= |s| then [] else if to >= |s| then s[from..] else s[from..to]
  }

  function Deserialized(s: Bytes, round: nat -> nat): Result<Encrypted> {
    if |s| < 137 then TooShort
    else
      var n := Rounded(s[57..65], round);
      Ok(Encrypted(s[0], s[1..33], s[33..57], Slice(s, 65, 65 + n), Slice(s, 65 + n, 129 + n),
                   ReadNumber(Slice(s, 129 + n, 137 + n), round)))
  }

  method Deserialize(s: Bytes, round: nat -> nat) returns (r: Result<Encrypted>)
    ensures r == Deserialized(s, round)
  {
    if |s| < 137 { return TooShort; }
    var offset := 0;
    var version := s[offset];
    offset := offset + 1;
    var key := Slice(s, offset, offset + 32);
    offset := offset + 32;
    var nonce := Slice(s, offset, offset + 24);
    offset := offset + 24;
    var length := BytesToNumber(Slice(s, offset, offset + 8), round);
    offset := offset + 8;
    var ciphertext := Slice(s, offset, offset + length);
    offset := offset + length;
    var signature := Slice(s, offset, offset + 64);
    offset := offset + 64;
    var time := Slice(s, offset, offset + 8);
    if |time| < 8 { return Ok(Encrypted(version, key, nonce, ciphertext, signature, NaN)); }
    assert time[..8] == time;
    var stamp := BytesToNumber(time, round);
    return Ok(Encrypted(version, key, nonce, ciphertext, signature, Num(stamp as real)));
  }

  /** Keys, nonce and signature of their lengths, and a ciphertext that fits in memory. */
  predicate Formed(e: Encrypted) {
    |e.key| == 32 && |e.nonce| == 24 && |e.signature| == 64 && |e.ciphertext| < LIMIT
  }

  lemma Piece(p: Bytes, x: Bytes, q: Bytes)
    ensures Slice(p + x + q, |p|, |p| + |x|) == x
  {
    var s := p + x + q;
    assert s[|p|..|p| + |x|] == x;
    if |p| >= |s| { assert x == []; }
  }

  lemma Regrouped(p: Bytes, a: Bytes, d: Bytes, g: Bytes, t: Bytes)
    ensures p + (a + d + g + t) == p + a + d + g + t
  {
  }

  /** The parts of a concatenation lie one after the other. */
  lemma Layout(p: Bytes, a: Bytes, d: Bytes, g: Bytes, t: Bytes, rest: Bytes)
    ensures var s, i, j := p + a + d + g + t + rest, |p| + |a|, |p| + |a| + |d|;
      && |s| >= j + |g| + |t| && s[..|p|] == p && s[|p|..i] == a && Slice(s, i, j) == d
      && Slice(s, j, j + |g|) == g && Slice(s, j + |g|, j + |g| + |t|) == t
  {
    var s := p + a + d + g + t + rest;
    assert s == p + a + d + (g + t + rest);
    Piece(p + a, d, g + t + rest);
    assert s == (p + a + d) + g + (t + rest);
    Piece(p + a + d, g, t + rest);
    Piece(p + a + d + g, t, rest);
  }

  /** What was written after a prefix is found there again. */
  lemma Found(p: Bytes, data: Bytes, signature: Bytes, time: Bytes, rest: Bytes, round: nat -> nat)
    requires Exact(round) && |data| < LIMIT && |signature| == 64 && |time| == 8
    ensures var s, h, n := p + Tail(data, signature, time) + rest, |p|, |data|;
      && |s| >= h + 80 + n && s[..h] == p && Rounded(s[h..h + 8], round) == n
      && Slice(s, h + 8, h + 8 + n) == data && Slice(s, h + 8 + n, h + 72 + n) == signature
      && Slice(s, h + 72 + n, h + 80 + n) == time
  {
    NumberBack(|data|, round);
    Regrouped(p, Big(|data|, 8), data, signature, time);
    Layout(p, Big(|data|, 8), data, signature, time, rest);
  }

  /** Reading back what was written gives the envelope, whatever follows it, exactly when its time is a stamp. */
  lemma RoundTrip(e: Encrypted, rest: Bytes, round: nat -> nat)
    requires Exact(round) && Formed(e) && (e.time.Num? ==> e.time.x < LIMIT as real)
    ensures Deserialized(Serialized(e) + rest, round).Ok?
    ensures Deserialized(Serialized(e) + rest, round) == Ok(e) <==> Stamp(e.time)
  {
    var head := [e.version] + e.key + e.nonce;
    var s := Serialized(e) + rest;
    BigNumberLength(e.time);
    Found(head, e.ciphertext, e.signature, BigNumber(e.time), rest, round);
    StampExact(e.time, round);
    assert s[0] == s[..57][0] && s[1..33] == s[..57][1..33] && s[33..57] == s[..57][33..57];
    assert head[1..33] == e.key && head[33..57] == e.nonce;
  }

  // ---- writing back what was read ----

  /** The length field at an offset. */
  function LengthAt(s: Bytes, h: nat): nat
    requires |s| >= h + 8
  {
    Value(s[h..h + 8], 256)
  }

  /** An input whose tail is read at an offset, with a length of n, and written again with a time. */
  function Rewritten(s: Bytes, h: nat, n: nat, time: Bytes): Bytes
    requires |s| >= h
  {
    s[..h] + Tail(Slice(s, h + 8, h + 8 + n), Slice(s, h + 8 + n, h + 72 + n), time)
  }

  /** The time of such an input, as it is written again. */
  function TimeAgain(s: Bytes, h: nat, n: nat, round: nat -> nat): Bytes {
    BigNumber(ReadNumber(Slice(s, h + 72 + n, h + 80 + n), round))
  }

  /** The input ends where its length field says, and its last eight bytes are a number that is not rounded. */
  predicate Faithful(s: Bytes, h: nat, round: nat -> nat)
    requires |s| >= h + 80
  {
    |s| == h + 80 + LengthAt(s, h) && Unrounded(Value(s[|s| - 8..], 256), round)
  }

  predicate Unrounded(n: nat, round: nat -> nat) { round(n) == n }

  /** Rounding a number changes it at most once and by little; a number without its last byte needs no more digits. */
  ghost predicate Rounding(round: nat -> nat) {
    && Exact(round) && (forall n: nat :: n >= LIMIT ==> round(n) >= LIMIT)
    && (forall n: nat {:trigger round(round(n))} :: round(round(n)) == round(n))
    && (forall n: nat :: 1024 * round(n) <= 1025 * n)
    && (forall n: nat, m: nat {:trigger Unrounded(n, round), Unrounded(m, round)} ::
          m == n / 256 && Unrounded(n, round) ==> Unrounded(m, round))
  }

  /** Reading bytes gives their number exactly when that number is not rounded. */
  lemma {:induction false} RoundedIff(s: Bytes, round: nat -> nat)
    requires Rounding(round)
    ensures Rounded(s, round) == Value(s, 256) <==> Unrounded(Value(s, 256), round)
  {
    if s == [] {
      assert Exact(round);
    } else {
      var v, w := Value(s, 256), Value(s[..|s| - 1], 256);
      RoundedIff(s[..|s| - 1], round);
      if Unrounded(v, round) {
        assert w == v / 256;
        assert Unrounded(w, round);
      } else {
        assert round(Rounded(s, round)) == Rounded(s, round);
      }
    }
  }

  /** One more byte and one more rounding add little to the error. */
  lemma ErrorStep(r: nat, v: nat, b: nat, w: nat, rounded: nat)
    requires 1024 * r <= w * v && 1024 <= w <= 2048 && 1024 * rounded <= 1025 * (256 * r + b)
    ensures 1024 * rounded <= (w + 2) * (256 * v + b)
  {
    var next := 256 * v + b;
    assert w * next == 256 * (w * v) + w * b;
    assert 1024 * b <= w * b && w * next <= 2048 * next;
    assert (w + 2) * next == w * next + 2 * next;
  }

  lemma {:induction false} RoundedNear(s: Bytes, round: nat -> nat)
    requires Rounding(round) && |s| <= 8
    ensures 1024 * Rounded(s, round) <= (1024 + 2 * |s|) * Value(s, 256)
  {
    if s == [] {
    } else {
      var front, b := s[..|s| - 1], s[|s| - 1];
      RoundedNear(front, round);
      ErrorStep(Rounded(front, round), Value(front, 256), b, 1024 + 2 * |front|, Rounded(s, round));
    }
  }

  lemma {:induction false} BigWraps(n: nat, k: nat)
    ensures Big(n + LittleEndian.Radix(k), k) == Big(n, k)
  {
    if k == 0 {
    } else {
      BigWraps(n / 256, k - 1);
    }
  }

  /** Eight bytes survive being read as a number and written again exactly when that number is not rounded. */
  lemma TimeKept(time: Bytes, round: nat -> nat)
    requires Rounding(round) && |time| == 8
    ensures Big(Rounded(time, round), 8) == time <==> Unrounded(Value(time, 256), round)
  {
    var r, v := Rounded(time, round), Value(time, 256);
    assert r == v <==> Unrounded(v, round) by { RoundedIff(time, round); }
    assert r <= 2 * v by {
      RoundedNear(time, round);
      assert (1024 + 2 * 8) * v <= 2048 * v;
    }
    assert Big(v, 8) == time && v < LittleEndian.Radix(8) by { ValueBig(time); }
    SameBytes(r, v);
  }

  lemma SameBytes(r: nat, v: nat)
    requires v < LittleEndian.Radix(8) && r <= 2 * v
    ensures Big(r, 8) == Big(v, 8) <==> r == v
  {
    var radix := LittleEndian.Radix(8);
    BigValue(v, 8);
    if r < radix {
      BigValue(r, 8);
    } else {
      BigWraps(r - radix, 8);
      BigValue(r - radix, 8);
    }
  }

  lemma RewrittenExact(s: Bytes, h: nat, round: nat -> nat)
    requires Rounding(round) && h + 80 <= |s| < LIMIT
    ensures var n := Rounded(s[h..h + 8], round); Rewritten(s, h, n, TimeAgain(s, h, n, round)) == s <==>
      Faithful(s, h, round)
  {
    var n := Rounded(s[h..h + 8], round);
    LengthRead(s, h, round);
    BigNumberLength(ReadNumber(Slice(s, h + 72 + n, h + 80 + n), round));
    if |s| == h + 80 + n {
      TimeWhole(s, h, n, round);
      TimeKept(s[|s| - 8..], round);
    }
    Both(s, h, n, TimeAgain(s, h, n, round));
  }

  lemma Both(s: Bytes, h: nat, n: nat, time: Bytes)
    requires h + 80 <= |s| < LIMIT && |time| == 8 && (n == LengthAt(s, h) || (n >= LIMIT && LengthAt(s, h) >= LIMIT))
    ensures Rewritten(s, h, n, time) == s <==> |s| == h + 80 + n == h + 80 + LengthAt(s, h) && time == s[|s| - 8..]
  {
    if |s| >= h + 80 + n { RewrittenFull(s, h, n, time); } else { Truncated(s, h, n, time); }
  }

  lemma TimeWhole(s: Bytes, h: nat, n: nat, round: nat -> nat)
    requires |s| == h + 80 + n
    ensures TimeAgain(s, h, n, round) == Big(Rounded(s[|s| - 8..], round), 8)
  {
    assert s[h + 72 + n..h + 80 + n] == s[|s| - 8..];
    TimeRead(s[|s| - 8..], round);
  }

  lemma TimeRead(time: Bytes, round: nat -> nat)
    requires |time| == 8
    ensures BigNumber(ReadNumber(time, round)) == Big(Rounded(time, round), 8)
  {
    assert time[..8] == time;
  }

  /** The length is read as it is, or as something too large for the input either way. */
  lemma LengthRead(s: Bytes, h: nat, round: nat -> nat)
    requires Rounding(round) && h + 80 <= |s| < LIMIT
    ensures var n := Rounded(s[h..h + 8], round); n == LengthAt(s, h) || (n >= LIMIT && LengthAt(s, h) >= LIMIT)
  {
    if LengthAt(s, h) < LIMIT { RoundedExact(s[h..h + 8], round); } else { RoundedLarge(s[h..h + 8], round); }
  }

  lemma {:induction false} RoundedLarge(s: Bytes, round: nat -> nat)
    requires Rounding(round) && Value(s, 256) >= LIMIT
    ensures Rounded(s, round) >= LIMIT
  {
    var front := s[..|s| - 1];
    if Value(front, 256) < LIMIT { RoundedExact(front, round); } else { RoundedLarge(front, round); }
  }

  lemma Joined(s: Bytes, a: nat, b: nat, c: nat, d: nat, rest: Bytes)
    requires a <= b <= c <= d <= |s|
    ensures s[..a] + (s[a..b] + s[b..c] + s[c..d] + rest) == s[..d] + rest
  {
  }

  lemma RewrittenFull(s: Bytes, h: nat, n: nat, time: Bytes)
    requires h + 80 + n <= |s| && n == LengthAt(s, h) && |time| == 8
    ensures Rewritten(s, h, n, time) == s <==> |s| == h + 80 + n && time == s[|s| - 8..]
  {
    assert Big(n, 8) == s[h..h + 8] by { ValueBig(s[h..h + 8]); }
    assert Rewritten(s, h, n, time) == s[..h + 72 + n] + time by {
      Joined(s, h, h + 8, h + 8 + n, h + 72 + n, time);
    }
  }

  lemma Truncated(s: Bytes, h: nat, n: nat, time: Bytes)
    requires h + 80 <= |s| < h + 80 + n && |time| == 8
    ensures Rewritten(s, h, n, time) != s
  {
    BigLength(|Slice(s, h + 8, h + 8 + n)|, 8);
  }

  lemma ReadEncrypted(s: Bytes, round: nat -> nat)
    requires 137 <= |s|
    ensures var n := Rounded(s[57..65], round);
      Serialized(Deserialized(s, round).value) == Rewritten(s, 57, n, TimeAgain(s, 57, n, round))
  {
    var e, n := Deserialized(s, round).value, Rounded(s[57..65], round);
    assert s[..57] == [e.version] + e.key + e.nonce;
    assert BigNumber(e.time) == TimeAgain(s, 57, n, round);
  }

  /** Writing back an encrypted envelope that was read gives the same bytes exactly when they are faithful. */
  lemma WriteBackExact(s: Bytes, round: nat -> nat)
    requires Rounding(round) && 137 <= |s| < LIMIT
    ensures Serialized(Deserialized(s, round).value) == s <==> Faithful(s, 57, round)
  {
    RewrittenExact(s, 57, round);
    ReadEncrypted(s, round);
  }

  /** No envelope of its right length with a time below 2^53 is changed. */
  lemma EarlyWriteBack(s: Bytes, round: nat -> nat)
    requires Rounding(round) && 137 <= |s| < LIMIT && |s| == 137 + LengthAt(s, 57) && Value(s[|s| - 8..], 256) < LIMIT
    ensures Serialized(Deserialized(s, round).value) == s
  {
    WriteBackExact(s, round);
  }

  /** An input of zeros one byte longer than an empty envelope loses that byte. */
  lemma WriteBackFails(s: Bytes, round: nat -> nat)
    requires Rounding(round) && |s| == 138 && forall i :: 0 <= i < 138 ==> s[i] == 0
    ensures Deserialized(s, round).Ok? && Serialized(Deserialized(s, round).value) != s
  {
    ZeroValue(s[57..65]);
    WriteBackExact(s, round);
  }

  lemma {:induction false} ZeroValue(s: Bytes)
    requires forall i :: 0 <= i < |s| ==> s[i] == 0
    ensures Value(s, 256) == 0
  {
    if s == [] {
    } else {
      ZeroValue(s[..|s| - 1]);
    }
  }

  // ---- signed envelopes ----

  datatype Signed = Signed(sender: Bytes, data: Bytes, signature: Bytes, time: Number)

  function SerializedSigned(e: Signed): Bytes {
    e.sender + Tail(e.data, e.signature, BigNumber(e.time))
  }

  function DeserializedSigned(s: Bytes, round: nat -> nat): Result<Signed> {
    if |s| < 112 then TooShort
    else
      var n := Rounded(s[32..40], round);
      Ok(Signed(s[..32], Slice(s, 40, 40 + n), Slice(s, 40 + n, 104 + n),
        ReadNumber(Slice(s, 104 + n, 112 + n), round)))
  }

  lemma SignedRoundTrip(e: Signed, rest: Bytes, round: nat -> nat)
    requires Exact(round) && |e.sender| == 32 && |e.signature| == 64 && |e.data| < LIMIT
    requires e.time.Num? ==> e.time.x < LIMIT as real
    ensures DeserializedSigned(SerializedSigned(e) + rest, round) == Ok(e) <==> Stamp(e.time)
    ensures DeserializedSigned(SerializedSigned(e) + rest, round).Ok?
  {
    BigNumberLength(e.time);
    Found(e.sender, e.data, e.signature, BigNumber(e.time), rest, round);
    StampExact(e.time, round);
  }

  lemma ReadSigned(s: Bytes, round: nat -> nat)
    requires 112 <= |s|
    ensures var n := Rounded(s[32..40], round);
      SerializedSigned(DeserializedSigned(s, round).value) == Rewritten(s, 32, n, TimeAgain(s, 32, n, round))
  {
    var e, n := DeserializedSigned(s, round).value, Rounded(s[32..40], round);
    assert BigNumber(e.time) == TimeAgain(s, 32, n, round);
  }

  /** The same for signed envelopes. */
  lemma SignedWriteBackExact(s: Bytes, round: nat -> nat)
    requires Rounding(round) && 112 <= |s| < LIMIT
    ensures SerializedSigned(DeserializedSigned(s, round).value) == s <==> Faithful(s, 32, round)
  {
    RewrittenExact(s, 32, round);
    ReadSigned(s, round);
  }

  // ---- what a signature covers ----

  function Covered(e: Encrypted): Bytes { e.key + e.nonce + e.ciphertext + BigNumber(e.time) + [e.version] }

  function CoveredData(data: Bytes, time: Number): Bytes { data + BigNumber(time) }

  lemma TimeInjective(a: Number, b: Number)
    requires Stamp(a) && Stamp(b) && BigNumber(a) == BigNumber(b)
    ensures a == b
  {
    BigValue(a.x.Floor, 8);
    BigValue(b.x.Floor, 8);
  }

  lemma DataDetermined(x: Bytes, a: Number, y: Bytes, b: Number)
    requires Stamp(a) && Stamp(b) && CoveredData(x, a) == CoveredData(y, b)
    ensures x == y && a == b
  {
    BigNumberLength(a);
    BigNumberLength(b);
    var s := CoveredData(x, a);
    assert |x| == |y| && x == s[..|x|] && y == s[..|y|];
    assert BigNumber(a) == s[|x|..] && BigNumber(b) == s[|y|..];
    TimeInjective(a, b);
  }

  /** Envelopes that are signed over the same bytes are the same up to the signature. */
  lemma ContentsDetermined(e: Encrypted, f: Encrypted)
    requires Formed(e) && Formed(f) && Stamp(e.time) && Stamp(f.time) && Covered(e) == Covered(f)
    ensures e == f.(signature := e.signature)
  {
    var s := Covered(e);
    var x, y := e.key + e.nonce + e.ciphertext, f.key + f.nonce + f.ciphertext;
    assert s == CoveredData(x, e.time) + [e.version] && s == CoveredData(y, f.time) + [f.version];
    assert e.version == s[|s| - 1] && f.version == s[|s| - 1];
    assert CoveredData(x, e.time) == s[..|s| - 1] && CoveredData(y, f.time) == s[..|s| - 1];
    DataDetermined(x, e.time, y, f.time);
    assert e.key == x[..32] && f.key == y[..32] && e.nonce == x[32..56] && f.nonce == y[32..56];
    assert e.ciphertext == x[56..] && f.ciphertext == y[56..];
  }

  // ---- sealing and opening ----

  /** The algorithms behind an envelope, on byte strings. */
  datatype Suite = Suite(
    publicOf: Bytes -> Bytes, agree: (Bytes, Bytes) -> Bytes, identityOf: Bytes -> Bytes,
    sign: (Bytes, Bytes) -> Bytes, verify: (Bytes, Bytes, Bytes) -> bool, derive: (Bytes, Bytes) -> Bytes,
    seal: (Bytes, Bytes, Bytes) -> Bytes, unseal: (Bytes, Bytes, Bytes) -> Option<Bytes>)

  ghost predicate Lawful(c: Suite) {
    && (forall a, b :: c.agree(a, c.publicOf(b)) == c.agree(b, c.publicOf(a)))
    && (forall m, k :: c.verify(c.sign(m, k), m, c.identityOf(k)) && |c.sign(m, k)| == 64)
    && (forall k :: |c.publicOf(k)| == 32)
    && (forall k, n, d :: c.unseal(k, n, c.seal(k, n, d)) == Some(d))
  }

  const VERSION: u8 := 1

  function Sealed(c: Suite, data: Bytes, sender: Bytes, recipient: Bytes, ephemeral: Bytes, nonce: Bytes,
                  time: Number): Encrypted
  {
    var key := c.publicOf(ephemeral);
    var e := Encrypted(VERSION, key, nonce, c.seal(c.derive(c.agree(ephemeral, recipient), key), nonce, data), [],
        time);
    e.(signature := c.sign(Covered(e), sender))
  }

  /** The data of an envelope of the current version with a good signature. */
  function Opened(c: Suite, e: Encrypted, recipient: Bytes, sender: Bytes): Option<Bytes> {
    if e.version != VERSION || !c.verify(e.signature, Covered(e), sender) then None
    else c.unseal(c.derive(c.agree(recipient, e.key), e.key), e.nonce, e.ciphertext)
  }

  /** What is sealed, written out, read back and opened by the right recipient is the data. */
  lemma Delivered(c: Suite, data: Bytes, sender: Bytes, recipient: Bytes, ephemeral: Bytes, nonce: Bytes, time: Number,
                  round: nat -> nat)
    requires Lawful(c) && Exact(round) && |nonce| == 24 && Stamp(time)
    requires |Sealed(c, data, sender, c.publicOf(recipient), ephemeral, nonce, time).ciphertext| < LIMIT
    ensures var read := Deserialized(Serialized(Sealed(c, data, sender, c.publicOf(recipient), ephemeral, nonce, time)),
      round);
      read.Ok? && Opened(c, read.value, recipient, c.identityOf(sender)) == Some(data)
  {
    var e := Sealed(c, data, sender, c.publicOf(recipient), ephemeral, nonce, time);
    RoundTrip(e, [], round);
    assert Serialized(e) + [] == Serialized(e);
    assert Covered(e) == Covered(e.(signature := []));
  }

  /** A signature that verifies was made by the owner of the key, and tells its message. */
  ghost predicate Unforgeable(c: Suite) {
    && (forall s, m, k {:trigger c.verify(s, m, c.identityOf(k))} :: c.verify(s, m, c.identityOf(k)) ==>
    s == c.sign(m, k))
    && (forall m, n, k {:trigger c.sign(m, k), c.sign(n, k)} :: c.sign(m, k) == c.sign(n, k) ==> m == n)
  }

  /** Whoever's envelope is opened has signed all of it but the signature, and it is of version 1. */
  lemma OpenedIsSigned(c: Suite, e: Encrypted, recipient: Bytes, sender: Bytes)
    requires Unforgeable(c) && Opened(c, e, recipient, c.identityOf(sender)).Some?
    ensures e.version == 1
    ensures e.signature == c.sign(e.key + e.nonce + e.ciphertext + BigNumber(e.time) + [e.version], sender)
  {
  }

  /** An envelope altered after it was sealed is not opened. */
  lemma AlteredRefused(c: Suite, e: Encrypted, f: Encrypted, recipient: Bytes, sender: Bytes)
    requires Unforgeable(c) && Formed(e) && Formed(f) && Stamp(e.time) && Stamp(f.time)
    requires e.signature == c.sign(Covered(e), sender) && f.signature == e.signature && f != e
    ensures Opened(c, f, recipient, c.identityOf(sender)).None?
  {
    if Covered(f) == Covered(e) { ContentsDetermined(f, e); }
  }

  /** Decryption fails under any key but the one used, and the key derivation loses nothing. */
  ghost predicate Tight(c: Suite) {
    && (forall k, l, n, d {:trigger c.unseal(l, n, c.seal(k, n, d))} :: l != k ==>
    c.unseal(l, n, c.seal(k, n, d)) == None)
    && (forall x, y, u, v {:trigger c.derive(x, u), c.derive(y, v)} :: c.derive(x, u) == c.derive(y, v) ==>
    x == y && u == v)
  }

  /** Only who agrees with the ephemeral key on the recipient's value opens a sealed envelope. */
  lemma OnlyRecipientOpens(c: Suite, data: Bytes, sender: Bytes, recipient: Bytes, ephemeral: Bytes, nonce: Bytes,
                           time: Number, other: Bytes, name: Bytes)
    requires Lawful(c) && Tight(c)
    requires Opened(c, Sealed(c, data, sender, c.publicOf(recipient), ephemeral, nonce, time), other, name).Some?
    ensures c.agree(other, c.publicOf(ephemeral)) == c.agree(recipient, c.publicOf(ephemeral))
  {
    assert c.agree(ephemeral, c.publicOf(recipient)) == c.agree(recipient, c.publicOf(ephemeral));
  }
}
