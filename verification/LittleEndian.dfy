/** Little-endian bytes: reading, writing and incrementing integers in byte buffers. */
module LittleEndian {
  import opened Common
  import opened Numbers

  function Value(bytes: seq<u8>): nat {
    if bytes == [] then 0 else bytes[0] + 256 * Value(bytes[1..])
  }

  function Radix(n: nat): (r: nat)
    ensures r > 0
  {
    if n == 0 then 1 else 256 * Radix(n - 1)
  }

  lemma PowByte(n: nat)
    ensures Pow(2, n + 8) == 256 * Pow(2, n)
  {
    var x := Pow(2, n);
    assert Pow(2, n + 2) == 4 * x;
    assert Pow(2, n + 4) == 16 * x;
    assert Pow(2, n + 6) == 64 * x;
  }

  lemma {:induction false} RadixIsPow(n: nat)
    ensures Radix(n) == Pow(2, 8 * n)
  {
    if n == 0 {
    } else {
      RadixIsPow(n - 1);
      PowByte(8 * (n - 1));
    }
  }

  lemma ShiftOut(v: int, b: int, x: int)
    ensures 256 * (v + b * x) == 256 * v + b * (256 * x)
  {
    Regroup(256, b, x);
  }

  lemma {:induction false} ValueAppend(bytes: seq<u8>, b: u8)
    ensures Value(bytes + [b]) == Value(bytes) + b * Radix(|bytes|)
    ensures Value(bytes) < Radix(|bytes|)
  {
    if bytes == [] {
    } else {
      var rest := bytes[1..];
      ValueAppend(rest, b);
      assert (bytes + [b])[1..] == rest + [b];
      ShiftOut(Value(rest), b, Radix(|rest|));
    }
  }

  // ---- reading ----

  /** The | of JavaScript on non-negative integers. */
  function Or(a: nat, b: nat): nat {
    if a == 0 then b else if b == 0 then a
    else 2 * Or(a / 2, b / 2) + (if a % 2 == 1 || b % 2 == 1 then 1 else 0)
  }

  lemma {:induction false} OrDisjoint(a: nat, b: nat, k: nat)
    requires a < Pow(2, k)
    ensures b * Pow(2, k) >= 0 && Or(a, b * Pow(2, k)) == a + b * Pow(2, k)
  {
    if k == 0 {
    } else {
      var half := b * Pow(2, k - 1);
      assert b * Pow(2, k) == 2 * half;
      OrDisjoint(a / 2, b, k - 1);
    }
  }

  // ---- writing ----

  /** Byte i of u in two's complement: an arithmetic shift, then the low eight bits. */
  function ByteOf(u: int, i: nat): u8 { (u / Radix(i)) % 256 }

  lemma SplitMod(u: int, d: int)
    requires d > 0
    ensures u % (256 * d) == u % d + ((u / d) % 256) * d
  {
    var q := u / d;
    var b, h := q % 256, q / 256;
    SplitOut(d, h, b);
    TopByteFull(b, d);
    ModUnique(u, 256 * d, h, b * d + u % d);
  }

  lemma SplitOut(d: int, h: int, b: int)
    ensures d * (256 * h + b) == 256 * d * h + b * d
  {
    Distribute(d, 256 * h, b);
    Regroup(256, d, h);
  }

  lemma TopByteFull(b: int, d: int)
    requires 0 <= b <= 255 && d > 0
    ensures 0 <= b * d <= 255 * d
  {
  }

  lemma ModUnique(x: int, d: int, q: int, r: int)
    requires d > 0 && x == d * q + r && 0 <= r < d
    ensures x % d == r
  {
    Remainder(d, x);
    DividesBy(d, q);
    DividesSum(d, x - x % d, d * q);
    assert (x - x % d) - d * q == r - x % d;
    if r > x % d { DividesSmall(d, r - x % d); }
    if r < x % d { DividesTimes(d, r - x % d, -1); DividesSmall(d, x % d - r); }
  }

  /** Thirty-two bytes written out of any integer spell it modulo 2^256. */
  method WriteBytes(u: int) returns (out: array<u8>)
    ensures fresh(out) && out.Length == 32 && Value(out[..]) == u % Radix(32)
  {
    out := new u8[32];
    for i := 0 to 32
      invariant Value(out[..i]) == u % Radix(i)
    {
      SplitMod(u, Radix(i));
      ValueAppend(out[..i], ByteOf(u, i));
      out[i] := ByteOf(u, i);
      assert out[..i + 1] == out[..i] + [out[i]];
    }
    assert out[..] == out[..32];
  }

  // ---- incrementing ----

  /** One more, starting over at the modulus. */
  function Successor(v: nat, modulus: nat): nat { if v + 1 == modulus then 0 else v + 1 }

  /** Add one to a nonce in place, modulo its width. */
  method IncrementNonce(nonce: array<u8>)
    modifies nonce
    ensures Value(nonce[..]) == Successor(old(Value(nonce[..])), Radix(nonce.Length))
  {
    ghost var start := nonce[..];
    ghost var n := nonce.Length;
    var i := 0;
    while i < nonce.Length
      invariant 0 <= i <= n && forall k :: i <= k < n ==> nonce[k] == start[k]
      invariant Value(nonce[..i]) == 0 && Value(start[..i]) == Radix(i) - 1
    {
      ghost var low := nonce[..i];
      var b: int := nonce[i];
      nonce[i] := (b + 1) % 256;
      assert nonce[..i] == low;
      if nonce[i] != 0 {
        assert nonce[..][i + 1..] == start[i + 1..];
        Carried(start, nonce[..], i);
        ValueAppend(nonce[..], 0);
        return;
      }
      ValueAppend(start[..i], 255);
      ValueAppend(low, 0);
      assert start[..i + 1] == start[..i] + [255] && nonce[..i + 1] == low + [0];
      i := i + 1;
    }
    assert nonce[..] == nonce[..n] && start == start[..n];
  }

  /** The carry stops at byte i. */
  lemma Carried(start: seq<u8>, after: seq<u8>, i: nat)
    requires i < |start| == |after| && Value(start[..i]) == Radix(i) - 1 && Value(after[..i]) == 0
    requires after[i] as int == start[i] as int + 1 && after[i + 1..] == start[i + 1..]
    ensures Value(after) == Value(start) + 1
  {
    LowPart(start, i);
    LowPart(after, i);
    var b: int := start[i];
    OneMore(b, Radix(i));
    assert after[i] as int == 1 + b;
  }

  lemma LowPart(bytes: seq<u8>, i: nat)
    requires i < |bytes|
    ensures Value(bytes) == Value(bytes[..i]) + bytes[i] * Radix(i) + Radix(i + 1) * Value(bytes[i + 1..])
  {
    ValueAppend(bytes[..i], bytes[i]);
    assert bytes[..i + 1] == bytes[..i] + [bytes[i]];
    ValueSplit(bytes, i + 1);
  }

  lemma {:induction false} ValueSplit(bytes: seq<u8>, i: nat)
    requires i <= |bytes|
    ensures Value(bytes) == Value(bytes[..i]) + Radix(i) * Value(bytes[i..])
  {
    if i == 0 {
    } else {
      ValueSplit(bytes[1..], i - 1);
      assert bytes[..i][1..] == bytes[1..][..i - 1] && bytes[i..] == bytes[1..][i - 1..];
      Regroup(256, Radix(i - 1), Value(bytes[i..]));
    }
  }

  function Incremented(v: nat, times: nat, modulus: nat): nat {
    if times == 0 then v else Successor(Incremented(v, times - 1, modulus), modulus)
  }

  lemma {:induction false} IncrementedCongruent(v: nat, times: nat, modulus: nat)
    requires v < modulus
    ensures Incremented(v, times, modulus) < modulus
    ensures Divides(modulus, v + times - Incremented(v, times, modulus))
  {
    if times == 0 {
      DividesBy(modulus, 0);
    } else {
      IncrementedCongruent(v, times - 1, modulus);
      var last := Incremented(v, times - 1, modulus);
      DividesBy(modulus, 1);
      DividesSum(modulus, v + times - 1 - last, modulus);
    }
  }

  /** No nonce comes back before the counter has gone through its whole width. */
  lemma NonceFresh(v: nat, i: nat, j: nat, modulus: nat)
    requires v < modulus && i < j < i + modulus
    ensures Incremented(v, i, modulus) != Incremented(v, j, modulus)
  {
    IncrementedCongruent(v, i, modulus);
    IncrementedCongruent(v, j, modulus);
    var x, y := Incremented(v, i, modulus), Incremented(v, j, modulus);
    DividesSum(modulus, v + j - y, v + i - x);
    assert (v + j - y) - (v + i - x) == j - i + x - y;
    DividesSmall(modulus, j - i);
  }
}
