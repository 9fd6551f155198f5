/** JavaScript numbers as the sharing code uses them: integers with the 32-bit `^`, and `undefined`. */
module JsNumbers {
  import opened Gf256

  datatype Js = Num(n: int) | Undefined

  /** Bitwise exclusive or. */
  function Xor(a: nat, b: nat): nat {
    if a == 0 && b == 0 then 0
    else 2 * Xor(a / 2, b / 2) + (if a % 2 == b % 2 then 0 else 1)
  }

  const WORD: nat := 0x1_0000_0000

  /** The 32 bits `^` sees of a value; `undefined` has none set. */
  function Word(a: Js): (w: nat)
    ensures w < WORD
  {
    if a.Num? then a.n % WORD else 0
  }

  /** 32 bits as a signed number. */
  function Signed(w: nat): int { if w < 0x8000_0000 then w else w - WORD }

  /** The operator `^`. */
  function BitXor(a: Js, b: Js): Js { Num(Signed(Xor(Word(a), Word(b)))) }

  predicate IsByte(a: Js) { a.Num? && 0 <= a.n < 256 }

  function Lift(x: Byte): (a: Js)
    ensures IsByte(a)
  {
    ByteNat(x);
    Num(ToNat(x))
  }

  lemma {:induction false} XorEqual(a: nat, b: nat)
    ensures Xor(a, b) == 0 <==> a == b
  {
    if a == 0 && b == 0 {
    } else {
      XorEqual(a / 2, b / 2);
    }
  }

  lemma {:induction false} XorRange(n: nat, a: nat, b: nat)
    requires b < Pow2(n)
    ensures Xor(a, b) < Pow2(n) <==> a < Pow2(n)
  {
    if n > 0 {
      XorRange(n - 1, a / 2, b / 2);
    } else {
      XorEqual(a, b);
    }
  }

  lemma {:induction false} LowXor(a: nat, b: nat, k: nat)
    ensures forall i :: 0 <= i < k ==> Low(Xor(a, b), k)[i] == (Low(a, k)[i] != Low(b, k)[i])
  {
    if k == 0 {
    } else {
      var x := Xor(a, b);
      assert x / 2 == Xor(a / 2, b / 2) && (x % 2 == 1 <==> a % 2 != b % 2);
      LowXor(a / 2, b / 2, k - 1);
      forall i | 0 <= i < k ensures Low(x, k)[i] == (Low(a, k)[i] != Low(b, k)[i]) {
        if i > 0 {
          assert Low(x, k)[i] == Low(x / 2, k - 1)[i - 1];
        }
      }
    }
  }

  /** On bytes `^` is the addition of the field. */
  lemma FromXor(a: nat, b: nat)
    ensures FromNat(Xor(a, b)) == Add(FromNat(a), FromNat(b))
  {
    LowXor(a, b, 8);
  }

  lemma XorBytes(a: Byte, b: Byte)
    ensures Xor(ToNat(a), ToNat(b)) == ToNat(Add(a, b))
  {
    ByteNat(a); ByteNat(b);
    FromXor(ToNat(a), ToNat(b));
    assert Pow2(8) == 256;
    XorRange(8, ToNat(a), ToNat(b));
    NatByte(Xor(ToNat(a), ToNat(b)));
  }

  lemma XorWord(a: nat, b: nat)
    requires a < WORD && b < WORD
    ensures Xor(a, b) < WORD
  {
    assert Pow2(8) == 256;
    assert Pow2(12) == 16 * Pow2(8);
    assert Pow2(16) == 16 * Pow2(12);
    assert Pow2(20) == 16 * Pow2(16);
    assert Pow2(24) == 16 * Pow2(20);
    assert Pow2(28) == 16 * Pow2(24);
    assert Pow2(32) == 16 * Pow2(28) == WORD;
    XorRange(32, a, b);
  }

  /** The operator gives zero exactly for numbers that agree modulo 2^32. */
  lemma BitXorZero(a: Js, b: Js)
    ensures BitXor(a, b) == Num(0) <==> Word(a) == Word(b)
  {
    XorEqual(Word(a), Word(b));
    XorWord(Word(a), Word(b));
  }

  /** Exclusive or of a byte with a number that is none modulo 2^32 is no byte. */
  lemma XorWide(a: Js, b: Js)
    requires IsByte(b)
    ensures IsByte(BitXor(a, b)) <==> Word(a) < 256
  {
    assert Pow2(8) == 256;
    XorRange(8, Word(a), Word(b));
    XorWord(Word(a), Word(b));
  }

  // ---- the arithmetic of initTables ----

  lemma {:induction false} LowAbove(r: nat, q: nat, k: nat)
    ensures Low(r + Pow2(k) * q, k) == Low(r, k)
  {
    if k == 0 {
    } else {
      var h := Pow2(k - 1) * q;
      assert Pow2(k) * q == 2 * h;
      assert (r + 2 * h) / 2 == r / 2 + h && (r + 2 * h) % 2 == r % 2;
      LowAbove(r / 2, q, k - 1);
    }
  }

  /** Masking with 0xff keeps what the byte stores. */
  lemma Mask(n: nat)
    ensures FromNat(n % 256) == FromNat(n) && ToNat(FromNat(n)) == n % 256
  {
    assert Pow2(8) == 256;
    LowAbove(n % 256, n / 256, 8);
    NatByte(n % 256);
  }

  lemma {:induction false} LowPrefix(n: nat, k: nat)
    ensures Low(n, k + 1)[..k] == Low(n, k)
  {
    if k == 0 {
    } else {
      LowPrefix(n / 2, k - 1);
      assert Low(n, k + 1)[..k] == [n % 2 == 1] + Low(n / 2, k)[..k - 1];
    }
  }

  lemma {:induction false} HighBit(bits: seq<bool>)
    requires bits != []
    ensures ToNat(bits) >= Pow2(|bits| - 1) <==> bits[|bits| - 1]
  {
    if |bits| <= 1 {
    } else {
      HighBit(bits[1..]);
    }
  }

  lemma Shift(x: Byte)
    ensures FromNat(2 * ToNat(x)) == [false] + x[..7]
  {
    var n := ToNat(x);
    ByteNat(x);
    LowPrefix(n, 7);
    assert (2 * n) / 2 == n && (2 * n) % 2 == 0;
    assert Low(2 * n, 8) == [false] + Low(n, 7);
  }

  lemma LowStep(n: nat, k: nat, bit: bool, rest: seq<bool>)
    requires k > 0 && (n % 2 == 1) == bit && Low(n / 2, k - 1) == rest
    ensures Low(n, k) == [bit] + rest
  {}

  lemma ReductionBits()
    ensures FromNat(0x11b) == [I, I, O, I, I, O, O, O]
  {
    LowStep(2, 1, O, []);
    LowStep(4, 2, O, [O]);
    LowStep(8, 3, O, [O, O]);
    LowStep(17, 4, I, [O, O, O]);
    LowStep(35, 5, I, [I, O, O, O]);
    LowStep(70, 6, O, [I, I, O, O, O]);
    LowStep(141, 7, I, [O, I, I, O, O, O]);
    LowStep(283, 8, I, [I, O, I, I, O, O, O]);
  }

  /** Shifting left, reducing by 0x11b when the high bit was set, and masking is doubling. */
  lemma ShiftReduce(x: Byte)
    ensures XTime(x) == FromNat(if ToNat(x) >= 128 then Xor(2 * ToNat(x), 0x11b) else 2 * ToNat(x))
  {
    assert Pow2(7) == 128;
    HighBit(x);
    Shift(x);
    ReductionBits();
    FromXor(2 * ToNat(x), 0x11b);
    var s, y, r := [false] + x[..7], XTime(x), Add([false] + x[..7], [I, I, O, I, I, O, O, O]);
    forall i | 0 <= i < 8 ensures y[i] == if x[7] then r[i] else s[i] {}
  }
}
