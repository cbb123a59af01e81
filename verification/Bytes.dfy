/** Bytes, machine words and the byte-level operations every component shares. */
module Bytes {
  type byte = x: int | 0 <= x < 256
  type u32 = x: int | 0 <= x < 0x1_0000_0000

  const U32_SIZE: nat := 0x1_0000_0000

  /** The concatenation of a list of blocks. */
  function Flatten<T>(blocks: seq<seq<T>>): seq<T>
  {
    if blocks == [] then [] else blocks[0] + Flatten(blocks[1..])
  }

  lemma {:induction false} FlattenConcat<T>(xs: seq<seq<T>>, ys: seq<seq<T>>)
    ensures Flatten(xs + ys) == Flatten(xs) + Flatten(ys)
  {
    if xs == [] {
      assert xs + ys == ys;
    } else {
      assert (xs + ys)[1..] == xs[1..] + ys;
      FlattenConcat(xs[1..], ys);
    }
  }

  lemma Associative<T>(a: seq<T>, b: seq<T>, c: seq<T>)
    ensures a + b + c == a + (b + c)
  {
  }

  function Zeros(n: nat): (zeros: seq<byte>)
    ensures |zeros| == n && forall k :: 0 <= k < n ==> zeros[k] == 0
  {
    if n == 0 then [] else Zeros(n - 1) + [0]
  }

  /** Doubled so many times. */
  function Doubled(w: nat, times: nat): nat
  {
    if times == 0 then w else 2 * Doubled(w, times - 1)
  }

  // ---------------------------------------------------------------- bitwise operations

  function Pow2(n: nat): (r: nat)
    ensures r > 0
  {
    if n == 0 then 1 else 2 * Pow2(n - 1)
  }

  /** Bit `k` of a word. */
  predicate Bit(w: nat, k: nat)
  {
    if k == 0 then w % 2 == 1 else Bit(w / 2, k - 1)
  }

  /** Exclusive or of the low `n` bits of two words. */
  function XorBits(a: nat, b: nat, n: nat): (r: nat)
    ensures r < Pow2(n)
  {
    if n == 0 then 0
    else (if a % 2 == b % 2 then 0 else 1) + 2 * XorBits(a / 2, b / 2, n - 1)
  }

  /** Inclusive or of the low `n` bits of two words. */
  function OrBits(a: nat, b: nat, n: nat): (r: nat)
    ensures r < Pow2(n)
  {
    if n == 0 then 0
    else (if a % 2 == 1 || b % 2 == 1 then 1 else 0) + 2 * OrBits(a / 2, b / 2, n - 1)
  }

  lemma {:induction false} XorBitsMeaning(a: nat, b: nat, n: nat, k: nat)
    requires k < n
    ensures Bit(XorBits(a, b, n), k) <==> Bit(a, k) != Bit(b, k)
  {
    if k > 0 {
      XorBitsMeaning(a / 2, b / 2, n - 1, k - 1);
      assert XorBits(a, b, n) / 2 == XorBits(a / 2, b / 2, n - 1);
    }
  }

  lemma {:induction false} OrBitsMeaning(a: nat, b: nat, n: nat, k: nat)
    requires k < n
    ensures Bit(OrBits(a, b, n), k) <==> Bit(a, k) || Bit(b, k)
  {
    if k > 0 {
      OrBitsMeaning(a / 2, b / 2, n - 1, k - 1);
      assert OrBits(a, b, n) / 2 == OrBits(a / 2, b / 2, n - 1);
    }
  }

  lemma Halve(low: nat, high: nat)
    requires low < 2
    ensures (low + 2 * high) / 2 == high && (low + 2 * high) % 2 == low
  {
  }

  lemma XorBitsStep(low: nat, high: nat, b: nat, n: nat)
    requires low < 2 && n > 0
    ensures XorBits(low + 2 * high, b, n) == (if low == b % 2 then 0 else 1) + 2 * XorBits(high, b / 2, n - 1)
  {
    Halve(low, high);
  }

  lemma {:induction false} XorBitsUndo(a: nat, b: nat, n: nat)
    requires a < Pow2(n)
    ensures XorBits(XorBits(a, b, n), b, n) == a
  {
    if n > 0 {
      var low, high := if a % 2 == b % 2 then 0 else 1, XorBits(a / 2, b / 2, n - 1);
      XorBitsUndo(a / 2, b / 2, n - 1);
      assert XorBits(a, b, n) == low + 2 * high;
      hide XorBits;
      XorBitsStep(low, high, b, n);
    }
  }

  /** `a ^ b` and `a | b` on bytes. */
  function Xor(a: byte, b: byte): byte
  {
    assert Pow2(8) == 256;
    XorBits(a, b, 8)
  }

  function Or(a: byte, b: byte): byte
  {
    assert Pow2(8) == 256;
    OrBits(a, b, 8)
  }

  /** A bit is set in the exclusive or exactly when the two differ there, in the inclusive when it is set in either. */
  lemma BitsOfBytes(a: byte, b: byte, k: nat)
    requires k < 8
    ensures Bit(Xor(a, b), k) <==> Bit(a, k) != Bit(b, k)
    ensures Bit(Or(a, b), k) <==> Bit(a, k) || Bit(b, k)
  {
    assert Pow2(8) == 256;
    XorBitsMeaning(a, b, 8, k);
    OrBitsMeaning(a, b, 8, k);
  }

  lemma XorUndo(a: byte, k: byte)
    ensures Xor(Xor(a, k), k) == a
  {
    assert Pow2(8) == 256;
    XorBitsUndo(a, k, 8);
  }

  lemma {:induction false} XorBitsZero(a: nat, b: nat, n: nat)
    requires a < Pow2(n) && b < Pow2(n)
    ensures XorBits(a, b, n) == 0 <==> a == b
  {
    if n > 0 {
      XorBitsZero(a / 2, b / 2, n - 1);
      assert a == b <==> a % 2 == b % 2 && a / 2 == b / 2;
    }
  }

  lemma {:induction false} OrBitsZero(a: nat, b: nat, n: nat)
    requires a < Pow2(n) && b < Pow2(n)
    ensures OrBits(a, b, n) == 0 <==> a == 0 && b == 0
  {
    if n > 0 { OrBitsZero(a / 2, b / 2, n - 1); }
  }

  // ---------------------------------------------------------------- big-endian words

  function U16(n: nat): (r: seq<byte>)
    requires n < 0x1_0000
    ensures |r| == 2
  {
    [n / 256, n % 256]
  }

  function FromU16(b: seq<byte>): (n: nat)
    requires |b| == 2
    ensures n < 0x1_0000
  {
    (b[0] as int) * 256 + b[1]
  }

  function U32(n: u32): (r: seq<byte>)
    ensures |r| == 4
  {
    U16(n / 0x1_0000) + U16(n % 0x1_0000)
  }

  function Word(b0: byte, b1: byte, b2: byte, b3: byte): u32
  {
    ((b0 as int) * 256 + b1) * 0x1_0000 + (b2 as int) * 256 + b3
  }

  function FromU32(b: seq<byte>): (n: u32)
    requires |b| == 4
  {
    Word(b[0], b[1], b[2], b[3])
  }

  /** The most significant byte comes first. */
  lemma BigEndian(n: u32, b: seq<byte>)
    requires |b| == 4
    ensures U32(n) == b <==> n == (b[0] as int) * 0x100_0000 + (b[1] as int) * 0x1_0000 + (b[2] as int) * 0x100 + b[3]
    ensures FromU32(b) == (b[0] as int) * 0x100_0000 + (b[1] as int) * 0x1_0000 + (b[2] as int) * 0x100 + b[3]
  {
    U32RoundTrip(n);
    U32Unique(b);
  }

  lemma SplitHalves(high: nat, low: nat)
    requires low < 0x1_0000
    ensures (high * 0x1_0000 + low) / 0x1_0000 == high && (high * 0x1_0000 + low) % 0x1_0000 == low
  {
  }

  lemma U16Of(b0: byte, b1: byte)
    ensures U16((b0 as int) * 256 + b1) == [b0, b1]
  {
  }

  lemma WordIs(b0: byte, b1: byte, b2: byte, b3: byte, high: nat, low: nat)
    requires high == (b0 as int) * 256 + b1 && low == (b2 as int) * 256 + b3
    ensures Word(b0, b1, b2, b3) == high * 0x1_0000 + low && low < 0x1_0000 && high < 0x1_0000
  {
  }

  lemma U32Unique(b: seq<byte>)
    requires |b| == 4
    ensures U32(FromU32(b)) == b
  {
    hide U16, Word;
    var high, low := (b[0] as int) * 256 + b[1], (b[2] as int) * 256 + b[3];
    WordIs(b[0], b[1], b[2], b[3], high, low);
    SplitHalves(high, low);
    U16Of(b[0], b[1]);
    U16Of(b[2], b[3]);
    assert U32(FromU32(b)) == U16(high) + U16(low);
  }

  /** The highest byte of a word, and the rest. */
  lemma WordLow(b0: byte, b1: byte, b2: byte, b3: byte)
    ensures Word(b0, b1, b2, b3) == (b0 as int) * 0x100_0000 + Word(0, b1, b2, b3)
    ensures Word(0, b1, b2, b3) < 0x100_0000
  {
  }

  lemma LowWord(n: u32, high: nat, low: nat)
    requires n == high * 0x100_0000 + low && low < 0x100_0000
    ensures n % 0x100_0000 == low
  {
  }

  lemma U16RoundTrip(n: nat)
    requires n < 0x1_0000
    ensures FromU16(U16(n)) == n
  {
  }

  lemma U16BigEndian(n: nat)
    requires n < 0x1_0000
    ensures (U16(n)[0] as int) * 256 + U16(n)[1] == n
  {
  }

  lemma U32RoundTrip(n: u32)
    ensures FromU32(U32(n)) == n
  {
  }
}
