/**
 * The 32 bits of a Kotlin `Int`, least significant first, and the bitwise
 * operators the recipe word is packed and unpacked with: `or`, `shl`,
 * `ushr ... and mask` and the single-bit test.
 */
module Int32Bits {
  import opened Int32Math

  type Word = w: seq<bool> | |w| == 32 witness seq(32, i => false)

  function Pow2(n: nat): (p: nat)
    ensures p >= 1
  {
    if n == 0 then 1 else 2 * Pow2(n - 1)
  }

  /** The value of bits read least significant first. */
  function Unsigned(b: seq<bool>): (v: nat)
    ensures v < Pow2(|b|)
  {
    if b == [] then 0 else (if b[0] then 1 else 0) + 2 * Unsigned(b[1..])
  }

  /** The lowest `n` bits of `v`, least significant first. */
  function BitsOf(v: nat, n: nat): (b: seq<bool>)
    ensures |b| == n
  {
    if n == 0 then [] else [v % 2 == 1] + BitsOf(v / 2, n - 1)
  }

  /** Bit `i` of `v`. */
  function Bit(v: nat, i: nat): bool
  {
    (v / Pow2(i)) % 2 == 1
  }

  /** The two's complement bits of an `Int`. */
  function WordOf(x: Int32): Word
  {
    seq(32, i requires 0 <= i < 32 => Bit(x % MODULUS, i))
  }

  /** The `Int` whose two's complement bits are `w`. */
  function IntOf(w: Word): Int32
  {
    Wrap(Unsigned(w))
  }

  function Zero(): Word
  {
    seq(32, i => false)
  }

  /** `a or b`. */
  function Or(a: Word, b: Word): Word
  {
    seq(32, i requires 0 <= i < 32 => a[i] || b[i])
  }

  /** `a and b`. */
  function And(a: Word, b: Word): Word
  {
    seq(32, i requires 0 <= i < 32 => a[i] && b[i])
  }

  /** `w shl s`: Kotlin uses the low five bits of the shift distance. */
  function Shl(w: Word, s: nat): Word
  {
    var t := s % 32;
    seq(32, i requires 0 <= i < 32 => t <= i && w[i - t])
  }

  /** `(w ushr lo) and (2^len - 1)`: the `len` bits from bit `lo` up, as a number. */
  function Field(w: Word, lo: nat, len: nat): nat
    requires lo + len <= 32
  {
    Unsigned(w[lo..lo + len])
  }

  /** `w and (1 shl bit) > 0`, which is the bit itself below the sign bit. */
  predicate HasBit(w: Word, bit: nat)
    requires bit < 31
  {
    w[bit]
  }

  // ---------------------------------------------------------------------
  // Numbers and their bits
  // ---------------------------------------------------------------------

  lemma PositiveFactor(x: int, d: int)
    requires d > 0 && x * d > 0
    ensures x > 0
  {
  }

  lemma DivModUnique(v: int, d: int, q: int, r: int)
    requires d > 0 && v == q * d + r && 0 <= r < d
    ensures v / d == q && v % d == r
  {
    var q', r' := v / d, v % d;
    assert v == q' * d + r';
    assert (q - q' + 1) * d == d + r' - r;
    assert (q' - q + 1) * d == d + r - r';
    PositiveFactor(q - q' + 1, d);
    PositiveFactor(q' - q + 1, d);
  }

  /** Taking the lowest bit off and the remaining `n` bits. */
  lemma ModDouble(v: nat, p: nat)
    requires p >= 1
    ensures v % (2 * p) == v % 2 + 2 * ((v / 2) % p)
  {
    var h := v / 2;
    assert v == 2 * h + v % 2;
    assert h == p * (h / p) + h % p;
    assert v == (h / p) * (2 * p) + (v % 2 + 2 * (h % p));
    DivModUnique(v, 2 * p, h / p, v % 2 + 2 * (h % p));
  }

  /** Reading back the bits of a number gives the number modulo `2^n`. */
  lemma {:induction false} UnsignedBitsOf(v: nat, n: nat)
    ensures Unsigned(BitsOf(v, n)) == v % Pow2(n)
  {
    if n > 0 {
      var b := BitsOf(v, n);
      assert b[1..] == BitsOf(v / 2, n - 1);
      UnsignedBitsOf(v / 2, n - 1);
      ModDouble(v, Pow2(n - 1));
    }
  }

  /** Writing out the value of some bits gives the same bits. */
  lemma {:induction false} BitsOfUnsigned(b: seq<bool>)
    ensures BitsOf(Unsigned(b), |b|) == b
  {
    if b != [] {
      var u := Unsigned(b);
      assert u % 2 == (if b[0] then 1 else 0) && u / 2 == Unsigned(b[1..]);
      BitsOfUnsigned(b[1..]);
    }
  }

  /** A number below `2^k` has no bit set from bit `k` up. */
  lemma {:induction false} BitsOfHigh(v: nat, n: nat, k: nat, i: nat)
    requires v < Pow2(k) && k <= i < n
    ensures !BitsOf(v, n)[i]
  {
    if i == 0 {
      assert v == 0;
    } else {
      var k' := if k == 0 then 0 else k - 1;
      assert v / 2 < Pow2(k');
      BitsOfHigh(v / 2, n - 1, k', i - 1);
    }
  }

  /** The bits written out by `BitsOf` are the bits of the number. */
  lemma {:induction false} BitsOfBit(v: nat, n: nat, i: nat)
    requires i < n
    ensures BitsOf(v, n)[i] == Bit(v, i)
  {
    if i > 0 {
      BitsOfBit(v / 2, n - 1, i - 1);
      var p := Pow2(i - 1);
      var q, r := (v / 2) / p, (v / 2) % p;
      assert v == q * (2 * p) + (2 * r + v % 2);
      DivModUnique(v, 2 * p, q, 2 * r + v % 2);
    }
  }

  lemma WordOfBits(x: Int32)
    ensures WordOf(x) == BitsOf(x % MODULUS, 32)
  {
    forall i | 0 <= i < 32
      ensures WordOf(x)[i] == BitsOf(x % MODULUS, 32)[i]
    {
      BitsOfBit(x % MODULUS, 32, i);
    }
  }

  lemma {:induction false} BitsOfPrefix(v: nat, n: nat, m: nat)
    requires m <= n
    ensures BitsOf(v, n)[..m] == BitsOf(v, m)
  {
    if m > 0 {
      BitsOfPrefix(v / 2, n - 1, m - 1);
      assert BitsOf(v, n)[..m] == [v % 2 == 1] + BitsOf(v / 2, n - 1)[..m - 1];
    }
  }

  lemma {:induction false} Pow2Add(a: nat, b: nat)
    ensures Pow2(a + b) == Pow2(a) * Pow2(b)
  {
    if a > 0 {
      Pow2Add(a - 1, b);
    }
  }

  lemma Pow2Word()
    ensures Pow2(31) == 0x8000_0000 && Pow2(32) == MODULUS
  {
    assert Pow2(4) == 16 by {
      assert Pow2(1) == 2;
      assert Pow2(2) == 4;
      assert Pow2(3) == 8;
    }
    Pow2Add(4, 4);
    Pow2Add(8, 8);
    Pow2Add(16, 16);
    Pow2Add(16, 15);
    Pow2Add(15, 1);
    Pow2Add(8, 7);
    Pow2Add(4, 3);
    assert Pow2(3) == 8 && Pow2(1) == 2;
  }

  /** The value of some bits is the value of all but the top one, plus the top one's weight. */
  lemma {:induction false} UnsignedTop(b: seq<bool>)
    requires b != []
    ensures Unsigned(b) == Unsigned(b[..|b| - 1]) + (if b[|b| - 1] then Pow2(|b| - 1) else 0)
  {
    if |b| > 1 {
      assert b[1..][..|b| - 2] == b[..|b| - 1][1..];
      UnsignedTop(b[1..]);
    }
  }

  // ---------------------------------------------------------------------
  // Int and Word
  // ---------------------------------------------------------------------

  /** Reading an `Int`'s bits back gives the `Int`. */
  lemma IntOfWordOf(x: Int32)
    ensures IntOf(WordOf(x)) == x
  {
    Pow2Word();
    WordOfBits(x);
    var u := x % MODULUS;
    UnsignedBitsOf(u, 32);
    DivModUnique(u, MODULUS, 0, u);
    if x < 0 {
      DivModUnique(x, MODULUS, -1, x + MODULUS);
      DivModUnique(u - MIN, MODULUS, 1, x - MIN);
    } else {
      DivModUnique(x, MODULUS, 0, x);
    }
  }

  /** Every 32 bits are the bits of exactly the `Int` they denote. */
  lemma WordOfIntOf(w: Word)
    ensures WordOf(IntOf(w)) == w
  {
    Pow2Word();
    var u := Unsigned(w);
    var x := IntOf(w);
    assert x % MODULUS == u by {
      assert (x - u) % MODULUS == 0;
      DivModUnique(x, MODULUS, (x - u) / MODULUS, u);
    }
    WordOfBits(x);
    BitsOfUnsigned(w);
  }

  /** The lowest bit decides the parity of the value. */
  lemma UnsignedParity(b: seq<bool>)
    requires b != []
    ensures Unsigned(b) == (if b[0] then 1 else 0) + 2 * Unsigned(b[1..])
    ensures Unsigned(b) % 2 == (if b[0] then 1 else 0)
  {
    DivModUnique(Unsigned(b), 2, Unsigned(b[1..]), if b[0] then 1 else 0);
  }

  /** The value of a word is below `2^31` exactly when its top bit is clear. */
  lemma UnsignedSign(w: Word)
    ensures Unsigned(w) <= MAX <==> !w[31]
    ensures Unsigned(w) < MODULUS
  {
    Pow2Word();
    UnsignedTop(w);
    assert |w[..31]| == 31;
    assert Unsigned(w[..31]) < Pow2(31);
  }

  /** Above `MAX`, a value wraps to itself minus `2^32`. */
  lemma WrapHigh(u: int)
    requires MAX < u < MODULUS
    ensures Wrap(u) == u - MODULUS
  {
    DivModUnique(u - MIN, MODULUS, 1, u - MIN - MODULUS);
  }

  /** An `Int` is negative exactly when its sign bit is set, and odd exactly when its lowest bit is. */
  lemma SignAndParity(w: Word)
    ensures IntOf(w) < 0 <==> w[31]
    ensures IntOf(w) % 2 == (if w[0] then 1 else 0)
  {
    var u := Unsigned(w);
    var low := if w[0] then 1 else 0;
    UnsignedParity(w);
    UnsignedSign(w);
    if w[31] {
      WrapHigh(u);
      DivModUnique(u - MODULUS, 2, Unsigned(w[1..]) - MODULUS / 2, low);
    }
  }

  lemma OrAt(a: Word, b: Word, j: nat)
    requires j < 32
    ensures Or(a, b)[j] == (a[j] || b[j])
  {
  }

  /** The bits of a non-negative `Int` shifted left by `s`. */
  lemma ShlBit(v: Int32, s: nat, j: nat)
    requires 0 <= v && s < 32 && j < 32
    ensures Shl(WordOf(v), s)[j] == (s <= j && BitsOf(v, 32)[j - s])
  {
    assert WordOf(v) == BitsOf(v, 32) by {
      WordOfBits(v);
      assert v % MODULUS == v;
    }
    assert s % 32 == s;
  }

  lemma {:induction false} Pow2Monotone(a: nat, b: nat)
    requires a <= b
    ensures Pow2(a) <= Pow2(b)
  {
    if a < b {
      Pow2Monotone(a, b - 1);
    }
  }

  /** A number below `2^i` has bit `i` clear. */
  lemma BitAbove(v: nat, i: nat)
    requires v < Pow2(i)
    ensures !Bit(v, i)
  {
    DivModUnique(v, Pow2(i), 0, v);
  }

  /** `1` has bit 0 and no other. */
  lemma OneBit(i: nat)
    requires i < 32
    ensures WordOf(1)[i] == (i == 0)
  {
    assert WordOf(1)[i] == Bit(1, i);
    if i > 0 {
      Pow2Monotone(1, i);
      BitAbove(1, i);
    }
  }

  /** `1 shl b` has bit `b` and no other. */
  lemma ShlOneBit(b: nat, j: nat)
    requires b < 32 && j < 32
    ensures Shl(WordOf(1), b)[j] == (j == b)
  {
    assert b % 32 == b;
    if b <= j {
      OneBit(j - b);
    }
  }

  /** A small non-negative value shifted left by `lo` occupies the bits `lo .. lo + len - 1`. */
  lemma ShlSmallBit(v: Int32, lo: nat, len: nat, j: nat)
    requires 0 <= v < Pow2(len) && lo < 32 && j < 32
    ensures Shl(WordOf(v), lo)[j] == (lo <= j < lo + len && BitsOf(v, 32)[j - lo])
  {
    ShlBit(v, lo, j);
    if lo + len <= j {
      BitsOfHigh(v, 32, len, j - lo);
    }
  }

  /** The bits of a non-negative `Int` are those of the number. */
  lemma WordOfBit(v: Int32, j: nat)
    requires 0 <= v && j < 32
    ensures WordOf(v)[j] == BitsOf(v, 32)[j]
  {
    WordOfBits(v);
    assert v % MODULUS == v;
  }

  /** A field whose bits are the low bits of `v` reads back as `v` modulo its width. */
  lemma FieldOf(w: Word, lo: nat, len: nat, v: nat)
    requires lo + len <= 32
    requires forall i :: 0 <= i < len ==> w[lo + i] == BitsOf(v, 32)[i]
    ensures Field(w, lo, len) == v % Pow2(len)
    ensures v < Pow2(len) ==> Field(w, lo, len) == v
  {
    BitsOfPrefix(v, 32, len);
    var bits := BitsOf(v, len);
    assert w[lo..lo + len] == bits by {
      forall i | 0 <= i < len
        ensures w[lo..lo + len][i] == bits[i]
      {
        assert bits[i] == BitsOf(v, 32)[..len][i];
      }
    }
    UnsignedBitsOf(v, len);
    if v < Pow2(len) {
      DivModUnique(v, Pow2(len), 0, v);
    }
  }

  /** Bit `k` of a number in `2^k .. 2^(k+1) - 1` is set. */
  lemma TopBit(v: nat, k: nat)
    requires k < 32 && Pow2(k) <= v < 2 * Pow2(k)
    ensures BitsOf(v, 32)[k]
  {
    var b := BitsOf(v, k + 1);
    UnsignedBitsOf(v, k + 1);
    DivModUnique(v, Pow2(k + 1), 0, v);
    UnsignedTop(b);
    BitsOfPrefix(v, 32, k + 1);
    assert b[k] == BitsOf(v, 32)[..k + 1][k];
  }

  lemma WordOfZero()
    ensures WordOf(0) == Zero()
  {
    forall i | 0 <= i < 32
      ensures WordOf(0)[i] == Zero()[i]
    {
      assert WordOf(0)[i] == Bit(0, i);
    }
  }

  /** A word is the number 0 exactly when no bit is set. */
  lemma IntOfZero(m: Word)
    ensures IntOf(m) == 0 <==> forall j :: 0 <= j < 32 ==> !m[j]
  {
    WordOfZero();
    WordOfIntOf(m);
    if forall j :: 0 <= j < 32 ==> !m[j] {
      assert m == WordOf(0);
      IntOfWordOf(0);
    }
  }

  /** Below the sign bit, the test `w and (1 shl bit) > 0` holds exactly when bit `bit` of `w` is set. */
  lemma HasBitMeans(w: Word, bit: nat)
    requires bit < 31
    ensures HasBit(w, bit) <==> IntOf(And(w, Shl(WordOf(1), bit))) > 0
  {
    var m := And(w, Shl(WordOf(1), bit));
    forall j | 0 <= j < 32
      ensures m[j] == (j == bit && w[bit])
    {
      ShlOneBit(bit, j);
    }
    assert m[bit] == w[bit] && !m[31];
    SignAndParity(m);
    IntOfZero(m);
  }
}
