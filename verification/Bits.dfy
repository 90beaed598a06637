/** Fixed-width unsigned values and the bit operations the simulator performs on them.
    A `uint32_t` is a natural number below 2^32; a left shift multiplies and truncates, a right shift
    divides, and the three bitwise operators are defined one bit at a time. */
module Bits {

  type Byte = x: int | 0 <= x < 0x100
  type Half = x: int | 0 <= x < 0x1_0000
  type Word = x: int | 0 <= x < 0x1_0000_0000

  /** What an uninitialised local holds when the read that should have set it fails: an arbitrary word
      for each place (see the constants in Core). */
  type Garbage = nat -> Word

  datatype Option<+T> = None | Some(value: T)

  function Pow2(k: nat): (p: nat)
    ensures p > 0
  {
    if k == 0 then 1 else 2 * Pow2(k - 1)
  }

  /** Bit `i` of `x`: the macro get_bit. */
  function Bit(x: nat, i: nat): (b: nat)
    ensures b <= 1
  {
    x / Pow2(i) % 2
  }

  /** The two's complement reading of a word: a cast to int32_t. */
  function Signed(x: Word): (i: int)
    ensures -0x8000_0000 <= i < 0x8000_0000
    ensures (i - x) % 0x1_0000_0000 == 0
  {
    if x < 0x8000_0000 then x else x - 0x1_0000_0000
  }

  /** Any integer reduced to 32 bits: what unsigned addition and subtraction keep. */
  function Wrap(i: int): Word {
    i % 0x1_0000_0000
  }

  // ----- shifts -----

  function Lsl(x: Word, k: nat): Word {
    x * Pow2(k) % 0x1_0000_0000
  }

  function Lsr(x: Word, k: nat): Word {
    DivShrinks(x, Pow2(k));
    x / Pow2(k)
  }

  /** asr of util.c, whose callers never pass 0. */
  function Asr(x: Word, k: nat): Word
    requires 0 < k < 32
  {
    Orr(Lsr(x, k), if Bit(x, 31) == 1 then Lsl(0xFFFF_FFFF, 32 - k) else 0)
  }

  /** ror of util.c; rotating by 0 leaves the word alone. */
  function Ror(x: Word, k: nat): Word
    requires k < 32
  {
    Orr(Lsr(x, k), if k == 0 then 0 else Lsl(x, 32 - k))
  }

  // ----- bitwise operators -----

  function BitAnd(x: nat, y: nat): nat
    decreases x + y
  {
    if x == 0 && y == 0 then 0 else 2 * BitAnd(x / 2, y / 2) + (if x % 2 == 1 && y % 2 == 1 then 1 else 0)
  }

  function BitOr(x: nat, y: nat): nat
    decreases x + y
  {
    if x == 0 && y == 0 then 0 else 2 * BitOr(x / 2, y / 2) + (if x % 2 == 1 || y % 2 == 1 then 1 else 0)
  }

  function BitXor(x: nat, y: nat): nat
    decreases x + y
  {
    if x == 0 && y == 0 then 0 else 2 * BitXor(x / 2, y / 2) + (if x % 2 != y % 2 then 1 else 0)
  }

  function And(x: Word, y: Word): Word {
    Pow2Values();
    BitwiseBound(x, y, 32);
    BitAnd(x, y)
  }

  function Orr(x: Word, y: Word): Word {
    Pow2Values();
    BitwiseBound(x, y, 32);
    BitOr(x, y)
  }

  function Eor(x: Word, y: Word): Word {
    Pow2Values();
    BitwiseBound(x, y, 32);
    BitXor(x, y)
  }

  function Not(x: Word): Word {
    0xFFFF_FFFF - x
  }

  // ----- arithmetic used throughout -----

  /** Sums may be reduced to 32 bits early or late. */
  lemma WrapWrap(i: int, d: int)
    ensures Wrap(Wrap(i) + d) == Wrap(i + d)
  {
    var m := 0x1_0000_0000;
    var j := i % m + d;
    assert i == m * (i / m) + i % m && j == m * (j / m) + j % m;
    DivModUnique(i + d, m, i / m + j / m, j % m);
  }

  lemma WrapWord(x: Word)
    ensures Wrap(x) == x
  {
  }

  /** A multiple of 2^32 more or less. */
  lemma WrapTurns(i: int, k: int)
    ensures Wrap(i + 0x1_0000_0000 * k) == Wrap(i)
  {
    var m := 0x1_0000_0000;
    assert i == m * (i / m) + i % m;
    DivModUnique(i + m * k, m, i / m + k, i % m);
  }

  /** Less than a full turn apart is not the same. */
  lemma WrapApart(i: int, d: int)
    requires 0 < d < 0x1_0000_0000
    ensures Wrap(i + d) != Wrap(i)
  {
    WrapWrap(i, d);
    WrapSmall(Wrap(i), d);
  }

  lemma WrapSmall(x: Word, d: int)
    requires 0 <= d < 0x1_0000_0000
    ensures Wrap(x + d) == if x + d < 0x1_0000_0000 then x + d else x + d - 0x1_0000_0000
  {
  }

  lemma MulBound(d: int, k: int)
    requires d > 0
    ensures k >= 1 ==> d * k >= d
    ensures k <= -1 ==> d * k <= -d
  {
  }

  /** Quotient and remainder are determined by the division equation. */
  lemma DivModUnique(x: int, d: int, q: int, r: int)
    requires d > 0 && 0 <= r < d && x == d * q + r
    ensures x / d == q && x % d == r
  {
    var k := x / d - q;
    assert x == d * (x / d) + x % d;
    assert d * k == d * (x / d) - d * q;
    MulBound(d, k);
  }

  lemma DivShrinks(x: nat, d: nat)
    requires d > 0
    ensures 0 <= x / d <= x
  {
    var q := x / d;
    assert x == d * q + x % d;
    MulBound(d, q);
    if q >= 0 {
      MulMono(1, d, q);
    }
  }

  lemma MulMono(a: int, b: int, c: nat)
    requires a <= b
    ensures a * c <= b * c
  {
  }

  /** Division by 2 * p in two stages. */
  lemma Twice(x: nat, p: nat)
    requires p > 0
    ensures x / (2 * p) == x / p / 2
    ensures x % (2 * p) == x / p % 2 * p + x % p
  {
    var a, b := x / p, x % p;
    assert x == p * a + b;
    var c, d := a / 2, a % 2;
    assert p * a == (2 * p) * c + d * p;
    assert d * p <= p by { MulMono(d, 1, p); }
    DivModUnique(x, 2 * p, c, d * p + b);
  }

  lemma {:induction false} Pow2Add(i: nat, j: nat)
    ensures Pow2(i + j) == Pow2(i) * Pow2(j)
  {
    if i > 0 {
      Pow2Add(i - 1, j);
      assert Pow2(i + j) == 2 * Pow2(i + j - 1);
    }
  }

  lemma Pow2Start()
    ensures Pow2(0) == 1 && Pow2(1) == 2 && Pow2(2) == 4
  {
  }

  lemma Pow2Values()
    ensures Pow2(0) == 1 && Pow2(1) == 2 && Pow2(2) == 4 && Pow2(4) == 0x10 && Pow2(8) == 0x100
    ensures Pow2(16) == 0x1_0000 && Pow2(24) == 0x100_0000
    ensures Pow2(30) == 0x4000_0000 && Pow2(31) == 0x8000_0000 && Pow2(32) == 0x1_0000_0000
  {
    hide Pow2;
    Pow2Start();
    Pow2Add(2, 2);
    Pow2Add(4, 4);
    Pow2Add(8, 8);
    Pow2Add(16, 8);
    Pow2Add(16, 16);
    Pow2Add(1, 31);
    Pow2Add(1, 30);
  }

  /** One bit of a right shift at a time. */
  lemma DivPow2Step(x: nat, k: nat)
    ensures x / Pow2(k + 1) == x / 2 / Pow2(k)
    ensures x % Pow2(k + 1) == 2 * (x / 2 % Pow2(k)) + x % 2
  {
    var p, h := Pow2(k), x / 2;
    var q, r := h / p, h % p;
    assert h == p * q + r;
    assert (2 * p) * q == 2 * (p * q);
    DivModUnique(x, 2 * p, q, 2 * r + x % 2);
  }

  lemma {:induction false} DivPow2(x: nat, i: nat, j: nat)
    ensures x / Pow2(i) / Pow2(j) == x / Pow2(i + j)
    decreases i
  {
    hide Pow2;
    if i == 0 {
      Pow2Start();
      DivModUnique(x, 1, x, 0);
    } else {
      DivPow2Step(x, i - 1);
      DivPow2(x / 2, i - 1, j);
      DivPow2Step(x, i + j - 1);
    }
  }

  lemma {:induction false} BitwiseBound(x: nat, y: nat, k: nat)
    requires x < Pow2(k) && y < Pow2(k)
    ensures BitAnd(x, y) < Pow2(k) && BitOr(x, y) < Pow2(k) && BitXor(x, y) < Pow2(k)
    decreases k
  {
    if k > 0 {
      BitwiseBound(x / 2, y / 2, k - 1);
    }
  }

  lemma BitStep(x: nat, i: nat)
    ensures Bit(x, 0) == x % 2
    ensures Bit(x, i + 1) == Bit(x / 2, i)
  {
    DivPow2Step(x, i);
  }

  /** The operators act on each bit separately. */
  lemma {:induction false} BitwiseBits(x: nat, y: nat, i: nat)
    ensures Bit(BitAnd(x, y), i) == 1 <==> Bit(x, i) == 1 && Bit(y, i) == 1
    ensures Bit(BitOr(x, y), i) == 1 <==> Bit(x, i) == 1 || Bit(y, i) == 1
    ensures Bit(BitXor(x, y), i) == 1 <==> Bit(x, i) != Bit(y, i)
    decreases i
  {
    hide Bit;
    var j := if i == 0 then 0 else i - 1;
    BitStep(x, j);
    BitStep(y, j);
    BitStep(BitAnd(x, y), j);
    BitStep(BitOr(x, y), j);
    BitStep(BitXor(x, y), j);
    if i > 0 {
      BitwiseBits(x / 2, y / 2, i - 1);
    }
  }

  /** Two values whose bits do not overlap: or is addition. */
  lemma {:induction false} OrDisjoint(x: nat, y: nat, k: nat)
    requires x < Pow2(k) && y % Pow2(k) == 0
    ensures BitOr(x, y) == BitOr(y, x) == x + y
    decreases k
  {
    if k == 0 {
      OrZero(y);
    } else {
      DivPow2Step(y, k - 1);
      OrDisjoint(x / 2, y / 2, k - 1);
    }
  }

  lemma {:induction false} OrZero(x: nat)
    ensures BitOr(0, x) == BitOr(x, 0) == x
  {
    if x > 0 {
      OrZero(x / 2);
    }
  }

  /** Complementing a word complements each of its bits. */
  lemma {:induction false} NotBits(x: nat, k: nat, i: nat)
    requires x < Pow2(k) && i < k
    ensures Pow2(k) - 1 - x >= 0 && Bit(Pow2(k) - 1 - x, i) == 1 - Bit(x, i)
    decreases i
  {
    hide Bit;
    var y := Pow2(k) - 1 - x;
    assert y / 2 == Pow2(k - 1) - 1 - x / 2 && y % 2 == 1 - x % 2 by { assert Pow2(k) == 2 * Pow2(k - 1); }
    var j := if i == 0 then 0 else i - 1;
    BitStep(x, j);
    BitStep(y, j);
    if i > 0 {
      NotBits(x / 2, k - 1, i - 1);
    }
  }

  /** The bits of a number's low four bits. */
  lemma NibbleBits(k: nat, n: nat)
    requires n < 16
    ensures (16 * k + n) % 2 == n % 2 && (16 * k + n) / 4 % 2 == n / 4 % 2 && (16 * k + n) / 8 % 2 == n / 8
  {
    var q := 16 * k + n;
    DivModUnique(q, 2, 8 * k + n / 2, n % 2);
    DivModUnique(q, 4, 4 * k + n / 4, n % 4);
    DivModUnique(q, 8, 2 * k + n / 8, n % 8);
    DivModUnique(4 * k + n / 4, 2, 2 * k + n / 8, n / 4 % 2);
    DivModUnique(2 * k + n / 8, 2, k, n / 8);
  }

  // ----- reversal -----

  function Reversed<T>(s: seq<T>): (r: seq<T>)
    ensures |r| == |s|
  {
    if s == [] then [] else Reversed(s[1..]) + [s[0]]
  }

  lemma {:induction false} ReversedConcat<T>(s: seq<T>, t: seq<T>)
    ensures Reversed(s + t) == Reversed(t) + Reversed(s)
    decreases |s|
  {
    if s == [] {
      assert s + t == t;
    } else {
      ReversedConcat(s[1..], t);
      assert (s + t)[1..] == s[1..] + t;
    }
  }

  lemma {:induction false} ReversedTwice<T>(s: seq<T>)
    ensures Reversed(Reversed(s)) == s
    decreases |s|
  {
    if s != [] {
      ReversedTwice(s[1..]);
      ReversedConcat(Reversed(s[1..]), [s[0]]);
      assert Reversed([s[0]]) == [s[0]];
    }
  }
}
