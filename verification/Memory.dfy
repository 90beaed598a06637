/** memory.c: byte, half and word accesses of either endianness over one array of bytes. */
module Memory {
  import opened Bits

  /** Sizes 1 and 2 are excluded: there the bound `size - 3` of a word access wraps around.  Addresses
      have 32 bits. */
  type Bytes = m: seq<Byte> | 3 <= |m| <= 0x1_0000_0000 witness [0, 0, 0]

  const SUCCESS := 0
  const INDEX_OUT_OF_RANGE := 8

  // ----- positional value of a string of bytes -----

  /** Most significant byte first. */
  function BigValue(bs: seq<Byte>): nat {
    if bs == [] then 0 else 256 * BigValue(bs[..|bs| - 1]) + bs[|bs| - 1]
  }

  /** Least significant byte first. */
  function LittleValue(bs: seq<Byte>): nat {
    if bs == [] then 0 else bs[0] + 256 * LittleValue(bs[1..])
  }

  function Value(bs: seq<Byte>, be: bool): nat {
    if be then BigValue(bs) else LittleValue(bs)
  }

  /** The n low bytes of v. */
  function BigDigits(v: nat, n: nat): (bs: seq<Byte>)
    ensures |bs| == n
  {
    if n == 0 then [] else BigDigits(v / 256, n - 1) + [v % 256]
  }

  function LittleDigits(v: nat, n: nat): (bs: seq<Byte>)
    ensures |bs| == n
  {
    if n == 0 then [] else [v % 256] + LittleDigits(v / 256, n - 1)
  }

  function Digits(v: nat, n: nat, be: bool): (bs: seq<Byte>)
    ensures |bs| == n
  {
    if be then BigDigits(v, n) else LittleDigits(v, n)
  }

  // ----- accesses -----

  /** The whole item lies in memory. */
  predicate InRange(m: Bytes, a: Word, n: nat) {
    a + n <= |m|
  }

  function Load(m: Bytes, a: Word, n: nat, be: bool): nat
    requires InRange(m, a, n)
  {
    Value(m[a..a + n], be)
  }

  /** A write that does not fit leaves memory alone. */
  function Store(m: Bytes, a: Word, n: nat, v: nat, be: bool): (r: Bytes)
    ensures |r| == |m|
  {
    if InRange(m, a, n) then m[..a] + Digits(v, n, be) + m[a + n..] else m
  }

  function LoadByte(m: Bytes, a: Word): Option<Byte> {
    if InRange(m, a, 1) then Some(m[a]) else None
  }

  function LoadHalf(m: Bytes, a: Word, be: bool): Option<Half> {
    if InRange(m, a, 2) then ValueBound(m[a..a + 2], be); Pow2Values(); Some(Load(m, a, 2, be)) else None
  }

  function LoadWord(m: Bytes, a: Word, be: bool): Option<Word> {
    if InRange(m, a, 4) then ValueBound(m[a..a + 4], be); Pow2Values(); Some(Load(m, a, 4, be)) else None
  }

  // ----- value and digits are inverse -----

  lemma {:induction false} ValueBound(bs: seq<Byte>, be: bool)
    ensures Value(bs, be) < Pow2(8 * |bs|)
    decreases |bs|
  {
    if bs != [] {
      var n := |bs| - 1;
      ValueBound(if be then bs[..n] else bs[1..], be);
      Pow2Byte(n);
    }
  }

  lemma Pow2Byte(n: nat)
    ensures Pow2(8 * (n + 1)) == 256 * Pow2(8 * n)
  {
    Pow2Add(8 * n, 8);
    Pow2Values();
  }

  lemma {:induction false} DigitsOfValue(bs: seq<Byte>, be: bool)
    ensures Digits(Value(bs, be), |bs|, be) == bs
    decreases |bs|
  {
    if bs != [] {
      DigitsOfValue(if be then bs[..|bs| - 1] else bs[1..], be);
    }
  }

  lemma {:induction false} ValueOfDigits(v: nat, n: nat, be: bool)
    requires v < Pow2(8 * n)
    ensures Value(Digits(v, n, be), be) == v
    decreases n
  {
    if n > 0 {
      Pow2Byte(n - 1);
      ValueOfDigits(v / 256, n - 1, be);
      if be {
        assert BigDigits(v, n)[..n - 1] == BigDigits(v / 256, n - 1);
      } else {
        assert LittleDigits(v, n)[1..] == LittleDigits(v / 256, n - 1);
      }
    }
  }

  /** The value of two strings put together. */
  lemma {:induction false} ValueOfConcat(x: seq<Byte>, y: seq<Byte>)
    ensures BigValue(x + y) == BigValue(x) * Pow2(8 * |y|) + BigValue(y)
    decreases |y|
  {
    hide Pow2;
    if y == [] {
      assert x + y == x;
      Pow2Values();
    } else {
      var n := |y| - 1;
      ValueOfConcat(x, y[..n]);
      Pow2Byte(n);
      assert (x + y)[..|x + y| - 1] == x + y[..n];
      Times256(BigValue(x), Pow2(8 * n));
    }
  }

  lemma Times256(v: nat, p: nat)
    ensures 256 * (v * p) == v * (256 * p)
  {
  }

  /** Reading with the other endianness is reading the bytes in reverse. */
  lemma {:induction false} OtherEndianness(bs: seq<Byte>)
    ensures LittleValue(bs) == BigValue(Reversed(bs))
    decreases |bs|
  {
    if bs != [] {
      OtherEndianness(bs[1..]);
    }
  }

  // ----- laws of loads and stores -----

  /** A store followed by a load of the same item, and the bytes it leaves alone. */
  lemma LoadAfterStore(m: Bytes, a: Word, n: nat, v: nat, be: bool)
    requires InRange(m, a, n) && v < Pow2(8 * n)
    ensures Load(Store(m, a, n, v, be), a, n, be) == v
    ensures forall i :: 0 <= i < |m| && !(a <= i < a + n) ==> Store(m, a, n, v, be)[i] == m[i]
  {
    ValueOfDigits(v, n, be);
    assert Store(m, a, n, v, be)[a..a + n] == Digits(v, n, be);
  }

  /** Items that do not overlap do not see each other's stores. */
  lemma LoadElsewhere(m: Bytes, a: Word, n: nat, v: nat, be: bool, b: Word, k: nat, be': bool)
    requires InRange(m, b, k)
    requires a + n <= b || b + k <= a
    ensures Load(Store(m, a, n, v, be), b, k, be') == Load(m, b, k, be')
  {
    assert Store(m, a, n, v, be)[b..b + k] == m[b..b + k];
  }

  /** Storing what a load returned changes nothing. */
  lemma StoreWhatWasLoaded(m: Bytes, a: Word, n: nat, be: bool)
    requires InRange(m, a, n)
    ensures Store(m, a, n, Load(m, a, n, be), be) == m
  {
    hide BigValue, LittleValue, BigDigits, LittleDigits;
    DigitsOfValue(m[a..a + n], be);
    assert m == m[..a] + m[a..a + n] + m[a + n..];
  }

  /** Mixed widths: an item is its two parts put together, the more significant first when big endian. */
  lemma LoadInParts(m: Bytes, a: Word, n: nat, k: nat, be: bool)
    requires a + n + k <= |m| && a + n < 0x1_0000_0000
    ensures Load(m, a, n + k, be)
         == if be then Load(m, a, n, be) * Pow2(8 * k) + Load(m, a + n, k, be)
            else Load(m, a, n, be) + Load(m, a + n, k, be) * Pow2(8 * n)
  {
    hide Pow2, BigValue, LittleValue, Reversed;
    var x, y := m[a..a + n], m[a + n..a + n + k];
    assert m[a..a + (n + k)] == x + y;
    if be {
      ValueOfConcat(x, y);
    } else {
      ReversedConcat(x, y);
      OtherEndianness(x);
      OtherEndianness(y);
      OtherEndianness(x + y);
      ValueOfConcat(Reversed(y), Reversed(x));
    }
  }

  /** The same item stored in two parts, as four bytes or two halves would be. */
  lemma StoreInParts(m: Bytes, a: Word, n: nat, k: nat, u: nat, w: nat, be: bool)
    requires a + n + k <= |m| && a + n < 0x1_0000_0000
    requires u < Pow2(8 * n) && w < Pow2(8 * k)
    ensures Load(Store(Store(m, a, n, u, be), a + n, k, w, be), a, n + k, be)
         == if be then u * Pow2(8 * k) + w else u + w * Pow2(8 * n)
  {
    hide Pow2;
    var m1 := Store(m, a, n, u, be);
    var m2 := Store(m1, a + n, k, w, be);
    LoadAfterStore(m, a, n, u, be);
    LoadAfterStore(m1, a + n, k, w, be);
    LoadElsewhere(m1, a + n, k, w, be, a, n, be);
    LoadInParts(m2, a, n, k, be);
  }

  /** A word as its bytes, and as its two halves. */
  lemma WordOfBytes(m: Bytes, a: Word, be: bool)
    requires InRange(m, a, 4)
    ensures LoadWord(m, a, be).Some? && LoadHalf(m, a, be).Some? && LoadHalf(m, a + 2, be).Some?
    ensures LoadWord(m, a, be).value
         == if be then Big4(m[a], m[a + 1], m[a + 2], m[a + 3]) else Big4(m[a + 3], m[a + 2], m[a + 1], m[a])
    ensures LoadHalf(m, a, be).value == if be then Big2(m[a], m[a + 1]) else Big2(m[a + 1], m[a])
    ensures LoadWord(m, a, be).value
         == if be then 0x1_0000 * LoadHalf(m, a, be).value + LoadHalf(m, a + 2, be).value
            else LoadHalf(m, a, be).value + 0x1_0000 * LoadHalf(m, a + 2, be).value
  {
    FourBytes(m[a], m[a + 1], m[a + 2], m[a + 3]);
    assert m[a..a + 4] == [m[a], m[a + 1], m[a + 2], m[a + 3]];
    assert m[a..a + 2] == [m[a], m[a + 1]] && m[a + 2..a + 2 + 2] == [m[a + 2], m[a + 3]];
  }

  lemma FourBytes(p: Byte, q: Byte, r: Byte, s: Byte)
    ensures BigValue([p, q]) == Big2(p, q) && LittleValue([p, q]) == Big2(q, p)
    ensures BigValue([r, s]) == Big2(r, s) && LittleValue([r, s]) == Big2(s, r)
    ensures BigValue([p, q, r, s]) == Big4(p, q, r, s)
    ensures LittleValue([p, q, r, s]) == Big4(s, r, q, p)
  {
    TwoBytes(p, q);
    TwoBytes(r, s);
    ValueOfConcat([p, q], [r, s]);
    Pow2Values();
    assert [p, q] + [r, s] == [p, q, r, s];
    assert [p, q, r, s][1..][1..] == [r, s];
    assert [p, q, r, s][1..][0] == q;
  }

  lemma TwoBytes(p: Byte, q: Byte)
    ensures BigValue([p, q]) == Big2(p, q) && LittleValue([p, q]) == Big2(q, p)
  {
    assert [p, q][..1] == [p] && [p, q][1..] == [q];
    assert [p][..0] == [] && [p][1..] == [] && [q][1..] == [];
    assert BigValue([p]) == p && LittleValue([q]) == q;
  }

  /** The macro reverse_4. */
  function Reverse4(w: Word): Word {
    w % 0x100 * 0x100_0000 + w / 0x100 % 0x100 * 0x1_0000 + w / 0x1_0000 % 0x100 * 0x100 + w / 0x100_0000 % 0x100
  }

  /** The word read with the other endianness has its four bytes in reverse. */
  lemma WordOfOtherEndianness(m: Bytes, a: Word, be: bool)
    requires InRange(m, a, 4)
    ensures LoadWord(m, a, be).Some? && LoadWord(m, a, !be) == Some(Reverse4(LoadWord(m, a, be).value))
  {
    WordOfBytes(m, a, be);
    WordOfBytes(m, a, !be);
    if be {
      ReverseBig4(m[a], m[a + 1], m[a + 2], m[a + 3]);
    } else {
      ReverseBig4(m[a + 3], m[a + 2], m[a + 1], m[a]);
    }
  }

  function Big2(p: Byte, q: Byte): Half {
    0x100 * p + q
  }

  function Big4(p: Byte, q: Byte, r: Byte, s: Byte): Word {
    0x100_0000 * p + 0x1_0000 * q + 0x100 * r + s
  }

  lemma ReverseBig4(p: Byte, q: Byte, r: Byte, s: Byte)
    ensures Reverse4(Big4(p, q, r, s)) == Big4(s, r, q, p)
  {
    var w, high, top := Big4(p, q, r, s), 0x1_0000 * p + 0x100 * q + r, Big2(p, q);
    DivModUnique(w, 0x100, high, s);
    DivModUnique(high, 0x100, top, r);
    DivModUnique(top, 0x100, p, q);
    DivModUnique(w, 0x1_0000, top, Big2(r, s));
    DivModUnique(w, 0x100_0000, p, 0x100 * Big2(q, r) + s);
    DivModUnique(p, 0x100, 0, p);
  }

  /** A stored word seen byte by byte, and a word loaded from four stored bytes. */
  lemma BytesOfStoredWord(m: Bytes, a: Word, p: Byte, q: Byte, r: Byte, s: Byte, be: bool)
    requires InRange(m, a, 4)
    ensures var n := Store(m, a, 4, Big4(p, q, r, s), be);
      if be then n[a] == p && n[a + 1] == q && n[a + 2] == r && n[a + 3] == s
      else n[a] == s && n[a + 1] == r && n[a + 2] == q && n[a + 3] == p
  {
    hide Digits, Load;
    var n := Store(m, a, 4, Big4(p, q, r, s), be);
    assert Big4(p, q, r, s) < Pow2(8 * 4) by { Pow2Values(); }
    LoadAfterStore(m, a, 4, Big4(p, q, r, s), be);
    WordOfBytes(n, a, be);
    if be {
      Big4Unique(n[a], n[a + 1], n[a + 2], n[a + 3], p, q, r, s);
    } else {
      Big4Unique(n[a + 3], n[a + 2], n[a + 1], n[a], p, q, r, s);
    }
  }

  lemma Big4Unique(p: Byte, q: Byte, r: Byte, s: Byte, p': Byte, q': Byte, r': Byte, s': Byte)
    requires Big4(p, q, r, s) == Big4(p', q', r', s')
    ensures p == p' && q == q' && r == r' && s == s'
  {
  }

  lemma WordOfStoredBytes(m: Bytes, a: Word, p: Byte, q: Byte, r: Byte, s: Byte, be: bool)
    requires InRange(m, a, 4)
    ensures var n := Store(Store(Store(Store(m, a, 1, p, be), a + 1, 1, q, be), a + 2, 1, r, be), a + 3, 1, s, be);
      LoadWord(n, a, be) == Some(if be then Big4(p, q, r, s) else Big4(s, r, q, p))
  {
    OneByte(p);
    OneByte(q);
    OneByte(r);
    OneByte(s);
    var n := Store(Store(Store(Store(m, a, 1, p, be), a + 1, 1, q, be), a + 2, 1, r, be), a + 3, 1, s, be);
    WordOfBytes(n, a, be);
  }

  // ----- the accesses as memory.c performs them -----

  /** The simulated memory.  A read leaves its target as it was when it fails, so the value the target
      held comes in as `held`. */
  class MemoryUnit {
    const data: array<Byte>

    function Repr(): set<object> {
      {this, data}
    }

    predicate Valid() {
      3 <= data.Length <= 0x1_0000_0000
    }

    ghost function Abs(): Bytes
      requires Valid()
      reads data
    {
      data[..]
    }

    /** memory_create: the contents are whatever they are. */
    constructor (size: nat)
      requires 3 <= size <= 0x1_0000_0000
      ensures Valid() && fresh(Repr()) && data.Length == size
    {
      data := new Byte[size];
    }

    method ReadByte(address: Word, held: Byte) returns (result: int, value: Byte)
      requires Valid()
      ensures result == (if LoadByte(Abs(), address).Some? then SUCCESS else INDEX_OUT_OF_RANGE)
      ensures value == OrElse(LoadByte(Abs(), address), held)
    {
      if address >= data.Length {
        return INDEX_OUT_OF_RANGE, held;
      }
      return SUCCESS, data[address];
    }

    method ReadHalf(address: Word, held: Half, be: bool) returns (result: int, value: Half)
      requires Valid()
      ensures result == (if LoadHalf(Abs(), address, be).Some? then SUCCESS else INDEX_OUT_OF_RANGE)
      ensures value == OrElse(LoadHalf(Abs(), address, be), held)
    {
      if address >= data.Length - 1 {
        return INDEX_OUT_OF_RANGE, held;
      }
      var aux: Word := 0;
      if be {
        aux := Orr(aux, Lsl(data[address], 8));
        aux := Orr(aux, data[address + 1]);
      } else {
        aux := Orr(aux, data[address]);
        aux := Orr(aux, Lsl(data[address + 1], 8));
      }
      HalfFromBytes(data[address], data[address + 1]);
      TwoBytes(data[address], data[address + 1]);
      assert data[..][address..address + 2] == [data[address], data[address + 1]];
      return SUCCESS, aux;
    }

    method ReadWord(address: Word, held: Word, be: bool) returns (result: int, value: Word)
      requires Valid()
      ensures result == (if LoadWord(Abs(), address, be).Some? then SUCCESS else INDEX_OUT_OF_RANGE)
      ensures value == OrElse(LoadWord(Abs(), address, be), held)
    {
      if address >= data.Length - 3 {
        return INDEX_OUT_OF_RANGE, held;
      }
      if be {
        value := CollectBig(address);
      } else {
        value := CollectLittle(address);
      }
      return SUCCESS, value;
    }

    /** The big-endian loop of memory_read_word. */
    method CollectBig(address: Word) returns (aux: Word)
      requires Valid() && InRange(Abs(), address, 4)
      ensures aux == Load(Abs(), address, 4, true)
    {
      hide Orr, Lsl;
      aux := 0;
      for i := 0 to 4
        invariant aux == BigValue(data[..][address..address + i]) * Pow2(8 * (4 - i))
      {
        OrNextBig(aux, data[..], address, i);
        aux := Orr(aux, Lsl(data[address + i], (3 - i) * 8));
      }
      assert Pow2(8 * 0) == 1;
    }

    /** Its little-endian loop. */
    method CollectLittle(address: Word) returns (aux: Word)
      requires Valid() && InRange(Abs(), address, 4)
      ensures aux == Load(Abs(), address, 4, false)
    {
      hide Orr, Lsl;
      aux := 0;
      for i := 0 to 4
        invariant aux == LittleValue(data[..][address + 4 - i..address + 4]) * Pow2(8 * (4 - i))
      {
        OrNextLittle(aux, data[..], address, i);
        aux := Orr(aux, Lsl(data[address + 3 - i], (3 - i) * 8));
      }
      assert Pow2(8 * 0) == 1;
    }

    method WriteByte(address: Word, value: Byte) returns (result: int)
      requires Valid()
      modifies data
      ensures result == (if InRange(old(Abs()), address, 1) then SUCCESS else INDEX_OUT_OF_RANGE)
      ensures Abs() == Store(old(Abs()), address, 1, value, true) == Store(old(Abs()), address, 1, value, false)
    {
      OneByte(value);
      if address >= data.Length {
        return INDEX_OUT_OF_RANGE;
      }
      data[address] := value;
      return SUCCESS;
    }

    method WriteHalf(address: Word, value: Half, be: bool) returns (result: int)
      requires Valid()
      modifies data
      ensures result == (if InRange(old(Abs()), address, 2) then SUCCESS else INDEX_OUT_OF_RANGE)
      ensures Abs() == Store(old(Abs()), address, 2, value, be)
    {
      if address >= data.Length - 1 {
        return INDEX_OUT_OF_RANGE;
      }
      DigitAt(value, 2, 0);
      DigitAt(value, 2, 1);
      Pow2Values();
      if be {
        data[address] := value / 0x100 % 0x100;
        data[address + 1] := value % 0x100;
      } else {
        data[address] := value % 0x100;
        data[address + 1] := value / 0x100 % 0x100;
      }
      return SUCCESS;
    }

    method WriteWord(address: Word, value: Word, be: bool) returns (result: int)
      requires Valid()
      modifies data
      ensures result == (if InRange(old(Abs()), address, 4) then SUCCESS else INDEX_OUT_OF_RANGE)
      ensures Abs() == Store(old(Abs()), address, 4, value, be)
    {
      if address >= data.Length - 3 {
        return INDEX_OUT_OF_RANGE;
      }
      ghost var digits := Digits(value, 4, be);
      for i := 0 to 4
        invariant forall j :: 0 <= j < i ==> data[address + j] == digits[j]
        invariant forall j :: 0 <= j < data.Length && !(address <= j < address + i) ==> data[j] == old(data[j])
      {
        DigitAt(value, 4, if be then 3 - i else i);
        if be {
          data[address + i] := Lsr(value, (3 - i) * 8) % 0x100;
        } else {
          data[address + i] := Lsr(value, i * 8) % 0x100;
        }
      }
      assert data[..] == Store(old(data[..]), address, 4, value, be);
      return SUCCESS;
    }
  }

  function OrElse<T>(o: Option<T>, held: T): T {
    if o.Some? then o.value else held
  }

  /** Or-ing in a byte just below the bytes already collected. */
  lemma OrNextByte(aux: Word, v: nat, b: Byte, k: nat)
    requires k <= 3 && aux == v * Pow2(8 * (k + 1))
    ensures Orr(aux, Lsl(b, k * 8)) == (256 * v + b) * Pow2(8 * k)
  {
    Pow2Byte(k);
    BytePlaces(k);
    ByteFits(b, Pow2(8 * k), v);
    OrDisjoint(b * Pow2(8 * k), aux, 8 * (k + 1));
  }

  lemma BytePlaces(k: nat)
    requires k <= 3
    ensures 0x100 * Pow2(8 * k) <= 0x1_0000_0000
  {
    Pow2Values();
  }

  lemma ByteFits(b: Byte, p: nat, v: nat)
    requires p > 0 && 256 * p <= 0x1_0000_0000
    ensures 0 <= b * p < 256 * p && b * p % 0x1_0000_0000 == b * p
    ensures v * (256 * p) % (256 * p) == 0
    ensures v * (256 * p) + b * p == (256 * v + b) * p
  {
    MulMono(b, 255, p);
    DivModUnique(v * (256 * p), 256 * p, v, 0);
  }

  lemma OrNextBig(aux: Word, m: Bytes, a: Word, i: nat)
    requires i < 4 && InRange(m, a, 4)
    requires aux == BigValue(m[a..a + i]) * Pow2(8 * (4 - i))
    ensures Orr(aux, Lsl(m[a + i], (3 - i) * 8)) == BigValue(m[a..a + (i + 1)]) * Pow2(8 * (3 - i))
  {
    OrNextByte(aux, BigValue(m[a..a + i]), m[a + i], 3 - i);
    assert m[a..a + (i + 1)][..i] == m[a..a + i];
  }

  lemma OrNextLittle(aux: Word, m: Bytes, a: Word, i: nat)
    requires i < 4 && InRange(m, a, 4)
    requires aux == LittleValue(m[a + 4 - i..a + 4]) * Pow2(8 * (4 - i))
    ensures Orr(aux, Lsl(m[a + 3 - i], (3 - i) * 8)) == LittleValue(m[a + 3 - i..a + 4]) * Pow2(8 * (3 - i))
  {
    OrNextByte(aux, LittleValue(m[a + 4 - i..a + 4]), m[a + 3 - i], 3 - i);
    assert m[a + 3 - i..a + 4][1..] == m[a + 4 - i..a + 4];
  }

  lemma HalfFromBytes(p: Byte, q: Byte)
    ensures Orr(Orr(0, Lsl(p, 8)), q) == Big2(p, q)
    ensures Orr(Orr(0, p), Lsl(q, 8)) == Big2(q, p)
  {
    ByteAbove(p);
    ByteAbove(q);
    OrZero(p);
    OrZero(Lsl(p, 8));
    OrDisjoint(q, Lsl(p, 8), 8);
    OrDisjoint(p, Lsl(q, 8), 8);
  }

  lemma ByteAbove(b: Byte)
    ensures b < Pow2(8) && Lsl(b, 8) == 0x100 * b && Lsl(b, 8) % Pow2(8) == 0
  {
    Pow2Values();
    DivModUnique(0x100 * b, 0x100, b, 0);
  }

  lemma OneByte(b: Byte)
    ensures Digits(b, 1, true) == Digits(b, 1, false) == [b]
  {
    assert b / 256 == 0 && b % 256 == b;
    assert BigDigits(0, 0) == LittleDigits(0, 0) == [];
  }

  lemma DigitStep(v: nat, i: nat)
    ensures v / Pow2(8 * 0) == v
    ensures v / Pow2(8 * (i + 1)) == v / 256 / Pow2(8 * i)
  {
    Pow2Values();
    DivPow2(v, 8, 8 * i);
    DivModUnique(v, 1, v, 0);
  }

  /** Each digit on its own, in either order. */
  lemma {:induction false} DigitAt(v: nat, n: nat, i: nat)
    requires i < n
    ensures BigDigits(v, n)[n - 1 - i] == LittleDigits(v, n)[i] == v / Pow2(8 * i) % 256
    decreases i
  {
    hide Pow2;
    if i == 0 {
      DigitStep(v, 0);
    } else {
      DigitAt(v / 256, n - 1, i - 1);
      DigitStep(v, i - 1);
    }
  }
}
