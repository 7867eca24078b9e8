/** The checksums of the serial links: CRC-16 as Modbus uses it, and the CRC-8 of the frames. */
module Crc {

  // ---------- Bit operations

  // The proofs below are about these operations as such: a sum, a shift and the lowest bit. What they are as operations
  // on bits is used only where `Open` is mentioned.

  predicate Open(i: int) {
    true
  }

  ghost predicate IsOps(a: bv16, b: bv16, sum: bv16, half: bv16, odd: bool) {
    forall i: int {:trigger Open(i)} :: Open(i) ==> sum == a ^ b && half == a >> 1 && (odd <==> a & 1 == 1)
  }

  /** The sum of two remainders, `a ^ b`. */
  ghost function Plus(a: bv16, b: bv16): bv16 {
    assert IsOps(a, b, a ^ b, a >> 1, a & 1 == 1);
    var r :| IsOps(a, b, r, a >> 1, a & 1 == 1);
    r
  }

  ghost function Half(a: bv16): bv16 {
    assert IsOps(a, 0, a ^ 0, a >> 1, a & 1 == 1);
    var r :| IsOps(a, 0, a ^ 0, r, a & 1 == 1);
    r
  }

  ghost predicate Odd(a: bv16) {
    assert IsOps(a, 0, a ^ 0, a >> 1, a & 1 == 1);
    var r :| IsOps(a, 0, a ^ 0, a >> 1, r);
    r
  }

  lemma PlusIs(a: bv16, b: bv16)
    ensures Plus(a, b) == a ^ b
  {
    assert Open(0);
  }

  lemma HalfIs(a: bv16)
    ensures Half(a) == a >> 1 && (Odd(a) <==> a & 1 == 1)
  {
    assert Open(0);
  }

  lemma Commute(a: bv16, b: bv16)
    ensures Plus(a, b) == Plus(b, a)
  {
    PlusIs(a, b);
    PlusIs(b, a);
  }

  lemma XorAssociate(a: bv16, b: bv16, c: bv16, ab: bv16, bc: bv16)
    requires ab == a ^ b && bc == b ^ c
    ensures ab ^ c == a ^ bc
  {
  }

  lemma Associate(a: bv16, b: bv16, c: bv16)
    ensures Plus(Plus(a, b), c) == Plus(a, Plus(b, c))
  {
    PlusIs(a, b);
    PlusIs(b, c);
    PlusIs(Plus(a, b), c);
    PlusIs(a, Plus(b, c));
    XorAssociate(a, b, c, Plus(a, b), Plus(b, c));
  }

  lemma XorZero(a: bv16, b: bv16)
    ensures a ^ b == 0 <==> a == b
  {
  }

  lemma XorNothing(a: bv16)
    ensures a ^ 0 == a
  {
  }

  lemma SumNothing(a: bv16)
    ensures Plus(a, 0) == a
  {
    PlusIs(a, 0);
    XorNothing(a);
  }

  lemma SumZero(a: bv16, b: bv16)
    ensures Plus(a, b) == 0 <==> a == b
    ensures Plus(a, 0) == a
  {
    SumNothing(a);
    PlusIs(a, b);
    XorZero(a, b);
  }

  lemma HalfSum(a: bv16, b: bv16)
    ensures Half(Plus(a, b)) == Plus(Half(a), Half(b))
  {
    PlusIs(a, b);
    HalfIs(a);
    HalfIs(b);
    HalfIs(a ^ b);
    PlusIs(a >> 1, b >> 1);
  }

  lemma OddSum(a: bv16, b: bv16)
    ensures Odd(Plus(a, b)) <==> Odd(a) != Odd(b)
  {
    PlusIs(a, b);
    HalfIs(a);
    HalfIs(b);
    HalfIs(a ^ b);
  }

  lemma HalfZero(a: bv16)
    ensures Half(a) == 0 && !Odd(a) ==> a == 0
    ensures Plus(Half(a), 0xA001) != 0
  {
    HalfIs(a);
    PlusIs(a >> 1, 0xA001);
  }

  lemma Cancel(a: bv16, b: bv16, c: bv16)
    ensures Plus(a, c) == Plus(b, c) <==> a == b
    ensures Plus(Plus(a, c), Plus(b, c)) == Plus(a, b)
  {
    Commute(b, c);
    Associate(a, c, Plus(c, b));
    Associate(c, c, b);
    SumZero(c, c);
    Commute(0, b);
    SumZero(b, b);
    SumZero(Plus(a, c), Plus(b, c));
    SumZero(a, b);
  }

  // ---------- CRC-16, bit by bit

  /** Shifts the lowest bit out of the remainder. */
  ghost function Shift16(x: bv16): bv16 {
    if Odd(x) then Plus(Half(x), 0xA001) else Half(x)
  }

  ghost function Shifts16(x: bv16, n: nat): bv16
    decreases n
  {
    if n == 0 then x else Shift16(Shifts16(x, n - 1))
  }

  /** The remainder after the eight bits of a byte. */
  ghost function Byte16(x: bv16): bv16 {
    Shifts16(x, 8)
  }

  /** The remainder of a string that follows what has left `crc`. */
  ghost function Rest16(crc: bv16, s: seq<bv8>): bv16
    decreases |s|
  {
    if s == [] then crc else Byte16(Plus(Rest16(crc, s[..|s| - 1]), s[|s| - 1] as bv16))
  }

  /** The Modbus checksum: section 2.5.1.2 of MODBUS over Serial Line V1.02. */
  ghost function ModbusCrc(s: seq<bv8>): bv16 {
    Rest16(0xFFFF, s)
  }

  lemma ShiftsTo(x: bv16, n: nat, y: bv16, z: bv16)
    requires Shifts16(x, n) == y && z == if y & 1 == 1 then (y >> 1) ^ 0xA001 else y >> 1
    ensures Shifts16(x, n + 1) == z
  {
    HalfIs(y);
    PlusIs(Half(y), 0xA001);
  }

  lemma First(x: bv16)
    requires x == 0xFFFD
    ensures Byte16(x) == 0x813E
  {
    ShiftsTo(x, 0, 0xFFFD, 0xDFFF);
    ShiftsTo(x, 1, 0xDFFF, 0xCFFE);
    ShiftsTo(x, 2, 0xCFFE, 0x67FF);
    ShiftsTo(x, 3, 0x67FF, 0x93FE);
    ShiftsTo(x, 4, 0x93FE, 0x49FF);
    ShiftsTo(x, 5, 0x49FF, 0x84FE);
    ShiftsTo(x, 6, 0x84FE, 0x427F);
    ShiftsTo(x, 7, 0x427F, 0x813E);
  }

  lemma Second(x: bv16)
    requires x == 0x8139
    ensures Byte16(x) == 0x1241
  {
    ShiftsTo(x, 0, 0x8139, 0xE09D);
    ShiftsTo(x, 1, 0xE09D, 0xD04F);
    ShiftsTo(x, 2, 0xD04F, 0xC826);
    ShiftsTo(x, 3, 0xC826, 0x6413);
    ShiftsTo(x, 4, 0x6413, 0x9208);
    ShiftsTo(x, 5, 0x9208, 0x4904);
    ShiftsTo(x, 6, 0x4904, 0x2482);
    ShiftsTo(x, 7, 0x2482, 0x1241);
  }

  /** The example of that specification: the message 02 07 has the checksum 0x1241. */
  lemma ModbusExample(s: seq<bv8>)
    requires s == [0x02, 0x07]
    ensures ModbusCrc(s) == 0x1241
  {
    PlusIs(0xFFFF, 0x02);
    PlusIs(0x813E, 0x07);
    First(Plus(0xFFFF, 0x02));
    Second(Plus(0x813E, 0x07));
    assert s[..1] == [0x02] && s[..1][..0] == [];
    assert Rest16(0xFFFF, s[..1]) == 0x813E;
  }

  lemma Shift16Sum(a: bv16, b: bv16)
    ensures Shift16(Plus(a, b)) == Plus(Shift16(a), Shift16(b))
  {
    HalfSum(a, b);
    OddSum(a, b);
    Cancel(Half(a), Half(b), 0xA001);
    Associate(Half(a), Half(b), 0xA001);
    Associate(Half(a), 0xA001, Half(b));
    Commute(0xA001, Half(b));
  }

  lemma {:induction false} Shifts16Sum(a: bv16, b: bv16, n: nat)
    ensures Shifts16(Plus(a, b), n) == Plus(Shifts16(a, n), Shifts16(b, n))
    decreases n
  {
    if n > 0 {
      Shifts16Sum(a, b, n - 1);
      Shift16Sum(Shifts16(a, n - 1), Shifts16(b, n - 1));
    }
  }

  lemma {:induction false} Shifts16Zero(x: bv16, n: nat)
    requires Shifts16(x, n) == 0
    ensures x == 0
    decreases n
  {
    if n > 0 {
      HalfZero(Shifts16(x, n - 1));
      Shifts16Zero(x, n - 1);
    }
  }

  /** Different remainders stay different. */
  lemma Byte16Injective(x: bv16, y: bv16)
    requires Byte16(x) == Byte16(y)
    ensures x == y
  {
    Shifts16Sum(x, y, 8);
    SumZero(Byte16(x), Byte16(y));
    Shifts16Zero(Plus(x, y), 8);
    SumZero(x, y);
  }

  // ---------- Bytes

  lemma Shift16Even(h: bv16, k: bv16)
    requires h & 1 == 0 && k == h >> 1
    ensures Shift16(h) == k
  {
    HalfIs(h);
  }

  lemma HighBits(h: bv16)
    requires h & 0xFF == 0
    ensures h & 1 == 0 && (h >> 1) & 1 == 0 && (h >> 2) & 1 == 0 && (h >> 3) & 1 == 0
    ensures (h >> 4) & 1 == 0 && (h >> 5) & 1 == 0 && (h >> 6) & 1 == 0 && (h >> 7) & 1 == 0
    ensures (h >> 1) >> 1 == h >> 2 && (h >> 2) >> 1 == h >> 3 && (h >> 3) >> 1 == h >> 4 && (h >> 4) >> 1 == h >> 5
    ensures (h >> 5) >> 1 == h >> 6 && (h >> 6) >> 1 == h >> 7 && (h >> 7) >> 1 == h >> 8
  {
  }

  /** Without low bits the remainder is only shifted. */
  lemma ShiftHigh(h: bv16, r: bv16)
    requires h & 0xFF == 0 && r == h >> 8
    ensures Byte16(h) == r
  {
    HighBits(h);
    Shift16Even(h, h >> 1);
    Shift16Even(h >> 1, h >> 2);
    Shift16Even(h >> 2, h >> 3);
    Shift16Even(h >> 3, h >> 4);
    Shift16Even(h >> 4, h >> 5);
    Shift16Even(h >> 5, h >> 6);
    Shift16Even(h >> 6, h >> 7);
    Shift16Even(h >> 7, h >> 8);
  }

  lemma Halves(z: bv16)
    ensures z == (z & 0xFF) ^ (z & 0xFF00) && (z & 0xFF00) & 0xFF == 0 && (z & 0xFF00) >> 8 == z >> 8
  {
  }

  /** The low byte goes through the table, the high byte is only shifted. */
  lemma TableStep(z: bv16, lo: bv16, hi: bv16)
    requires lo == z & 0xFF && hi == z >> 8
    ensures Byte16(z) == Plus(hi, Byte16(lo))
  {
    var h := z & 0xFF00;
    Halves(z);
    PlusIs(lo, h);
    Shifts16Sum(lo, h, 8);
    ShiftHigh(h, hi);
    Commute(Byte16(lo), hi);
  }

  // ---------- Strings

  lemma {:induction false} RestSplit(crc: bv16, s: seq<bv8>, t: seq<bv8>)
    ensures Rest16(crc, s + t) == Rest16(Rest16(crc, s), t)
    decreases |t|
  {
    if t == [] {
      assert s + t == s;
    } else {
      var n := |t| - 1;
      assert (s + t)[..|s + t| - 1] == s + t[..n];
      RestSplit(crc, s, t[..n]);
    }
  }

  lemma Rest1(crc: bv16, b: bv8)
    ensures Rest16(crc, [b]) == Byte16(Plus(crc, b as bv16))
  {
    assert [b][..0] == [];
  }

  lemma Rest2(crc: bv16, a: bv8, b: bv8)
    ensures Rest16(crc, [a, b]) == Byte16(Plus(Byte16(Plus(crc, a as bv16)), b as bv16))
  {
    assert [a, b][..1] == [a];
    Rest1(crc, a);
  }

  lemma WithoutLow(c: bv16)
    ensures c ^ (c & 0xFF) == c & 0xFF00
  {
  }

  /** The low byte of the remainder itself shifts it down. */
  lemma LowOut(c: bv16, b: bv16, r: bv16)
    requires b == c & 0xFF && r == c >> 8
    ensures Byte16(Plus(c, b)) == r
  {
    PlusIs(c, b);
    WithoutLow(c);
    Halves(c);
    ShiftHigh(c & 0xFF00, r);
  }

  lemma NothingLeft(x: bv16)
    ensures Byte16(Plus(x, x)) == 0
  {
    SumZero(x, x);
    ShiftHigh(0, 0);
  }

  lemma ResidueOf(c: bv16, lo: bv8, hi: bv8)
    requires lo as bv16 == c & 0xFF && hi as bv16 == c >> 8
    ensures Rest16(c, [lo, hi]) == 0
  {
    Rest2(c, lo, hi);
    LowOut(c, lo as bv16, hi as bv16);
    NothingLeft(hi as bv16);
  }

  lemma Bytes(c: bv16, lo: bv8, hi: bv8)
    requires lo == (c & 0xFF) as bv8 && hi == (c >> 8) as bv8
    ensures lo as bv16 == c & 0xFF && hi as bv16 == c >> 8
  {
  }

  /** A string with its checksum appended, low byte first, leaves no remainder. */
  lemma Residue(s: seq<bv8>, lo: bv8, hi: bv8)
    requires lo == (ModbusCrc(s) & 0xFF) as bv8 && hi == (ModbusCrc(s) >> 8) as bv8
    ensures ModbusCrc(s + [lo, hi]) == 0
  {
    Bytes(ModbusCrc(s), lo, hi);
    ResidueOf(ModbusCrc(s), lo, hi);
    RestSplit(0xFFFF, s, [lo, hi]);
  }

  lemma {:induction false} SameEnd(x: bv16, y: bv16, s: seq<bv8>)
    requires Rest16(x, s) == Rest16(y, s)
    ensures x == y
    decreases |s|
  {
    if s != [] {
      var n := |s| - 1;
      Byte16Injective(Plus(Rest16(x, s[..n]), s[n] as bv16), Plus(Rest16(y, s[..n]), s[n] as bv16));
      Cancel(Rest16(x, s[..n]), Rest16(y, s[..n]), s[n] as bv16);
      SameEnd(x, y, s[..n]);
    }
  }

  lemma LowBytes(a: bv8, b: bv8)
    ensures Plus(a as bv16, b as bv16) <= 0xFF
    ensures a as bv16 == b as bv16 ==> a == b
  {
    PlusIs(a as bv16, b as bv16);
  }

  lemma Shifted(d: bv16, e: bv16)
    requires d <= 0xFF && e <= 0xFF
    ensures (e << 8) & 0xFF == 0 && (e << 8) >> 8 == e && (d == e << 8 ==> d == 0)
  {
  }

  /** A difference within one byte always reaches beyond the low byte. */
  lemma Reaches(d: bv16)
    requires d <= 0xFF && Byte16(d) <= 0xFF
    ensures d == 0
  {
    var e := Byte16(d);
    Shifted(d, e);
    ShiftHigh(e << 8, e);
    Byte16Injective(d, e << 8);
  }

  lemma Differences(p: bv16, q: bv16, a: bv16, b: bv16)
    requires Plus(p, a) == Plus(q, b)
    ensures Plus(p, q) == Plus(a, b)
  {
    Associate(p, a, b);
    Associate(q, b, b);
    SumZero(b, b);
    SumZero(q, q);
    Cancel(Plus(p, Plus(a, b)), q, q);
    Associate(p, Plus(a, b), q);
    Commute(Plus(a, b), q);
    Associate(p, q, Plus(a, b));
    SumZero(Plus(p, q), Plus(a, b));
    SumZero(Plus(p, Plus(a, b)), q);
  }

  lemma SumOfFirst(c: bv16, a: bv16, a': bv16)
    ensures Plus(Byte16(Plus(c, a)), Byte16(Plus(c, a'))) == Byte16(Plus(a, a'))
  {
    Shifts16Sum(Plus(c, a), Plus(c, a'), 8);
    Commute(c, a);
    Commute(c, a');
    Cancel(a, a', c);
  }

  lemma TwoBytes(c: bv16, a: bv8, b: bv8, a': bv8, b': bv8)
    requires Rest16(c, [a, b]) == Rest16(c, [a', b'])
    ensures a == a' && b == b'
  {
    var p, p' := Byte16(Plus(c, a as bv16)), Byte16(Plus(c, a' as bv16));
    Rest2(c, a, b);
    Rest2(c, a', b');
    Byte16Injective(Plus(p, b as bv16), Plus(p', b' as bv16));
    Differences(p, p', b as bv16, b' as bv16);
    SumOfFirst(c, a as bv16, a' as bv16);
    LowBytes(a, a');
    LowBytes(b, b');
    Reaches(Plus(a as bv16, a' as bv16));
    SumZero(a as bv16, a' as bv16);
    SumZero(p, p);
    SumZero(b as bv16, b' as bv16);
  }

  /** Strings of the same length that differ only within two adjacent bytes have different checksums. */
  lemma BurstDetected(s: seq<bv8>, t: seq<bv8>, i: nat)
    requires |s| == |t| && i + 1 < |s| && s != t
    requires forall j | 0 <= j < |s| && j != i && j != i + 1 :: s[j] == t[j]
    ensures ModbusCrc(s) != ModbusCrc(t)
  {
    var p, q := s[..i], s[i + 2..];
    assert s == p + [s[i], s[i + 1]] + q;
    assert t == p + [t[i], t[i + 1]] + q;
    RestSplit(0xFFFF, p + [s[i], s[i + 1]], q);
    RestSplit(0xFFFF, p + [t[i], t[i + 1]], q);
    RestSplit(0xFFFF, p, [s[i], s[i + 1]]);
    RestSplit(0xFFFF, p, [t[i], t[i + 1]]);
    if ModbusCrc(s) == ModbusCrc(t) {
      SameEnd(Rest16(0xFFFF, p + [s[i], s[i + 1]]), Rest16(0xFFFF, p + [t[i], t[i + 1]]), q);
      TwoBytes(Rest16(0xFFFF, p), s[i], s[i + 1], t[i], t[i + 1]);
    }
  }

  // ---------- The table and the code that uses it

  /** The largest value left of a byte after `j` shifts. */
  function Left(j: nat): bv16 {
    if j == 0 then 0xFF else if j == 1 then 0x7F else if j == 2 then 0x3F else if j == 3 then 0x1F
    else if j == 4 then 0xF else if j == 5 then 7 else if j == 6 then 3 else if j == 7 then 1 else 0
  }

  lemma LeftHalves(c: bv16, j: nat)
    requires c <= Left(j)
    ensures c >> 1 <= Left(j + 1)
  {
  }

  /** One round of the inner loop of `Init`: the remainder and what is left of the byte, taken together, are shifted. */
  lemma InitStep(crc: bv16, c: bv16, crc': bv16)
    requires crc' == if (crc ^ c) & 1 != 0 then (crc >> 1) ^ 0xA001 else crc >> 1
    ensures Plus(crc', c >> 1) == Shift16(Plus(crc, c))
  {
    PlusIs(crc, c);
    HalfIs(Plus(crc, c));
    HalfIs(crc);
    HalfIs(c);
    HalfSum(crc, c);
    Associate(Half(crc), 0xA001, Half(c));
    Commute(0xA001, Half(c));
    Associate(Half(crc), Half(c), 0xA001);
    PlusIs(Half(crc), 0xA001);
  }

  lemma NotOdd(x: bv16)
    ensures x & 1 != 0 <==> x & 1 == 1
  {
  }

  ghost predicate IsBv(i: nat, b: bv16)
    requires i < 256
  {
    b <= 0xFF && forall j: int {:trigger Open(j)} :: Open(j) ==> b == i as bv16
  }

  lemma BvLow(i: nat)
    requires i < 256
    ensures i as bv16 <= 0xFF
  {
  }

  /** The index `i` as a remainder. */
  ghost function Bv(i: nat): (b: bv16)
    requires i < 256
    ensures b <= 0xFF
  {
    BvLow(i);
    assert IsBv(i, i as bv16);
    var b :| IsBv(i, b);
    b
  }

  method ToBv(i: nat) returns (b: bv16)
    requires i < 256
    ensures b == Bv(i)
  {
    b := i as bv16;
    assert Open(0);
  }

  method ToIndex(b: bv16) returns (i: nat)
    requires b <= 0xFF
    ensures i < 256 && Bv(i) == b
  {
    i := b as nat;
    assert Open(0);
    assert i as bv16 == b;
  }

  ghost predicate Mixed(crc: bv16, c: bv16, lo: bv16) {
    c <= 0xFF && forall i: int {:trigger Open(i)} :: Open(i) ==> lo == (crc ^ c) & 0xFF
  }

  /** The index into the table, `(crc ^ c) & 0x00FF`. */
  method Mix(crc: bv16, c: bv8) returns (k: nat)
    ensures k < 256 && Mixed(crc, c as bv16, Bv(k))
  {
    k := ToIndex((crc ^ (c as bv16)) & 0xFF);
  }

  ghost predicate Combined(crc: bv16, t: bv16, r: bv16) {
    forall i: int {:trigger Open(i)} :: Open(i) ==> r == (crc >> 8) ^ t
  }

  method Combine(crc: bv16, t: bv16) returns (r: bv16)
    ensures Combined(crc, t, r)
  {
    r := (crc >> 8) ^ t;
  }

  lemma HighOf(crc: bv16, c: bv16, z: bv16)
    requires c <= 0xFF && z == crc ^ c
    ensures z >> 8 == crc >> 8
  {
  }

  lemma StepIs(crc: bv16, c: bv16, lo: bv16, t: bv16, r: bv16)
    requires Mixed(crc, c, lo) && t == Byte16(lo) && Combined(crc, t, r)
    ensures r == Byte16(Plus(crc, c))
  {
    PlusIs(crc, c);
    assert Open(0);
    HighOf(crc, c, Plus(crc, c));
    TableStep(Plus(crc, c), lo, crc >> 8);
    PlusIs(crc >> 8, t);
  }

  class Crc16 {
    /** Whether the table has been filled. */
    var ready: bool
    const tab: array<bv16>

    ghost predicate Valid()
      reads this, tab
    {
      tab.Length == 256 && (ready ==> forall i: nat | i < 256 :: tab[i] == Byte16(Bv(i)))
    }

    constructor ()
      ensures Valid() && fresh(tab)
    {
      ready := false;
      tab := new bv16[256](i => 0);
    }

    /** The inner loop of `Init`. */
    method Remainder(i: nat) returns (crc: bv16)
      requires i < 256
      ensures crc == Byte16(Bv(i))
    {
      var c := ToBv(i);
      crc := 0;
      Commute(0, c);
      SumZero(c, c);
      for j := 0 to 8
        invariant Plus(crc, c) == Shifts16(Bv(i), j) && c <= Left(j)
      {
        ghost var crc0 := crc;
        NotOdd(crc ^ c);
        if (crc ^ c) & 1 != 0 {
          crc := (crc >> 1) ^ 0xA001;
        } else {
          crc := crc >> 1;
        }
        InitStep(crc0, c, crc);
        LeftHalves(c, j);
        c := c >> 1;
      }
      SumZero(crc, crc);
    }

    /** Fills the table. */
    method Init()
      requires tab.Length == 256
      modifies this`ready, tab
      ensures Valid() && ready
    {
      for i := 0 to 256
        invariant forall k: nat | k < i <= 256 :: tab[k] == Byte16(Bv(k))
      {
        var crc := Remainder(i);
        tab[i] := crc;
      }
      ready := true;
    }

    /** One byte by table. */
    method Step(crc: bv16, c: bv8) returns (r: bv16)
      requires Valid() && ready
      ensures r == Byte16(Plus(crc, c as bv16))
    {
      var k := Mix(crc, c);
      r := Combine(crc, tab[k]);
      StepIs(crc, c as bv16, Bv(k), tab[k], r);
    }

    /** The checksum that follows `crc` and the byte `c`. */
    method Update(crc: bv16, c: bv8) returns (r: bv16)
      requires Valid()
      modifies this`ready, tab
      ensures Valid() && ready && r == Byte16(Plus(crc, c as bv16))
    {
      if !ready { Init(); }
      r := Step(crc, c);
    }

    /** The Modbus checksum by table. */
    method Modbus(s: seq<bv8>) returns (crc: bv16)
      requires Valid()
      modifies this`ready, tab
      ensures Valid() && ready && crc == ModbusCrc(s)
    {
      if !ready { Init(); }
      crc := 0xFFFF;
      for a := 0 to |s|
        invariant Valid() && ready && crc == Rest16(0xFFFF, s[..a])
      {
        assert s[..a + 1][..a] == s[..a];
        crc := Step(crc, s[a]);
      }
      assert s[..|s|] == s;
    }
  }

  // ---------- CRC-8

  /** Shifts the highest bit out of the remainder. */
  function Shift8(x: bv8): bv8 {
    if x & 0x80 != 0 then (x << 1) ^ 0x31 else x << 1
  }

  ghost predicate IsByte8(x: bv8, r: bv8) {
    forall i: int {:trigger Open(i)} :: Open(i) ==>
      r == Shift8(Shift8(Shift8(Shift8(Shift8(Shift8(Shift8(Shift8(x))))))))
  }

  /** The remainder after the eight bits of a byte. */
  ghost function Byte8(x: bv8): bv8 {
    assert IsByte8(x, Shift8(Shift8(Shift8(Shift8(Shift8(Shift8(Shift8(Shift8(x)))))))));
    var r :| IsByte8(x, r);
    r
  }

  /** The sum of a remainder and a byte. */
  function Xor8(a: bv8, b: bv8): bv8 {
    a ^ b
  }

  /** The remainder of a string that follows what has left `crc`. */
  ghost function Rest8(crc: bv8, s: seq<bv8>): bv8
    decreases |s|
  {
    if s == [] then crc else Byte8(Xor8(Rest8(crc, s[..|s| - 1]), s[|s| - 1]))
  }

  /** The checksum of the frames. */
  ghost function Crc8(s: seq<bv8>): bv8 {
    Rest8(0, s)
  }

  const ROW_0: seq<bv8> := [0, 49, 98, 83, 196, 245, 166, 151, 185, 136, 219, 234, 125, 76, 31, 46]
  const ROW_1: seq<bv8> := [67, 114, 33, 16, 135, 182, 229, 212, 250, 203, 152, 169, 62, 15, 92, 109]
  const ROW_2: seq<bv8> := [134, 183, 228, 213, 66, 115, 32, 17, 63, 14, 93, 108, 251, 202, 153, 168]
  const ROW_3: seq<bv8> := [197, 244, 167, 150, 1, 48, 99, 82, 124, 77, 30, 47, 184, 137, 218, 235]
  const ROW_4: seq<bv8> := [61, 12, 95, 110, 249, 200, 155, 170, 132, 181, 230, 215, 64, 113, 34, 19]
  const ROW_5: seq<bv8> := [126, 79, 28, 45, 186, 139, 216, 233, 199, 246, 165, 148, 3, 50, 97, 80]
  const ROW_6: seq<bv8> := [187, 138, 217, 232, 127, 78, 29, 44, 2, 51, 96, 81, 198, 247, 164, 149]
  const ROW_7: seq<bv8> := [248, 201, 154, 171, 60, 13, 94, 111, 65, 112, 35, 18, 133, 180, 231, 214]
  const ROW_8: seq<bv8> := [122, 75, 24, 41, 190, 143, 220, 237, 195, 242, 161, 144, 7, 54, 101, 84]
  const ROW_9: seq<bv8> := [57, 8, 91, 106, 253, 204, 159, 174, 128, 177, 226, 211, 68, 117, 38, 23]
  const ROW_10: seq<bv8> := [252, 205, 158, 175, 56, 9, 90, 107, 69, 116, 39, 22, 129, 176, 227, 210]
  const ROW_11: seq<bv8> := [191, 142, 221, 236, 123, 74, 25, 40, 6, 55, 100, 85, 194, 243, 160, 145]
  const ROW_12: seq<bv8> := [71, 118, 37, 20, 131, 178, 225, 208, 254, 207, 156, 173, 58, 11, 88, 105]
  const ROW_13: seq<bv8> := [4, 53, 102, 87, 192, 241, 162, 147, 189, 140, 223, 238, 121, 72, 27, 42]
  const ROW_14: seq<bv8> := [193, 240, 163, 146, 5, 52, 103, 86, 120, 73, 26, 43, 188, 141, 222, 239]
  const ROW_15: seq<bv8> := [130, 179, 224, 209, 70, 119, 36, 21, 59, 10, 89, 104, 255, 206, 157, 172]

  ghost predicate IsOr8(a: bv8, b: bv8, r: bv8) {
    forall i: int {:trigger Open(i)} :: Open(i) ==> r == a | b
  }

  ghost function Or8(a: bv8, b: bv8): bv8 {
    assert IsOr8(a, b, a | b);
    var r :| IsOr8(a, b, r);
    r
  }

  ghost predicate IsRow(row: seq<bv8>, base: bv8) {
    && |row| == 16
    && row[0] == Byte8(Or8(base, 0)) && row[1] == Byte8(Or8(base, 1)) && row[2] == Byte8(Or8(base, 2))
       && row[3] == Byte8(Or8(base, 3))
    && row[4] == Byte8(Or8(base, 4)) && row[5] == Byte8(Or8(base, 5)) && row[6] == Byte8(Or8(base, 6))
       && row[7] == Byte8(Or8(base, 7))
    && row[8] == Byte8(Or8(base, 8)) && row[9] == Byte8(Or8(base, 9)) && row[10] == Byte8(Or8(base, 10))
       && row[11] == Byte8(Or8(base, 11))
    && row[12] == Byte8(Or8(base, 12)) && row[13] == Byte8(Or8(base, 13)) && row[14] == Byte8(Or8(base, 14))
       && row[15] == Byte8(Or8(base, 15))
  }

  lemma Row0()
    ensures IsRow(ROW_0, 0)
  {
    assert Open(0);
  }

  lemma Row1()
    ensures IsRow(ROW_1, 16)
  {
    assert Open(0);
  }

  lemma Row2()
    ensures IsRow(ROW_2, 32)
  {
    assert Open(0);
  }

  lemma Row3()
    ensures IsRow(ROW_3, 48)
  {
    assert Open(0);
  }

  lemma Row4()
    ensures IsRow(ROW_4, 64)
  {
    assert Open(0);
  }

  lemma Row5()
    ensures IsRow(ROW_5, 80)
  {
    assert Open(0);
  }

  lemma Row6()
    ensures IsRow(ROW_6, 96)
  {
    assert Open(0);
  }

  lemma Row7()
    ensures IsRow(ROW_7, 112)
  {
    assert Open(0);
  }

  lemma Row8()
    ensures IsRow(ROW_8, 128)
  {
    assert Open(0);
  }

  lemma Row9()
    ensures IsRow(ROW_9, 144)
  {
    assert Open(0);
  }

  lemma Row10()
    ensures IsRow(ROW_10, 160)
  {
    assert Open(0);
  }

  lemma Row11()
    ensures IsRow(ROW_11, 176)
  {
    assert Open(0);
  }

  lemma Row12()
    ensures IsRow(ROW_12, 192)
  {
    assert Open(0);
  }

  lemma Row13()
    ensures IsRow(ROW_13, 208)
  {
    assert Open(0);
  }

  lemma Row14()
    ensures IsRow(ROW_14, 224)
  {
    assert Open(0);
  }

  lemma Row15()
    ensures IsRow(ROW_15, 240)
  {
    assert Open(0);
  }

  function Row(r: nat): (row: seq<bv8>)
    requires r < 16
    ensures |row| == 16
  {
    if r == 0 then ROW_0 else if r == 1 then ROW_1 else if r == 2 then ROW_2 else if r == 3 then ROW_3
    else if r == 4 then ROW_4 else if r == 5 then ROW_5 else if r == 6 then ROW_6 else if r == 7 then ROW_7
    else if r == 8 then ROW_8 else if r == 9 then ROW_9 else if r == 10 then ROW_10 else if r == 11 then ROW_11
    else if r == 12 then ROW_12 else if r == 13 then ROW_13 else if r == 14 then ROW_14 else ROW_15
  }

  /** Row `r` starts with the entry of this byte. */
  function Base(r: nat): bv8
    requires r < 16
  {
    if r == 0 then 0 else if r == 1 then 16 else if r == 2 then 32 else if r == 3 then 48
    else if r == 4 then 64 else if r == 5 then 80 else if r == 6 then 96 else if r == 7 then 112
    else if r == 8 then 128 else if r == 9 then 144 else if r == 10 then 160 else if r == 11 then 176
    else if r == 12 then 192 else if r == 13 then 208 else if r == 14 then 224 else 240
  }

  lemma RowOk(r: nat)
    requires r < 16
    ensures IsRow(Row(r), Base(r))
  {
    if r == 0 { Row0(); } else if r == 1 { Row1(); } else if r == 2 { Row2(); } else if r == 3 { Row3();
    } else if r == 4 { Row4(); } else if r == 5 { Row5(); } else if r == 6 { Row6(); } else if r == 7 {
    Row7(); } else if r == 8 { Row8(); } else if r == 9 { Row9(); } else if r == 10 { Row10(); } else if
    r == 11 { Row11(); } else if r == 12 { Row12(); } else if r == 13 { Row13(); } else if r == 14 {
    Row14(); } else { Row15(); }
  }

  function Nibble(k: nat): bv8
    requires k < 16
  {
    if k == 0 then 0 else if k == 1 then 1 else if k == 2 then 2 else if k == 3 then 3
    else if k == 4 then 4 else if k == 5 then 5 else if k == 6 then 6 else if k == 7 then 7
    else if k == 8 then 8 else if k == 9 then 9 else if k == 10 then 10 else if k == 11 then 11
    else if k == 12 then 12 else if k == 13 then 13 else if k == 14 then 14 else 15
  }

  lemma RowAt(row: seq<bv8>, base: bv8, k: nat)
    requires IsRow(row, base) && k < 16
    ensures row[k] == Byte8(Or8(base, Nibble(k)))
  {
    if k < 8 {
      if k == 0 {} else if k == 1 {} else if k == 2 {} else if k == 3 {}
      else if k == 4 {} else if k == 5 {} else if k == 6 {} else {}
    } else {
      if k == 8 {} else if k == 9 {} else if k == 10 {} else if k == 11 {}
      else if k == 12 {} else if k == 13 {} else if k == 14 {} else {}
    }
  }

  lemma NibbleIs(x: bv8, k: nat)
    requires x <= 0xF && k == x as nat
    ensures k < 16 && Nibble(k) == x
  {
  }

  lemma HighNibble(x: bv8, r: nat)
    requires r == (x >> 4) as nat
    ensures r < 16 && Base(r) == x & 0xF0
  {
  }

  lemma Whole(x: bv8)
    ensures Or8(x & 0xF0, x & 0xF) == x
  {
    assert Open(0);
    assert (x & 0xF0) | (x & 0xF) == x;
  }

  lemma Low4(x: bv8)
    ensures (x >> 4) as nat < 16 && (x & 0xF) as nat < 16
  {
    NibbleIs(x & 0xF, (x & 0xF) as nat);
    HighNibble(x, (x >> 4) as nat);
  }

  /** Entry `x` of the table. */
  function Entry(x: bv8): bv8 {
    Low4(x);
    Row((x >> 4) as nat)[(x & 0xF) as nat]
  }

  /** The table holds the remainders of all bytes. */
  lemma EntryIs(x: bv8)
    ensures Entry(x) == Byte8(x)
  {
    var r, k := (x >> 4) as nat, (x & 0xF) as nat;
    HighNibble(x, r);
    NibbleIs(x & 0xF, k);
    RowOk(r);
    RowAt(Row(r), Base(r), k);
    Whole(x);
  }

  /** The CRC-8 by table. */
  method CrcByTable(s: seq<bv8>) returns (crc: bv8)
    ensures crc == Crc8(s)
  {
    crc := 0;
    for a := 0 to |s|
      invariant crc == Rest8(0, s[..a])
    {
      assert s[..a + 1][..a] == s[..a];
      EntryIs(Xor8(crc, s[a]));
      crc := Entry(Xor8(crc, s[a]));
    }
    assert s[..|s|] == s;
  }

  lemma Shift8Injective(x: bv8, y: bv8)
    ensures Shift8(x) == Shift8(y) ==> x == y
  {
  }

  lemma Byte8Injective(x: bv8, y: bv8)
    requires Byte8(x) == Byte8(y)
    ensures x == y
  {
    assert Open(0);
    var x1, y1 := Shift8(x), Shift8(y);
    var x2, y2 := Shift8(x1), Shift8(y1);
    var x3, y3 := Shift8(x2), Shift8(y2);
    var x4, y4 := Shift8(x3), Shift8(y3);
    var x5, y5 := Shift8(x4), Shift8(y4);
    var x6, y6 := Shift8(x5), Shift8(y5);
    var x7, y7 := Shift8(x6), Shift8(y6);
    Shift8Injective(x7, y7);
    Shift8Injective(x6, y6);
    Shift8Injective(x5, y5);
    Shift8Injective(x4, y4);
    Shift8Injective(x3, y3);
    Shift8Injective(x2, y2);
    Shift8Injective(x1, y1);
    Shift8Injective(x, y);
  }

  lemma Xor8Injective(a: bv8, b: bv8, c: bv8)
    ensures Xor8(a, c) == Xor8(b, c) ==> a == b
    ensures Xor8(c, a) == Xor8(c, b) ==> a == b
  {
  }

  lemma {:induction false} SameEnd8(x: bv8, y: bv8, s: seq<bv8>)
    requires Rest8(x, s) == Rest8(y, s)
    ensures x == y
    decreases |s|
  {
    if s != [] {
      var n := |s| - 1;
      Byte8Injective(Xor8(Rest8(x, s[..n]), s[n]), Xor8(Rest8(y, s[..n]), s[n]));
      Xor8Injective(Rest8(x, s[..n]), Rest8(y, s[..n]), s[n]);
      SameEnd8(x, y, s[..n]);
    }
  }

  lemma {:induction false} Rest8Split(crc: bv8, s: seq<bv8>, t: seq<bv8>)
    ensures Rest8(crc, s + t) == Rest8(Rest8(crc, s), t)
    decreases |t|
  {
    if t == [] {
      assert s + t == s;
    } else {
      var n := |t| - 1;
      assert (s + t)[..|s + t| - 1] == s + t[..n];
      Rest8Split(crc, s, t[..n]);
    }
  }

  /** Strings that differ in one byte only have different checksums. */
  lemma ByteDetected(s: seq<bv8>, t: seq<bv8>, i: nat)
    requires |s| == |t| && i < |s| && s[i] != t[i]
    requires forall j | 0 <= j < |s| && j != i :: s[j] == t[j]
    ensures Crc8(s) != Crc8(t)
  {
    var p, q := s[..i], s[i + 1..];
    var c := Rest8(0, p);
    assert s == p + [s[i]] + q && t == p + [t[i]] + q;
    Rest8Split(0, p + [s[i]], q);
    Rest8Split(0, p + [t[i]], q);
    assert (p + [s[i]])[..|p|] == p && (p + [t[i]])[..|p|] == p;
    if Crc8(s) == Crc8(t) {
      SameEnd8(Rest8(0, p + [s[i]]), Rest8(0, p + [t[i]]), q);
      Byte8Injective(Xor8(c, s[i]), Xor8(c, t[i]));
      Xor8Injective(s[i], t[i], c);
    }
  }
}
