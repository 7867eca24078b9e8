/** The packed file allocation table: reading and changing one entry through the window. */
module FatTable {
  import opened Volume
  import opened Window

  // ---------- Words in bytes

  function LdWord(b0: byte, b1: byte): (w: nat)
    ensures w < 0x1_0000
  {
    var h: nat := b1;
    h * 256 + b0
  }

  function LdDword(b0: byte, b1: byte, b2: byte, b3: byte): (d: nat)
    ensures d < 0x1_0000_0000
  {
    var h: nat := b3;
    ((h * 256 + b2) * 256 + b1) * 256 + b0
  }

  /** The low byte comes first. */
  lemma WordBytes(b0: byte, b1: byte)
    ensures LdWord(b0, b1) % 256 == b0 && LdWord(b0, b1) / 256 == b1
  {
  }

  /** The bytes come in the order of their weight. */
  lemma DwordBytes(b0: byte, b1: byte, b2: byte, b3: byte)
    ensures var d := LdDword(b0, b1, b2, b3);
      d % 256 == b0 && d / 256 % 256 == b1 && d / 0x1_0000 % 256 == b2 && d / 0x100_0000 == b3
  {
    var d := LdDword(b0, b1, b2, b3);
    assert d / 256 == (b3 * 256 + b2) * 256 + b1;
    assert d / 256 / 256 == b3 * 256 + b2 && d / 256 / 256 / 256 == b3;
  }

  method StWord(val: nat) returns (bs: seq<byte>)
    ensures |bs| == 2 && LdWord(bs[0], bs[1]) == val % 0x1_0000
  {
    bs := [val % 256, val / 256 % 256];
  }

  method StDword(val: nat) returns (bs: seq<byte>)
    requires val < 0x1_0000_0000
    ensures |bs| == 4 && LdDword(bs[0], bs[1], bs[2], bs[3]) == val
  {
    var v := val;
    var b0 := v % 256;
    v := v / 256;
    var b1 := v % 256;
    v := v / 256;
    var b2 := v % 256;
    v := v / 256;
    bs := [b0, b1, b2, v];
  }

  // ---------- Entries in a byte array

  /** A FAT12 entry is three of the four half-bytes it touches. */
  function Decode12(c: nat, b0: byte, b1: byte): (e: nat)
    ensures e == if c % 2 == 1 then b1 * 16 + b0 / 16 else b1 % 16 * 256 + b0
  {
    var w := LdWord(b0, b1);
    assert w == b1 * 256 + b0;
    if c % 2 == 1 then w / 16 else w % 0x1000
  }

  /** `b` has the half of the first byte that belongs to entry `c`, and the neighbour's half of `prev`. */
  predicate First12(c: nat, prev: byte, val: nat, b: byte) {
    if c % 2 == 1 then b % 16 == prev % 16 && b / 16 == val % 16 else b == val % 256
  }

  /** The same for the second byte. */
  predicate Second12(c: nat, prev: byte, val: nat, b: byte) {
    if c % 2 == 1 then b == val / 16 % 256 else b / 16 == prev / 16 && b % 16 == val / 256 % 16
  }

  method MergeFirst12(c: nat, prev: byte, val: nat) returns (b: byte)
    ensures First12(c, prev, val, b)
  {
    b := if c % 2 == 1 then prev % 16 + val % 16 * 16 else val % 256;
  }

  method MergeSecond12(c: nat, prev: byte, val: nat) returns (b: byte)
    ensures Second12(c, prev, val, b)
  {
    b := if c % 2 == 1 then val / 16 % 256 else prev / 16 * 16 + val / 256 % 16;
  }

  lemma Mod12(val: nat, q: nat, r: nat)
    requires val == 0x1000 * q + r && r < 0x1000
    ensures val % 0x1000 == r
  {
  }

  lemma Stored12(c: nat, prev0: byte, prev1: byte, val: nat, b0: byte, b1: byte)
    requires First12(c, prev0, val, b0) && Second12(c, prev1, val, b1)
    ensures Decode12(c, b0, b1) == val % 0x1000
  {
    if c % 2 == 1 {
      Mod12(val, val / 16 / 256, val / 16 % 256 * 16 + val % 16);
    } else {
      Mod12(val, val / 256 / 16, val / 256 % 16 * 256 + val % 256);
    }
  }

  function Dword(a: seq<byte>, o: nat): (d: nat)
    requires o + 4 <= |a|
    ensures d < 0x1_0000_0000
  {
    LdDword(a[o], a[o + 1], a[o + 2], a[o + 3])
  }

  /** The bytes of a double word with new low 28 bits and the top four of `prev`. */
  method StLow28(prev: nat, val: nat) returns (bs: seq<byte>)
    requires prev < 0x1_0000_0000
    ensures |bs| == 4 && Dword(bs, 0) % 0x1000_0000 == val % 0x1000_0000
    ensures Dword(bs, 0) / 0x1000_0000 == prev / 0x1000_0000
  {
    var dw := val % 0x1000_0000 + prev / 0x1000_0000 * 0x1000_0000;
    bs := StDword(dw);
  }

  /** Offset of the first byte of entry `c`. */
  function EntryOffset(t: FsType, c: nat): nat {
    match t
    case Fat12 => c + c / 2
    case Fat16 => 2 * c
    case Fat32 => 4 * c
  }

  /** Number of bytes entry `c` touches. */
  function EntrySize(t: FsType): nat {
    if t == Fat32 then 4 else 2
  }

  predicate EntryIn(t: FsType, a: seq<byte>, c: nat) {
    EntryOffset(t, c) + EntrySize(t) <= |a|
  }

  /** The value of entry `c` of the table held in `a`: 12, 16 or the low 28 bits. */
  function Entry(t: FsType, a: seq<byte>, c: nat): nat
    requires EntryIn(t, a, c)
  {
    var o := EntryOffset(t, c);
    match t
    case Fat12 => Decode12(c, a[o], a[o + 1])
    case Fat16 => LdWord(a[o], a[o + 1])
    case Fat32 => Dword(a, o) % 0x1000_0000
  }

  /** Three bytes, the low one first. */
  function Low3(b0: nat, b1: nat, b2: nat): nat {
    b0 + 0x100 * b1 + 0x1_0000 * b2
  }

  /** Three bytes of a FAT12 table are two entries, the low one first. */
  lemma Packed12(a: seq<byte>, i: nat)
    requires 3 * i + 3 <= |a|
    ensures EntryIn(Fat12, a, 2 * i) && EntryIn(Fat12, a, 2 * i + 1)
    ensures Entry(Fat12, a, 2 * i) + 0x1000 * Entry(Fat12, a, 2 * i + 1) == Low3(a[3 * i], a[3 * i + 1], a[3 * i + 2])
  {
    assert EntryOffset(Fat12, 2 * i) == 3 * i && EntryOffset(Fat12, 2 * i + 1) == 3 * i + 1;
  }

  /** Two bytes of a FAT16 table are an entry. */
  lemma Packed16(a: seq<byte>, i: nat)
    requires 2 * i + 2 <= |a|
    ensures EntryIn(Fat16, a, i) && Entry(Fat16, a, i) == Low3(a[2 * i], a[2 * i + 1], 0)
  {
  }

  lemma Mod28(d: nat, q: nat, r: nat)
    requires d == 0x1000_0000 * q + r && r < 0x1000_0000
    ensures d % 0x1000_0000 == r
  {
  }

  /** Three bytes and the low half of a fourth, the low one first. */
  function Low28(b0: nat, b1: nat, b2: nat, b3: nat): nat {
    Low3(b0, b1, b2) + 0x100_0000 * (b3 % 16)
  }

  lemma DwordLow28(b0: byte, b1: byte, b2: byte, b3: byte)
    ensures LdDword(b0, b1, b2, b3) % 0x1000_0000 == Low28(b0, b1, b2, b3)
  {
    var h: nat := b3;
    Mod28(LdDword(b0, b1, b2, b3), h / 16, 0x100_0000 * (h % 16) + Low3(b0, b1, b2));
  }

  /** Four bytes of a FAT32 table, without the top four bits, are an entry. */
  lemma Packed32(a: seq<byte>, i: nat, o: nat)
    requires o == 4 * i && o + 4 <= |a|
    ensures EntryIn(Fat32, a, i) && Entry(Fat32, a, i) == Low28(a[o], a[o + 1], a[o + 2], a[o + 3])
  {
    assert EntryOffset(Fat32, i) == o;
    DwordLow28(a[o], a[o + 1], a[o + 2], a[o + 3]);
  }

  /** The four bits of a FAT32 entry that are not part of its value. */
  function ReservedBits(a: seq<byte>, c: nat): nat
    requires EntryIn(Fat32, a, c)
  {
    Dword(a, EntryOffset(Fat32, c)) / 0x1000_0000
  }

  /** `val` cut to the width of an entry. */
  function Mask(t: FsType, val: nat): nat {
    match t
    case Fat12 => val % 0x1000
    case Fat16 => val % 0x1_0000
    case Fat32 => val % 0x1000_0000
  }

  /** `bs` is what the bytes of entry `c` become when `val` is stored in it. */
  predicate Encodes(t: FsType, a: seq<byte>, c: nat, val: nat, bs: seq<byte>)
    requires EntryIn(t, a, c) && |bs| == EntrySize(t)
  {
    var o := EntryOffset(t, c);
    match t
    case Fat12 => First12(c, a[o], val, bs[0]) && Second12(c, a[o + 1], val, bs[1])
    case Fat16 => LdWord(bs[0], bs[1]) == val % 0x1_0000
    case Fat32 => Dword(bs, 0) % 0x1000_0000 == val % 0x1000_0000 && Dword(bs, 0) / 0x1000_0000 == ReservedBits(a, c)
  }

  lemma ReadOverWrite12(a: seq<byte>, c: nat, val: nat, bs: seq<byte>, b: seq<byte>, k: nat)
    requires EntryIn(Fat12, a, c) && EntryIn(Fat12, a, k) && |bs| == 2 && Encodes(Fat12, a, c, val, bs)
    requires IsSplice(a, EntryOffset(Fat12, c), bs, b)
    ensures Entry(Fat12, b, k) == if k == c then val % 0x1000 else Entry(Fat12, a, k)
  {
    var o := c + c / 2;
    Stored12(c, a[o], a[o + 1], val, bs[0], bs[1]);
    var p := k + k / 2;
    if k == c {
      assert b[o] == bs[0] && b[o + 1] == bs[1];
    } else {
      assert k != c - 1 ==> b[p + 1] == a[p + 1];
      assert k != c + 1 ==> b[p] == a[p];
    }
  }

  lemma ReadOverWrite16(a: seq<byte>, c: nat, val: nat, bs: seq<byte>, b: seq<byte>, k: nat)
    requires EntryIn(Fat16, a, c) && EntryIn(Fat16, a, k) && |bs| == 2 && Encodes(Fat16, a, c, val, bs)
    requires IsSplice(a, EntryOffset(Fat16, c), bs, b)
    ensures Entry(Fat16, b, k) == if k == c then val % 0x1_0000 else Entry(Fat16, a, k)
  {
    if k == c {
      assert b[2 * c] == bs[0] && b[2 * c + 1] == bs[1];
    } else {
      assert b[2 * k] == a[2 * k] && b[2 * k + 1] == a[2 * k + 1];
    }
  }

  lemma ReadOverWrite32(a: seq<byte>, c: nat, val: nat, bs: seq<byte>, b: seq<byte>, k: nat)
    requires EntryIn(Fat32, a, c) && EntryIn(Fat32, a, k) && |bs| == 4 && Encodes(Fat32, a, c, val, bs)
    requires IsSplice(a, EntryOffset(Fat32, c), bs, b)
    ensures Entry(Fat32, b, k) == if k == c then val % 0x1000_0000 else Entry(Fat32, a, k)
    ensures ReservedBits(b, k) == ReservedBits(a, k)
  {
    var o := 4 * k;
    if k == c {
      assert b[o] == bs[0] && b[o + 1] == bs[1] && b[o + 2] == bs[2] && b[o + 3] == bs[3];
      assert Dword(b, o) == Dword(bs, 0);
    } else {
      assert b[o] == a[o] && b[o + 1] == a[o + 1] && b[o + 2] == a[o + 2] && b[o + 3] == a[o + 3];
      assert Dword(b, o) == Dword(a, o);
    }
  }

  /** Storing an entry sets it, and leaves every other entry and all reserved bits as they were. */
  lemma ReadOverWrite(t: FsType, a: seq<byte>, c: nat, val: nat, bs: seq<byte>, b: seq<byte>, k: nat)
    requires EntryIn(t, a, c) && EntryIn(t, a, k) && |bs| == EntrySize(t) && Encodes(t, a, c, val, bs)
    requires IsSplice(a, EntryOffset(t, c), bs, b)
    ensures Entry(t, b, k) == if k == c then Mask(t, val) else Entry(t, a, k)
    ensures t == Fat32 ==> ReservedBits(b, k) == ReservedBits(a, k)
  {
    match t {
      case Fat12 => ReadOverWrite12(a, c, val, bs, b, k);
      case Fat16 => ReadOverWrite16(a, c, val, bs, b, k);
      case Fat32 => ReadOverWrite32(a, c, val, bs, b, k);
    }
  }

  /** When the second sector of a straddling FAT12 entry cannot be reached, only that entry is damaged. */
  lemma HalfWritten(a: seq<byte>, c: nat, val: nat, b0: byte, b: seq<byte>, k: nat)
    requires EntryIn(Fat12, a, c) && EntryIn(Fat12, a, k) && k != c && First12(c, a[c + c / 2], val, b0)
    requires IsSplice(a, c + c / 2, [b0], b)
    ensures Entry(Fat12, b, k) == Entry(Fat12, a, k)
  {
  }

  // ---------- The table on the medium

  ghost predicate Ready(g: Geometry, d: seq<Sector>) {
    Sound(g) && g.volEnd <= |d|
  }

  /** `a` holds the bytes of the first FAT. */
  ghost predicate IsFatArea(g: Geometry, d: seq<Sector>, a: seq<byte>)
    requires Ready(g, d)
  {
    && |a| == 512 * g.fsize
    && forall k: nat, o: nat {:trigger At(k), At(o)} :: At(k) && At(o) && k < g.fsize && o < 512 ==>
         a[512 * k + o] == d[g.fatbase + k][o]
  }

  ghost function FatArea(g: Geometry, d: seq<Sector>): (a: seq<byte>)
    requires Ready(g, d)
    ensures |a| == 512 * g.fsize
  {
    var b := seq(512 * g.fsize, i requires 0 <= i < 512 * g.fsize => d[g.fatbase + i / 512][i % 512]);
    assert IsFatArea(g, d, b);
    var a :| IsFatArea(g, d, a);
    a
  }

  lemma FatAreaAt(g: Geometry, d: seq<Sector>, k: nat, o: nat)
    requires Ready(g, d) && k < g.fsize && o < 512
    ensures FatArea(g, d)[512 * k + o] == d[g.fatbase + k][o]
  {
    assert At(k) && At(o);
  }

  lemma EntryFits(g: Geometry, a: seq<byte>, c: nat)
    requires Sound(g) && |a| == 512 * g.fsize && c < g.nFatent
    ensures EntryIn(g.fsType, a, c)
  {
  }

  lemma Split16(c: nat)
    ensures c * 2 % 512 + 2 <= 512 && 512 * (c / 256) + c * 2 % 512 == 2 * c
  {
    assert c * 2 == 512 * (c / 256) + 2 * (c % 256);
  }

  lemma Split32(c: nat)
    ensures c * 4 % 512 + 4 <= 512 && 512 * (c / 128) + c * 4 % 512 == 4 * c
  {
    assert c * 4 == 512 * (c / 128) + 4 * (c % 128);
  }

  /** An entry of a FAT16 or FAT32 table lies within one sector. */
  lemma EntryPlace(g: Geometry, a: seq<byte>, c: nat)
    requires Sound(g) && |a| == 512 * g.fsize && c < g.nFatent
    ensures EntryIn(g.fsType, a, c)
    ensures g.fsType == Fat16 ==> c / 256 < g.fsize && c * 2 % 512 + 2 <= 512 && 512 * (c / 256) + c * 2 % 512 == 2 * c
    ensures g.fsType == Fat32 ==> c / 128 < g.fsize && c * 4 % 512 + 4 <= 512 && 512 * (c / 128) + c * 4 % 512 == 4 * c
  {
    EntryFits(g, a, c);
    Split16(c);
    Split32(c);
  }

  ghost predicate IsTable(g: Geometry, a: seq<byte>, f: seq<nat>) {
    && |f| == g.nFatent
    && forall c: nat {:trigger At(c)} :: At(c) && c < g.nFatent ==>
         EntryIn(g.fsType, a, c) && f[c] == Entry(g.fsType, a, c)
  }

  lemma TableAt(g: Geometry, a: seq<byte>, f: seq<nat>, c: nat)
    requires IsTable(g, a, f) && c < g.nFatent
    ensures EntryIn(g.fsType, a, c) && f[c] == Entry(g.fsType, a, c)
  {
    assert At(c);
  }

  lemma TableExists(g: Geometry, a: seq<byte>)
    requires Sound(g) && |a| == 512 * g.fsize
    ensures exists f :: IsTable(g, a, f)
  {
    forall c: nat | c < g.nFatent
      ensures EntryIn(g.fsType, a, c)
    {
      EntryFits(g, a, c);
    }
    var f := seq(g.nFatent, c requires 0 <= c < g.nFatent => Entry(g.fsType, a, c));
    assert IsTable(g, a, f);
  }

  /** The table as the allocator sees it. */
  ghost function Fat(g: Geometry, d: seq<Sector>): (f: seq<nat>)
    requires Ready(g, d)
    ensures |f| == g.nFatent
  {
    TableExists(g, FatArea(g, d));
    var f :| IsTable(g, FatArea(g, d), f);
    f
  }

  lemma FatAt(g: Geometry, d: seq<Sector>, c: nat)
    requires Ready(g, d) && c < g.nFatent
    ensures EntryIn(g.fsType, FatArea(g, d), c) && Fat(g, d)[c] == Entry(g.fsType, FatArea(g, d), c)
  {
    TableAt(g, FatArea(g, d), Fat(g, d), c);
  }

  /** The end mark the allocator stores reads back as an end mark for every accepted table size. */
  lemma EndMarkEndsChain(g: Geometry)
    requires Sound(g)
    ensures Mask(g.fsType, INVALID) >= g.nFatent
  {
  }

  /** Brings FAT sector `k` into the window, to use its bytes `o..o + n`. */
  method FatWindow(fs: Fatfs, k: nat, o: nat, n: nat) returns (res: FResult)
    requires fs.Valid() && k < fs.g.fsize && o + n <= 512
    modifies fs`disk, fs`wflag, fs`winsect, fs.win
    ensures fs.Valid() && fs.L() == old(fs.L()) && WinStep(fs.g, old(fs.winsect), fs.winsect)
    ensures res == Ok || (res == DiskErr && !fs.reliable)
    ensures res == Ok ==> fs.winsect == fs.g.fatbase + k
    ensures res == Ok ==> forall j: nat :: o <= j < o + n ==> fs.win[j] == FatArea(fs.g, fs.L())[512 * k + j]
  {
    res := MoveWindow(fs, fs.g.fatbase + k);
    forall j: nat | o <= j < o + n
      ensures res == Ok ==> fs.win[j] == FatArea(fs.g, fs.L())[512 * k + j]
    {
      FatAreaAt(fs.g, fs.L(), k, j);
    }
  }

  /** Byte `bc` of the FAT. */
  method FatByte(fs: Fatfs, bc: nat) returns (res: FResult, b: byte)
    requires fs.Valid() && bc < 512 * fs.g.fsize
    modifies fs`disk, fs`wflag, fs`winsect, fs.win
    ensures fs.Valid() && fs.L() == old(fs.L()) && WinStep(fs.g, old(fs.winsect), fs.winsect)
    ensures res == Ok || (res == DiskErr && !fs.reliable)
    ensures res == Ok ==> b == FatArea(fs.g, fs.L())[bc]
  {
    res := FatWindow(fs, bc / 512, bc % 512, 1);
    b := fs.win[bc % 512];
  }

  /** The double word at byte `o` of FAT sector `k`, which is in the window. */
  method WinDword(fs: Fatfs, k: nat, o: nat) returns (dw: nat)
    requires fs.Valid() && k < fs.g.fsize && o + 4 <= 512
    requires forall j: nat :: o <= j < o + 4 ==> fs.win[j] == FatArea(fs.g, fs.L())[512 * k + j]
    ensures dw == Dword(FatArea(fs.g, fs.L()), 512 * k + o)
  {
    dw := LdDword(fs.win[o], fs.win[o + 1], fs.win[o + 2], fs.win[o + 3]);
  }

  method GetFat12(fs: Fatfs, clst: nat) returns (val: nat)
    requires fs.Valid() && fs.g.fsType == Fat12 && 2 <= clst < fs.g.nFatent
    modifies fs`disk, fs`wflag, fs`winsect, fs.win
    ensures fs.Valid() && fs.L() == old(fs.L()) && WinStep(fs.g, old(fs.winsect), fs.winsect)
    ensures (val == Fat(fs.g, fs.L())[clst] && val < INVALID) || (val == INVALID && !fs.reliable)
  {
    EntryFits(fs.g, FatArea(fs.g, fs.L()), clst);
    var bc := clst;
    bc := bc + bc / 2;
    var res, b0 := FatByte(fs, bc);
    if res != Ok { return INVALID; }
    bc := bc + 1;
    var b1;
    res, b1 := FatByte(fs, bc);
    if res != Ok { return INVALID; }
    FatAt(fs.g, fs.L(), clst);
    val := Decode12(clst, b0, b1);
  }

  method GetFat16(fs: Fatfs, clst: nat) returns (val: nat)
    requires fs.Valid() && fs.g.fsType == Fat16 && 2 <= clst < fs.g.nFatent
    modifies fs`disk, fs`wflag, fs`winsect, fs.win
    ensures fs.Valid() && fs.L() == old(fs.L()) && WinStep(fs.g, old(fs.winsect), fs.winsect)
    ensures (val == Fat(fs.g, fs.L())[clst] && val < INVALID) || (val == INVALID && !fs.reliable)
  {
    EntryPlace(fs.g, FatArea(fs.g, fs.L()), clst);
    var o := clst * 2 % 512;
    var res := FatWindow(fs, clst / 256, o, 2);
    if res != Ok { return INVALID; }
    FatAt(fs.g, fs.L(), clst);
    val := LdWord(fs.win[o], fs.win[o + 1]);
  }

  method GetFat32(fs: Fatfs, clst: nat) returns (val: nat)
    requires fs.Valid() && fs.g.fsType == Fat32 && 2 <= clst < fs.g.nFatent
    modifies fs`disk, fs`wflag, fs`winsect, fs.win
    ensures fs.Valid() && fs.L() == old(fs.L()) && WinStep(fs.g, old(fs.winsect), fs.winsect)
    ensures (val == Fat(fs.g, fs.L())[clst] && val < INVALID) || (val == INVALID && !fs.reliable)
  {
    EntryPlace(fs.g, FatArea(fs.g, fs.L()), clst);
    var o := clst * 4 % 512;
    var res := FatWindow(fs, clst / 128, o, 4);
    if res != Ok { return INVALID; }
    FatAt(fs.g, fs.L(), clst);
    val := WinDword(fs, clst / 128, o);
    val := val % 0x1000_0000;
  }

  /** Returns 1 for a cluster number out of range and `INVALID` on a disk error. */
  method GetFat(fs: Fatfs, clst: nat) returns (val: nat)
    requires fs.Valid()
    modifies fs`disk, fs`wflag, fs`winsect, fs.win
    ensures fs.Valid() && fs.L() == old(fs.L()) && WinStep(fs.g, old(fs.winsect), fs.winsect)
    ensures !(2 <= clst < fs.g.nFatent) ==> val == 1
    ensures 2 <= clst < fs.g.nFatent ==>
              (val == Fat(fs.g, fs.L())[clst] && val < INVALID) || (val == INVALID && !fs.reliable)
  {
    if clst < 2 || clst >= fs.g.nFatent {
      return 1;
    }
    match fs.g.fsType {
      case Fat12 => val := GetFat12(fs, clst);
      case Fat16 => val := GetFat16(fs, clst);
      case Fat32 => val := GetFat32(fs, clst);
    }
  }

  /** Storing into the window shows at its sector and nowhere else. */
  lemma PokeLogical(g: Geometry, mr: bool, v: Vol, win: Sector)
    requires VolInv(g, mr, v) && v.winsect < |v.disk|
    ensures var v' := v.(win := win, wflag := true);
      && VolInv(g, mr, v')
      && Logical(g, v') == Logical(g, v)[v.winsect := win]
      && Logical(g, v)[v.winsect] == v.win
  {
    var v' := v.(win := win, wflag := true);
    LogicalAt(g, v, v.winsect);
    forall k: nat | k < |v.disk|
      ensures Logical(g, v')[k] == Logical(g, v)[v.winsect := win][k]
    {
      LogicalAt(g, v, k);
      LogicalAt(g, v', k);
    }
    assert Logical(g, v') == Logical(g, v)[v.winsect := win];
  }

  lemma PokeNonFat(g: Geometry, d: seq<Sector>, s: nat, win: Sector)
    requires s < |d| && InFat1(g, s)
    ensures NonFat(g, d[s := win]) == NonFat(g, d)
  {
    forall k: nat | k < |d|
      ensures NonFat(g, d[s := win])[k] == NonFat(g, d)[k]
    {
      NonFatAt(g, d, k);
      NonFatAt(g, d[s := win], k);
    }
    assert NonFat(g, d[s := win]) == NonFat(g, d);
  }

  lemma PokeArea(g: Geometry, d: seq<Sector>, k: nat, o: nat, bs: seq<byte>)
    requires Ready(g, d) && k < g.fsize && o + |bs| <= 512
    ensures FatArea(g, d[g.fatbase + k := Splice(d[g.fatbase + k], o, bs)])
         == Splice(FatArea(g, d), 512 * k + o, bs)
  {
    var e := d[g.fatbase + k := Splice(d[g.fatbase + k], o, bs)];
    var a := Splice(FatArea(g, d), 512 * k + o, bs);
    forall i: nat | i < 512 * g.fsize
      ensures FatArea(g, e)[i] == a[i]
    {
      var x, y := i / 512, i % 512;
      FatAreaAt(g, d, x, y);
      FatAreaAt(g, e, x, y);
    }
    assert FatArea(g, e) == a;
  }

  /** Stores bytes `o..` of FAT sector `k`, which is in the window, and marks the window dirty. */
  method Poke(fs: Fatfs, k: nat, o: nat, bs: seq<byte>)
    requires fs.Valid() && k < fs.g.fsize && fs.winsect == fs.g.fatbase + k && o + |bs| <= 512
    modifies fs`wflag, fs.win
    ensures fs.Valid() && IsSplice(FatArea(fs.g, old(fs.L())), 512 * k + o, bs, FatArea(fs.g, fs.L()))
    ensures NonFat(fs.g, fs.L()) == NonFat(fs.g, old(fs.L()))
  {
    ghost var v := fs.V();
    PokeLogical(fs.g, fs.mirrorReliable, v, Splice(v.win, o, bs));
    PokeArea(fs.g, fs.L(), k, o, bs);
    PokeNonFat(fs.g, fs.L(), fs.winsect, Splice(v.win, o, bs));
    forall j | 0 <= j < |bs| {
      fs.win[o + j] := bs[j];
    }
    fs.wflag := true;
    assert fs.V() == v.(win := Splice(v.win, o, bs), wflag := true);
  }

  /** The first FAT after an entry has been stored, as far as the medium allowed. */
  ghost predicate Stored(g: Geometry, d: seq<Sector>, d': seq<Sector>, clst: nat, val: nat, ok: bool)
    requires Ready(g, d) && Ready(g, d') && clst < g.nFatent
  {
    && (ok ==> Fat(g, d') == Fat(g, d)[clst := Mask(g.fsType, val)])
    && (forall k: nat :: k < g.nFatent && k != clst ==> Fat(g, d')[k] == Fat(g, d)[k])
    && (g.fsType == Fat32 ==> forall k: nat {:trigger At(k)} :: At(k) && k < g.nFatent ==>
          EntryIn(Fat32, FatArea(g, d), k) && EntryIn(Fat32, FatArea(g, d'), k)
          && ReservedBits(FatArea(g, d'), k) == ReservedBits(FatArea(g, d), k))
  }

  lemma EntryStored(g: Geometry, d: seq<Sector>, d': seq<Sector>, clst: nat, val: nat, bs: seq<byte>)
    requires Ready(g, d) && Ready(g, d') && clst < g.nFatent && EntryIn(g.fsType, FatArea(g, d), clst)
    requires |bs| == EntrySize(g.fsType) && Encodes(g.fsType, FatArea(g, d), clst, val, bs)
    requires IsSplice(FatArea(g, d), EntryOffset(g.fsType, clst), bs, FatArea(g, d'))
    ensures Stored(g, d, d', clst, val, true)
  {
    forall k: nat | k < g.nFatent
      ensures EntryIn(g.fsType, FatArea(g, d), k) && EntryIn(g.fsType, FatArea(g, d'), k)
      ensures Fat(g, d')[k] == if k == clst then Mask(g.fsType, val) else Fat(g, d)[k]
      ensures g.fsType == Fat32 ==> ReservedBits(FatArea(g, d'), k) == ReservedBits(FatArea(g, d), k)
    {
      FatAt(g, d, k);
      FatAt(g, d', k);
      ReadOverWrite(g.fsType, FatArea(g, d), clst, val, bs, FatArea(g, d'), k);
    }
  }

  lemma HalfStored(g: Geometry, d: seq<Sector>, d': seq<Sector>, clst: nat, val: nat, b0: byte)
    requires Ready(g, d) && Ready(g, d') && g.fsType == Fat12 && clst < g.nFatent
    requires EntryIn(Fat12, FatArea(g, d), clst)
    requires First12(clst, FatArea(g, d)[clst + clst / 2], val, b0)
    requires IsSplice(FatArea(g, d), clst + clst / 2, [b0], FatArea(g, d'))
    ensures Stored(g, d, d', clst, val, false)
  {
    forall k: nat | k < g.nFatent && k != clst
      ensures Fat(g, d')[k] == Fat(g, d)[k]
    {
      FatAt(g, d, k);
      FatAt(g, d', k);
      HalfWritten(FatArea(g, d), clst, val, b0, FatArea(g, d'), k);
    }
  }

  /** Stores an entry that lies within one sector, which is in the window. */
  method PokeEntry(fs: Fatfs, k: nat, o: nat, bs: seq<byte>, ghost clst: nat, ghost val: nat)
    requires fs.Valid() && k < fs.g.fsize && fs.winsect == fs.g.fatbase + k && o + |bs| <= 512
    requires clst < fs.g.nFatent && EntryIn(fs.g.fsType, FatArea(fs.g, fs.L()), clst)
    requires 512 * k + o == EntryOffset(fs.g.fsType, clst)
    requires |bs| == EntrySize(fs.g.fsType) && Encodes(fs.g.fsType, FatArea(fs.g, fs.L()), clst, val, bs)
    modifies fs`wflag, fs.win
    ensures fs.Valid() && NonFat(fs.g, fs.L()) == NonFat(fs.g, old(fs.L()))
    ensures Stored(fs.g, old(fs.L()), fs.L(), clst, val, true)
  {
    ghost var d := fs.L();
    Poke(fs, k, o, bs);
    EntryStored(fs.g, d, fs.L(), clst, val, bs);
  }

  method PutFat16(fs: Fatfs, clst: nat, val: nat) returns (res: FResult)
    requires fs.Valid() && fs.g.fsType == Fat16 && 2 <= clst < fs.g.nFatent
    modifies fs`disk, fs`wflag, fs`winsect, fs.win
    ensures fs.Valid() && NonFat(fs.g, fs.L()) == NonFat(fs.g, old(fs.L()))
            && WinStep(fs.g, old(fs.winsect), fs.winsect)
    ensures res == Ok || (res == DiskErr && !fs.reliable)
    ensures Stored(fs.g, old(fs.L()), fs.L(), clst, val, res == Ok)
  {
    EntryPlace(fs.g, FatArea(fs.g, fs.L()), clst);
    var o := clst * 2 % 512;
    res := FatWindow(fs, clst / 256, o, 2);
    if res != Ok { return; }
    var bs := StWord(val);
    PokeEntry(fs, clst / 256, o, bs, clst, val);
  }

  method PutFat32(fs: Fatfs, clst: nat, val: nat) returns (res: FResult)
    requires fs.Valid() && fs.g.fsType == Fat32 && 2 <= clst < fs.g.nFatent
    modifies fs`disk, fs`wflag, fs`winsect, fs.win
    ensures fs.Valid() && NonFat(fs.g, fs.L()) == NonFat(fs.g, old(fs.L()))
            && WinStep(fs.g, old(fs.winsect), fs.winsect)
    ensures res == Ok || (res == DiskErr && !fs.reliable)
    ensures Stored(fs.g, old(fs.L()), fs.L(), clst, val, res == Ok)
  {
    EntryPlace(fs.g, FatArea(fs.g, fs.L()), clst);
    var o := clst * 4 % 512;
    res := FatWindow(fs, clst / 128, o, 4);
    if res != Ok { return; }
    var prev := WinDword(fs, clst / 128, o);
    var bs := StLow28(prev, val);
    PokeEntry(fs, clst / 128, o, bs, clst, val);
  }

  /** Moves the window to byte `bc` of the FAT and merges in one byte of the entry. */
  method PutByte12(fs: Fatfs, bc: nat, clst: nat, val: nat, second: bool) returns (res: FResult, b: byte)
    requires fs.Valid() && bc < 512 * fs.g.fsize
    modifies fs`disk, fs`wflag, fs`winsect, fs.win
    ensures fs.Valid() && NonFat(fs.g, fs.L()) == NonFat(fs.g, old(fs.L()))
            && WinStep(fs.g, old(fs.winsect), fs.winsect)
    ensures res == Ok || (res == DiskErr && !fs.reliable)
    ensures res != Ok ==> fs.L() == old(fs.L())
    ensures res == Ok ==> IsSplice(FatArea(fs.g, old(fs.L())), bc, [b], FatArea(fs.g, fs.L()))
    ensures res == Ok ==> var prev := FatArea(fs.g, old(fs.L()))[bc];
                          if second then Second12(clst, prev, val, b) else First12(clst, prev, val, b)
  {
    b := 0;
    res := FatWindow(fs, bc / 512, bc % 512, 1);
    if res != Ok { return; }
    if second {
      b := MergeSecond12(clst, fs.win[bc % 512], val);
    } else {
      b := MergeFirst12(clst, fs.win[bc % 512], val);
    }
    Poke(fs, bc / 512, bc % 512, [b]);
  }

  /** The entry may straddle two sectors, and then the window moves between the two stores. */
  method PutFat12(fs: Fatfs, clst: nat, val: nat) returns (res: FResult)
    requires fs.Valid() && fs.g.fsType == Fat12 && 2 <= clst < fs.g.nFatent
    modifies fs`disk, fs`wflag, fs`winsect, fs.win
    ensures fs.Valid() && NonFat(fs.g, fs.L()) == NonFat(fs.g, old(fs.L()))
            && WinStep(fs.g, old(fs.winsect), fs.winsect)
    ensures res == Ok || (res == DiskErr && !fs.reliable)
    ensures Stored(fs.g, old(fs.L()), fs.L(), clst, val, res == Ok)
  {
    ghost var d := fs.L();
    EntryFits(fs.g, FatArea(fs.g, d), clst);
    var b0, b1;
    res, b0 := PutByte12(fs, clst + clst / 2, clst, val, false);
    if res != Ok { return; }
    ghost var e := fs.L();
    HalfStored(fs.g, d, e, clst, val, b0);
    res, b1 := PutByte12(fs, clst + clst / 2 + 1, clst, val, true);
    if res != Ok { return; }
    assert FatArea(fs.g, e)[clst + clst / 2 + 1] == FatArea(fs.g, d)[clst + clst / 2 + 1];
    EntryStored(fs.g, d, fs.L(), clst, val, [b0, b1]);
  }

  method PutFat(fs: Fatfs, clst: nat, val: nat) returns (res: FResult)
    requires fs.Valid() && val <= INVALID
    modifies fs`disk, fs`wflag, fs`winsect, fs.win
    ensures fs.Valid() && NonFat(fs.g, fs.L()) == NonFat(fs.g, old(fs.L()))
            && WinStep(fs.g, old(fs.winsect), fs.winsect)
    ensures res == Ok || res == IntErr || (res == DiskErr && !fs.reliable)
    ensures res == IntErr <==> !(2 <= clst < fs.g.nFatent)
    ensures res == IntErr ==> fs.L() == old(fs.L())
    ensures res != IntErr ==> Stored(fs.g, old(fs.L()), fs.L(), clst, val, res == Ok)
  {
    if clst < 2 || clst >= fs.g.nFatent {
      return IntErr;
    }
    match fs.g.fsType {
      case Fat12 => res := PutFat12(fs, clst, val);
      case Fat16 => res := PutFat16(fs, clst, val);
      case Fat32 => res := PutFat32(fs, clst, val);
    }
  }
}
