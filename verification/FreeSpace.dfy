/** Counting the free clusters. */
module FreeSpace {
  import opened Volume
  import opened Window
  import opened FatTable
  import opened ClusterChain

  /** The entry where the scan of a table begins: on FAT16 and FAT32 the two reserved entries are scanned too. */
  function ScanFrom(t: FsType): nat {
    if t == Fat12 then 2 else 0
  }

  /** The window holds entry `c` of a FAT16 or FAT32 table at `i`. */
  lemma EntryInWindow(fs: Fatfs, c: nat, i: nat)
    requires fs.Valid() && fs.g.fsType != Fat12 && c < fs.g.nFatent
    requires i == EntryOffset(fs.g.fsType, c) % 512
    requires fs.winsect == fs.g.fatbase + EntryOffset(fs.g.fsType, c) / 512
    ensures var a, k := FatArea(fs.g, fs.L()), EntryOffset(fs.g.fsType, c) / 512;
      && i + EntrySize(fs.g.fsType) <= 512 && k < fs.g.fsize && |a| == 512 * fs.g.fsize
      && 512 * k + i == EntryOffset(fs.g.fsType, c)
      && forall j: nat | i <= j < i + EntrySize(fs.g.fsType) :: fs.win[j] == a[512 * k + j]
  {
    EntryPlace(fs.g, FatArea(fs.g, fs.L()), c);
    LogicalAt(fs.g, fs.V(), fs.winsect);
    var k := EntryOffset(fs.g.fsType, c) / 512;
    forall j: nat | i <= j < i + EntrySize(fs.g.fsType)
      ensures fs.win[j] == FatArea(fs.g, fs.L())[512 * k + j]
    {
      FatAreaAt(fs.g, fs.L(), k, j);
    }
  }

  /** Whether entry `c` of a FAT16 or FAT32 table, which is at `i` in the window, is zero. */
  method EntryIsFree(fs: Fatfs, c: nat, i: nat) returns (free: bool)
    requires fs.Valid() && fs.g.fsType != Fat12 && c < fs.g.nFatent
    requires i == EntryOffset(fs.g.fsType, c) % 512
    requires fs.winsect == fs.g.fatbase + EntryOffset(fs.g.fsType, c) / 512
    ensures free <==> Fat(fs.g, fs.L())[c] == 0
  {
    EntryInWindow(fs, c, i);
    FatAt(fs.g, fs.L(), c);
    if fs.g.fsType == Fat16 {
      free := LdWord(fs.win[i], fs.win[i + 1]) == 0;
    } else {
      var dw := WinDword(fs, EntryOffset(fs.g.fsType, c) / 512, i);
      free := dw % 0x1000_0000 == 0;
    }
  }

  lemma NextOffset16(c: nat)
    ensures (c * 2 % 512 + 2) % 512 == (c + 1) * 2 % 512
    ensures ((c + 1) * 2 + 511) / 512 == (c * 2 + 511) / 512 + (if c * 2 % 512 == 0 then 1 else 0)
    ensures c * 2 / 512 == (c * 2 + 511) / 512 - (if c * 2 % 512 == 0 then 0 else 1)
  {
    Split16(c);
  }

  lemma NextOffset32(c: nat)
    ensures (c * 4 % 512 + 4) % 512 == (c + 1) * 4 % 512
    ensures ((c + 1) * 4 + 511) / 512 == (c * 4 + 511) / 512 + (if c * 4 % 512 == 0 then 1 else 0)
    ensures c * 4 / 512 == (c * 4 + 511) / 512 - (if c * 4 % 512 == 0 then 0 else 1)
  {
    Split32(c);
  }

  lemma NextOffset(t: FsType, c: nat)
    requires t != Fat12
    ensures (EntryOffset(t, c) % 512 + EntrySize(t)) % 512 == EntryOffset(t, c + 1) % 512
    ensures (EntryOffset(t, c + 1) + 511) / 512
         == (EntryOffset(t, c) + 511) / 512 + (if EntryOffset(t, c) % 512 == 0 then 1 else 0)
    ensures EntryOffset(t, c) / 512 == (EntryOffset(t, c) + 511) / 512 - (if EntryOffset(t, c) % 512 == 0 then 0 else 1)
  {
    if t == Fat16 { NextOffset16(c); } else { NextOffset32(c); }
  }

  /** The scan stands before entry `c`, which is at `i` of its sector; `sect` is the sector to be loaded next. */
  ghost predicate ScanAt(fs: Fatfs, c: nat, i: nat, sect: nat)
    reads fs
  {
    && i == EntryOffset(fs.g.fsType, c) % 512
    && sect == fs.g.fatbase + (EntryOffset(fs.g.fsType, c) + 511) / 512
    && (i != 0 ==> fs.winsect == sect - 1)
  }

  /** Moves the window to the FAT sector of entry `c` if the scan has come to its start, looks at the entry, and moves
      on. */
  method ScanEntry(fs: Fatfs, c: nat, i: nat, sect: nat) returns (res: FResult, free: bool, sect': nat, i': nat)
    requires fs.Valid() && fs.g.fsType != Fat12 && c < fs.g.nFatent && ScanAt(fs, c, i, sect)
    modifies fs`disk, fs`wflag, fs`winsect, fs.win
    ensures fs.Valid() && fs.L() == old(fs.L()) && WinStep(fs.g, old(fs.winsect), fs.winsect)
    ensures res == Ok || (res == DiskErr && !fs.reliable && EntryOffset(fs.g.fsType, c) % 512 == 0)
    ensures res == Ok ==> (free <==> Fat(fs.g, fs.L())[c] == 0) && ScanAt(fs, c + 1, i', sect')
  {
    NextOffset(fs.g.fsType, c);
    EntryPlace(fs.g, FatArea(fs.g, fs.L()), c);
    res, free, sect', i' := Ok, false, sect, i;
    if i == 0 {
      res := FatWindow(fs, sect - fs.g.fatbase, 0, 0);
      if res != Ok { return; }
      sect' := sect + 1;
    }
    free := EntryIsFree(fs, c, i);
    i' := (i + EntrySize(fs.g.fsType)) % 512;
  }

  /** The scan of a FAT16 or FAT32 table. After an error `nfree` is the count up to entry `upTo`. */
  method ScanTable(fs: Fatfs) returns (res: FResult, nfree: nat, ghost upTo: nat)
    requires fs.Valid() && fs.g.fsType != Fat12
    modifies fs`disk, fs`wflag, fs`winsect, fs.win
    ensures fs.Valid() && fs.L() == old(fs.L()) && WinStep(fs.g, old(fs.winsect), fs.winsect)
    ensures res == Ok || (res == DiskErr && !fs.reliable)
    ensures nfree + FreeFrom(Fat(fs.g, fs.L()), upTo) == FreeFrom(Fat(fs.g, fs.L()), 0)
    ensures if res == Ok then upTo == fs.g.nFatent else upTo < fs.g.nFatent
    ensures res != Ok ==> EntryOffset(fs.g.fsType, upTo) % 512 == 0
  {
    var clst, sect, i := fs.g.nFatent, fs.g.fatbase, 0;
    nfree, res, upTo := 0, Ok, 0;
    while true
      invariant fs.Valid() && fs.L() == old(fs.L()) && WinStep(fs.g, old(fs.winsect), fs.winsect)
      invariant 0 < clst <= fs.g.nFatent && upTo == fs.g.nFatent - clst && ScanAt(fs, upTo, i, sect)
      invariant nfree + FreeFrom(Fat(fs.g, fs.L()), upTo) == FreeFrom(Fat(fs.g, fs.L()), 0)
      decreases clst
    {
      var free;
      res, free, sect, i := ScanEntry(fs, fs.g.nFatent - clst, i, sect);
      if res != Ok { return; }
      if free { nfree := nfree + 1; }
      clst := clst - 1;
      upTo := upTo + 1;
      if clst == 0 { return; }
    }
  }

  /** The scan of a FAT12 table, entry by entry. */
  method ScanTable12(fs: Fatfs) returns (res: FResult, nfree: nat, ghost upTo: nat)
    requires fs.Valid() && fs.g.fsType == Fat12
    modifies fs`disk, fs`wflag, fs`winsect, fs.win
    ensures fs.Valid() && fs.L() == old(fs.L()) && WinStep(fs.g, old(fs.winsect), fs.winsect)
    ensures res == Ok || (res == DiskErr && !fs.reliable)
            || (res == IntErr && upTo < fs.g.nFatent && Fat(fs.g, fs.L())[upTo] == 1)
    ensures 2 <= upTo && nfree + FreeFrom(Fat(fs.g, fs.L()), upTo) == FreeFrom(Fat(fs.g, fs.L()), 2)
    ensures if res == Ok then upTo == fs.g.nFatent else upTo < fs.g.nFatent
    ensures forall c: nat | 2 <= c < upTo :: Fat(fs.g, fs.L())[c] != 1
  {
    var clst := 2;
    nfree, res, upTo := 0, Ok, 2;
    while true
      invariant fs.Valid() && fs.L() == old(fs.L()) && WinStep(fs.g, old(fs.winsect), fs.winsect)
      invariant 2 <= clst == upTo < fs.g.nFatent
      invariant nfree + FreeFrom(Fat(fs.g, fs.L()), upTo) == FreeFrom(Fat(fs.g, fs.L()), 2)
      invariant forall c: nat | 2 <= c < upTo :: Fat(fs.g, fs.L())[c] != 1
      decreases fs.g.nFatent - clst
    {
      var stat := GetFat(fs, clst);
      if stat == INVALID { return DiskErr, nfree, upTo; }
      if stat == 1 { return IntErr, nfree, upTo; }
      if stat == 0 { nfree := nfree + 1; }
      clst, upTo := clst + 1, upTo + 1;
      if clst >= fs.g.nFatent { return Ok, nfree, upTo; }
    }
  }

  /** Whether the scan counts the free clusters of this table. */
  predicate CountsRight(t: FsType, f: seq<nat>) {
    t != Fat12 && |f| >= 2 ==> f[0] != 0 && f[1] != 0
  }

  /** It does so exactly when neither reserved entry of a FAT16 or FAT32 table is zero. */
  lemma ScanCount(t: FsType, f: seq<nat>)
    requires |f| >= 2
    ensures FreeFrom(f, ScanFrom(t)) == FreeCount(f) <==> CountsRight(t, f)
  {
  }

  /** The number of free clusters. What it returns is recorded, after an error too. */
  method GetFree(fs: Fatfs) returns (res: FResult, nclst: nat, ghost upTo: nat)
    requires fs.Valid()
    modifies fs`disk, fs`wflag, fs`winsect, fs.win, fs`freeClst
    ensures fs.Valid() && fs.L() == old(fs.L()) && WinStep(fs.g, old(fs.winsect), fs.winsect)
    ensures nclst == fs.freeClst
    ensures old(fs.freeClst) <= fs.g.nFatent - 2 ==> res == Ok && fs.freeClst == old(fs.freeClst)
    ensures res == Ok || (res == DiskErr && !fs.reliable)
            || (res == IntErr && fs.g.fsType == Fat12 && upTo < fs.g.nFatent && Fat(fs.g, fs.L())[upTo] == 1)
    ensures old(fs.freeClst) > fs.g.nFatent - 2 ==>
              && nclst + FreeFrom(Fat(fs.g, fs.L()), upTo) == FreeFrom(Fat(fs.g, fs.L()), ScanFrom(fs.g.fsType))
              && (if res == Ok then upTo == fs.g.nFatent else upTo < fs.g.nFatent)
    // a scan of a FAT16 or FAT32 table breaks off at the start of a sector, one of a FAT12 table at the first entry 1
    ensures res != Ok && fs.g.fsType != Fat12 ==> EntryOffset(fs.g.fsType, upTo) % 512 == 0
    ensures res == IntErr ==> forall c: nat | 2 <= c < upTo :: Fat(fs.g, fs.L())[c] != 1
    ensures (res == Ok && CountsRight(fs.g.fsType, Fat(fs.g, fs.L()))
            && Accurate(Fat(fs.g, fs.L()), old(fs.freeClst))) ==>
              nclst == FreeCount(Fat(fs.g, fs.L()))
  {
    res, nclst, upTo := Ok, fs.freeClst, fs.g.nFatent;
    if fs.freeClst > fs.g.nFatent - 2 {
      if fs.g.fsType == Fat12 {
        res, nclst, upTo := ScanTable12(fs);
      } else {
        res, nclst, upTo := ScanTable(fs);
      }
      fs.freeClst := nclst;
      ScanCount(fs.g.fsType, Fat(fs.g, fs.L()));
    }
  }

  /** The number recorded by a scan that broke off at entry `k` is right exactly when nothing it did not see is free. */
  lemma PartialCount(t: FsType, f: seq<nat>, k: nat, n: nat)
    requires ScanFrom(t) <= k <= |f| && |f| >= 2 && CountsRight(t, f)
    requires n + FreeFrom(f, k) == FreeFrom(f, ScanFrom(t))
    ensures Accurate(f, n) <==> FreeFrom(f, k) == 0
  {
    ScanCount(t, f);
    FreeFromBound(f, 2);
  }

  /** A table is long enough for its volume to be taken as FAT16. */
  predicate Long16(f: seq<nat>) {
    MaxClusters(Fat12) < |f| - 2 <= MaxClusters(Fat16)
  }

  /** A FAT16 table whose two reserved entries are zero and counted as free clusters, though no cluster is free. */
  lemma ReservedCounted()
    ensures var f := seq(0xFF8, c => if c < 2 then 0 else 0xFFFF);
      Long16(f) && FreeFrom(f, ScanFrom(Fat16)) == 2 && FreeCount(f) == 0
  {
    var f := seq(0xFF8, c => if c < 2 then 0 else 0xFFFF);
    FreeFromZero(f, 2);
    assert FreeFrom(f, 1) == 1 && FreeFrom(f, 0) == 2;
  }

  /** A FAT12 table with an entry 1, at which the scan breaks off having counted one of its two free clusters: the
      medium need not fail for a wrong count to be recorded. */
  lemma BrokenOffRecorded()
    ensures var f := [0xFF8, 0xFFF, 0, 1, 0];
      && f[3] == 1 && (forall c: nat | 2 <= c < 3 :: f[c] != 1)
      && 1 + FreeFrom(f, 3) == FreeFrom(f, ScanFrom(Fat12)) && FreeCount(f) == 2 && !Accurate(f, 1)
  {
    var f := [0xFF8, 0xFFF, 0, 1, 0];
    assert FreeFrom(f, 5) == 0;
    assert FreeFrom(f, 4) == 1 && FreeFrom(f, 3) == 1 && FreeFrom(f, 2) == 2;
  }

  lemma {:induction false} AllFree(f: seq<nat>, c: nat)
    requires c <= |f| && forall k: nat | c <= k < |f| :: f[k] == 0
    ensures FreeFrom(f, c) == |f| - c
    decreases |f| - c
  {
    if c < |f| { AllFree(f, c + 1); }
  }

  /** A FAT16 table of free clusters, of which the first sector has been counted when the second one cannot be read. */
  lemma FailureRecorded()
    ensures var f := seq(0xFF8, c => if c < 2 then 0xFFFF else 0);
      && Long16(f) && EntryOffset(Fat16, 256) % 512 == 0
      && 254 + FreeFrom(f, 256) == FreeFrom(f, ScanFrom(Fat16)) && !Accurate(f, 254)
  {
    var f := seq(0xFF8, c => if c < 2 then 0xFFFF else 0);
    AllFree(f, 256);
    AllFree(f, 2);
    assert FreeFrom(f, 1) == FreeFrom(f, 2) && FreeFrom(f, 0) == FreeFrom(f, 1);
  }
}
