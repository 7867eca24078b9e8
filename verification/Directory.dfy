/** The directory table and the positions in it. */
module Directory {
  import opened Division
  import opened Volume
  import opened Window
  import opened FatTable
  import opened ClusterChain
  import opened FileSpec
  import opened FileSteps

  // ---------- The sectors of a table

  /** The root directory of a FAT12 or FAT16 volume is not a chain. */
  predicate Static(g: Geometry, sclust: nat) {
    sclust == 0 && g.fsType != Fat32
  }

  /** First cluster of the table: the root directory of a FAT32 volume is known as cluster 0 too. */
  function Top(g: Geometry, sclust: nat): nat {
    if sclust == 0 && g.fsType == Fat32 then g.dirbase else sclust
  }

  /** `ch` is the chain of the table that starts at `sclust`; a static table has none. */
  ghost predicate DirOk(g: Geometry, t: seq<nat>, sclust: nat, ch: seq<nat>) {
    && Sound(g) && |t| == g.nFatent
    && Clusters(g, ch)
    && if Static(g, sclust) then ch == [] else ChainOk(t, ch) && ch[0] == Top(g, sclust)
  }

  ghost predicate IsTab(g: Geometry, ch: seq<nat>, ss: seq<nat>)
    requires Sound(g) && Clusters(g, ch)
  {
    if ch == [] then |ss| == g.nRootdir / 16 && forall k: nat {:trigger At(k)} :: At(k) && k < |ss| ==>
      ss[k] == g.dirbase + k
    else ss == Sects(g, ch)
  }

  /** The sectors of the table in order. */
  ghost function Tab(g: Geometry, ch: seq<nat>): (ss: seq<nat>)
    requires Sound(g) && Clusters(g, ch)
    ensures |ss| == if ch == [] then g.nRootdir / 16 else Sectors(g.csize, |ch|)
    ensures ch != [] ==> ss == Sects(g, ch)
  {
    assert IsTab(g, ch, if ch == [] then seq(g.nRootdir / 16, k requires 0 <= k => g.dirbase + k) else Sects(g, ch));
    var ss :| IsTab(g, ch, ss);
    ss
  }

  lemma TabAt(g: Geometry, t: seq<nat>, sclust: nat, ch: seq<nat>, k: nat)
    requires DirOk(g, t, sclust, ch) && k < |Tab(g, ch)|
    ensures FatEnd(g) <= Tab(g, ch)[k] < g.volEnd && 0 < Tab(g, ch)[k]
    ensures ch == [] ==> Tab(g, ch)[k] == g.dirbase + k
  {
    if ch == [] {
      assert At(k);
    } else {
      SectAt(g, ch, k);
    }
  }

  lemma TabDistinct(g: Geometry, t: seq<nat>, sclust: nat, ch: seq<nat>, a: nat, b: nat)
    requires DirOk(g, t, sclust, ch) && a < |Tab(g, ch)| && b < |Tab(g, ch)| && Tab(g, ch)[a] == Tab(g, ch)[b]
    ensures a == b
  {
    if ch == [] {
      assert At(a) && At(b);
    } else {
      SectsDistinct(g, t, ch, a, b);
    }
  }

  // ---------- Positions

  /** Where a directory object stands. */
  datatype Pos = Pos(dptr: nat, clust: nat, sect: nat)

  /** A table is at most this long. */
  const MAX_DIR: nat := 0x200000

  /** The position is that of entry `e`. */
  ghost predicate PosAt(g: Geometry, ch: seq<nat>, p: Pos, e: nat)
    requires Sound(g) && Clusters(g, ch)
  {
    && e < 16 * |Tab(g, ch)| && 32 * e < MAX_DIR
    && p.dptr == 32 * e && p.sect == Tab(g, ch)[e / 16]
    && if ch == [] then p.clust == 0 else Quot(g.csize, e / 16) < |ch| && p.clust == ch[Quot(g.csize, e / 16)]
  }

  /** Entry `e` of a chained table, found by walking to cluster `m` of the chain: `o` bytes into it. */
  lemma Walked(g: Geometry, t: seq<nat>, sclust: nat, ch: seq<nat>, e: nat, m: nat, o: nat)
    requires DirOk(g, t, sclust, ch) && ch != [] && m < |ch| && 32 * e == 512 * Sectors(g.csize, m) + o
             && o < 512 * g.csize
    ensures e < 16 * |Tab(g, ch)| && 2 <= ch[m] < g.nFatent
    ensures Quot(g.csize, e / 16) == m && Tab(g, ch)[e / 16] == Base(g, ch[m]) + o / 512
  {
    assert e / 16 == Sectors(g.csize, m) + o / 512;
    QuotOf(g.csize, m, o / 512);
    SectorsMono(g.csize, m + 1, |ch|);
    SectAt(g, ch, e / 16);
  }

  /** The next entry is in the same sector. */
  lemma SameSector(g: Geometry, ch: seq<nat>, p: Pos, e: nat)
    requires Sound(g) && Clusters(g, ch) && PosAt(g, ch, p, e) && (32 * e + 32) % 512 != 0 && 32 * (e + 1) < MAX_DIR
    ensures PosAt(g, ch, p.(dptr := 32 * e + 32), e + 1)
  {
    assert (e + 1) / 16 == e / 16;
  }

  /** The next entry is in the next sector of a static table. */
  lemma CrossStatic(g: Geometry, p: Pos, e: nat)
    requires Sound(g) && g.fsType != Fat32
    requires PosAt(g, [], p, e) && (32 * e + 32) % 512 == 0 && 32 * (e + 1) < MAX_DIR
    ensures e + 1 < g.nRootdir ==> PosAt(g, [], p.(dptr := 32 * e + 32, sect := p.sect + 1), e + 1)
    ensures |Tab(g, [])| == g.nRootdir / 16
    ensures e + 1 >= g.nRootdir <==> e + 1 == 16 * |Tab(g, [])|
  {
    assert (e + 1) / 16 == e / 16 + 1;
    assert At(e / 16) && At(e / 16 + 1);
  }

  /** The next entry is in the next sector of the same cluster. */
  lemma CrossSector(g: Geometry, t: seq<nat>, sclust: nat, ch: seq<nat>, p: Pos, e: nat)
    requires DirOk(g, t, sclust, ch) && ch != [] && PosAt(g, ch, p, e) && (32 * e + 32) % 512 == 0
             && 32 * (e + 1) < MAX_DIR
    requires Rem(g.csize, e / 16 + 1) != 0
    ensures PosAt(g, ch, p.(dptr := 32 * e + 32, sect := p.sect + 1), e + 1)
  {
    var k := e / 16;
    QuotRem(g.csize, k);
    var m, r := Quot(g.csize, k), Rem(g.csize, k);
    if r + 1 < g.csize {
      QuotOf(g.csize, m, r + 1);
      SectRun(g, ch, k, 1);
    } else {
      QuotOf(g.csize, m + 1, 0);
    }
    assert (e + 1) / 16 == k + 1;
  }

  /** The next entry is the first of the next cluster, if there is one. */
  lemma CrossCluster(g: Geometry, t: seq<nat>, sclust: nat, ch: seq<nat>, p: Pos, e: nat)
    requires DirOk(g, t, sclust, ch) && ch != [] && PosAt(g, ch, p, e) && (32 * e + 32) % 512 == 0
             && 32 * (e + 1) < MAX_DIR
    requires Rem(g.csize, e / 16 + 1) == 0
    ensures var k, m := e / 16 + 1, Quot(g.csize, e / 16);
      && 2 <= p.clust < g.nFatent && k == Sectors(g.csize, m + 1)
      && (if m + 1 < |ch| then
            && t[p.clust] == ch[m + 1] && 2 <= ch[m + 1] < g.nFatent
            && PosAt(g, ch, Pos(32 * e + 32, ch[m + 1], Base(g, ch[m + 1])), e + 1)
          else m + 1 == |ch| && k == |Tab(g, ch)| && p.clust == ch[|ch| - 1] && t[p.clust] >= g.nFatent)
  {
    var k := e / 16 + 1;
    QuotRem(g.csize, e / 16);
    var m, r := Quot(g.csize, e / 16), Rem(g.csize, e / 16);
    if r + 1 < g.csize {
      QuotOf(g.csize, m, r + 1);
    } else {
      QuotOf(g.csize, m + 1, 0);
      if m + 1 < |ch| {
        assert t[ch[m]] == ch[m + 1];
        Walked(g, t, sclust, ch, e + 1, m + 1, 0);
      }
    }
  }

  // ---------- Clearing a cluster

  /** `d'` is `d` with `n` blank sectors from `s` on. */
  ghost predicate Blanked(d: seq<Sector>, d': seq<Sector>, s: nat, n: nat) {
    && |d'| == |d|
    && forall x: nat | x < |d| :: d'[x] == if s <= x < s + n then Blank() else d[x]
  }

  /** Only the `n` sectors from `s` on have changed. */
  ghost predicate Outside(d: seq<Sector>, d': seq<Sector>, s: nat, n: nat) {
    |d'| == |d| && forall x: nat | x < |d| && !(s <= x < s + n) :: d'[x] == d[x]
  }

  /** Writing past the clean window shows on the logical disk only where it was written. */
  lemma OutsideShows(g: Geometry, mr: bool, v: Vol, v': Vol, s: nat, n: nat)
    requires VolInv(g, mr, v) && !v.wflag && v'.winsect == s && 0 < n && Outside(v.disk, v'.disk, s, n)
    ensures Outside(Logical(g, v), Logical(g, v'), s, n)
  {
    forall x: nat | x < |v.disk| && !(s <= x < s + n)
      ensures Logical(g, v')[x] == Logical(g, v)[x]
    {
      LogicalAt(g, v, x);
      LogicalAt(g, v', x);
    }
  }

  /** Clearing a cluster past the window, and leaving the window at its first sector. */
  lemma Cleared(g: Geometry, mr: bool, v: Vol, d: seq<Sector>, s: nat, n: nat)
    requires VolInv(g, mr, v) && !v.wflag && FatEnd(g) <= s && 0 < n && s + n <= g.volEnd && Blanked(v.disk, d, s, n)
    ensures var v' := v.(disk := d, win := Blank(), winsect := s);
      VolInv(g, mr, v') && Blanked(Logical(g, v), Logical(g, v'), s, n)
  {
    var v' := v.(disk := d, win := Blank(), winsect := s);
    forall x: nat | x < |v.disk|
      ensures Logical(g, v')[x] == if s <= x < s + n then Blank() else Logical(g, v)[x]
    {
      LogicalAt(g, v, x);
      LogicalAt(g, v', x);
    }
  }

  lemma {:induction false} TwiceAsMany(szb: nat, k: nat)
    ensures Sectors(szb, 2 * k) == Sectors(2 * szb, k)
  {
    if k > 0 {
      TwiceAsMany(szb, k - 1);
      assert Sectors(szb, 2 * k) == szb + Sectors(szb, 2 * k - 1) == szb + szb + Sectors(szb, 2 * k - 2);
    }
  }

  /** How many sectors are written at once: as many as a temporary buffer of at most 32 KiB can be had for, halving its
      size as long as there is none, or one from the window. They divide the cluster. */
  method ClearUnit(csize: nat) returns (szb: nat, ghost k: nat)
    requires ValidClusterSize(csize)
    ensures szb > 0 && csize == Sectors(szb, k)
  {
    szb, k := csize, 1;
    if csize >= 64 {
      szb, k := 64, csize / 64;
    }
    assert Sectors(szb, 1) == szb && Sectors(szb, 2) == 2 * szb;
    var noMemory: bool := *;
    while szb > 1 && noMemory
      invariant ValidClusterSize(szb) && csize == Sectors(szb, k)
      decreases szb
    {
      TwiceAsMany(szb / 2, k);
      szb, k := szb / 2, 2 * k;
      noMemory := *;
    }
  }

  /** Writes `n` blank sectors from `s` on in one transfer. */
  method BlankRun(fs: Fatfs, s: nat, n: nat) returns (ok: bool)
    requires s + n <= |fs.disk| && forall i: nat | s <= i < s + n :: !InMirror(fs.g, i)
    modifies fs`disk
    ensures ok ==> Blanked(old(fs.disk), fs.disk, s, n)
    ensures Outside(old(fs.disk), fs.disk, s, n) && (fs.reliable ==> ok)
  {
    ok := true;
    for i := 0 to n
      invariant Blanked(old(fs.disk), fs.disk, s, i)
    {
      ok := fs.DiskWrite(Blank(), s + i);
      if !ok { return; }
    }
  }

  lemma {:induction false} RunsFit(szb: nat, k: nat, j: nat)
    requires Sectors(szb, j) < Sectors(szb, k)
    ensures j < k && Sectors(szb, j + 1) == Sectors(szb, j) + szb <= Sectors(szb, k)
  {
    if j < k { SectorsMono(szb, j + 1, k); } else { SectorsMono(szb, k, j); }
  }

  lemma BlankedMore(d: seq<Sector>, d1: seq<Sector>, d2: seq<Sector>, s: nat, n: nat, m: nat)
    requires Blanked(d, d1, s, n) && Blanked(d1, d2, s + n, m)
    ensures Blanked(d, d2, s, n + m)
  {
  }

  /** Writes the blank sectors of a cluster, some at a time. */
  method ClearRuns(fs: Fatfs, sect: nat) returns (ok: bool)
    requires Sound(fs.g) && FatEnd(fs.g) <= sect && sect + fs.g.csize <= |fs.disk|
    modifies fs`disk
    ensures ok ==> Blanked(old(fs.disk), fs.disk, sect, fs.g.csize)
    ensures Outside(old(fs.disk), fs.disk, sect, fs.g.csize) && (fs.reliable ==> ok)
  {
    var szb;
    ghost var k, j: nat;
    szb, k := ClearUnit(fs.g.csize);
    var n := 0;
    j, ok := 0, true;
    while n < fs.g.csize && ok
      invariant n == Sectors(szb, j) <= fs.g.csize && Outside(old(fs.disk), fs.disk, sect, fs.g.csize)
      invariant ok ==> Blanked(old(fs.disk), fs.disk, sect, n)
      invariant fs.reliable ==> ok
      decreases fs.g.csize - n, ok
    {
      RunsFit(szb, k, j);
      ghost var d := fs.disk;
      ok := BlankRun(fs, sect + n, szb);
      if ok {
        BlankedMore(old(fs.disk), d, fs.disk, sect, n, szb);
        n, j := n + szb, j + 1;
      }
    }
    ok := n == fs.g.csize && ok;
  }

  /** Fills a cluster with zeros. If a write fails, nothing outside the cluster has changed, but the window may be blank
      whatever the medium has. */
  method DirClear(fs: Fatfs, clst: nat) returns (res: FResult)
    requires fs.Valid() && 2 <= clst < fs.g.nFatent
    modifies fs`disk, fs`wflag, fs`winsect, fs.win
    ensures res == Ok || (res == DiskErr && !fs.reliable)
    ensures fs.win.Length == 512 && Outside(old(fs.L()), fs.L(), Base(fs.g, clst), fs.g.csize)
    ensures res == Ok ==> fs.Valid() && Blanked(old(fs.L()), fs.L(), Base(fs.g, clst), fs.g.csize)
    ensures res == Ok ==> fs.winsect == Base(fs.g, clst)
  {
    res := SyncWindow(fs);
    if res != Ok { return; }
    ghost var v := fs.V();
    ClusterBounds(fs.g, clst);
    SectorsIsProduct(fs.g.csize, clst - 2);
    var sect := fs.g.database + fs.g.csize * (clst - 2);
    fs.winsect := sect;
    FillWin(fs, Blank());
    var ok := ClearRuns(fs, sect);
    OutsideShows(fs.g, fs.mirrorReliable, v, fs.V(), sect, fs.g.csize);
    if !ok { return DiskErr; }
    Cleared(fs.g, fs.mirrorReliable, v, fs.disk, sect, fs.g.csize);
    assert fs.V() == v.(disk := fs.disk, win := Blank(), winsect := sect);
  }

  // ---------- Moving through a table

  /** A new last cluster, blank: the table `ch` grew to `ch'`. Nothing else has changed outside the FATs. */
  ghost predicate Stretched(g: Geometry, d: seq<Sector>, d': seq<Sector>, ch: seq<nat>, ch': seq<nat>)
    requires Ready(g, d) && Ready(g, d')
  {
    && ch != [] && |ch'| == |ch| + 1
    && var c := ch'[|ch|];
    && ch' == ch + [c] && 2 <= c < g.nFatent && Fat(g, d)[c] == 0 && ch[|ch| - 1] < g.nFatent
    && Fat(g, d') == Linked(Fat(g, d), ch[|ch| - 1], c, Eoc(g))
    && |d'| == |d|
    && forall s: nat | s < |d| && !InFat1(g, s) :: d'[s] == if InCluster(g, c, s) then Blank() else d[s]
  }

  lemma StretchedOk(g: Geometry, sclust: nat, d: seq<Sector>, d': seq<Sector>, ch: seq<nat>, ch': seq<nat>)
    requires Ready(g, d) && Ready(g, d') && DirOk(g, Fat(g, d), sclust, ch) && Stretched(g, d, d', ch, ch')
    ensures DirOk(g, Fat(g, d'), sclust, ch') && Sects(g, ch) <= Sects(g, ch')
  {
    EndMarkEndsChain(g);
    Grown(Fat(g, d), ch, ch'[|ch|], Eoc(g));
    SectsPrefix(g, ch, ch');
  }

  lemma FirstOfNew(g: Geometry, t: seq<nat>, sclust: nat, ch: seq<nat>, ch': seq<nat>, e: nat)
    requires DirOk(g, t, sclust, ch') && ch != [] && |ch'| == |ch| + 1 && Clusters(g, ch)
    requires e == 16 * |Tab(g, ch)| && 32 * e < MAX_DIR
    ensures 2 <= ch'[|ch|] < g.nFatent && PosAt(g, ch', Pos(32 * e, ch'[|ch|], Base(g, ch'[|ch|])), e)
  {
    Walked(g, t, sclust, ch', e, |ch|, 0);
  }

  /** Only in a chained table does the position name a cluster. */
  lemma Chained(g: Geometry, t: seq<nat>, sclust: nat, ch: seq<nat>, p: Pos, e: nat)
    requires DirOk(g, t, sclust, ch) && PosAt(g, ch, p, e)
    ensures ch == [] <==> p.clust == 0
    ensures ch == [] ==> g.fsType != Fat32
  {
  }

  lemma BlankedIsStretched(g: Geometry, sclust: nat, d: seq<Sector>, d1: seq<Sector>, d': seq<Sector>, ch: seq<nat>,
                           c: nat)
    requires Ready(g, d) && Ready(g, d1) && Ready(g, d') && DirOk(g, Fat(g, d), sclust, ch) && ch != []
    requires 2 <= c < g.nFatent && Fat(g, d)[c] == 0 && Fat(g, d1) == Linked(Fat(g, d), ch[|ch| - 1], c, Eoc(g))
    requires NonFat(g, d1) == NonFat(g, d) && Blanked(d1, d', Base(g, c), g.csize)
    ensures Stretched(g, d, d', ch, ch + [c]) && DirOk(g, Fat(g, d'), sclust, ch + [c])
  {
    ClusterBounds(g, c);
    assert |d1| == |d| by { assert |NonFat(g, d1)| == |NonFat(g, d)|; }
    FatSame(g, d1, d');
    forall s: nat | s < |d| && !InFat1(g, s)
      ensures d'[s] == if InCluster(g, c, s) then Blank() else d[s]
    {
      NonFatSame(g, d, d1, s);
    }
    assert ch[|ch| - 1] < g.nFatent;
    StretchedOk(g, sclust, d, d', ch, ch + [c]);
  }

  class Dir {
    const fs: Fatfs
    const sclust: nat
    var dptr: nat
    var clust: nat
    var sect: nat
    /** The name looked for or to be registered, as a short name. */
    var fn: seq<byte>
    /** The short name stands for a long one that it does not show completely. */
    var loss: bool
    /** The name needs entries for its long form. */
    var wantLfn: bool
    /** The name is a dot name or empty. */
    var noName: bool
    /** The flags that say which parts of the short name are in lower case. */
    var nt: byte
    /** Long names are not looked at. */
    var noLfn: bool
    /** Where the entries of the long name start that belong to the one found. */
    var blkOfs: nat
    /** The clusters of the table in order. */
    ghost var chain: seq<nat>

    ghost predicate Valid()
      reads this, fs, fs.win
    {
      fs.Valid() && DirOk(fs.g, Fat(fs.g, fs.L()), sclust, chain)
    }

    constructor (fs: Fatfs, sclust: nat, ghost chain: seq<nat>)
      requires fs.Valid() && DirOk(fs.g, Fat(fs.g, fs.L()), sclust, chain)
      ensures Valid() && this.fs == fs && this.sclust == sclust && this.chain == chain
    {
      this.fs, this.sclust, this.chain := fs, sclust, chain;
      dptr, clust, sect, blkOfs := 0, 0, 0, 0xFFFF_FFFF;
      fn, loss, wantLfn, noLfn, noName, nt := [], false, false, false, false, 0;
    }

    function P(): Pos
      reads this
    {
      Pos(dptr, clust, sect)
    }

    /** It stands at entry `e`. */
    ghost predicate Here(e: nat)
      requires Valid()
      reads this, fs, fs.win
    {
      PosAt(fs.g, chain, P(), e)
    }

    /** Entry `e` is in the table and not beyond its limit. */
    ghost predicate Has(e: nat)
      requires Valid()
      reads this, fs, fs.win
    {
      e < 16 * |Tab(fs.g, chain)| && 32 * e < MAX_DIR
    }

    /** The walk along the chain to the cluster that holds the entry. */
    method Walk(start: nat, ofs: nat) returns (res: FResult, c: nat, left: nat, ghost m: nat)
      requires Valid() && chain != [] && start == chain[0]
      modifies fs`disk, fs`wflag, fs`winsect, fs.win
      ensures Valid() && fs.L() == old(fs.L())
      ensures res == Ok || res == IntErr || (res == DiskErr && !fs.reliable)
      ensures res == Ok ==> m < |chain| && c == chain[m]
      ensures res == Ok ==> ofs == 512 * Sectors(fs.g.csize, m) + left && left < 512 * fs.g.csize
      ensures res == IntErr ==> ofs >= 512 * Sectors(fs.g.csize, |chain|)
    {
      var csz := 512 * fs.g.csize;
      c, left, m := start, ofs, 0;
      while left >= csz
        invariant Valid() && fs.L() == old(fs.L())
        invariant m < |chain| && c == chain[m] && ofs == 512 * Sectors(fs.g.csize, m) + left
        decreases left
      {
        assert m + 1 < |chain| ==> Fat(fs.g, fs.L())[chain[m]] == chain[m + 1];
        c := GetFat(fs, c);
        if c == INVALID { return DiskErr, c, left, m; }
        if c < 2 || c >= fs.g.nFatent { return IntErr, c, left, m; }
        left := left - csz;
        m := m + 1;
      }
      res := Ok;
    }

    /** `Sdi` in a table that is a chain, which starts at `start`. */
    method SdiChained(start: nat, ofs: nat) returns (res: FResult)
      requires Valid() && chain != [] && start == chain[0] && ofs < MAX_DIR && ofs % 32 == 0 && dptr == ofs
      modifies fs`disk, fs`wflag, fs`winsect, fs.win, this`clust, this`sect
      ensures Valid() && fs.L() == old(fs.L())
      ensures res == Ok ==> Here(ofs / 32)
      ensures res == Ok || res == IntErr || (res == DiskErr && !fs.reliable)
      ensures res == IntErr ==> !Has(ofs / 32)
    {
      var c, left;
      ghost var m;
      res, c, left, m := Walk(start, ofs);
      if res != Ok { return; }
      Walked(fs.g, Fat(fs.g, fs.L()), sclust, chain, ofs / 32, m, left);
      ClusterBounds(fs.g, c);
      SectorsIsProduct(fs.g.csize, c - 2);
      clust := c;
      sect := fs.g.database + fs.g.csize * (c - 2);
      if sect == 0 { return IntErr; }
      sect := sect + left / 512;
    }

    /** Moves to the entry at `ofs`. */
    method Sdi(ofs: nat) returns (res: FResult)
      requires Valid()
      modifies fs`disk, fs`wflag, fs`winsect, fs.win, this`dptr, this`clust, this`sect
      ensures Valid() && fs.L() == old(fs.L())
      ensures res == Ok ==> ofs % 32 == 0 && Here(ofs / 32)
      ensures res == Ok || res == IntErr || (res == DiskErr && !fs.reliable)
      ensures res == IntErr ==> ofs % 32 != 0 || !Has(ofs / 32)
    {
      if ofs >= MAX_DIR || ofs % 32 != 0 { return IntErr; }
      dptr := ofs;
      var c := sclust;
      if c == 0 && fs.g.fsType == Fat32 { c := fs.g.dirbase; }
      if c == 0 {
        if ofs / 32 >= fs.g.nRootdir { return IntErr; }
        clust := c;
        sect := fs.g.dirbase + ofs / 512;
        assert At(ofs / 32 / 16);
      } else {
        res := SdiChained(c, ofs);
        return;
      }
      return Ok;
    }

    /** Whether the table was left alone or has grown by a blank cluster, since the logical disk was `d` and its chain
        `ch`. */
    ghost predicate Same(d: seq<Sector>, ch: seq<nat>)
      requires fs.win.Length == 512
      reads this, fs, fs.win
    {
      fs.L() == d && chain == ch
    }

    ghost predicate Grew(d: seq<Sector>, ch: seq<nat>)
      requires Valid()
      reads this, fs, fs.win
    {
      Ready(fs.g, d) && Stretched(fs.g, d, fs.L(), ch, chain)
    }

    /** The cluster after the last one of the table, newly added and blank; 0 when there is none. */
    method Stretch() returns (res: FResult, c: nat)
      requires Valid() && chain != [] && clust == chain[|chain| - 1]
      modifies fs`disk, fs`wflag, fs`winsect, fs.win, fs`freeClst, fs`lastClst, this`chain
      ensures fs.win.Length == 512 && (res == Ok || res == Denied || res == IntErr || (res == DiskErr && !fs.reliable))
      ensures res != DiskErr ==> Valid() && CountKept(fs.g, old(fs.L()), old(fs.freeClst), fs.L(), fs.freeClst)
      ensures res == Denied ==> Same(old(fs.L()), old(chain)) && (fs.freeClst == 0 || FreeCount(Fat(fs.g, fs.L())) == 0)
      ensures res == IntErr ==> !NoBad(Fat(fs.g, old(fs.L()))) && Same(old(fs.L()), old(chain))
      ensures res == Ok ==> Grew(old(fs.L()), old(chain)) && c == chain[|chain| - 1]
    {
      ghost var d, ch := fs.L(), chain;
      PickMeaning(Fat(fs.g, d), clust, fs.lastClst);
      c := CreateChain(fs, clust);
      if c == 0 { return Denied, c; }
      if c == 1 { return IntErr, c; }
      if c == INVALID { return DiskErr, c; }
      ghost var d1 := fs.L();
      res := DirClear(fs, c);
      if res != Ok { return DiskErr, c; }
      chain := ch + [c];
      BlankedIsStretched(fs.g, sclust, d, d1, fs.L(), ch, c);
    }

    /** The next sector of a static table. */
    method StaticStep(ofs: nat, ghost e: nat) returns (res: FResult)
      requires Valid() && Here(e) && ofs == 32 * e + 32 < MAX_DIR && ofs % 512 == 0 && clust == 0
      modifies this`dptr, this`sect
      ensures Valid() && (res == Ok ==> Here(e + 1))
      ensures res == Ok || (res == NoFile && !Has(e + 1) && dptr == old(dptr) && chain == [] && sect == 0)
    {
      Chained(fs.g, Fat(fs.g, fs.L()), sclust, chain, P(), e);
      CrossStatic(fs.g, P(), e);
      sect := sect + 1;
      if ofs / 32 >= fs.g.nRootdir {
        sect := 0;
        return NoFile;
      }
      dptr := ofs;
      return Ok;
    }

    /** Moves to the start of a cluster. */
    method EnterCluster(c: nat, ofs: nat)
      requires Sound(fs.g) && 2 <= c < fs.g.nFatent
      modifies this`dptr, this`clust, this`sect
      ensures P() == Pos(ofs, c, Base(fs.g, c))
    {
      SectorsIsProduct(fs.g.csize, c - 2);
      clust := c;
      sect := fs.g.database + fs.g.csize * (c - 2);
      dptr := ofs;
    }

    /** Adds a cluster at the end of the table, and moves to its start. */
    method StretchStep(ghost e: nat) returns (res: FResult)
      requires Valid() && chain != [] && clust == chain[|chain| - 1] && dptr == 32 * e && 32 * (e + 1) < MAX_DIR
      requires e + 1 == 16 * |Tab(fs.g, chain)|
      modifies fs`disk, fs`wflag, fs`winsect, fs.win, fs`freeClst, fs`lastClst, this`dptr, this`clust, this`sect,
               this`chain
      ensures fs.win.Length == 512 && (res == DiskErr ==> !fs.reliable)
      ensures res in {Ok, Denied, IntErr, DiskErr}
      ensures res != DiskErr ==> Valid() && CountKept(fs.g, old(fs.L()), old(fs.freeClst), fs.L(), fs.freeClst)
      ensures res == Ok ==> Here(e + 1) && Grew(old(fs.L()), old(chain))
      ensures res == Denied || res == IntErr ==> Same(old(fs.L()), old(chain)) && dptr == old(dptr)
      ensures res == Denied ==> fs.freeClst == 0 || FreeCount(Fat(fs.g, fs.L())) == 0
      ensures res == IntErr ==> !NoBad(Fat(fs.g, old(fs.L())))
    {
      ghost var ch := chain;
      var c;
      res, c := Stretch();
      if res != Ok { return; }
      FirstOfNew(fs.g, Fat(fs.g, fs.L()), sclust, ch, chain, e + 1);
      EnterCluster(c, dptr + 32);
    }

    /** The next cluster of the table, added to it if it ends here. */
    method ClusterStep(stretch: bool, ghost e: nat) returns (res: FResult)
      requires Valid() && Here(e) && (32 * e + 32) % 512 == 0 && 32 * (e + 1) < MAX_DIR && clust != 0
      requires Rem(fs.g.csize, (32 * e + 32) / 512) == 0
      modifies fs`disk, fs`wflag, fs`winsect, fs.win, fs`freeClst, fs`lastClst, this`dptr, this`clust, this`sect,
               this`chain
      ensures fs.win.Length == 512 && (res == DiskErr ==> !fs.reliable)
      ensures res in {Ok, NoFile, Denied, IntErr, DiskErr}
      ensures res != DiskErr || !stretch ==> Valid()
      ensures res != DiskErr ==> CountKept(fs.g, old(fs.L()), old(fs.freeClst), fs.L(), fs.freeClst)
      ensures !stretch ==> Same(old(fs.L()), old(chain)) && res != Denied && res != IntErr
      ensures !stretch ==> fs.freeClst == old(fs.freeClst) && fs.lastClst == old(fs.lastClst)
      ensures res == Ok ==> Here(e + 1)
      ensures res == Ok ==> Same(old(fs.L()), old(chain))
                            || (stretch && Grew(old(fs.L()), old(chain)) && e + 1 == 16 * |Tab(fs.g, old(chain))|)
      ensures res == NoFile || res == Denied ==> Same(old(fs.L()), old(chain)) && dptr == old(dptr)
      ensures res == NoFile ==> !Has(e + 1) && !stretch && sect == 0
      ensures res == Denied ==> stretch && e + 1 == 16 * |Tab(fs.g, chain)|
                                && (fs.freeClst == 0 || FreeCount(Fat(fs.g, fs.L())) == 0)
      ensures res == IntErr ==> stretch && !NoBad(Fat(fs.g, old(fs.L()))) && Same(old(fs.L()), old(chain))
    {
      Chained(fs.g, Fat(fs.g, fs.L()), sclust, chain, P(), e);
      CrossCluster(fs.g, Fat(fs.g, fs.L()), sclust, chain, P(), e);
      var ofs := dptr + 32;
      sect := sect + 1;
      var c := GetFat(fs, clust);
      if c <= 1 { return IntErr; }
      if c == INVALID { return DiskErr; }
      if c >= fs.g.nFatent {
        if !stretch {
          sect := 0;
          return NoFile;
        }
        res := StretchStep(e);
        return;
      }
      EnterCluster(c, ofs);
      return Ok;
    }

    /** Moves to the next entry, `e` being the current one. With `stretch` the table grows if it ends here. */
    method Next(stretch: bool, ghost e: nat) returns (res: FResult)
      requires Valid() && (sect != 0 ==> Here(e))
      modifies fs`disk, fs`wflag, fs`winsect, fs.win, fs`freeClst, fs`lastClst, this`dptr, this`clust, this`sect,
               this`chain
      ensures fs.win.Length == 512 && (res == DiskErr ==> !fs.reliable)
      ensures res in {Ok, NoFile, Denied, IntErr, DiskErr}
      ensures res != DiskErr || !stretch ==> Valid()
      ensures res != DiskErr ==> CountKept(fs.g, old(fs.L()), old(fs.freeClst), fs.L(), fs.freeClst)
      ensures !stretch ==> Same(old(fs.L()), old(chain)) && res != Denied && res != IntErr
      ensures !stretch ==> fs.freeClst == old(fs.freeClst) && fs.lastClst == old(fs.lastClst)
      ensures res == Ok ==> Here(e + 1) && old(sect) != 0
      ensures res == Ok ==> Same(old(fs.L()), old(chain))
                            || (stretch && Grew(old(fs.L()), old(chain)) && e + 1 == 16 * |Tab(fs.g, old(chain))|)
      ensures res == NoFile || res == Denied ==> Same(old(fs.L()), old(chain)) && dptr == old(dptr)
      ensures res == NoFile ==> sect == 0
      ensures res == NoFile && old(sect) != 0 ==> !Has(e + 1) && (stretch ==> chain == [] || 32 * (e + 1) >= MAX_DIR)
      ensures res == Denied ==> stretch && e + 1 == 16 * |Tab(fs.g, chain)|
                                && (fs.freeClst == 0 || FreeCount(Fat(fs.g, fs.L())) == 0)
      ensures res == IntErr ==> stretch && !NoBad(Fat(fs.g, old(fs.L()))) && Same(old(fs.L()), old(chain))
    {
      var ofs := dptr + 32;
      if ofs >= MAX_DIR { sect := 0; }
      if sect == 0 { return NoFile; }
      if ofs % 512 == 0 {
        if clust == 0 {
          res := StaticStep(ofs, e);
          return;
        }
        if Rem(fs.g.csize, ofs / 512) != 0 {
          CrossSector(fs.g, Fat(fs.g, fs.L()), sclust, chain, P(), e);
          sect := sect + 1;
        } else {
          res := ClusterStep(stretch, e);
          return;
        }
      } else {
        SameSector(fs.g, chain, P(), e);
      }
      dptr := ofs;
      return Ok;
    }
  }
}
