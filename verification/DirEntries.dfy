/** The entries of a directory: allocating, finding, registering and removing them. */
module DirEntries {
  import opened Division
  import opened Volume
  import opened Window
  import opened FatTable
  import opened ClusterChain
  import opened FileSpec
  import opened FileSteps
  import opened Lfn
  import opened Directory

  // ---------- The table as a sequence of entries

  ghost predicate IsEntries(d: seq<Sector>, tab: seq<nat>, t: seq<seq<byte>>) {
    && |t| == 16 * |tab|
    && forall e: nat {:trigger At(e)} :: At(e) && e < |t| ==>
         && tab[e / 16] < |d| && 32 * (e % 16) + 32 <= 512
         && t[e] == d[tab[e / 16]][32 * (e % 16)..32 * (e % 16) + 32]
  }

  lemma EntriesExist(d: seq<Sector>, tab: seq<nat>)
    requires forall k: nat | k < |tab| :: tab[k] < |d|
    ensures exists t :: IsEntries(d, tab, t)
  {
    var t := seq(16 * |tab|, e requires 0 <= e < 16 * |tab| => d[tab[e / 16]][32 * (e % 16)..32 * (e % 16) + 32]);
    assert IsEntries(d, tab, t);
  }

  /** The medium holds a proper table. */
  ghost predicate TableOk(g: Geometry, sclust: nat, d: seq<Sector>, ch: seq<nat>) {
    Ready(g, d) && DirOk(g, Fat(g, d), sclust, ch)
  }

  lemma TabOnDisk(g: Geometry, sclust: nat, d: seq<Sector>, ch: seq<nat>)
    requires TableOk(g, sclust, d, ch)
    ensures forall k: nat | k < |Tab(g, ch)| :: Tab(g, ch)[k] < |d|
  {
    forall k: nat | k < |Tab(g, ch)|
      ensures Tab(g, ch)[k] < |d|
    {
      TabAt(g, Fat(g, d), sclust, ch, k);
    }
  }

  /** The entries of a table. */
  ghost function Entries(g: Geometry, sclust: nat, d: seq<Sector>, ch: seq<nat>): (t: seq<seq<byte>>)
    requires TableOk(g, sclust, d, ch)
    ensures |t| == 16 * |Tab(g, ch)|
  {
    TabOnDisk(g, sclust, d, ch);
    EntriesExist(d, Tab(g, ch));
    var t :| IsEntries(d, Tab(g, ch), t);
    t
  }

  /** Where an entry lies in its sector. */
  lemma SlotInSector(e: nat)
    ensures 32 * e % 512 == 32 * (e % 16) && 32 * (e % 16) + 32 <= 512
  {
    assert 32 * e == 512 * (e / 16) + 32 * (e % 16);
  }

  lemma EntryAt(g: Geometry, sclust: nat, d: seq<Sector>, ch: seq<nat>, e: nat)
    requires TableOk(g, sclust, d, ch) && e < |Entries(g, sclust, d, ch)|
    ensures FatEnd(g) <= Tab(g, ch)[e / 16] < g.volEnd && 0 < Tab(g, ch)[e / 16]
    ensures |Entries(g, sclust, d, ch)[e]| == 32
    ensures var o := 32 * (e % 16);
      && 32 * e % 512 == o && o + 32 <= 512
      && Entries(g, sclust, d, ch)[e] == d[Tab(g, ch)[e / 16]][o..o + 32]
  {
    TabAt(g, Fat(g, d), sclust, ch, e / 16);
    SlotInSector(e);
    assert At(e);
  }

  predicate Unused(e: seq<byte>)
    requires |e| > 0
  {
    e[0] == 0 || e[0] == 0xE5
  }

  ghost predicate Slots(t: seq<seq<byte>>) {
    forall i: nat | i < |t| :: |t[i]| == 32
  }

  lemma EntriesAreSlots(g: Geometry, sclust: nat, d: seq<Sector>, ch: seq<nat>)
    requires TableOk(g, sclust, d, ch)
    ensures Slots(Entries(g, sclust, d, ch))
  {
    forall e: nat | e < |Entries(g, sclust, d, ch)|
      ensures |Entries(g, sclust, d, ch)[e]| == 32
    {
      EntryAt(g, sclust, d, ch, e);
    }
  }

  /** Every entry after one that starts with zero is unused, so that a search may stop there. */
  ghost predicate ZeroEnds(t: seq<seq<byte>>)
    requires Slots(t)
  {
    forall i: nat, j: nat | i <= j < |t| :: t[i][0] == 0 ==> Unused(t[j])
  }

  // ---------- Growing

  /** `s` is in a cluster that `ch'` has and `ch` has not. */
  ghost predicate Fresh(g: Geometry, ch: seq<nat>, ch': seq<nat>, s: nat) {
    exists c: nat :: 2 <= c && c in ch' && c !in ch && InCluster(g, c, s)
  }

  /** The table has grown from `ch` to `ch'` by blank clusters that were free, and nothing else has changed. */
  ghost predicate Wider(g: Geometry, d: seq<Sector>, d': seq<Sector>, ch: seq<nat>, ch': seq<nat>)
    requires Ready(g, d) && Ready(g, d')
  {
    && |d'| == |d| && ch <= ch' && (ch == [] ==> ch' == [])
    && (forall s: nat | s < |d| && !InFat1(g, s) :: d'[s] == if Fresh(g, ch, ch', s) then Blank() else d[s])
    && (forall c: nat | c < g.nFatent && c !in ch' :: Fat(g, d')[c] == Fat(g, d)[c])
    && (forall c: nat | c in ch' :: c in ch || (c < g.nFatent && Fat(g, d)[c] == 0))
  }

  lemma NotWider(g: Geometry, d: seq<Sector>, ch: seq<nat>)
    requires Ready(g, d)
    ensures Wider(g, d, d, ch, ch)
  {
  }

  lemma FreeNotOnChain(g: Geometry, d: seq<Sector>, sclust: nat, ch: seq<nat>, c: nat)
    requires TableOk(g, sclust, d, ch) && c < g.nFatent && Fat(g, d)[c] == 0
    ensures c !in ch
  {
    if ch != [] { FreeNotInChain(Fat(g, d), ch, c); }
  }

  lemma WiderBy(g: Geometry, sclust: nat, d: seq<Sector>, d1: seq<Sector>, d2: seq<Sector>, ch: seq<nat>, ch1: seq<nat>,
                ch2: seq<nat>)
    requires TableOk(g, sclust, d, ch) && TableOk(g, sclust, d1, ch1) && Ready(g, d2)
    requires Wider(g, d, d1, ch, ch1) && Stretched(g, d1, d2, ch1, ch2)
    ensures Wider(g, d, d2, ch, ch2)
  {
    var c := ch2[|ch1|];
    forall x: nat | x in ch2
      ensures x in ch1 || x == c
    {
    }
    forall s: nat | s < |d| && !InFat1(g, s)
      ensures d2[s] == if Fresh(g, ch, ch2, s) then Blank() else d[s]
    {
      if InCluster(g, c, s) {
        FreeNotOnChain(g, d1, sclust, ch1, c);
        assert c in ch2 && c !in ch;
      } else {
        assert Fresh(g, ch, ch2, s) <==> Fresh(g, ch, ch1, s);
      }
    }
    if c in ch { FreeNotOnChain(g, d1, sclust, ch1, c); }
  }

  /** The table `ch` has at most grown to `ch'`, by clusters that were free. Outside its sectors nothing has changed,
      nor in the FAT outside its clusters. */
  ghost predicate RestKept(g: Geometry, d: seq<Sector>, d': seq<Sector>, ch: seq<nat>, ch': seq<nat>)
    requires Ready(g, d) && Ready(g, d') && Clusters(g, ch')
  {
    && |d'| == |d| && ch <= ch'
    && (forall s: nat | s < |d| && !InFat1(g, s) && s !in Tab(g, ch') :: d'[s] == d[s])
    && (forall c: nat | c < g.nFatent && c !in ch' :: Fat(g, d')[c] == Fat(g, d)[c])
    && (forall c: nat | c in ch' :: c in ch || (c < g.nFatent && Fat(g, d)[c] == 0))
  }

  lemma FreshInTab(g: Geometry, t: seq<nat>, sclust: nat, ch: seq<nat>, ch': seq<nat>, s: nat)
    requires DirOk(g, t, sclust, ch') && Fresh(g, ch, ch', s)
    ensures s in Tab(g, ch')
  {
    var c: nat :| 2 <= c && c in ch' && c !in ch && InCluster(g, c, s);
    var q :| 0 <= q < |ch'| && ch'[q] == c;
    var r := s - Base(g, c);
    QuotOf(g.csize, q, r);
    SectorsMono(g.csize, q + 1, |ch'|);
    SectAt(g, ch', Sectors(g.csize, q) + r);
    assert Tab(g, ch')[Sectors(g.csize, q) + r] == s;
  }

  /** First the table grows, and then only its sectors are changed. */
  lemma GrownThenChanged(g: Geometry, sclust: nat, d: seq<Sector>, d1: seq<Sector>, d2: seq<Sector>, ch: seq<nat>,
                         ch': seq<nat>)
    requires Ready(g, d) && Ready(g, d1) && Ready(g, d2) && DirOk(g, Fat(g, d2), sclust, ch')
    requires Wider(g, d, d1, ch, ch') && Fat(g, d2) == Fat(g, d1)
    requires |d2| == |d1| && forall s: nat | s < |d1| && s !in Tab(g, ch') :: d2[s] == d1[s]
    ensures RestKept(g, d, d2, ch, ch')
  {
    forall s: nat | s < |d| && !InFat1(g, s) && s !in Tab(g, ch')
      ensures d2[s] == d[s]
    {
      if Fresh(g, ch, ch', s) { FreshInTab(g, Fat(g, d2), sclust, ch, ch', s); }
    }
  }

  lemma OldIsNotFresh(g: Geometry, ch: seq<nat>, ch': seq<nat>, c: nat, s: nat)
    requires c in ch && 2 <= c && InCluster(g, c, s)
    ensures !Fresh(g, ch, ch', s)
  {
    forall x: nat | 2 <= x && InCluster(g, x, s)
      ensures x == c
    {
      ClustersApart(g, x, c, s);
    }
  }

  lemma BeyondIsNew(g: Geometry, ch: seq<nat>, ch': seq<nat>, k: nat)
    requires Sound(g) && Clusters(g, ch) && Clusters(g, ch') && ch <= ch' && |Sects(g, ch)| <= k < |Sects(g, ch')|
    ensures |ch| <= Quot(g.csize, k) < |ch'|
  {
    SectAt(g, ch', k);
    QuotRem(g.csize, k);
    if Quot(g.csize, k) < |ch| { SectorsMono(g.csize, Quot(g.csize, k) + 1, |ch|); }
  }

  lemma NewOnChain(g: Geometry, t: seq<nat>, ch: seq<nat>, ch': seq<nat>, q: nat)
    requires ChainOk(t, ch') && ch <= ch' && |ch| <= q < |ch'|
    ensures ch'[q] in ch' && ch'[q] !in ch
  {
    if ch'[q] in ch {
      var i :| 0 <= i < |ch| && ch[i] == ch'[q];
      ChainDistinct(t, ch', i, q);
    }
  }

  /** An old entry is where and what it was, a new one is blank. */
  lemma WiderEntry(g: Geometry, sclust: nat, d: seq<Sector>, d': seq<Sector>, ch: seq<nat>, ch': seq<nat>, e: nat)
    requires TableOk(g, sclust, d, ch) && TableOk(g, sclust, d', ch') && Wider(g, d, d', ch, ch')
    requires e < |Entries(g, sclust, d', ch')|
    ensures var t, t' := Entries(g, sclust, d, ch), Entries(g, sclust, d', ch');
      && |t| <= |t'|
      && (if e < |t| then t'[e] == t[e] else |t'[e]| == 32 && t'[e][0] == 0)
  {
    var k := e / 16;
    EntryAt(g, sclust, d', ch', e);
    if ch == [] {
      EntryAt(g, sclust, d, ch, e);
      assert !Fresh(g, ch, ch', Tab(g, ch)[k]);
    } else {
      SectsPrefix(g, ch, ch');
      SectAt(g, ch', k);
      var q := Quot(g.csize, k);
      if e < |Entries(g, sclust, d, ch)| {
        EntryAt(g, sclust, d, ch, e);
        SectAt(g, ch, k);
        OldIsNotFresh(g, ch, ch', ch[q], Tab(g, ch)[k]);
      } else {
        BeyondIsNew(g, ch, ch', k);
        NewOnChain(g, Fat(g, d'), ch, ch', q);
        assert Fresh(g, ch, ch', Tab(g, ch')[k]);
      }
    }
  }

  /** `t'` is `t` with blank entries added at its end. */
  ghost predicate Lengthened(t: seq<seq<byte>>, t': seq<seq<byte>>) {
    && Slots(t) && Slots(t') && |t| <= |t'|
    && forall e: nat | e < |t'| :: if e < |t| then t'[e] == t[e] else t'[e][0] == 0
  }

  /** Growing keeps the entries and adds blank ones. */
  lemma WiderEntries(g: Geometry, sclust: nat, d: seq<Sector>, d': seq<Sector>, ch: seq<nat>, ch': seq<nat>)
    requires TableOk(g, sclust, d, ch) && TableOk(g, sclust, d', ch') && Wider(g, d, d', ch, ch')
    ensures Lengthened(Entries(g, sclust, d, ch), Entries(g, sclust, d', ch'))
  {
    EntriesAreSlots(g, sclust, d, ch);
    EntriesAreSlots(g, sclust, d', ch');
    if ch == [] {} else { SectsPrefix(g, ch, ch'); }
    forall e: nat | e < |Entries(g, sclust, d', ch')|
      ensures var t, t' := Entries(g, sclust, d, ch), Entries(g, sclust, d', ch');
        |t| <= |t'| && |t'[e]| == 32 && (if e < |t| then t'[e] == t[e] else t'[e][0] == 0)
    {
      WiderEntry(g, sclust, d, d', ch, ch', e);
    }
  }

  lemma LengthenedZeroEnds(t: seq<seq<byte>>, t': seq<seq<byte>>)
    requires Lengthened(t, t') && ZeroEnds(t)
    ensures ZeroEnds(t')
  {
  }

  // ---------- Allocating

  /** The `n` entries that end at `j` are unused. */
  ghost predicate Run(t: seq<seq<byte>>, j: nat, n: nat)
    requires Slots(t)
  {
    n <= j + 1 <= |t| && forall i: nat | j < i + n && i <= j :: Unused(t[i])
  }

  /** The row that ends at `b` is the first of `n` unused entries. */
  ghost predicate FirstRun(t: seq<seq<byte>>, b: nat, n: nat)
    requires Slots(t)
  {
    n >= 1 && Run(t, b, n) && forall j: nat | j < b :: !Run(t, j, n)
  }

  /** The search has come to entry `e`, `n` unused ones lying just before it. */
  ghost predicate Searched(t: seq<seq<byte>>, e: nat, n: nat, nent: nat)
    requires Slots(t)
  {
    && n <= e < |t| && n < nent
    && (forall i: nat | e - n <= i < e :: Unused(t[i]))
    && (n < e ==> !Unused(t[e - n - 1]))
    && forall j: nat | j < e :: !Run(t, j, nent)
  }

  /** None ends at `e` either, or before it. */
  lemma SearchEnd(t: seq<seq<byte>>, e: nat, n: nat, nent: nat)
    requires Slots(t) && Searched(t, e, n, nent) && (Unused(t[e]) ==> n + 1 < nent)
    ensures forall j: nat | j <= e :: !Run(t, j, nent)
  {
    assert !Run(t, e, nent);
  }

  lemma SearchOn(t: seq<seq<byte>>, t': seq<seq<byte>>, e: nat, n: nat, nent: nat)
    requires Slots(t) && Searched(t, e, n, nent) && Lengthened(t, t') && e + 1 < |t'|
    requires Unused(t[e]) ==> n + 1 < nent
    ensures Searched(t', e + 1, if Unused(t[e]) then n + 1 else 0, nent)
  {
    forall j: nat | j <= e
      ensures !Run(t', j, nent)
    {
      if j < e {
        assert !Run(t, j, nent);
      } else {
        SearchEnd(t, e, n, nent);
        assert !Run(t, e, nent);
      }
    }
  }

  /** The entries of the table of a directory object. */
  ghost function T(dp: Dir): (t: seq<seq<byte>>)
    requires dp.Valid()
    reads dp, dp.fs, dp.fs.win
  {
    Entries(dp.fs.g, dp.sclust, dp.fs.L(), dp.chain)
  }

  /** Since the logical disk was `d` and the chain `ch`, the table has at most grown. */
  ghost predicate GrownSince(dp: Dir, d: seq<Sector>, ch: seq<nat>, fc: nat)
    requires dp.Valid()
    reads dp, dp.fs, dp.fs.win
  {
    && Ready(dp.fs.g, d) && Wider(dp.fs.g, d, dp.fs.L(), ch, dp.chain)
    && CountKept(dp.fs.g, d, fc, dp.fs.L(), dp.fs.freeClst)
  }

  /** The table cannot grow: there is no free cluster, it is static, or it is as long as a table may be. */
  ghost predicate NoRoom(dp: Dir)
    requires dp.Valid()
    reads dp, dp.fs, dp.fs.win
  {
    || dp.fs.freeClst == 0 || FreeCount(Fat(dp.fs.g, dp.fs.L())) == 0
    || dp.chain == [] || 512 * |Tab(dp.fs.g, dp.chain)| >= MAX_DIR
  }

  /** There is no row of `n` unused entries. */
  ghost predicate NoRow(dp: Dir, n: nat)
    requires dp.Valid()
    reads dp, dp.fs, dp.fs.win
  {
    Slots(T(dp)) && forall j: nat | dp.Has(j) :: !Run(T(dp), j, n)
  }

  /** What a failure to make room means. */
  ghost predicate Justified(dp: Dir, res: FResult)
    requires dp.Valid()
    reads dp, dp.fs, dp.fs.win
  {
    && (res == NoFile || res == Denied ==> NoRoom(dp))
    && (res == IntErr ==> !NoBad(Fat(dp.fs.g, dp.fs.L())) || !dp.Has(0))
  }

  /** Brings the current entry into the window. */
  method Load(dp: Dir, ghost e: nat) returns (res: FResult, dir: seq<byte>)
    requires dp.Valid() && dp.Here(e)
    modifies dp.fs`disk, dp.fs`wflag, dp.fs`winsect, dp.fs.win
    ensures dp.Valid() && dp.fs.L() == old(dp.fs.L())
    ensures res == Ok || (res == DiskErr && !dp.fs.reliable)
    ensures dp.dptr % 512 == 32 * (e % 16) && dp.dptr % 512 + 32 <= 512
    ensures res == Ok ==> dp.fs.winsect == dp.sect && |dir| == 32 && dir == T(dp)[e]
    ensures res == Ok ==> dir == dp.fs.win[dp.dptr % 512..dp.dptr % 512 + 32]
  {
    EntryAt(dp.fs.g, dp.sclust, dp.fs.L(), dp.chain, e);
    res := MoveWindow(dp.fs, dp.sect);
    dir := dp.fs.win[dp.dptr % 512..dp.dptr % 512 + 32];
  }

  ghost predicate Allocating(dp: Dir, d: seq<Sector>, ch: seq<nat>, fc: nat, b: nat, n: nat, nent: nat)
    reads dp, dp.fs, dp.fs.win
  {
    dp.Valid() && GrownSince(dp, d, ch, fc) && dp.Here(b) && Slots(T(dp)) && Searched(T(dp), b, n, nent)
  }

  /** What `Alloc` has come to, having begun at `d` with the chain `ch`. */
  ghost predicate Allocated(dp: Dir, d: seq<Sector>, ch: seq<nat>, fc: nat, res: FResult, b: nat, nent: nat)
    reads dp, dp.fs, dp.fs.win
  {
    && dp.fs.win.Length == 512 && res in {Ok, Denied, DiskErr, IntErr} && (res == DiskErr ==> !dp.fs.reliable)
    && (res != DiskErr ==> dp.Valid() && GrownSince(dp, d, ch, fc) && Justified(dp, res))
    && (res == Ok ==> dp.Here(b) && Slots(T(dp)) && FirstRun(T(dp), b, nent))
    && (res == Denied ==> NoRow(dp, nent))
  }

  /** Counts the current entry if it is unused. */
  method AllocLook(dp: Dir, n: nat, ghost e: nat) returns (res: FResult, n': nat)
    requires dp.Valid() && dp.Here(e)
    modifies dp.fs`disk, dp.fs`wflag, dp.fs`winsect, dp.fs.win
    ensures dp.Valid() && dp.fs.L() == old(dp.fs.L())
    ensures res == Ok || (res == DiskErr && !dp.fs.reliable)
    ensures res == Ok ==> |T(dp)[e]| == 32 && n' == if Unused(T(dp)[e]) then n + 1 else 0
  {
    var dir;
    n' := 0;
    res, dir := Load(dp, e);
    if res != Ok { return; }
    n' := if dir[0] == 0xE5 || dir[0] == 0 then n + 1 else 0;
  }

  /** The next entry for `Alloc`, which began at `d` with the chain `ch`. */
  method AllocNext(dp: Dir, ghost d: seq<Sector>, ghost ch: seq<nat>, ghost fc: nat, ghost b: nat)
      returns (res: FResult)
    requires dp.Valid() && Ready(dp.fs.g, d) && TableOk(dp.fs.g, dp.sclust, d, ch) && GrownSince(dp, d, ch, fc)
             && dp.Here(b)
    modifies dp.fs`disk, dp.fs`wflag, dp.fs`winsect, dp.fs.win, dp.fs`freeClst, dp.fs`lastClst
    modifies dp`dptr, dp`clust, dp`sect, dp`chain
    ensures dp.fs.win.Length == 512 && (res == DiskErr ==> !dp.fs.reliable)
    ensures res in {Ok, NoFile, Denied, DiskErr, IntErr}
    ensures res != DiskErr ==> dp.Valid() && GrownSince(dp, d, ch, fc) && Justified(dp, res)
    ensures res == Ok ==> dp.Here(b + 1) && Lengthened(old(T(dp)), T(dp))
    ensures res == NoFile || res == Denied ==> !dp.Has(b + 1) && T(dp) == old(T(dp))
  {
    ghost var d1, ch1 := dp.fs.L(), dp.chain;
    TabAt(dp.fs.g, Fat(dp.fs.g, d1), dp.sclust, ch1, b / 16);
    EntriesAreSlots(dp.fs.g, dp.sclust, d1, ch1);
    res := dp.Next(true, b);
    if res == Ok && dp.chain != ch1 {
      NotWider(dp.fs.g, d1, ch1);
      WiderBy(dp.fs.g, dp.sclust, d, d1, dp.fs.L(), ch, ch1, dp.chain);
      WiderBy(dp.fs.g, dp.sclust, d1, d1, dp.fs.L(), ch1, ch1, dp.chain);
      WiderEntries(dp.fs.g, dp.sclust, d1, dp.fs.L(), ch1, dp.chain);
    }
  }

  /** The next entry for `Alloc`, when the row is not complete with entry `b`. */
  method AllocOn(dp: Dir, ghost d: seq<Sector>, ghost ch: seq<nat>, ghost fc: nat, ghost b: nat, ghost n: nat,
                 ghost n': nat,
                 ghost nent: nat)
      returns (res: FResult)
    requires dp.Valid() && Ready(dp.fs.g, d) && TableOk(dp.fs.g, dp.sclust, d, ch) && GrownSince(dp, d, ch, fc)
             && dp.Here(b)
    requires Slots(T(dp)) && Searched(T(dp), b, n, nent) && n' == (if Unused(T(dp)[b]) then n + 1 else 0) && n' != nent
    modifies dp.fs`disk, dp.fs`wflag, dp.fs`winsect, dp.fs.win, dp.fs`freeClst, dp.fs`lastClst
    modifies dp`dptr, dp`clust, dp`sect, dp`chain
    ensures dp.fs.win.Length == 512 && (res == DiskErr ==> !dp.fs.reliable)
    ensures res in {Ok, NoFile, Denied, DiskErr, IntErr}
    ensures res != DiskErr ==> dp.Valid() && GrownSince(dp, d, ch, fc) && Justified(dp, res)
    ensures res == Ok ==> dp.Here(b + 1) && Slots(T(dp)) && Searched(T(dp), b + 1, n', nent)
    ensures res == NoFile || res == Denied ==> NoRow(dp, nent)
  {
    ghost var t := T(dp);
    SearchEnd(t, b, n, nent);
    res := AllocNext(dp, d, ch, fc, b);
    if res == Ok { SearchOn(t, T(dp), b, n, nent); }
  }

  /** One round of the loop: looks at entry `b`, and moves on unless the row is complete. */
  method AllocRound(dp: Dir, n: nat, nent: nat, ghost d: seq<Sector>, ghost ch: seq<nat>, ghost fc: nat, ghost b: nat)
      returns (res: FResult, n': nat, more: bool)
    requires Allocating(dp, d, ch, fc, b, n, nent) && TableOk(dp.fs.g, dp.sclust, d, ch)
    modifies dp.fs`disk, dp.fs`wflag, dp.fs`winsect, dp.fs.win, dp.fs`freeClst, dp.fs`lastClst
    modifies dp`dptr, dp`clust, dp`sect, dp`chain
    ensures if more then Allocating(dp, d, ch, fc, b + 1, n', nent) && b + 1 < 0x1_0000
            else Allocated(dp, d, ch, fc, res, b, nent)
  {
    more := false;
    res, n' := AllocLook(dp, n, b);
    if res == Ok && n' != nent {
      res := AllocOn(dp, d, ch, fc, b, n, n', nent);
      if res == NoFile { res := Denied; }
      more := res == Ok;
    }
  }

  /** The loop of `Alloc`, which began at `d` with the chain `ch`. */
  method AllocLoop(dp: Dir, nent: nat, ghost d: seq<Sector>, ghost ch: seq<nat>, ghost fc: nat)
      returns (res: FResult, ghost b: nat)
    requires Allocating(dp, d, ch, fc, 0, 0, nent) && TableOk(dp.fs.g, dp.sclust, d, ch)
    modifies dp.fs`disk, dp.fs`wflag, dp.fs`winsect, dp.fs.win, dp.fs`freeClst, dp.fs`lastClst
    modifies dp`dptr, dp`clust, dp`sect, dp`chain
    ensures Allocated(dp, d, ch, fc, res, b, nent)
  {
    var n, more := 0, true;
    b, res := 0, Ok;
    while more
      invariant if more then Allocating(dp, d, ch, fc, b, n, nent) && b < 0x1_0000
                else Allocated(dp, d, ch, fc, res, b, nent)
      decreases if more then 0x1_0000 - b else 0
    {
      res, n, more := AllocRound(dp, n, nent, d, ch, fc, b);
      if more { b := b + 1; }
    }
  }

  /** Makes room for `nent` entries in a row, growing the table if need be. `b`: the last of them, at which it stands
      then. No such row ends before. */
  method Alloc(dp: Dir, nent: nat) returns (res: FResult, ghost b: nat)
    requires dp.Valid() && nent >= 1
    modifies dp.fs`disk, dp.fs`wflag, dp.fs`winsect, dp.fs.win, dp.fs`freeClst, dp.fs`lastClst
    modifies dp`dptr, dp`clust, dp`sect, dp`chain
    ensures dp.fs.win.Length == 512 && (res == DiskErr ==> !dp.fs.reliable)
    ensures res != DiskErr ==> dp.Valid() && GrownSince(dp, old(dp.fs.L()), old(dp.chain), old(dp.fs.freeClst))
    ensures res != DiskErr ==> Justified(dp, res)
    ensures res == Ok ==> dp.Here(b) && Slots(T(dp)) && FirstRun(T(dp), b, nent)
    ensures res == Denied ==> NoRow(dp, nent)
    ensures res in {Ok, Denied, DiskErr, IntErr}
  {
    NotWider(dp.fs.g, dp.fs.L(), dp.chain);
    EntriesAreSlots(dp.fs.g, dp.sclust, dp.fs.L(), dp.chain);
    b := 0;
    res := dp.Sdi(0);
    if res != Ok { return; }
    res, b := AllocLoop(dp, nent, dp.fs.L(), dp.chain, dp.fs.freeClst);
  }
}
