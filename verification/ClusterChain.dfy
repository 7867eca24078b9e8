/** The cluster allocator: chains in the table, the search for a free cluster, and the count of free clusters. */
module ClusterChain {
  import opened Volume
  import opened Window
  import opened FatTable

  // ---------- Chains

  /** `ch` lists the clusters of a chain from its first to the one marked as last. */
  ghost predicate ChainOk(f: seq<nat>, ch: seq<nat>) {
    && ch != []
    && (forall i: nat | i < |ch| :: 2 <= ch[i] < |f|)
    && (forall i: nat {:trigger f[ch[i]]} | i + 1 < |ch| :: f[ch[i]] == ch[i + 1])
    && f[ch[|ch| - 1]] >= |f|
  }

  /** A chain that ends never passes a cluster twice. */
  lemma ChainDistinct(f: seq<nat>, ch: seq<nat>, i: nat, j: nat)
    requires ChainOk(f, ch) && i < j < |ch|
    ensures ch[i] != ch[j]
    decreases |ch| - j
  {
    if ch[i] == ch[j] {
      assert f[ch[i]] == f[ch[j]] && f[ch[i]] == ch[i + 1];
      if j + 1 < |ch| { ChainDistinct(f, ch, i + 1, j + 1); }
    }
  }

  /** Chains that share no cluster. */
  ghost predicate ChainsOk(f: seq<nat>, cs: seq<seq<nat>>) {
    && (forall k: nat | k < |cs| :: ChainOk(f, cs[k]))
    && (forall k: nat, l: nat, c: nat | k < l < |cs| :: !(c in cs[k] && c in cs[l]))
  }

  // ---------- Free clusters

  function FreeFrom(f: seq<nat>, c: nat): nat
    decreases |f| - c
  {
    if c >= |f| then 0 else (if f[c] == 0 then 1 else 0) + FreeFrom(f, c + 1)
  }

  function FreeCount(f: seq<nat>): nat {
    FreeFrom(f, 2)
  }

  lemma FreeFromUpdate(f: seq<nat>, c: nat, k: nat, x: nat)
    requires k < |f|
    ensures FreeFrom(f[k := x], c)
         == FreeFrom(f, c) + (if k < c || (x == 0) == (f[k] == 0) then 0 else if x == 0 then 1 else -1)
    decreases |f| - c
  {
    if c < |f| {
      FreeFromUpdate(f, c + 1, k, x);
    }
  }

  lemma FreeFromBound(f: seq<nat>, c: nat)
    requires c <= |f|
    ensures FreeFrom(f, c) <= |f| - c
    ensures forall k: nat | c <= k < |f| :: f[k] == 0 ==> FreeFrom(f, c) > 0
    ensures forall k: nat | c <= k < |f| :: f[k] != 0 ==> FreeFrom(f, c) < |f| - c
    decreases |f| - c
  {
    if c < |f| {
      FreeFromBound(f, c + 1);
    }
  }

  lemma FreeFromZero(f: seq<nat>, c: nat)
    requires c <= |f| && forall k: nat | c <= k < |f| :: f[k] != 0
    ensures FreeFrom(f, c) == 0
    decreases |f| - c
  {
    if c < |f| {
      FreeFromZero(f, c + 1);
    }
  }

  /** The recorded number of free clusters is right, or marked as unknown. */
  ghost predicate Accurate(f: seq<nat>, freeClst: nat) {
    |f| >= 2 && (freeClst <= |f| - 2 ==> freeClst == FreeCount(f))
  }

  /** The number of free clusters that is recorded for the table of `d'` is right if that for `d` was, and it is known
      if that was. */
  ghost predicate CountKept(g: Geometry, d: seq<Sector>, fc: nat, d': seq<Sector>, fc': nat)
    requires Ready(g, d) && Ready(g, d')
  {
    && (Accurate(Fat(g, d), fc) ==> Accurate(Fat(g, d'), fc'))
    && (fc <= g.nFatent - 2 <==> fc' <= g.nFatent - 2)
  }

  // ---------- Searching a free cluster

  datatype Pick = Found(c: nat) | Full | Bad

  /** Steps the search still takes from `ncl` round to `scl`. */
  function Distance(n: nat, scl: nat, ncl: nat): int {
    if ncl >= scl then n - ncl + scl else scl - ncl
  }

  /** Examines the clusters after `ncl`, wrapping round, up to and including `scl`. */
  function Scan(f: seq<nat>, scl: nat, ncl: nat): Pick
    requires 3 <= |f| && 1 <= scl < |f| && 1 <= ncl < |f|
    decreases Distance(|f|, scl, ncl)
  {
    var next := if ncl + 1 >= |f| then 2 else ncl + 1;
    if next == 2 && ncl + 1 >= |f| && next > scl then Full
    else if f[next] == 0 then Found(next)
    else if f[next] == 1 then Bad
    else if next == scl then Full
    else Scan(f, scl, next)
  }

  /** Where the search starts for a chain that ends at `clst` (0: a new chain). */
  function ScanStart(n: nat, clst: nat, lastClst: nat): nat {
    if clst == 0 then (if lastClst == 0 || lastClst >= n then 1 else lastClst)
    else if 2 <= lastClst < n then lastClst else clst
  }

  /** The cluster to be added: the next one on the medium if it is free, or else the first free one found. */
  function PickCluster(f: seq<nat>, clst: nat, lastClst: nat): Pick
    requires 3 <= |f| && clst < |f|
  {
    var next := if clst + 1 >= |f| then 2 else clst + 1;
    var scl := ScanStart(|f|, clst, lastClst);
    if clst == 0 then Scan(f, scl, scl)
    else if f[next] == 0 then Found(next)
    else if f[next] == 1 then Bad
    else Scan(f, scl, scl)
  }

  /** `c` is among the clusters that `Scan` still examines. */
  predicate Ahead(n: nat, scl: nat, ncl: nat, c: nat) {
    if ncl >= scl then ncl < c < n || 2 <= c <= scl else ncl < c <= scl
  }

  lemma {:induction false} ScanMeaning(f: seq<nat>, scl: nat, ncl: nat)
    requires 3 <= |f| && 1 <= scl < |f| && 1 <= ncl < |f|
    ensures match Scan(f, scl, ncl)
      case Found(c) => 2 <= c < |f| && f[c] == 0 && Ahead(|f|, scl, ncl, c)
      case Full => forall c: nat | c < |f| && Ahead(|f|, scl, ncl, c) :: f[c] > 1
      case Bad => exists c: nat | 2 <= c < |f| :: f[c] == 1
    decreases Distance(|f|, scl, ncl)
  {
    var next := if ncl + 1 >= |f| then 2 else ncl + 1;
    if !(next == 2 && ncl + 1 >= |f| && next > scl) && f[next] > 1 && next != scl {
      ScanMeaning(f, scl, next);
    }
  }

  /** The allocator gives up only when nothing is free, and otherwise takes a free cluster unless it meets a
      malformed entry. */
  lemma PickMeaning(f: seq<nat>, clst: nat, lastClst: nat)
    requires 3 <= |f| && clst < |f| && clst != 1 && (clst != 0 ==> f[clst] != 0)
    ensures match PickCluster(f, clst, lastClst)
      case Found(c) => 2 <= c < |f| && f[c] == 0 && c != clst
      case Full => FreeCount(f) == 0
      case Bad => exists c: nat | 2 <= c < |f| :: f[c] == 1
  {
    var scl := ScanStart(|f|, clst, lastClst);
    ScanMeaning(f, scl, scl);
    if PickCluster(f, clst, lastClst) == Full {
      assert forall c: nat | 2 <= c < |f| :: Ahead(|f|, scl, scl, c);
      FreeFromZero(f, 2);
    }
  }

  /** The loop of the search. */
  method Search(fs: Fatfs, scl: nat) returns (ncl: nat, status: nat)
    requires fs.Valid() && 1 <= scl < fs.g.nFatent
    modifies fs`disk, fs`wflag, fs`winsect, fs.win
    ensures fs.Valid() && fs.L() == old(fs.L()) && WinStep(fs.g, old(fs.winsect), fs.winsect)
    ensures status == INVALID ==> !fs.reliable
    ensures status != INVALID ==> match Scan(Fat(fs.g, fs.L()), scl, scl)
              case Found(c) => status == 0 && ncl == c
              case Full => status == 2
              case Bad => status == 1
  {
    ncl := scl;
    while true
      invariant fs.Valid() && fs.L() == old(fs.L()) && WinStep(fs.g, old(fs.winsect), fs.winsect)
      invariant 1 <= ncl < fs.g.nFatent
      invariant Scan(Fat(fs.g, fs.L()), scl, ncl) == Scan(Fat(fs.g, fs.L()), scl, scl)
      decreases Distance(fs.g.nFatent, scl, ncl)
    {
      ncl := ncl + 1;
      if ncl >= fs.g.nFatent {
        ncl := 2;
        if ncl > scl { return ncl, 2; }
      }
      var cs := GetFat(fs, ncl);
      if cs == 0 { return ncl, 0; }
      if cs == 1 || cs == INVALID { return ncl, cs; }
      if ncl == scl { return ncl, 2; }
    }
  }

  /** The cluster to add; `status` is 0 when there is one, 2 when nothing is free, or else an error of `GetFat`. */
  method ChooseCluster(fs: Fatfs, clst: nat, start: nat) returns (ncl: nat, status: nat)
    requires fs.Valid() && clst < fs.g.nFatent && clst != 1
    requires start == if clst == 0 then ScanStart(fs.g.nFatent, 0, fs.lastClst) else clst
    modifies fs`disk, fs`wflag, fs`winsect, fs.win
    ensures fs.Valid() && fs.L() == old(fs.L()) && WinStep(fs.g, old(fs.winsect), fs.winsect)
    ensures status == INVALID ==> !fs.reliable
    ensures status != INVALID ==> match PickCluster(Fat(fs.g, fs.L()), clst, fs.lastClst)
              case Found(c) => status == 0 && ncl == c
              case Full => status == 2
              case Bad => status == 1
  {
    var scl, cs := start, 0;
    ncl, status := 0, 0;
    if scl == clst {
      ncl := scl + 1;
      if ncl >= fs.g.nFatent { ncl := 2; }
      cs := GetFat(fs, ncl);
      if cs == 1 || cs == INVALID { return ncl, cs; }
      if cs != 0 {
        cs := fs.lastClst;
        if 2 <= cs < fs.g.nFatent { scl := cs; }
        ncl := 0;
      }
    }
    if ncl == 0 {
      ncl, status := Search(fs, scl);
    }
  }

  // ---------- Creating and stretching a chain

  /** The table after cluster `c` has been added at the end of the chain whose last cluster is `clst` (0: a new chain).
      `eoc` is the end mark. */
  function Linked(f: seq<nat>, clst: nat, c: nat, eoc: nat): seq<nat>
    requires c < |f| && clst < |f|
  {
    if clst == 0 then f[c := eoc] else f[c := eoc][clst := c]
  }

  function Eoc(g: Geometry): nat {
    Mask(g.fsType, INVALID)
  }

  /** Cluster `clst` is the last of its chain and can be stretched, or is 0 and stands for a new chain. */
  predicate Stretchable(f: seq<nat>, clst: nat) {
    clst == 0 || (2 <= clst < |f| && f[clst] >= |f|)
  }

  lemma SmallIsUnmasked(g: Geometry, c: nat)
    requires Sound(g) && c < g.nFatent
    ensures Mask(g.fsType, c) == c
  {
  }

  /** Marks cluster `ncl` as the last one and links it from `clst` if there is one. */
  method LinkCluster(fs: Fatfs, ncl: nat, clst: nat) returns (res: FResult)
    requires fs.Valid() && 2 <= ncl < fs.g.nFatent && (clst == 0 || 2 <= clst < fs.g.nFatent)
    modifies fs`disk, fs`wflag, fs`winsect, fs.win
    ensures fs.Valid() && NonFat(fs.g, fs.L()) == NonFat(fs.g, old(fs.L()))
            && WinStep(fs.g, old(fs.winsect), fs.winsect)
    ensures res == Ok || (res == DiskErr && !fs.reliable)
    ensures res == Ok ==> Fat(fs.g, fs.L()) == Linked(Fat(fs.g, old(fs.L())), clst, ncl, Eoc(fs.g))
  {
    res := PutFat(fs, ncl, INVALID);
    if res == Ok && clst != 0 {
      res := PutFat(fs, clst, ncl);
      SmallIsUnmasked(fs.g, ncl);
    }
  }

  /** Adding a cluster keeps the recorded number of free clusters right. */
  lemma LinkKeepsCount(f: seq<nat>, clst: nat, c: nat, eoc: nat, freeClst: nat)
    requires 2 <= |f| && 2 <= c < |f| && f[c] == 0 && eoc > 0
    requires Stretchable(f, clst) && Accurate(f, freeClst) && freeClst != 0
    ensures Accurate(Linked(f, clst, c, eoc), if freeClst <= |f| - 2 then freeClst - 1 else freeClst)
  {
    FreeFromUpdate(f, 2, c, eoc);
    if clst != 0 {
      FreeFromUpdate(f[c := eoc], 2, clst, c);
    }
    FreeFromBound(f, 2);
  }

  /** Links the free cluster `ncl` after `clst`, and keeps account of it. */
  method TakeCluster(fs: Fatfs, ncl: nat, clst: nat) returns (r: nat)
    requires fs.Valid() && 2 <= ncl < fs.g.nFatent && (clst == 0 || 2 <= clst < fs.g.nFatent) && fs.freeClst != 0
    modifies fs`disk, fs`wflag, fs`winsect, fs.win, fs`freeClst, fs`lastClst
    ensures fs.Valid() && NonFat(fs.g, fs.L()) == NonFat(fs.g, old(fs.L()))
            && WinStep(fs.g, old(fs.winsect), fs.winsect)
    ensures r == ncl || (r == INVALID && !fs.reliable)
    ensures r == ncl ==>
              && Fat(fs.g, fs.L()) == Linked(Fat(fs.g, old(fs.L())), clst, r, Eoc(fs.g))
              && fs.lastClst == r
              && fs.freeClst
                 == if old(fs.freeClst) <= fs.g.nFatent - 2 then old(fs.freeClst) - 1 else old(fs.freeClst)
    ensures (r == ncl && Fat(fs.g, old(fs.L()))[ncl] == 0 && Stretchable(Fat(fs.g, old(fs.L())), clst)
             && Accurate(Fat(fs.g, old(fs.L())), old(fs.freeClst))) ==> Accurate(Fat(fs.g, fs.L()), fs.freeClst)
  {
    ghost var f := Fat(fs.g, fs.L());
    var res := LinkCluster(fs, ncl, clst);
    if f[ncl] == 0 && Stretchable(f, clst) && Accurate(f, fs.freeClst) {
      EndMarkEndsChain(fs.g);
      LinkKeepsCount(f, clst, ncl, Eoc(fs.g), fs.freeClst);
    }
    if res == Ok {
      fs.lastClst := ncl;
      if fs.freeClst <= fs.g.nFatent - 2 { fs.freeClst := fs.freeClst - 1; }
      r := ncl;
    } else {
      assert res == DiskErr;
      r := INVALID;
    }
  }

  /** Returns 0 when there is no free cluster, 1 on an internal error and `INVALID` on a disk error. */
  method CreateChain(fs: Fatfs, clst: nat) returns (r: nat)
    requires fs.Valid()
    modifies fs`disk, fs`wflag, fs`winsect, fs.win, fs`freeClst, fs`lastClst
    ensures fs.Valid() && NonFat(fs.g, fs.L()) == NonFat(fs.g, old(fs.L()))
            && WinStep(fs.g, old(fs.winsect), fs.winsect)
    ensures r <= INVALID && (r == INVALID ==> !fs.reliable)
    // a cluster that already has a successor
    ensures r != INVALID && 2 <= clst < fs.g.nFatent && !Stretchable(Fat(fs.g, old(fs.L())), clst) ==>
              r == if Fat(fs.g, old(fs.L()))[clst] < 2 then 1 else Fat(fs.g, old(fs.L()))[clst]
    // nothing to stretch
    ensures clst == 1 || clst >= fs.g.nFatent ==> r == 1
    // a new cluster
    ensures r != INVALID && Stretchable(Fat(fs.g, old(fs.L())), clst) && old(fs.freeClst) == 0 ==> r == 0
    ensures r != INVALID && Stretchable(Fat(fs.g, old(fs.L())), clst) && old(fs.freeClst) != 0 ==>
              r == match PickCluster(Fat(fs.g, old(fs.L())), clst, old(fs.lastClst))
                   case Full => 0
                   case Bad => 1
                   case Found(c) => c
    ensures r != INVALID && (r < 2 || !Stretchable(Fat(fs.g, old(fs.L())), clst)) ==>
              fs.L() == old(fs.L()) && fs.freeClst == old(fs.freeClst) && fs.lastClst == old(fs.lastClst)
    ensures 2 <= r < INVALID && Stretchable(Fat(fs.g, old(fs.L())), clst) ==>
              && r < fs.g.nFatent
              && Fat(fs.g, fs.L()) == Linked(Fat(fs.g, old(fs.L())), clst, r, Eoc(fs.g))
              && fs.lastClst == r
              && fs.freeClst
                 == if old(fs.freeClst) <= fs.g.nFatent - 2 then old(fs.freeClst) - 1 else old(fs.freeClst)
    ensures r != INVALID ==> CountKept(fs.g, old(fs.L()), old(fs.freeClst), fs.L(), fs.freeClst)
  {
    var scl, cs, ncl;
    ghost var d, f := fs.L(), Fat(fs.g, fs.L());
    if clst == 0 {
      scl := fs.lastClst;
      if scl == 0 || scl >= fs.g.nFatent { scl := 1; }
    } else {
      cs := GetFat(fs, clst);
      if cs < 2 { return 1; }
      if cs == INVALID { return cs; }
      if cs < fs.g.nFatent { return cs; }
      scl := clst;
    }
    if fs.freeClst == 0 { return 0; }
    var status;
    ncl, status := ChooseCluster(fs, clst, scl);
    if status == 2 { return 0; }
    if status != 0 { return status; }
    PickMeaning(f, clst, fs.lastClst);
    r := TakeCluster(fs, ncl, clst);
  }

  lemma FreeNotInChain(f: seq<nat>, ch: seq<nat>, c: nat)
    requires ChainOk(f, ch) && c < |f| && f[c] == 0
    ensures c !in ch
  {
    if i :| 0 <= i < |ch| && ch[i] == c {
      if i + 1 < |ch| {
        assert f[ch[i]] == ch[i + 1];
      }
    }
  }

  lemma Grown(f: seq<nat>, ch: seq<nat>, c: nat, eoc: nat)
    requires ChainOk(f, ch) && 2 <= c < |f| && f[c] == 0 && eoc >= |f|
    ensures ChainOk(Linked(f, ch[|ch| - 1], c, eoc), ch + [c])
  {
    FreeNotInChain(f, ch, c);
    var f' := Linked(f, ch[|ch| - 1], c, eoc);
    var ch' := ch + [c];
    forall i: nat | i + 1 < |ch'|
      ensures f'[ch'[i]] == ch'[i + 1]
    {
      if i + 1 < |ch| {
        ChainDistinct(f, ch, i, |ch| - 1);
      }
    }
  }

  lemma Untouched(f: seq<nat>, f': seq<nat>, ch: seq<nat>)
    requires ChainOk(f, ch) && |f'| == |f| && forall c: nat | c in ch :: f'[c] == f[c]
    ensures ChainOk(f', ch)
  {
    forall i: nat | i < |ch|
      ensures f'[ch[i]] == f[ch[i]]
    {
      assert ch[i] in ch;
    }
  }

  /** Stretching keeps a family of disjoint chains: one of them grows by a cluster that was free. */
  lemma StretchKeepsChains(f: seq<nat>, cs: seq<seq<nat>>, k: nat, c: nat, eoc: nat)
    requires ChainsOk(f, cs) && k < |cs| && 2 <= c < |f| && f[c] == 0 && eoc >= |f|
    ensures var last := cs[k][|cs[k]| - 1];
      && Stretchable(f, last)
      && ChainsOk(Linked(f, last, c, eoc), cs[k := cs[k] + [c]])
  {
    var last := cs[k][|cs[k]| - 1];
    var f' := Linked(f, last, c, eoc);
    var ds := cs[k := cs[k] + [c]];
    forall l: nat | l < |cs|
      ensures ChainOk(f', ds[l])
      ensures c !in cs[l]
    {
      FreeNotInChain(f, cs[l], c);
      if l == k {
        Grown(f, cs[k], c, eoc);
      } else {
        assert last in cs[k];
        assert last !in cs[l];
        Untouched(f, f', cs[l]);
      }
    }
  }

  /** A new chain joins the family. */
  lemma NewChainKeepsChains(f: seq<nat>, cs: seq<seq<nat>>, c: nat, eoc: nat)
    requires ChainsOk(f, cs) && 2 <= c < |f| && f[c] == 0 && eoc >= |f|
    ensures ChainsOk(Linked(f, 0, c, eoc), cs + [[c]])
  {
    var f', ds := Linked(f, 0, c, eoc), cs + [[c]];
    forall l: nat | l < |cs|
      ensures ChainOk(f', ds[l])
      ensures c !in cs[l]
    {
      FreeNotInChain(f, cs[l], c);
      Untouched(f, f', cs[l]);
    }
    assert ChainOk(f', [c]);
  }

  // ---------- Removing a chain

  function NonZero(f: seq<nat>): nat {
    if f == [] then 0 else (if f[|f| - 1] != 0 then 1 else 0) + NonZero(f[..|f| - 1])
  }

  lemma NonZeroUpdate(f: seq<nat>, c: nat)
    requires c < |f| && f[c] != 0
    ensures NonZero(f[c := 0]) == NonZero(f) - 1
  {
    var l := |f| - 1;
    if c < l {
      assert f[c := 0][..l] == f[..l][c := 0];
      NonZeroUpdate(f[..l], c);
    } else {
      assert f[c := 0][..l] == f[..l];
    }
  }

  /** `Removed`: the walk ended at an end mark or a free cluster. `Broken`: it met an entry 1. Either way with the table
      as it then is. */
  datatype Walk = Removed(f: seq<nat>) | Broken(f: seq<nat>)

  /** Follows the links from `clst`, freeing what it passes. It ends on every table, cyclic ones included, because
      each step turns a non-zero entry into zero. */
  function RemoveWalk(f: seq<nat>, clst: nat): Walk
    requires clst < |f|
    decreases NonZero(f)
  {
    var nxt := f[clst];
    if nxt == 0 then Removed(f)
    else if nxt == 1 then Broken(f)
    else
      NonZeroUpdate(f, clst);
      if nxt < |f| then RemoveWalk(f[clst := 0], nxt) else Removed(f[clst := 0])
  }

  /** The table once `pclst` (0: none) has been made the last cluster of its chain. */
  function CutAt(f: seq<nat>, pclst: nat, eoc: nat): seq<nat>
    requires pclst < |f|
  {
    if pclst == 0 then f else f[pclst := eoc]
  }

  lemma FreeKeepsCount(f: seq<nat>, c: nat, freeClst: nat)
    requires 2 <= c < |f| && f[c] != 0 && Accurate(f, freeClst)
    ensures Accurate(f[c := 0], if freeClst < |f| - 2 then freeClst + 1 else freeClst)
  {
    FreeFromUpdate(f, 2, c, 0);
    FreeFromBound(f, 2);
  }

  /** Marks a cluster as free, and keeps account of it. */
  method FreeOne(fs: Fatfs, clst: nat) returns (res: FResult)
    requires fs.Valid() && 2 <= clst < fs.g.nFatent && Fat(fs.g, fs.L())[clst] != 0
    modifies fs`disk, fs`wflag, fs`winsect, fs.win, fs`freeClst
    ensures fs.Valid() && NonFat(fs.g, fs.L()) == NonFat(fs.g, old(fs.L()))
            && WinStep(fs.g, old(fs.winsect), fs.winsect)
    ensures res == Ok || (res == DiskErr && !fs.reliable)
    ensures res == Ok ==> Fat(fs.g, fs.L()) == Fat(fs.g, old(fs.L()))[clst := 0]
    ensures res == Ok ==> CountKept(fs.g, old(fs.L()), old(fs.freeClst), fs.L(), fs.freeClst)
  {
    ghost var f := Fat(fs.g, fs.L());
    res := PutFat(fs, clst, 0);
    if res != Ok { return; }
    if Accurate(f, fs.freeClst) { FreeKeepsCount(f, clst, fs.freeClst); }
    if fs.freeClst < fs.g.nFatent - 2 { fs.freeClst := fs.freeClst + 1; }
  }

  /** The loop of `RemoveChain`. */
  method FreeClusters(fs: Fatfs, start: nat) returns (res: FResult)
    requires fs.Valid() && 2 <= start < fs.g.nFatent
    modifies fs`disk, fs`wflag, fs`winsect, fs.win, fs`freeClst
    ensures fs.Valid() && NonFat(fs.g, fs.L()) == NonFat(fs.g, old(fs.L()))
            && WinStep(fs.g, old(fs.winsect), fs.winsect)
    ensures res == Ok || res == IntErr || (res == DiskErr && !fs.reliable)
    ensures res != DiskErr ==> RemoveWalk(Fat(fs.g, old(fs.L())), start)
                               == if res == Ok then Removed(Fat(fs.g, fs.L())) else Broken(Fat(fs.g, fs.L()))
    ensures res != DiskErr ==> CountKept(fs.g, old(fs.L()), old(fs.freeClst), fs.L(), fs.freeClst)
  {
    var clst := start;
    while true
      invariant fs.Valid() && NonFat(fs.g, fs.L()) == NonFat(fs.g, old(fs.L()))
      invariant WinStep(fs.g, old(fs.winsect), fs.winsect)
      invariant 2 <= clst < fs.g.nFatent
      invariant RemoveWalk(Fat(fs.g, fs.L()), clst) == RemoveWalk(Fat(fs.g, old(fs.L())), start)
      invariant CountKept(fs.g, old(fs.L()), old(fs.freeClst), fs.L(), fs.freeClst)
      decreases NonZero(Fat(fs.g, fs.L()))
    {
      ghost var f := Fat(fs.g, fs.L());
      var nxt := GetFat(fs, clst);
      if nxt == 0 { return Ok; }
      if nxt == 1 { return IntErr; }
      if nxt == INVALID { return DiskErr; }
      res := FreeOne(fs, clst);
      if res != Ok { return; }
      NonZeroUpdate(f, clst);
      if nxt >= fs.g.nFatent { return Ok; }
      clst := nxt;
    }
  }

  /** Frees the chain that starts at `clst`; `pclst` is the cluster before it, or 0. */
  method RemoveChain(fs: Fatfs, clst: nat, pclst: nat) returns (res: FResult)
    requires fs.Valid()
    modifies fs`disk, fs`wflag, fs`winsect, fs.win, fs`freeClst
    ensures fs.Valid() && NonFat(fs.g, fs.L()) == NonFat(fs.g, old(fs.L()))
            && WinStep(fs.g, old(fs.winsect), fs.winsect)
    ensures res == Ok || res == IntErr || (res == DiskErr && !fs.reliable)
    ensures !(2 <= clst < fs.g.nFatent) || !(pclst == 0 || 2 <= pclst < fs.g.nFatent) ==>
              res == IntErr && fs.L() == old(fs.L()) && fs.freeClst == old(fs.freeClst)
    ensures 2 <= clst < fs.g.nFatent && (pclst == 0 || 2 <= pclst < fs.g.nFatent) && res != DiskErr ==>
              RemoveWalk(CutAt(Fat(fs.g, old(fs.L())), pclst, Eoc(fs.g)), clst)
              == if res == Ok then Removed(Fat(fs.g, fs.L())) else Broken(Fat(fs.g, fs.L()))
    ensures res != DiskErr && (2 <= pclst < fs.g.nFatent ==> Fat(fs.g, old(fs.L()))[pclst] != 0) ==>
              CountKept(fs.g, old(fs.L()), old(fs.freeClst), fs.L(), fs.freeClst)
  {
    if clst < 2 || clst >= fs.g.nFatent { return IntErr; }
    res := Ok;
    ghost var f := Fat(fs.g, fs.L());
    if pclst != 0 {
      res := PutFat(fs, pclst, INVALID);
      if res != Ok { return; }
      FreeFromUpdate(f, 2, pclst, Eoc(fs.g));
    }
    res := FreeClusters(fs, clst);
  }

  /** The table with the clusters of `cs` freed. */
  function Freed(f: seq<nat>, cs: seq<nat>): (r: seq<nat>)
    requires forall i: nat | i < |cs| :: cs[i] < |f|
    ensures |r| == |f|
    ensures forall c: nat | c < |f| :: r[c] == if c in cs then 0 else f[c]
  {
    seq(|f|, c requires 0 <= c < |f| => if c in cs then 0 else f[c])
  }

  /** On a proper chain the walk frees exactly the clusters from its starting point on. */
  lemma {:induction false} WalkFreesSuffix(f: seq<nat>, ch: seq<nat>)
    requires ChainOk(f, ch)
    ensures RemoveWalk(f, ch[0]) == Removed(Freed(f, ch))
    decreases |ch|
  {
    var f' := f[ch[0] := 0];
    var rest := ch[1..];
    if rest == [] {
      assert Freed(f, ch) == f';
    } else {
      assert f[ch[0]] == ch[1];
      forall c: nat | c in rest
        ensures f'[c] == f[c]
      {
        var i :| 0 <= i < |rest| && rest[i] == c;
        ChainDistinct(f, ch, 0, i + 1);
      }
      assert ChainOk(f, rest);
      Untouched(f, f', rest);
      WalkFreesSuffix(f', rest);
      assert Freed(f', rest) == Freed(f, ch);
    }
  }

  lemma OthersKept(f: seq<nat>, cs: seq<seq<nat>>, k: nat, j: nat, eoc: nat, l: nat)
    requires ChainsOk(f, cs) && k < |cs| && j < |cs[k]| && l < |cs| && l != k
    ensures var p := if j == 0 then 0 else cs[k][j - 1]; ChainOk(Freed(CutAt(f, p, eoc), cs[k][j..]), cs[l])
  {
    var p := if j == 0 then 0 else cs[k][j - 1];
    var f2 := Freed(CutAt(f, p, eoc), cs[k][j..]);
    forall c: nat | c in cs[l]
      ensures f2[c] == f[c]
    {
      assert c !in cs[k];
      assert j != 0 ==> p in cs[k];
    }
    Untouched(f, f2, cs[l]);
  }

  lemma FamilyWithout(f: seq<nat>, f2: seq<nat>, cs: seq<seq<nat>>, k: nat)
    requires ChainsOk(f, cs) && k < |cs| && forall l: nat | l < |cs| && l != k :: ChainOk(f2, cs[l])
    ensures ChainsOk(f2, cs[..k] + cs[k + 1..])
  {
  }

  lemma FamilyWith(f: seq<nat>, f2: seq<nat>, cs: seq<seq<nat>>, k: nat, ch: seq<nat>)
    requires ChainsOk(f, cs) && k < |cs| && forall l: nat | l < |cs| && l != k :: ChainOk(f2, cs[l])
    requires ChainOk(f2, ch) && forall c | c in ch :: c in cs[k]
    ensures ChainsOk(f2, cs[k := ch])
  {
  }

  /** Cutting changes no link but the one it cuts. */
  lemma CutLinks(f: seq<nat>, ch: seq<nat>, j: nat, eoc: nat, i: nat)
    requires ChainOk(f, ch) && j < |ch| && i < |ch| && (j == 0 || i != j - 1)
    ensures CutAt(f, if j == 0 then 0 else ch[j - 1], eoc)[ch[i]] == f[ch[i]]
  {
    if j > 0 {
      if i < j - 1 { ChainDistinct(f, ch, i, j - 1); } else { ChainDistinct(f, ch, j - 1, i); }
    }
  }

  lemma CutTail(f: seq<nat>, ch: seq<nat>, j: nat, eoc: nat)
    requires ChainOk(f, ch) && j < |ch|
    ensures ChainOk(CutAt(f, if j == 0 then 0 else ch[j - 1], eoc), ch[j..])
  {
    var f1 := CutAt(f, if j == 0 then 0 else ch[j - 1], eoc);
    var s := ch[j..];
    forall i: nat | i < |s|
      ensures 2 <= s[i] < |f1| && f1[s[i]] == f[ch[j + i]]
    {
      CutLinks(f, ch, j, eoc, j + i);
    }
  }

  lemma CutHead(f: seq<nat>, ch: seq<nat>, j: nat, eoc: nat)
    requires ChainOk(f, ch) && 0 < j < |ch| && eoc >= |f|
    requires forall i: nat | i < |ch[j..]| :: ch[j..][i] < |f|
    ensures ChainOk(Freed(CutAt(f, ch[j - 1], eoc), ch[j..]), ch[..j])
  {
    var f1, s := CutAt(f, ch[j - 1], eoc), ch[j..];
    var f2 := Freed(f1, s);
    forall i: nat | i < j
      ensures f2[ch[i]] == f1[ch[i]]
      ensures i < j - 1 ==> f1[ch[i]] == f[ch[i]]
    {
      if i < j - 1 { CutLinks(f, ch, j, eoc, i); }
      if ch[i] in s {
        var m :| 0 <= m < |s| && s[m] == ch[i];
        ChainDistinct(f, ch, i, j + m);
      }
    }
  }

  lemma CutChain(f: seq<nat>, ch: seq<nat>, j: nat, eoc: nat)
    requires ChainOk(f, ch) && j < |ch| && eoc >= |f|
    ensures var p := if j == 0 then 0 else ch[j - 1];
      && ChainOk(CutAt(f, p, eoc), ch[j..])
      && (j > 0 ==> ChainOk(Freed(CutAt(f, p, eoc), ch[j..]), ch[..j]))
  {
    CutTail(f, ch, j, eoc);
    if j > 0 { CutHead(f, ch, j, eoc); }
  }

  /** Removing the clusters of chain `k` from position `j` on (0: all of them) frees exactly those and keeps the rest a
      family of disjoint chains. */
  lemma RemoveKeepsChains(f: seq<nat>, cs: seq<seq<nat>>, k: nat, j: nat, eoc: nat)
    requires ChainsOk(f, cs) && k < |cs| && j < |cs[k]| && eoc >= |f|
    ensures var p := if j == 0 then 0 else cs[k][j - 1];
      && p < |f|
      && RemoveWalk(CutAt(f, p, eoc), cs[k][j]) == Removed(Freed(CutAt(f, p, eoc), cs[k][j..]))
      && ChainsOk(Freed(CutAt(f, p, eoc), cs[k][j..]), if j == 0 then cs[..k] + cs[k + 1..] else cs[k := cs[k][..j]])
  {
    var ch := cs[k];
    var p := if j == 0 then 0 else ch[j - 1];
    var f1 := CutAt(f, p, eoc);
    var f2 := Freed(f1, ch[j..]);
    CutChain(f, ch, j, eoc);
    WalkFreesSuffix(f1, ch[j..]);
    forall l: nat | l < |cs| && l != k
      ensures ChainOk(f2, cs[l])
    {
      OthersKept(f, cs, k, j, eoc, l);
    }
    if j == 0 {
      FamilyWithout(f, f2, cs, k);
    } else {
      FamilyWith(f, f2, cs, k, ch[..j]);
    }
  }

  // ---------- Both, for all chains of a volume

  lemma EndsChain(f: seq<nat>, cs: seq<seq<nat>>, k: nat)
    requires ChainsOk(f, cs) && k < |cs|
    ensures var clst := cs[k][|cs[k]| - 1]; 2 <= clst && Stretchable(f, clst)
  {
    assert ChainOk(f, cs[k]);
  }

  /** `CreateChain` on a volume with the chains `cs`: the chain that ends at `clst`, which is chain `k`, grows, or a new
      one joins them. */
  method CreateAmong(fs: Fatfs, clst: nat, ghost cs: seq<seq<nat>>, ghost k: nat)
      returns (r: nat, ghost cs': seq<seq<nat>>)
    requires fs.Valid() && ChainsOk(Fat(fs.g, fs.L()), cs)
    requires clst != 0 ==> k < |cs| && clst == cs[k][|cs[k]| - 1]
    modifies fs`disk, fs`wflag, fs`winsect, fs.win, fs`freeClst, fs`lastClst
    ensures fs.Valid() && NonFat(fs.g, fs.L()) == NonFat(fs.g, old(fs.L()))
    ensures r <= INVALID && (r == INVALID ==> !fs.reliable)
    ensures r != INVALID ==> ChainsOk(Fat(fs.g, fs.L()), cs')
    ensures r < 2 ==> cs' == cs && fs.L() == old(fs.L())
    ensures 2 <= r < INVALID ==> r < fs.g.nFatent && Fat(fs.g, old(fs.L()))[r] == 0
                                 && cs' == if clst == 0 then cs + [[r]] else cs[k := cs[k] + [r]]
    ensures r != INVALID ==> CountKept(fs.g, old(fs.L()), old(fs.freeClst), fs.L(), fs.freeClst)
    ensures r != INVALID ==> fs.lastClst == if 2 <= r then r else old(fs.lastClst)
    ensures r == 0 ==> old(fs.freeClst) == 0 || FreeCount(Fat(fs.g, old(fs.L()))) == 0
    ensures r == 1 ==> exists c: nat | 2 <= c < fs.g.nFatent :: Fat(fs.g, old(fs.L()))[c] == 1
  {
    ghost var f := Fat(fs.g, fs.L());
    if clst != 0 { EndsChain(f, cs, k); }
    PickMeaning(f, clst, fs.lastClst);
    r := CreateChain(fs, clst);
    cs' := cs;
    if 2 <= r < INVALID {
      EndMarkEndsChain(fs.g);
      if clst == 0 {
        NewChainKeepsChains(f, cs, r, Eoc(fs.g));
        cs' := cs + [[r]];
      } else {
        StretchKeepsChains(f, cs, k, r, Eoc(fs.g));
        cs' := cs[k := cs[k] + [r]];
      }
    }
  }

  /** `RemoveChain` on a volume with the chains `cs`: chain `k` is cut off before its cluster `j`, or removed. */
  method RemoveAmong(fs: Fatfs, clst: nat, pclst: nat, ghost cs: seq<seq<nat>>, ghost k: nat, ghost j: nat)
      returns (res: FResult, ghost cs': seq<seq<nat>>)
    requires fs.Valid() && ChainsOk(Fat(fs.g, fs.L()), cs) && k < |cs| && j < |cs[k]|
    requires clst == cs[k][j] && pclst == if j == 0 then 0 else cs[k][j - 1]
    modifies fs`disk, fs`wflag, fs`winsect, fs.win, fs`freeClst
    ensures fs.Valid() && NonFat(fs.g, fs.L()) == NonFat(fs.g, old(fs.L()))
    ensures res == Ok || (res == DiskErr && !fs.reliable)
    ensures cs' == if j == 0 then cs[..k] + cs[k + 1..] else cs[k := cs[k][..j]]
    ensures res == Ok ==> ChainsOk(Fat(fs.g, fs.L()), cs')
    ensures res == Ok ==> CountKept(fs.g, old(fs.L()), old(fs.freeClst), fs.L(), fs.freeClst)
    ensures res == Ok ==> forall c: nat | c < fs.g.nFatent && c != pclst ::
              Fat(fs.g, fs.L())[c] == if c in cs[k][j..] then 0 else Fat(fs.g, old(fs.L()))[c]
  {
    ghost var f := Fat(fs.g, fs.L());
    EndMarkEndsChain(fs.g);
    RemoveKeepsChains(f, cs, k, j, Eoc(fs.g));
    assert ChainOk(f, cs[k]);
    cs' := if j == 0 then cs[..k] + cs[k + 1..] else cs[k := cs[k][..j]];
    res := RemoveChain(fs, clst, pclst);
  }
}
