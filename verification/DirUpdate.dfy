/** Registering an object in a directory, and removing it. */
module DirUpdate {
  import opened Volume
  import opened Window
  import opened FatTable
  import opened ClusterChain
  import opened FileSpec
  import opened FileSteps
  import opened Lfn
  import opened Directory
  import opened DirEntries
  import opened DirSearch

  // ---------- Changing one entry

  /** The window has changed only in the entry at `o`. */
  ghost predicate OnlyEntry(win: seq<byte>, win': seq<byte>, o: nat) {
    |win'| == |win| == 512 && o + 32 <= 512 && forall j | 0 <= j < 512 && !(o <= j < o + 32) :: win'[j] == win[j]
  }

  ghost predicate SectorChanged(d: seq<Sector>, d': seq<Sector>, s: nat) {
    |d'| == |d| && forall x: nat | x < |d| && x != s :: d'[x] == d[x]
  }

  lemma SlotsApart(win: seq<byte>, win': seq<byte>, a: nat, b: nat)
    requires a < 16 && b < 16 && OnlyEntry(win, win', 32 * a)
    ensures b != a ==> win'[32 * b..32 * b + 32] == win[32 * b..32 * b + 32]
  {
  }

  lemma EntriesPoked(g: Geometry, sclust: nat, d: seq<Sector>, d': seq<Sector>, ch: seq<nat>, e: nat, win': Sector)
    requires TableOk(g, sclust, d, ch) && TableOk(g, sclust, d', ch) && e < 16 * |Tab(g, ch)|
    requires Tab(g, ch)[e / 16] < |d| && d' == d[Tab(g, ch)[e / 16] := win']
    requires OnlyEntry(d[Tab(g, ch)[e / 16]], win', 32 * (e % 16))
    ensures var o := 32 * (e % 16);
      Entries(g, sclust, d', ch) == Entries(g, sclust, d, ch)[e := win'[o..o + 32]]
  {
    var t, t', o := Entries(g, sclust, d, ch), Entries(g, sclust, d', ch), 32 * (e % 16);
    forall i: nat | i < |t|
      ensures t'[i] == t[e := win'[o..o + 32]][i]
    {
      EntryAt(g, sclust, d, ch, i);
      EntryAt(g, sclust, d', ch, i);
      if i / 16 == e / 16 {
        SlotsApart(d[Tab(g, ch)[e / 16]], win', e % 16, i % 16);
        assert i % 16 == e % 16 ==> i == e;
      } else if Tab(g, ch)[i / 16] == Tab(g, ch)[e / 16] {
        TabDistinct(g, Fat(g, d), sclust, ch, i / 16, e / 16);
      }
    }
    assert t' == t[e := win'[o..o + 32]];
  }

  /** Changing the current entry in the window changes that entry of the table and nothing else. */
  lemma EntryPoked(g: Geometry, mr: bool, sclust: nat, v: Vol, ch: seq<nat>, e: nat, win': Sector)
    requires VolInv(g, mr, v) && TableOk(g, sclust, Logical(g, v), ch) && e < 16 * |Tab(g, ch)|
    requires v.winsect == Tab(g, ch)[e / 16] && OnlyEntry(v.win, win', 32 * (e % 16))
    ensures var v', o := v.(win := win', wflag := true), 32 * (e % 16);
      && VolInv(g, mr, v') && TableOk(g, sclust, Logical(g, v'), ch)
      && Fat(g, Logical(g, v')) == Fat(g, Logical(g, v))
      && Entries(g, sclust, Logical(g, v'), ch) == Entries(g, sclust, Logical(g, v), ch)[e := win'[o..o + 32]]
      && SectorChanged(Logical(g, v), Logical(g, v'), v.winsect)
  {
    var d := Logical(g, v);
    EntryAt(g, sclust, d, ch, e);
    PokeLogical(g, mr, v, win');
    var d' := Logical(g, v.(win := win', wflag := true));
    FatSame(g, d, d');
    EntriesPoked(g, sclust, d, d', ch, e, win');
  }

  // ---------- What registering means for the table

  /** The entry proper of a new object. */
  predicate IsSfn(e: seq<byte>, fn: seq<byte>, nt: byte) {
    && |e| == 32 && |fn| == 11 && e[..11] == fn && e[12] == nt
    && forall j | 0 <= j < 32 && (j == 11 || j > 12) :: e[j] == 0
  }

  /** Byte by byte: the name, no attributes, how its case is to be shown, and zeros. */
  lemma SfnBytes(e: seq<byte>, fn: seq<byte>, nt: byte, zeros: seq<byte>)
    requires |fn| == 11 && |zeros| == 19 && forall i | 0 <= i < 19 :: zeros[i] == 0
    ensures IsSfn(e, fn, nt) <==> e == fn + [0, nt] + zeros
  {
    var x := fn + [0, nt] + zeros;
    assert x[..11] == fn;
    if IsSfn(e, fn, nt) {
      assert forall j | 0 <= j < 11 :: e[j] == e[..11][j];
      assert forall j | 0 <= j < 32 :: e[j] == x[j];
    }
  }

  /** A short name as the name parser makes it: it does not start like an unused entry. */
  predicate ShortName(fn: seq<byte>) {
    |fn| == 11 && fn[0] != 0 && fn[0] != 0xE5
  }

  /** The tables agree but for the entries from `lo` to `b`. */
  ghost predicate Agree2(t: seq<seq<byte>>, t': seq<seq<byte>>, lo: nat, b: nat) {
    |t'| == |t| && forall i: nat | i < |t| && !(lo <= i <= b) :: t'[i] == t[i]
  }

  /** The entries from `lo` to `b` are those of a new object: the pieces of its long name if it has one, the last piece
      first, and the entry proper. */
  ghost predicate Placed(t: seq<seq<byte>>, t': seq<seq<byte>>, lo: nat, b: nat, nm: seq<wchar>, fn: seq<byte>,
                         nt: byte)
    requires Slots(t) && Slots(t')
  {
    && |t'| == |t| && lo <= b < |t| && |fn| == 11
    && Agree2(t, t', lo, b)
    && (forall i: nat | lo <= i < b :: IsPiece(nm, b - i, SumSfn(fn), t'[i]))
    && IsSfn(t'[b], fn, nt)
  }

  /** Before the first row that is long enough no entry starts with zero. */
  lemma NoZeroBefore(t: seq<seq<byte>>, b: nat, n: nat, i: nat)
    requires Slots(t) && ZeroEnds(t) && Run(t, b, n) && n >= 1 && (forall j: nat | j < b :: !Run(t, j, n)) && i + n <= b
    ensures t[i][0] != 0
  {
    if t[i][0] == 0 {
      forall x: nat | i <= x < |t|
        ensures Unused(t[x])
      {
      }
      assert Run(t, b - 1, n);
    }
  }

  /** While the row is being filled from its start, no used entry ever follows one that starts with zero. */
  lemma FillingZeroEnds(t: seq<seq<byte>>, t': seq<seq<byte>>, lo: nat, x: nat, b: nat)
    requires Slots(t) && Slots(t') && ZeroEnds(t) && lo <= x <= b + 1 <= |t| && |t'| == |t|
    requires forall i: nat | i < lo :: t[i][0] != 0
    requires forall i: nat | i < |t| && !(lo <= i < x) :: t'[i] == t[i]
    requires forall i: nat | lo <= i < x :: t'[i][0] != 0
    ensures ZeroEnds(t')
  {
    forall i: nat, j: nat | i <= j < |t| && t'[i][0] == 0
      ensures Unused(t'[j])
    {
      assert i >= x && t[i][0] == 0;
    }
  }

  /** The entries of a long name never reach across such an entry. */
  predicate Barrier(e: seq<byte>)
    requires |e| == 32
  {
    Unused(e) || IsShort(e)
  }

  lemma {:induction false} PiecesSame(w: Want, t: seq<seq<byte>>, t': seq<seq<byte>>, lo: nat, b: nat, i: nat, n: nat,
                                    k: nat, s: byte)
    requires Slots(t) && Slots(t') && |w.buf| == 256 && Agree2(t, t', lo, b) && b < |t|
    requires Barrier(t[b]) && Barrier(t'[b]) && i <= |t| && (i <= lo || i > b)
    ensures PiecesBefore(w, t, i, n, k, s) == PiecesBefore(w, t', i, n, k, s)
    decreases i
  {
    if i > 0 && i != b + 1 {
      PiecesSame(w, t, t', lo, b, i - 1, n, k + 1, s);
    }
  }

  /** Changing the entries of one object leaves every other object to be found as before. */
  lemma OthersKept(w: Want, t: seq<seq<byte>>, t': seq<seq<byte>>, lo: nat, b: nat, j: nat)
    requires Slots(t) && Slots(t') && |w.buf| == 256 && Agree2(t, t', lo, b) && b < |t|
    requires Barrier(t[b]) && Barrier(t'[b]) && j < |t| && !(lo <= j <= b)
    ensures MatchAt(w, t', j) == MatchAt(w, t, j)
  {
    forall n: nat
      ensures PiecesBefore(w, t', j, n, 0, SumSfn(t[j])) == PiecesBefore(w, t, j, n, 0, SumSfn(t[j]))
    {
      PiecesSame(w, t, t', lo, b, j, n, 0, SumSfn(t[j]));
    }
  }

  // ---------- Finding what has been registered

  /** Entry `b - x` looks like piece `x` of `m`. */
  ghost predicate SegAt(t: seq<seq<byte>>, b: nat, x: nat, m: nat, sum: byte)
    requires Slots(t) && 1 <= x <= b < |t|
  {
    var e := t[b - x];
    IsLong(e) && e[13] == sum && (Llef(e[0]) <==> x == m) && ClearLlef(e[0]) == x
  }

  ghost predicate MatchesAt(w: Want, t: seq<seq<byte>>, b: nat, x: nat)
    requires Slots(t) && |w.buf| == 256 && 1 <= x <= b < |t|
  {
    Matches(w.buf, t[b - x], w.up)
  }

  lemma PieceIsSeg(nm: seq<wchar>, t: seq<seq<byte>>, b: nat, x: nat, sum: byte)
    requires Slots(t) && Name(nm) && 1 <= x <= Pieces(|nm|) <= b < |t| && IsPiece(nm, x, sum, t[b - x])
    ensures SegAt(t, b, x, Pieces(|nm|), sum) && !Unused(t[b - x])
  {
    PieceChars(nm, x, sum, t[b - x]);
  }

  /** Looking back from the entry proper, the search is at piece `k` just when the pieces from there on match. */
  lemma {:induction false} PiecesStored(w: Want, t: seq<seq<byte>>, b: nat, m: nat, sum: byte, k: nat, n: nat, i: nat)
    requires Slots(t) && |w.buf| == 256 && m <= b < |t| && k < m && i == b - k
    requires forall x: nat | 1 <= x <= m :: SegAt(t, b, x, m, sum)
    ensures PiecesBefore(w, t, i, n, k, sum) <==>
            n == m && !w.noLfn && forall x: nat | k < x <= m :: MatchesAt(w, t, b, x)
    decreases m - k
  {
    assert SegAt(t, b, k + 1, m, sum);
    assert MatchesAt(w, t, b, k + 1) == Matches(w.buf, t[b - (k + 1)], w.up);
    if k + 1 < m {
      PiecesStored(w, t, b, m, sum, k + 1, n, i - 1);
    }
  }

  lemma AllStored(w: Want, t: seq<seq<byte>>, b: nat, m: nat, sum: byte)
    requires Slots(t) && |w.buf| == 256 && 1 <= m <= b < |t|
    requires forall x: nat | 1 <= x <= m :: SegAt(t, b, x, m, sum)
    ensures LongAt(w, t, b, sum) <==> !w.noLfn && forall x: nat | 0 < x <= m :: MatchesAt(w, t, b, x)
  {
    PiecesStored(w, t, b, m, sum, 0, m, b);
    if n: nat :| PiecesBefore(w, t, b, n, 0, sum) {
      PiecesStored(w, t, b, m, sum, 0, n, b);
    }
  }

  /** The pieces before entry `b`, the first one first. */
  function Back(t: seq<seq<byte>>, b: nat, m: nat): (es: seq<seq<byte>>)
    requires m <= b < |t|
    ensures |es| == m && forall i: nat | i < m :: es[i] == t[b - (i + 1)]
  {
    seq(m, i requires 0 <= i < m => t[b - (i + 1)])
  }

  lemma BackPieces(nm: seq<wchar>, t: seq<seq<byte>>, b: nat, sum: byte)
    requires Slots(t) && Pieces(|nm|) <= b < |t|
    requires forall i: nat | b - Pieces(|nm|) <= i < b :: IsPiece(nm, b - i, sum, t[i])
    ensures AllPieces(nm, sum, Back(t, b, Pieces(|nm|)))
  {
    var es := Back(t, b, Pieces(|nm|));
    forall i: nat | i < |es|
      ensures |es[i]| == 32 && IsPiece(nm, i + 1, sum, es[i])
    {
      assert IsPiece(nm, b - (b - (i + 1)), sum, t[b - (i + 1)]);
    }
  }

  /** A registered long name is found exactly under the names that equal it up to case, unless it has 255 units: then it
      is never found. */
  lemma LongFoundExactly(w: Want, t: seq<seq<byte>>, b: nat, nm: seq<wchar>, sum: byte, want: seq<wchar>)
    requires Slots(t) && Name(nm) && Name(want) && Holding(w.buf, want) && Casing(w.up) && Pieces(|nm|) <= b < |t|
    requires forall i: nat | b - Pieces(|nm|) <= i < b :: IsPiece(nm, b - i, sum, t[i])
    ensures LongAt(w, t, b, sum) <==> !w.noLfn && SameName(want, nm, w.up) && |nm| <= 254
  {
    var m := Pieces(|nm|);
    var es := Back(t, b, m);
    forall x: nat | 1 <= x <= m
      ensures SegAt(t, b, x, m, sum)
    {
      assert IsPiece(nm, b - (b - x), sum, t[b - x]);
      PieceIsSeg(nm, t, b, x, sum);
    }
    AllStored(w, t, b, m, sum);
    BackPieces(nm, t, b, sum);
    CountdownExact(want, nm, sum, es, w.buf, w.up);
    forall x: nat | 0 < x <= m
      ensures MatchesAt(w, t, b, x) == Matches(w.buf, es[x - 1], w.up)
    {
    }
    if forall x: nat | 0 < x <= m :: MatchesAt(w, t, b, x) {
      forall i: nat | i < |es|
        ensures Matches(w.buf, es[i], w.up)
      {
        assert MatchesAt(w, t, b, i + 1);
      }
    }
  }

  // ---------- Changing the current entry

  /** Only sectors of the table have changed since the logical disk was `d`. */
  ghost predicate TabOnly(dp: Dir, d: seq<Sector>, ch: seq<nat>)
    requires dp.Valid()
    reads dp, dp.fs, dp.fs.win
  {
    && TableOk(dp.fs.g, dp.sclust, d, ch) && dp.chain == ch && |dp.fs.L()| == |d|
    && Fat(dp.fs.g, dp.fs.L()) == Fat(dp.fs.g, d)
    && forall s: nat | s < |d| && s !in Tab(dp.fs.g, ch) :: dp.fs.L()[s] == d[s]
  }

  /** Marks the window, which holds the changed entry `e`, as dirty. `win`: what it held before. */
  method Touch(dp: Dir, ghost v: Vol, ghost e: nat)
    requires dp.fs.win.Length == 512 && dp.fs.V() == v.(win := dp.fs.win[..])
             && VolInv(dp.fs.g, dp.fs.mirrorReliable, v)
    requires TableOk(dp.fs.g, dp.sclust, Logical(dp.fs.g, v), dp.chain) && e < 16 * |Tab(dp.fs.g, dp.chain)|
    requires v.winsect == Tab(dp.fs.g, dp.chain)[e / 16] && OnlyEntry(v.win, dp.fs.win[..], 32 * (e % 16))
    modifies dp.fs`wflag
    ensures dp.Valid() && TabOnly(dp, Logical(dp.fs.g, v), dp.chain)
    ensures T(dp) == Entries(dp.fs.g, dp.sclust, Logical(dp.fs.g, v), dp.chain)
                     [e := dp.fs.win[32 * (e % 16)..32 * (e % 16) + 32]]
  {
    EntryPoked(dp.fs.g, dp.fs.mirrorReliable, dp.sclust, v, dp.chain, e, dp.fs.win[..]);
    dp.fs.wflag := true;
    assert dp.fs.V() == v.(win := dp.fs.win[..], wflag := true);
  }

  /** Marks entry `e`, the current one, as deleted. */
  method MarkDeleted(dp: Dir, ghost e: nat) returns (res: FResult)
    requires dp.Valid() && dp.Here(e)
    modifies dp.fs`disk, dp.fs`wflag, dp.fs`winsect, dp.fs.win
    ensures dp.Valid() && TabOnly(dp, old(dp.fs.L()), dp.chain)
    ensures res == Ok || (res == DiskErr && !dp.fs.reliable && T(dp) == old(T(dp)))
    ensures res == Ok ==> |old(T(dp))[e]| == 32 && T(dp) == old(T(dp))[e := old(T(dp))[e][0 := 0xE5]]
  {
    var dir;
    res, dir := Load(dp, e);
    if res != Ok { return; }
    ghost var v := dp.fs.V();
    dp.fs.win[dp.dptr % 512] := 0xE5;
    Touch(dp, v, e);
    assert dp.fs.win[32 * (e % 16)..32 * (e % 16) + 32] == dir[0 := 0xE5];
  }

  /** Stores a piece of the long name as the current entry, which is entry `e`. */
  method StorePiece(dp: Dir, lfn: array<wchar>, ord: byte, sum: byte, ghost e: nat, ghost nm: seq<wchar>)
      returns (res: FResult, ghost x: seq<byte>)
    requires dp.Valid() && dp.Here(e)
    requires lfn.Length == 256 && Name(nm) && Holding(lfn[..], nm) && 1 <= ord <= Pieces(|nm|)
    modifies dp.fs`disk, dp.fs`wflag, dp.fs`winsect, dp.fs.win
    ensures dp.Valid() && TabOnly(dp, old(dp.fs.L()), dp.chain) && lfn[..] == old(lfn[..])
    ensures res == Ok || (res == DiskErr && !dp.fs.reliable && T(dp) == old(T(dp)))
    ensures res == Ok ==> IsPiece(nm, ord, sum, x) && T(dp) == old(T(dp))[e := x]
  {
    var dir;
    x := [];
    res, dir := Load(dp, e);
    if res != Ok { return; }
    ghost var v := dp.fs.V();
    PutLfn(lfn, dp.fs.win, dp.dptr % 512, ord, sum, nm);
    x := dp.fs.win[32 * (e % 16)..32 * (e % 16) + 32];
    Touch(dp, v, e);
  }

  /** Writes the entry proper at `o`. */
  method FillShort(win: array<byte>, o: nat, fn: seq<byte>, nt: byte)
    requires o + 32 <= win.Length && |fn| == 11
    modifies win
    ensures IsSfn(win[o..o + 32], fn, nt)
    ensures forall j | 0 <= j < win.Length && !(o <= j < o + 32) :: win[j] == old(win[j])
  {
    forall j | 0 <= j < 32 {
      win[o + j] := if j < 11 then fn[j] else if j == 12 then nt else 0;
    }
    assert win[o..o + 32][..11] == fn;
  }

  /** Stores the entry proper as the current entry, which is entry `e`. */
  method StoreShort(dp: Dir, ghost e: nat) returns (res: FResult, ghost x: seq<byte>)
    requires dp.Valid() && dp.Here(e) && |dp.fn| == 11
    modifies dp.fs`disk, dp.fs`wflag, dp.fs`winsect, dp.fs.win
    ensures dp.Valid() && TabOnly(dp, old(dp.fs.L()), dp.chain)
    ensures res == Ok || (res == DiskErr && !dp.fs.reliable && T(dp) == old(T(dp)))
    ensures res == Ok ==> IsSfn(x, dp.fn, dp.nt) && T(dp) == old(T(dp))[e := x]
  {
    var dir;
    x := [];
    res, dir := Load(dp, e);
    if res != Ok { return; }
    ghost var v := dp.fs.V();
    var o := dp.dptr % 512;
    FillShort(dp.fs.win, o, dp.fn, dp.nt);
    x := dp.fs.win[o..o + 32];
    Touch(dp, v, e);
  }

  /** The next entry, which there is. */
  method NextOld(dp: Dir, ghost x: nat) returns (res: FResult)
    requires dp.Valid() && dp.Here(x) && dp.Has(x + 1)
    modifies dp.fs`disk, dp.fs`wflag, dp.fs`winsect, dp.fs.win, dp.fs`freeClst, dp.fs`lastClst
    modifies dp`dptr, dp`clust, dp`sect, dp`chain
    ensures dp.Valid() && dp.Same(old(dp.fs.L()), old(dp.chain))
    ensures (res == Ok && dp.Here(x + 1)) || (res == DiskErr && !dp.fs.reliable)
    ensures unchanged(dp.fs`freeClst, dp.fs`lastClst)
  {
    TabAt(dp.fs.g, Fat(dp.fs.g, dp.fs.L()), dp.sclust, dp.chain, x / 16);
    res := dp.Next(false, x);
  }

  // ---------- Registering

  /** Of the row from `lo` to `b` the entries before `x` hold the pieces of the name, and nothing else has changed. */
  ghost predicate Filled(t: seq<seq<byte>>, t': seq<seq<byte>>, lo: nat, x: nat, b: nat, nm: seq<wchar>, sum: byte)
    requires Slots(t) && Slots(t')
  {
    && |t'| == |t| && lo <= x <= b < |t|
    && (forall i: nat | i < |t| && !(lo <= i < x) :: t'[i] == t[i])
    && forall i: nat | lo <= i < x :: IsPiece(nm, b - i, sum, t'[i])
  }

  lemma FilledMore(t: seq<seq<byte>>, t': seq<seq<byte>>, lo: nat, x: nat, b: nat, nm: seq<wchar>, sum: byte,
                   e: seq<byte>)
    requires Slots(t) && Slots(t') && Filled(t, t', lo, x, b, nm, sum) && x < b && |e| == 32
             && IsPiece(nm, b - x, sum, e)
    ensures Slots(t'[x := e]) && Filled(t, t'[x := e], lo, x + 1, b, nm, sum)
  {
  }

  /** While the pieces are stored from entry `lo` on; `d`, `ch` and `t` are the logical disk, the chain and the table as
      they were before. */
  ghost predicate Filling(dp: Dir, lo: nat, x: nat, b: nat, nm: seq<wchar>, sum: byte, d: seq<Sector>, ch: seq<nat>,
                          t: seq<seq<byte>>)
    requires Slots(t)
    reads dp, dp.fs, dp.fs.win
  {
    dp.Valid() && dp.Has(b) && TabOnly(dp, d, ch) && Slots(T(dp)) && Filled(t, T(dp), lo, x, b, nm, sum)
  }

  /** Stores the piece `nent` of the name as entry `x`. */
  method PieceHere(dp: Dir, lfn: array<wchar>, nent: nat, sum: byte, ghost lo: nat, ghost x: nat, ghost b: nat,
                   ghost nm: seq<wchar>, ghost d: seq<Sector>, ghost ch: seq<nat>, ghost t: seq<seq<byte>>)
      returns (res: FResult, ghost x': nat)
    requires Slots(t) && Filling(dp, lo, x, b, nm, sum, d, ch, t) && dp.Here(x) && 1 <= nent <= Pieces(|nm|)
             && x + nent == b
    requires lfn.Length == 256 && Name(nm) && Holding(lfn[..], nm)
    modifies dp.fs`disk, dp.fs`wflag, dp.fs`winsect, dp.fs.win
    ensures Filling(dp, lo, x', b, nm, sum, d, ch, t) && lfn[..] == old(lfn[..]) && dp.Here(x)
    ensures res == Ok || (res == DiskErr && !dp.fs.reliable)
    ensures res == Ok ==> x' == x + 1
  {
    ghost var e, t1 := [], T(dp);
    x' := x;
    res, e := StorePiece(dp, lfn, nent, sum, x, nm);
    if res != Ok { return; }
    FilledMore(t, t1, lo, x, b, nm, sum, e);
    x' := x + 1;
  }

  /** Stores the piece `nent` of the name as entry `x`, and moves on. */
  method PieceStep(dp: Dir, lfn: array<wchar>, nent: nat, sum: byte, ghost lo: nat, ghost x: nat, ghost b: nat,
                   ghost nm: seq<wchar>, ghost d: seq<Sector>, ghost ch: seq<nat>, ghost t: seq<seq<byte>>)
      returns (res: FResult, ghost x': nat)
    requires Slots(t) && Filling(dp, lo, x, b, nm, sum, d, ch, t) && dp.Here(x) && 1 <= nent <= Pieces(|nm|)
             && x + nent == b
    requires lfn.Length == 256 && Name(nm) && Holding(lfn[..], nm)
    modifies dp.fs`disk, dp.fs`wflag, dp.fs`winsect, dp.fs.win, dp.fs`freeClst, dp.fs`lastClst
    modifies dp`dptr, dp`clust, dp`sect, dp`chain
    ensures Filling(dp, lo, x', b, nm, sum, d, ch, t) && lfn[..] == old(lfn[..])
    ensures res == Ok || (res == DiskErr && !dp.fs.reliable)
    ensures res == Ok ==> dp.Here(x + 1) && x' == x + 1
    ensures unchanged(dp.fs`freeClst, dp.fs`lastClst)
  {
    res, x' := PieceHere(dp, lfn, nent, sum, lo, x, b, nm, d, ch, t);
    if res == Ok { res := NextOld(dp, x); }
  }

  /** Stores the pieces of the name from entry `lo` on, the last piece first; it stands at entry `b` then. */
  method StorePieces(dp: Dir, lfn: array<wchar>, n: nat, sum: byte, ghost lo: nat, ghost b: nat, ghost nm: seq<wchar>)
      returns (res: FResult, ghost x: nat)
    requires dp.Valid() && dp.Here(lo) && dp.Has(b) && lo + n == b && 1 <= n <= Pieces(|nm|)
    requires lfn.Length == 256 && Name(nm) && Holding(lfn[..], nm) && Slots(T(dp))
    modifies dp.fs`disk, dp.fs`wflag, dp.fs`winsect, dp.fs.win, dp.fs`freeClst, dp.fs`lastClst
    modifies dp`dptr, dp`clust, dp`sect, dp`chain
    ensures dp.Valid() && TabOnly(dp, old(dp.fs.L()), old(dp.chain)) && lfn[..] == old(lfn[..])
    ensures res == Ok || (res == DiskErr && !dp.fs.reliable)
    ensures Slots(T(dp)) && Filled(old(T(dp)), T(dp), lo, x, b, nm, sum)
    ensures res == Ok ==> dp.Here(b) && x == b
    ensures unchanged(dp.fs`freeClst, dp.fs`lastClst)
  {
    var nent := n;
    x := lo;
    while true
      invariant unchanged(dp.fs`freeClst, dp.fs`lastClst)
      invariant Filling(dp, lo, x, b, nm, sum, old(dp.fs.L()), old(dp.chain), old(T(dp))) && lfn[..] == old(lfn[..])
      invariant 1 <= nent && x + nent == b && dp.Here(x)
      decreases nent
    {
      res, x := PieceStep(dp, lfn, nent, sum, lo, x, b, nm, old(dp.fs.L()), old(dp.chain), old(T(dp)));
      if res != Ok { return; }
      nent := nent - 1;
      if nent == 0 { return; }
    }
  }

  lemma FilledZeroEnds(t: seq<seq<byte>>, t': seq<seq<byte>>, lo: nat, x: nat, b: nat, nm: seq<wchar>, sum: byte)
    requires Slots(t) && Slots(t') && Name(nm) && lo <= b && b - lo <= Pieces(|nm|)
    requires Filled(t, t', lo, x, b, nm, sum) && FirstRun(t, b, b - lo + 1) && ZeroEnds(t)
    ensures ZeroEnds(t')
  {
    forall i: nat | i < lo
      ensures t[i][0] != 0
    {
      NoZeroBefore(t, b, b - lo + 1, i);
    }
    forall i: nat | lo <= i < x
      ensures t'[i][0] != 0
    {
      assert IsPiece(nm, b - i, sum, t'[i]);
    }
    FillingZeroEnds(t, t', lo, x, b);
  }

  lemma FilledPlaced(t: seq<seq<byte>>, t1: seq<seq<byte>>, lo: nat, b: nat, nm: seq<wchar>, fn: seq<byte>, nt: byte,
                     e: seq<byte>)
    requires Slots(t) && Slots(t1) && ShortName(fn) && IsSfn(e, fn, nt) && Filled(t, t1, lo, b, b, nm, SumSfn(fn))
    ensures Slots(t1[b := e]) && Placed(t, t1[b := e], lo, b, nm, fn, nt)
    ensures Name(nm) && b - lo <= Pieces(|nm|) && FirstRun(t, b, b - lo + 1) && ZeroEnds(t) ==> ZeroEnds(t1[b := e])
  {
    var t' := t1[b := e];
    if Name(nm) && b - lo <= Pieces(|nm|) && FirstRun(t, b, b - lo + 1) && ZeroEnds(t) {
      forall i: nat | i < lo
        ensures t[i][0] != 0
      {
        NoZeroBefore(t, b, b - lo + 1, i);
      }
      forall i: nat | lo <= i <= b
        ensures t'[i][0] != 0
      {
        if i < b { assert IsPiece(nm, b - i, SumSfn(fn), t1[i]); }
      }
      FillingZeroEnds(t, t', lo, b + 1, b);
    }
  }

  /** The pieces of the long name. */
  method StoreLong(dp: Dir, lfn: array<wchar>, n: nat, ghost b: nat, ghost nm: seq<wchar>) returns (res: FResult)
    requires dp.Valid() && dp.Here(b) && Slots(T(dp)) && n <= b && FirstRun(T(dp), b, n + 1) && ShortName(dp.fn)
    requires lfn.Length == 256 && Name(nm) && Holding(lfn[..], nm) && 1 <= n <= Pieces(|nm|)
    modifies dp.fs`disk, dp.fs`wflag, dp.fs`winsect, dp.fs.win, dp.fs`freeClst, dp.fs`lastClst
    modifies dp`dptr, dp`clust, dp`sect, dp`chain
    ensures dp.Valid() && TabOnly(dp, old(dp.fs.L()), old(dp.chain)) && lfn[..] == old(lfn[..]) && Slots(T(dp))
    ensures res == Ok || (res == DiskErr && !dp.fs.reliable)
    ensures ZeroEnds(old(T(dp))) ==> ZeroEnds(T(dp))
    ensures res == Ok ==> dp.Here(b) && Filled(old(T(dp)), T(dp), b - n, b, b, nm, SumSfn(dp.fn))
    ensures unchanged(dp.fs`freeClst, dp.fs`lastClst)
  {
    ghost var t, x := T(dp), b;
    res := dp.Sdi(dp.dptr - n * 32);
    if res != Ok { return; }
    var sum := SumSfn(dp.fn);
    res, x := StorePieces(dp, lfn, n, sum, b - n, b, nm);
    if ZeroEnds(t) { FilledZeroEnds(t, T(dp), b - n, x, b, nm, sum); }
  }

  /** Stores the entries of the object in the row that has been allocated, `n` pieces of its long name and the entry
      proper. Whenever this breaks off, no used entry follows one that starts with zero. */
  method StoreRow(dp: Dir, lfn: array<wchar>, n: nat, ghost b: nat, ghost nm: seq<wchar>) returns (res: FResult)
    requires dp.Valid() && dp.Here(b) && Slots(T(dp)) && n <= b && FirstRun(T(dp), b, n + 1) && ShortName(dp.fn)
    requires lfn.Length == 256 && Name(nm) && Holding(lfn[..], nm) && n <= Pieces(|nm|)
    modifies dp.fs`disk, dp.fs`wflag, dp.fs`winsect, dp.fs.win, dp.fs`freeClst, dp.fs`lastClst
    modifies dp`dptr, dp`clust, dp`sect, dp`chain
    ensures dp.Valid() && TabOnly(dp, old(dp.fs.L()), old(dp.chain)) && lfn[..] == old(lfn[..]) && Slots(T(dp))
    ensures res == Ok || (res == DiskErr && !dp.fs.reliable)
    ensures ZeroEnds(old(T(dp))) ==> ZeroEnds(T(dp))
    ensures res == Ok ==> dp.Here(b) && Placed(old(T(dp)), T(dp), b - n, b, nm, dp.fn, dp.nt)
    ensures unchanged(dp.fs`freeClst, dp.fs`lastClst)
  {
    ghost var t := T(dp);
    res := Ok;
    if n > 0 { res := StoreLong(dp, lfn, n, b, nm); }
    if res != Ok { return; }
    ghost var t1, e := T(dp), [];
    res, e := StoreShort(dp, b);
    if res == Ok { FilledPlaced(t, t1, b - n, b, nm, dp.fn, dp.nt, e); }
  }

  /** Length of the name in the working buffer. */
  method NameLength(lfn: array<wchar>, ghost nm: seq<wchar>) returns (n: nat)
    requires lfn.Length == 256 && Name(nm) && Holding(lfn[..], nm)
    ensures n == |nm|
  {
    n := 0;
    while lfn[n] != 0
      invariant n <= |nm|
      decreases |nm| - n
    {
      n := n + 1;
    }
  }

  /** No entry up to the limit has the short name. */
  ghost predicate Unnamed(t: seq<seq<byte>>, fn: seq<byte>)
    requires Slots(t)
  {
    forall j: nat | j < |t| && 32 * j < MAX_DIR :: !(IsShort(t[j]) && t[j][..11] == fn)
  }

  lemma ShortNotThere(dp: Dir, lfn: array<wchar>, up: wchar -> wchar)
    requires dp.Valid() && Slots(T(dp)) && lfn.Length == 256 && !dp.loss
    ensures NotThere(dp, lfn, up) ==> Unnamed(T(dp), dp.fn)
  {
    if NotThere(dp, lfn, up) {
      forall j: nat | j < |T(dp)| && 32 * j < MAX_DIR
        ensures !(IsShort(T(dp)[j]) && T(dp)[j][..11] == dp.fn)
      {
        assert dp.Has(j) && !MatchAt(Wanted(dp, lfn, up), T(dp), j);
      }
    }
  }

  /** An entry has the short name. */
  ghost predicate Taken(t: seq<seq<byte>>, fn: seq<byte>)
    requires Slots(t)
  {
    exists j: nat :: j < |t| && IsShort(t[j]) && t[j][..11] == fn
  }

  /** The numbered names before `n` are in use. */
  ghost predicate AllTaken(t: seq<seq<byte>>, gen: nat -> seq<byte>, n: nat)
    requires Slots(t)
  {
    forall k: nat | 1 <= k < n :: Taken(t, gen(k))
  }

  /** Looking for a short name only, the search has found it. */
  lemma FoundShort(w: Want, t: seq<seq<byte>>, i: nat)
    requires Slots(t) && |w.buf| == 256 && i < |t| && w.noLfn && MatchAt(w, t, i)
    ensures Taken(t, w.fn)
  {
  }

  /** Looks whether a short name is in use. */
  method Collides(dp: Dir, lfn: array<wchar>, up: wchar -> wchar, fn: seq<byte>) returns (res: FResult)
    requires dp.Valid() && lfn.Length == 256 && Slots(T(dp)) && dp.noLfn && !dp.loss
    modifies dp.fs`disk, dp.fs`wflag, dp.fs`winsect, dp.fs.win, dp.fs`freeClst, dp.fs`lastClst
    modifies dp`dptr, dp`clust, dp`sect, dp`chain, dp`blkOfs, dp`fn
    ensures dp.Valid() && dp.Same(old(dp.fs.L()), old(dp.chain)) && lfn[..] == old(lfn[..]) && dp.fn == fn
    ensures T(dp) == old(T(dp))
    ensures res in {Ok, NoFile, DiskErr, IntErr} && (res == DiskErr ==> !dp.fs.reliable)
    ensures res == IntErr ==> !dp.Has(0)
    ensures res == Ok ==> Taken(T(dp), fn)
    ensures res == NoFile && ZeroEnds(T(dp)) ==> Unnamed(T(dp), fn)
    ensures unchanged(dp.fs`freeClst, dp.fs`lastClst)
  {
    dp.fn := fn;
    ghost var i;
    res, i := Find(dp, lfn, up);
    assert Sought(0);
    if res == Ok { FoundShort(Wanted(dp, lfn, up), T(dp), i); }
    ShortNotThere(dp, lfn, up);
  }

  /** The loop of `Number`. */
  method FirstUnused(dp: Dir, lfn: array<wchar>, up: wchar -> wchar, gen: nat -> seq<byte>)
      returns (res: FResult, n: nat)
    requires dp.Valid() && lfn.Length == 256 && Slots(T(dp)) && dp.noLfn && !dp.loss
    modifies dp.fs`disk, dp.fs`wflag, dp.fs`winsect, dp.fs.win, dp.fs`freeClst, dp.fs`lastClst
    modifies dp`dptr, dp`clust, dp`sect, dp`chain, dp`blkOfs, dp`fn
    ensures dp.Valid() && dp.Same(old(dp.fs.L()), old(dp.chain)) && lfn[..] == old(lfn[..]) && T(dp) == old(T(dp))
    ensures 1 <= n <= 100 && AllTaken(T(dp), gen, n)
    ensures n < 100 ==> res in {NoFile, DiskErr, IntErr} && (res == DiskErr ==> !dp.fs.reliable)
    ensures n < 100 && res == NoFile ==> dp.fn == gen(n) && (ZeroEnds(T(dp)) ==> Unnamed(T(dp), gen(n)))
    ensures n < 100 && res == IntErr ==> !dp.Has(0)
    ensures unchanged(dp.fs`freeClst, dp.fs`lastClst)
  {
    n, res := 1, Ok;
    while n < 100
      invariant unchanged(dp.fs`freeClst, dp.fs`lastClst)
      invariant 1 <= n <= 100 && dp.Valid() && dp.Same(old(dp.fs.L()), old(dp.chain)) && lfn[..] == old(lfn[..])
      invariant T(dp) == old(T(dp)) && AllTaken(T(dp), gen, n)
    {
      res := Collides(dp, lfn, up, gen(n));
      if res != Ok { break; }
      n := n + 1;
    }
  }

  /** Tries the numbered names `gen(1)`, `gen(2)` and so on, until one is not in use, which is `gen(n)`. */
  method Number(dp: Dir, lfn: array<wchar>, up: wchar -> wchar, gen: nat -> seq<byte>)
      returns (res: FResult, ghost n: nat)
    requires dp.Valid() && lfn.Length == 256 && Slots(T(dp))
    modifies dp.fs`disk, dp.fs`wflag, dp.fs`winsect, dp.fs.win, dp.fs`freeClst, dp.fs`lastClst
    modifies dp`dptr, dp`clust, dp`sect, dp`chain, dp`blkOfs, dp`fn, dp`loss, dp`noLfn
    ensures dp.Valid() && dp.Same(old(dp.fs.L()), old(dp.chain)) && lfn[..] == old(lfn[..])
    ensures T(dp) == old(T(dp))
    ensures res in {Ok, Denied, DiskErr, IntErr} && (res == DiskErr ==> !dp.fs.reliable)
    ensures res == Ok ==> dp.loss == old(dp.loss) && dp.noLfn == old(dp.noLfn)
    ensures res == Ok ==> 1 <= n < 100 && dp.fn == gen(n) && AllTaken(T(dp), gen, n)
    ensures res == Ok && ZeroEnds(T(dp)) ==> Unnamed(T(dp), dp.fn)
    ensures res == Denied ==> AllTaken(T(dp), gen, 100)
    ensures res == IntErr ==> !dp.Has(0)
    ensures unchanged(dp.fs`freeClst, dp.fs`lastClst)
  {
    var loss, noLfn := dp.loss, dp.noLfn;
    dp.noLfn, dp.loss := true, false;
    var k;
    res, k := FirstUnused(dp, lfn, up, gen);
    n := k;
    if k == 100 { return Denied, n; }
    if res != NoFile { return; }
    dp.loss, dp.noLfn := loss, noLfn;
    res := Ok;
  }

  ghost predicate KeepsZeroEnds(t: seq<seq<byte>>, t': seq<seq<byte>>) {
    Slots(t) && Slots(t') && (ZeroEnds(t) ==> ZeroEnds(t'))
  }

  /** The table `t0`, after it has grown to `t` if need be, has got the entries of a new object in the first row that is
      long enough, `n` pieces of its long name and the entry proper at `b`. */
  ghost predicate Registered(t0: seq<seq<byte>>, t: seq<seq<byte>>, t': seq<seq<byte>>, n: nat, b: nat, nm: seq<wchar>,
                             fn: seq<byte>, nt: byte) {
    Lengthened(t0, t) && n <= b && FirstRun(t, b, n + 1) && Slots(t') && Placed(t, t', b - n, b, nm, fn, nt)
  }

  /** How many pieces of the long name are stored. */
  ghost function LongPieces(dp: Dir, nm: seq<wchar>): nat
    reads dp
  {
    if dp.wantLfn then Pieces(|nm|) else 0
  }

  /** Since the logical disk was `d` and the chain `ch`, nothing has changed but the table, which may have grown. */
  ghost predicate Kept(dp: Dir, d: seq<Sector>, ch: seq<nat>, fc: nat)
    requires dp.Valid()
    reads dp, dp.fs, dp.fs.win
  {
    && Ready(dp.fs.g, d) && RestKept(dp.fs.g, d, dp.fs.L(), ch, dp.chain)
    && CountKept(dp.fs.g, d, fc, dp.fs.L(), dp.fs.freeClst)
  }

  /** `Alloc`, and what it means for the entries. */
  method AllocRow(dp: Dir, nent: nat) returns (res: FResult, ghost b: nat)
    requires dp.Valid() && nent >= 1 && Slots(T(dp))
    modifies dp.fs`disk, dp.fs`wflag, dp.fs`winsect, dp.fs.win, dp.fs`freeClst, dp.fs`lastClst
    modifies dp`dptr, dp`clust, dp`sect, dp`chain
    ensures res in {Ok, Denied, DiskErr, IntErr} && (res == DiskErr ==> !dp.fs.reliable)
    ensures res != DiskErr ==> dp.Valid() && Lengthened(old(T(dp)), T(dp)) && KeepsZeroEnds(old(T(dp)), T(dp))
                               && Justified(dp, res)
    ensures res != DiskErr ==> GrownSince(dp, old(dp.fs.L()), old(dp.chain), old(dp.fs.freeClst))
    ensures res == Ok ==> dp.Here(b) && FirstRun(T(dp), b, nent)
    ensures res == Denied ==> NoRow(dp, nent)
  {
    ghost var t, d, ch := T(dp), dp.fs.L(), dp.chain;
    res, b := Alloc(dp, nent);
    if res == DiskErr { return; }
    WiderEntries(dp.fs.g, dp.sclust, d, dp.fs.L(), ch, dp.chain);
    if ZeroEnds(t) { LengthenedZeroEnds(t, T(dp)); }
  }

  /** Allocates the row and stores the entries in it. */
  method Place(dp: Dir, lfn: array<wchar>, nent: nat, ghost nm: seq<wchar>)
      returns (res: FResult, ghost t: seq<seq<byte>>, ghost b: nat)
    requires dp.Valid() && lfn.Length == 256 && Name(nm) && Holding(lfn[..], nm) && Slots(T(dp)) && ShortName(dp.fn)
    requires 1 <= nent <= Pieces(|nm|) + 1
    modifies dp.fs`disk, dp.fs`wflag, dp.fs`winsect, dp.fs.win, dp.fs`freeClst, dp.fs`lastClst
    modifies dp`dptr, dp`clust, dp`sect, dp`chain
    ensures res in {Ok, Denied, DiskErr, IntErr} && (res == DiskErr ==> !dp.fs.reliable)
    ensures res != DiskErr ==> dp.Valid() && KeepsZeroEnds(old(T(dp)), T(dp))
    ensures res != DiskErr ==> Kept(dp, old(dp.fs.L()), old(dp.chain), old(dp.fs.freeClst))
    ensures res in {Denied, IntErr} ==> Justified(dp, res) && (res == Denied ==> NoRow(dp, nent))
    ensures res == Ok ==> dp.Here(b) && Registered(old(T(dp)), t, T(dp), nent - 1, b, nm, dp.fn, dp.nt)
  {
    ghost var d, ch := dp.fs.L(), dp.chain;
    t := [];
    res, b := AllocRow(dp, nent);
    if res == DiskErr { return; }
    t := T(dp);
    ghost var d1 := dp.fs.L();
    if res == Ok { res := StoreRow(dp, lfn, nent - 1, b, nm); }
    GrownThenChanged(dp.fs.g, dp.sclust, d, d1, dp.fs.L(), ch, dp.chain);
  }

  /** Places the entries, as many as the name needs. */
  method PlaceNamed(dp: Dir, lfn: array<wchar>, ghost nm: seq<wchar>)
      returns (res: FResult, ghost t: seq<seq<byte>>, ghost b: nat)
    requires dp.Valid() && lfn.Length == 256 && Name(nm) && Holding(lfn[..], nm) && Slots(T(dp)) && ShortName(dp.fn)
    modifies dp.fs`disk, dp.fs`wflag, dp.fs`winsect, dp.fs.win, dp.fs`freeClst, dp.fs`lastClst
    modifies dp`dptr, dp`clust, dp`sect, dp`chain
    ensures res in {Ok, Denied, DiskErr, IntErr} && (res == DiskErr ==> !dp.fs.reliable)
    ensures res != DiskErr ==> dp.Valid() && KeepsZeroEnds(old(T(dp)), T(dp))
    ensures res != DiskErr ==> Kept(dp, old(dp.fs.L()), old(dp.chain), old(dp.fs.freeClst))
    ensures res in {Denied, IntErr} ==>
              Justified(dp, res) && (res == Denied ==> NoRow(dp, LongPieces(dp, nm) + 1))
    ensures res == Ok ==> dp.Here(b)
                          && Registered(old(T(dp)), t, T(dp), LongPieces(dp, nm), b, nm, dp.fn, dp.nt)
  {
    var nlen := NameLength(lfn, nm);
    res, t, b := Place(dp, lfn, if dp.wantLfn then (nlen + 12) / 13 + 1 else 1, nm);
  }

  lemma NothingChanged(g: Geometry, sclust: nat, d: seq<Sector>, ch: seq<nat>)
    requires Ready(g, d) && DirOk(g, Fat(g, d), sclust, ch)
    ensures RestKept(g, d, d, ch, ch)
  {
    NotWider(g, d, ch);
  }

  /** Finds a short name that is not in use, if the one there is does not stand for all of the long name. */
  method Unambiguous(dp: Dir, lfn: array<wchar>, up: wchar -> wchar, gen: nat -> seq<byte>, ghost nm: seq<wchar>)
      returns (res: FResult, ghost n: nat)
    requires dp.Valid() && lfn.Length == 256 && Slots(T(dp)) && Holding(lfn[..], nm)
    requires ShortName(dp.fn) && forall n: nat :: ShortName(gen(n))
    modifies dp.fs`disk, dp.fs`wflag, dp.fs`winsect, dp.fs.win, dp.fs`freeClst, dp.fs`lastClst
    modifies dp`dptr, dp`clust, dp`sect, dp`chain, dp`blkOfs, dp`fn, dp`loss, dp`noLfn
    ensures dp.Valid() && dp.Same(old(dp.fs.L()), old(dp.chain)) && T(dp) == old(T(dp)) && Holding(lfn[..], nm)
    ensures res in {Ok, Denied, DiskErr, IntErr} && (res == DiskErr ==> !dp.fs.reliable)
    ensures res == Ok ==> ShortName(dp.fn)
    ensures !old(dp.loss) ==> res == Ok && dp.fn == old(dp.fn)
    ensures res == Ok && old(dp.loss) && ZeroEnds(T(dp)) ==> Unnamed(T(dp), dp.fn)
    ensures res == Ok && old(dp.loss) ==> 1 <= n < 100 && dp.fn == gen(n) && AllTaken(T(dp), gen, n)
    ensures res == Ok ==> dp.loss == old(dp.loss) && dp.noLfn == old(dp.noLfn)
    ensures res == Denied ==> old(dp.loss) && AllTaken(T(dp), gen, 100)
    ensures res == IntErr ==> !dp.Has(0)
    ensures unchanged(dp.fs`freeClst, dp.fs`lastClst)
  {
    res, n := Ok, 0;
    if dp.loss { res, n := Number(dp, lfn, up, gen); }
  }

  /** Registers an object that may have its name. */
  method RegisterNamed(dp: Dir, lfn: array<wchar>, up: wchar -> wchar, gen: nat -> seq<byte>, ghost nm: seq<wchar>)
      returns (res: FResult, ghost t: seq<seq<byte>>, ghost b: nat, ghost n: nat)
    requires dp.Valid() && lfn.Length == 256 && Name(nm) && Holding(lfn[..], nm) && Slots(T(dp))
    requires ShortName(dp.fn) && forall n: nat :: ShortName(gen(n))
    modifies dp.fs`disk, dp.fs`wflag, dp.fs`winsect, dp.fs.win, dp.fs`freeClst, dp.fs`lastClst
    modifies dp`dptr, dp`clust, dp`sect, dp`chain, dp`blkOfs, dp`fn, dp`loss, dp`noLfn
    ensures res in {Ok, Denied, DiskErr, IntErr} && (res == DiskErr ==> !dp.fs.reliable)
    ensures res != DiskErr ==> dp.Valid() && KeepsZeroEnds(old(T(dp)), T(dp))
    ensures res != DiskErr ==> Kept(dp, old(dp.fs.L()), old(dp.chain), old(dp.fs.freeClst))
    ensures res == Denied ==> (old(dp.loss) && AllTaken(old(T(dp)), gen, 100))
                              || (NoRow(dp, LongPieces(dp, nm) + 1) && NoRoom(dp))
    ensures res == IntErr ==> Justified(dp, res)
    ensures res == Ok ==> dp.Here(b)
                          && Registered(old(T(dp)), t, T(dp), LongPieces(dp, nm), b, nm, dp.fn, dp.nt)
    ensures res == Ok && !old(dp.loss) ==> dp.fn == old(dp.fn)
    ensures res == Ok && old(dp.loss) && ZeroEnds(old(T(dp))) ==> Unnamed(old(T(dp)), dp.fn)
    ensures res == Ok && old(dp.loss) ==> 1 <= n < 100 && dp.fn == gen(n) && AllTaken(old(T(dp)), gen, n)
    ensures res == Ok ==> dp.loss == old(dp.loss) && dp.noLfn == old(dp.noLfn)
  {
    t, b := [], 0;
    res, n := Unambiguous(dp, lfn, up, gen, nm);
    if res == Ok {
      res, t, b := PlaceNamed(dp, lfn, nm);
    } else {
      NothingChanged(dp.fs.g, dp.sclust, dp.fs.L(), dp.chain);
    }
  }

  /** Registers the object under the name `nm` in the working buffer. `gen` numbers short names. `t` is the table with
      the room that has been made, `b` where the entry proper is. */
  method Register(dp: Dir, lfn: array<wchar>, up: wchar -> wchar, gen: nat -> seq<byte>, ghost nm: seq<wchar>)
      returns (res: FResult, ghost t: seq<seq<byte>>, ghost b: nat, ghost n: nat)
    requires dp.Valid() && lfn.Length == 256 && Name(nm) && Holding(lfn[..], nm) && Slots(T(dp))
    requires ShortName(dp.fn) && forall n: nat :: ShortName(gen(n))
    modifies dp.fs`disk, dp.fs`wflag, dp.fs`winsect, dp.fs.win, dp.fs`freeClst, dp.fs`lastClst
    modifies dp`dptr, dp`clust, dp`sect, dp`chain, dp`blkOfs, dp`fn, dp`loss, dp`noLfn
    ensures res in {Ok, Denied, DiskErr, IntErr, InvalidName} && (res == DiskErr ==> !dp.fs.reliable)
    ensures res == InvalidName <==> dp.noName
    ensures res != DiskErr ==> dp.Valid() && KeepsZeroEnds(old(T(dp)), T(dp))
    ensures res != DiskErr ==> Kept(dp, old(dp.fs.L()), old(dp.chain), old(dp.fs.freeClst))
    // there is no numbered name left, or no row long enough and no room for one
    ensures res == Denied ==> (old(dp.loss) && AllTaken(old(T(dp)), gen, 100))
                              || (NoRow(dp, LongPieces(dp, nm) + 1) && NoRoom(dp))
    ensures res == IntErr ==> Justified(dp, res)
    ensures res == Ok ==> dp.Here(b)
                          && Registered(old(T(dp)), t, T(dp), LongPieces(dp, nm), b, nm, dp.fn, dp.nt)
    ensures res == Ok && !old(dp.loss) ==> dp.fn == old(dp.fn)
    ensures res == Ok && old(dp.loss) && ZeroEnds(old(T(dp))) ==> Unnamed(old(T(dp)), dp.fn)
    ensures res == Ok && old(dp.loss) ==> 1 <= n < 100 && dp.fn == gen(n) && AllTaken(old(T(dp)), gen, n)
    ensures res == Ok ==> dp.loss == old(dp.loss) && dp.noLfn == old(dp.noLfn)
  {
    t, b, n, res := T(dp), 0, 0, InvalidName;
    NothingChanged(dp.fs.g, dp.sclust, dp.fs.L(), dp.chain);
    if !dp.noName { res, t, b, n := RegisterNamed(dp, lfn, up, gen, nm); }
  }

  lemma {:induction false} SumPrefix(a: seq<byte>, b: seq<byte>, n: nat)
    requires n <= |a| && n <= |b| && a[..n] == b[..n]
    ensures SumUpTo(a, n) == SumUpTo(b, n)
  {
    if n > 0 {
      assert a[..n - 1] == a[..n][..n - 1] && b[..n - 1] == b[..n][..n - 1];
      assert a[n - 1] == a[..n][n - 1] && b[n - 1] == b[..n][n - 1];
      SumPrefix(a, b, n - 1);
    }
  }

  lemma SumOf(e: seq<byte>, fn: seq<byte>)
    requires |e| == 32 && |fn| == 11 && e[..11] == fn
    ensures SumSfn(e) == SumSfn(fn)
  {
    SumPrefix(e, fn, 11);
  }

  lemma ShortOf(e: seq<byte>, fn: seq<byte>, nt: byte)
    requires ShortName(fn) && IsSfn(e, fn, nt)
    ensures IsShort(e) && SumSfn(e) == SumSfn(fn)
  {
    assert e[..11][0] == e[0];
    SumOf(e, fn);
  }

  lemma MatchOf(w: Want, t: seq<seq<byte>>, b: nat, fn: seq<byte>, nt: byte)
    requires Slots(t) && |w.buf| == 256 && b < |t| && ShortName(fn) && IsSfn(t[b], fn, nt)
    ensures MatchAt(w, t, b) <==> LongAt(w, t, b, SumSfn(fn)) || (!w.loss && w.fn == fn)
  {
    ShortOf(t[b], fn, nt);
  }

  /** An object that has been registered is found where it is: under its long name, or under its short name. */
  lemma RegisteredIsFound(w: Want, t0: seq<seq<byte>>, t: seq<seq<byte>>, t': seq<seq<byte>>, n: nat, b: nat,
                          nm: seq<wchar>, fn: seq<byte>, nt: byte, want: seq<wchar>)
    requires Registered(t0, t, t', n, b, nm, fn, nt) && Name(nm) && ShortName(fn) && n == Pieces(|nm|)
    requires Name(want) && Holding(w.buf, want) && Casing(w.up)
    ensures MatchAt(w, t', b) <==> (!w.noLfn && SameName(want, nm, w.up) && |nm| <= 254) || (!w.loss && w.fn == fn)
  {
    LongFoundExactly(w, t', b, nm, SumSfn(fn), want);
    MatchOf(w, t', b, fn, nt);
  }

  lemma PieceIsLong(nm: seq<wchar>, ord: nat, sum: byte, e: seq<byte>)
    requires Name(nm) && 1 <= ord <= Pieces(|nm|) && IsPiece(nm, ord, sum, e)
    ensures IsLong(e)
  {
  }

  lemma {:induction false} PiecesPrefix(w: Want, t0: seq<seq<byte>>, t: seq<seq<byte>>, i: nat, n: nat, k: nat, s: byte)
    requires Lengthened(t0, t) && |w.buf| == 256 && i <= |t0|
    ensures PiecesBefore(w, t, i, n, k, s) == PiecesBefore(w, t0, i, n, k, s)
    decreases i
  {
    if i > 0 { PiecesPrefix(w, t0, t, i - 1, n, k + 1, s); }
  }

  lemma PrefixKept(w: Want, t0: seq<seq<byte>>, t: seq<seq<byte>>, j: nat)
    requires Lengthened(t0, t) && |w.buf| == 256 && j < |t0|
    ensures MatchAt(w, t, j) == MatchAt(w, t0, j)
  {
    forall n: nat
      ensures PiecesBefore(w, t, j, n, 0, SumSfn(t0[j])) == PiecesBefore(w, t0, j, n, 0, SumSfn(t0[j]))
    {
      PiecesPrefix(w, t0, t, j, n, 0, SumSfn(t0[j]));
    }
  }

  /** Registering leaves every object that was there to be found as before, and adds none but the new one. */
  lemma RegisterKeepsOthers(w: Want, t0: seq<seq<byte>>, t: seq<seq<byte>>, t': seq<seq<byte>>, n: nat, b: nat,
                            nm: seq<wchar>, fn: seq<byte>, nt: byte, j: nat)
    requires Registered(t0, t, t', n, b, nm, fn, nt) && Name(nm) && ShortName(fn) && n <= Pieces(|nm|)
    requires |w.buf| == 256 && j < |t'| && j != b
    ensures MatchAt(w, t', j) <==> j < |t0| && MatchAt(w, t0, j)
  {
    if b - n <= j < b {
      PieceIsLong(nm, b - j, SumSfn(fn), t'[j]);
      assert Unused(t[j]);
    } else {
      ShortOf(t'[b], fn, nt);
      assert Unused(t[b]);
      OthersKept(w, t, t', b - n, b, j);
    }
    if j < |t0| { PrefixKept(w, t0, t, j); }
  }

  // ---------- Removing

  /** The table with the entries from `lo` on before `x` marked as deleted. */
  ghost predicate Deleted(t: seq<seq<byte>>, t': seq<seq<byte>>, lo: nat, x: nat)
    requires Slots(t)
  {
    && |t'| == |t| && lo <= x <= |t|
    && forall i: nat | i < |t| :: t'[i] == if lo <= i < x then t[i][0 := 0xE5] else t[i]
  }

  lemma DeletedMore(t: seq<seq<byte>>, t': seq<seq<byte>>, lo: nat, x: nat)
    requires Slots(t) && Deleted(t, t', lo, x) && x < |t|
    ensures Slots(t') && Deleted(t, t'[x := t'[x][0 := 0xE5]], lo, x + 1)
  {
  }

  lemma DeletedZeroEnds(t: seq<seq<byte>>, t': seq<seq<byte>>, lo: nat, x: nat)
    requires Slots(t) && Deleted(t, t', lo, x) && ZeroEnds(t)
    ensures Slots(t') && ZeroEnds(t')
  {
  }

  /** While the entries from `lo` on are being deleted. */
  ghost predicate Removing(dp: Dir, lo: nat, x: nat, d: seq<Sector>, ch: seq<nat>, t: seq<seq<byte>>)
    requires Slots(t)
    reads dp, dp.fs, dp.fs.win
  {
    dp.Valid() && TabOnly(dp, d, ch) && Deleted(t, T(dp), lo, x)
  }

  /** Deletes entry `x`. */
  method RemoveOne(dp: Dir, ghost lo: nat, ghost x: nat, ghost d: seq<Sector>, ghost ch: seq<nat>,
                   ghost t: seq<seq<byte>>)
      returns (res: FResult)
    requires Slots(t) && Removing(dp, lo, x, d, ch, t) && dp.Here(x)
    modifies dp.fs`disk, dp.fs`wflag, dp.fs`winsect, dp.fs.win
    ensures dp.Valid() && dp.Here(x) && (res == Ok || (res == DiskErr && !dp.fs.reliable))
    ensures Removing(dp, lo, if res == Ok then x + 1 else x, d, ch, t)
  {
    DeletedMore(t, T(dp), lo, x);
    res := MarkDeleted(dp, x);
  }

  /** One round of the loop: deletes entry `x`, and moves on if it is not the last one. */
  method RemoveRound(dp: Dir, last: nat, ghost lo: nat, ghost x: nat, ghost i: nat, ghost d: seq<Sector>,
                     ghost ch: seq<nat>, ghost t: seq<seq<byte>>)
      returns (res: FResult, ghost x': nat, more: bool)
    requires Slots(t) && Removing(dp, lo, x, d, ch, t) && dp.Here(x) && x <= i && dp.Has(i) && last == 32 * i
    modifies dp.fs`disk, dp.fs`wflag, dp.fs`winsect, dp.fs.win, dp.fs`freeClst, dp.fs`lastClst
    modifies dp`dptr, dp`clust, dp`sect, dp`chain
    ensures Removing(dp, lo, x', d, ch, t)
    ensures more ==> x' == x + 1 <= i && dp.Here(x') && dp.Has(i)
    ensures !more ==> (res == Ok && x' == i + 1 && dp.Here(i)) || (res == DiskErr && !dp.fs.reliable)
    ensures unchanged(dp.fs`freeClst, dp.fs`lastClst)
  {
    x', more := x, false;
    res := RemoveOne(dp, lo, x, d, ch, t);
    if res != Ok { return; }
    x' := x + 1;
    if dp.dptr >= last { return; }
    res := NextOld(dp, x);
    if res == NoFile { res := IntErr; }
    more := res == Ok;
  }

  /** The loop of `Remove`. */
  method RemoveLoop(dp: Dir, last: nat, ghost lo: nat, ghost i: nat, ghost t: seq<seq<byte>>)
      returns (res: FResult, ghost x: nat)
    requires dp.Valid() && dp.Here(lo) && lo <= i && dp.Has(i) && last == 32 * i && Slots(t) && t == T(dp)
    modifies dp.fs`disk, dp.fs`wflag, dp.fs`winsect, dp.fs.win, dp.fs`freeClst, dp.fs`lastClst
    modifies dp`dptr, dp`clust, dp`sect, dp`chain
    ensures res == Ok || (res == DiskErr && !dp.fs.reliable)
    ensures Removing(dp, lo, x, old(dp.fs.L()), old(dp.chain), t) && (res == Ok ==> x == i + 1 && dp.Here(i))
    ensures unchanged(dp.fs`freeClst, dp.fs`lastClst)
  {
    x, res := lo, Ok;
    var more := true;
    while more
      invariant unchanged(dp.fs`freeClst, dp.fs`lastClst)
      invariant Removing(dp, lo, x, old(dp.fs.L()), old(dp.chain), t)
      invariant more ==> dp.Here(x) && x <= i && dp.Has(i)
      invariant !more ==> (res == Ok && x == i + 1 && dp.Here(i)) || (res == DiskErr && !dp.fs.reliable)
      decreases if more then i + 1 - x else 0
    {
      res, x, more := RemoveRound(dp, last, lo, x, i, old(dp.fs.L()), old(dp.chain), t);
    }
  }

  /** Removes the object at entry `i`, at which it stands, with its long name. Whenever this breaks off, a first part of
      the entries has been deleted and nothing else has changed. */
  method Remove(dp: Dir, ghost i: nat) returns (res: FResult, ghost x: nat)
    requires dp.Valid() && dp.Here(i) && Slots(T(dp)) && Block(T(dp), dp.blkOfs, i)
    modifies dp.fs`disk, dp.fs`wflag, dp.fs`winsect, dp.fs.win, dp.fs`freeClst, dp.fs`lastClst
    modifies dp`dptr, dp`clust, dp`sect, dp`chain
    ensures res == Ok || (res == DiskErr && !dp.fs.reliable)
    ensures var lo := if old(dp.blkOfs) == 0xFFFF_FFFF then i else old(dp.blkOfs) / 32;
      && Removing(dp, lo, x, old(dp.fs.L()), old(dp.chain), old(T(dp)))
      && (res == Ok ==> x == i + 1 && dp.Here(i))
    ensures Slots(T(dp)) && (ZeroEnds(old(T(dp))) ==> ZeroEnds(T(dp)))
    ensures unchanged(dp.fs`freeClst, dp.fs`lastClst)
  {
    var last := dp.dptr;
    ghost var t := T(dp);
    x := if dp.blkOfs == 0xFFFF_FFFF then i else dp.blkOfs / 32;
    ghost var lo := x;
    res := Ok;
    if dp.blkOfs != 0xFFFF_FFFF { res := dp.Sdi(dp.blkOfs); }
    if res == Ok { res, x := RemoveLoop(dp, last, lo, i, t); }
    if ZeroEnds(t) { DeletedZeroEnds(t, T(dp), lo, x); }
  }

  /** Removing an object leaves every other one to be found as before, and the object itself to be found no more. */
  lemma RemoveKeepsOthers(w: Want, t: seq<seq<byte>>, t': seq<seq<byte>>, blk: nat, i: nat, j: nat)
    requires Slots(t) && Slots(t') && i < |t| && IsShort(t[i]) && Block(t, blk, i) && |w.buf| == 256 && j < |t|
    requires Deleted(t, t', if blk == 0xFFFF_FFFF then i else blk / 32, i + 1)
    ensures MatchAt(w, t', j) <==> j != i && MatchAt(w, t, j)
  {
    var lo := if blk == 0xFFFF_FFFF then i else blk / 32;
    if !(lo <= j <= i) {
      OthersKept(w, t, t', lo, i, j);
    }
  }

  /** The long name of an object that has been stored starts at its first entry. */
  lemma PlacedStarts(t: seq<seq<byte>>, t': seq<seq<byte>>, a: nat, b: nat, nm: seq<wchar>, fn: seq<byte>, nt: byte,
                     blk: nat)
    requires Slots(t) && Slots(t') && Placed(t, t', a, b, nm, fn, nt) && Name(nm) && a < b && b - a == Pieces(|nm|)
    requires StartsAt(t', blk, b)
    ensures blk == 32 * a
  {
    forall i: nat | a <= i < b
      ensures IsLong(t'[i]) && (Llef(t'[i][0]) <==> i == a)
    {
      PieceIsLong(nm, b - i, SumSfn(fn), t'[i]);
    }
    assert LongRow(t', a, b) && Llef(t'[a][0]);
    assert blk != 0xFFFF_FFFF && blk / 32 >= a;
    assert Llef(t'[blk / 32][0]);
  }

  /** An object that has been registered, found and removed leaves nothing behind: all of its entries are marked as
      deleted, whose room can be used again, and the others are those of the table before it was stored. */
  lemma RegisteredIsRemoved(w: Want, t0: seq<seq<byte>>, t: seq<seq<byte>>, t1: seq<seq<byte>>, t2: seq<seq<byte>>,
                            n: nat, b: nat, nm: seq<wchar>, fn: seq<byte>, nt: byte, blk: nat)
    requires Registered(t0, t, t1, n, b, nm, fn, nt) && Name(nm) && n == Pieces(|nm|)
    requires |w.buf| == 256 && !w.noLfn && BlockOf(w, t1, blk, b)
    requires Deleted(t1, t2, if blk == 0xFFFF_FFFF then b else blk / 32, b + 1)
    ensures |t2| == |t|
    ensures forall i: nat | i < |t| ::
              if b - n <= i <= b then t2[i][0] == 0xE5 && Unused(t2[i]) else t2[i] == t[i]
  {
    PlacedStarts(t, t1, b - n, b, nm, fn, nt, blk);
    assert Deleted(t1, t2, b - n, b + 1) && Agree2(t, t1, b - n, b);
    forall i: nat | i < |t|
      ensures if b - n <= i <= b then t2[i][0] == 0xE5 && Unused(t2[i]) else t2[i] == t[i]
    {
      assert t2[i] == if b - n <= i <= b then t1[i][0 := 0xE5] else t1[i];
    }
  }
}
