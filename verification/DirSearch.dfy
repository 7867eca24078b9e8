/** Finding an object in a directory. */
module DirSearch {
  import opened Volume
  import opened FatTable
  import opened Lfn
  import opened Directory
  import opened DirEntries

  // ---------- What is looked for, and where it is

  /** The name: in the working buffer and as a short name, and how it is to be compared. */
  datatype Want = Want(buf: seq<wchar>, up: wchar -> wchar, fn: seq<byte>, noLfn: bool, loss: bool)

  function Attr(e: seq<byte>): nat
    requires |e| == 32
  {
    e[11] % 0x40
  }

  /** Deleted, or a volume label. */
  predicate Skipped(e: seq<byte>)
    requires |e| == 32
  {
    e[0] == 0xE5 || (Attr(e) / 8 % 2 == 1 && Attr(e) != 0x0F)
  }

  /** An entry of a long name. */
  predicate IsLong(e: seq<byte>)
    requires |e| == 32
  {
    !Skipped(e) && Attr(e) == 0x0F
  }

  /** The entry proper of an object. */
  predicate IsShort(e: seq<byte>)
    requires |e| == 32
  {
    e[0] != 0 && !Skipped(e) && Attr(e) != 0x0F
  }

  lemma LowSix(a: bv8)
    ensures (a & 0x3F) as int == a as int % 64
  {
    assert a & 0x3F == a % 64;
  }

  /** The kinds of entries by the bits of the attribute byte: those of long names have 0x0F in its low six bits, and a
      volume label is no object. */
  lemma KindByBits(e: seq<byte>, a: bv8)
    requires |e| == 32 && e[11] == a as int
    ensures IsLong(e) <==> e[0] != 0xE5 && a & 0x3F == 0x0F
    ensures IsShort(e) <==> e[0] != 0 && e[0] != 0xE5 && a & 0x08 == 0
  {
    LowSix(a);
  }

  /** The checksum of the first `n` bytes. */
  function SumUpTo(e: seq<byte>, n: nat): byte
    requires n <= |e|
  {
    if n == 0 then 0
    else
      var sum: nat := SumUpTo(e, n - 1);
      (sum / 2 + sum % 2 * 128 + e[n - 1]) % 256
  }

  /** The checksum of the short name, which ties long-name entries to their object. */
  function SumSfn(e: seq<byte>): byte
    requires |e| >= 11
  {
    SumUpTo(e, 11)
  }

  /** Computes it. */
  method Checksum(e: seq<byte>) returns (sum: byte)
    requires |e| >= 11
    ensures sum == SumSfn(e)
  {
    sum := 0;
    for n := 0 to 11
      invariant sum == SumUpTo(e, n)
    {
      var s: nat := sum;
      sum := (s / 2 + s % 2 * 128 + e[n]) % 256;
    }
  }

  lemma SumStep(e: seq<byte>, n: nat, sum: nat, sum': nat)
    requires n < |e| && SumUpTo(e, n) == sum && sum' == (sum / 2 + sum % 2 * 128 + e[n]) % 256
    ensures SumUpTo(e, n + 1) == sum'
  {
  }

  /** The checksum of the short name `README  TXT`. */
  lemma SumOfReadme(e: seq<byte>)
    requires e == [0x52, 0x45, 0x41, 0x44, 0x4D, 0x45, 0x20, 0x20, 0x54, 0x58, 0x54]
    ensures SumSfn(e) == 115
  {
    SumStep(e, 0, 0, 82);
    SumStep(e, 1, 82, 110);
    SumStep(e, 2, 110, 120);
    SumStep(e, 3, 120, 128);
    SumStep(e, 4, 128, 141);
    SumStep(e, 5, 141, 11);
    SumStep(e, 6, 11, 165);
    SumStep(e, 7, 165, 242);
    SumStep(e, 8, 242, 205);
    SumStep(e, 9, 205, 62);
    SumStep(e, 10, 62, 115);
  }

  /** Just before entry `i` lie the pieces `k + 1` to `n` of the name, the last one first, with checksum `sum`. */
  ghost predicate PiecesBefore(w: Want, t: seq<seq<byte>>, i: nat, n: nat, k: nat, sum: byte)
    requires Slots(t) && |w.buf| == 256 && i <= |t|
    decreases i
  {
    && !w.noLfn && i > 0 && k < n
    && var e := t[i - 1];
    && IsLong(e) && e[13] == sum && Matches(w.buf, e, w.up)
    && if n == k + 1 then Llef(e[0]) && ClearLlef(e[0]) == n
       else !Llef(e[0]) && e[0] == k + 1 && PiecesBefore(w, t, i - 1, n, k + 1, sum)
  }

  /** All pieces of the name lie just before entry `i`, with checksum `sum`. */
  ghost predicate LongAt(w: Want, t: seq<seq<byte>>, i: nat, sum: byte)
    requires Slots(t) && |w.buf| == 256 && i <= |t|
  {
    exists n: nat :: PiecesBefore(w, t, i, n, 0, sum)
  }

  /** Entry `i` is the object looked for: all pieces of the name lie before it, or its short name is the one. */
  ghost predicate MatchAt(w: Want, t: seq<seq<byte>>, i: nat)
    requires Slots(t) && |w.buf| == 256 && i < |t|
  {
    && IsShort(t[i])
    && (LongAt(w, t, i, SumSfn(t[i])) || (!w.loss && t[i][..11] == w.fn))
  }

  /** The entries from `a` on are an unbroken row of long ones up to `i`. */
  ghost predicate LongRow(t: seq<seq<byte>>, a: nat, i: nat)
    requires Slots(t) && i <= |t|
  {
    forall j: nat | a <= j < i :: IsLong(t[j])
  }

  /** In the unbroken row of long entries before entry `i`, `blk` is the offset of the last one that starts a name;
      0xFFFFFFFF stands for none. */
  ghost predicate StartsAt(t: seq<seq<byte>>, blk: nat, i: nat)
    requires Slots(t) && i <= |t|
  {
    if blk == 0xFFFF_FFFF then forall j: nat | j < i && LongRow(t, j, i) :: !Llef(t[j][0])
    else
      && blk % 32 == 0 && blk / 32 < i && LongRow(t, blk / 32, i) && Llef(t[blk / 32][0])
      && forall j: nat | blk / 32 < j < i :: !Llef(t[j][0])
  }

  // ---------- One step of the search

  /** What the search knows at entry `i`: which piece of the name comes next (`0xFF`: none), the checksum, and where the
      entries of the current long name start. */
  ghost predicate Knows(w: Want, t: seq<seq<byte>>, i: nat, ord: byte, sum: byte, blk: nat)
    requires Slots(t) && |w.buf| == 256 && i <= |t|
  {
    && (ord != 0xFF ==> blk != 0xFFFF_FFFF && blk / 32 <= i && PiecesBefore(w, t, i, ord + (i - blk / 32), ord, sum))
    && (forall n: nat, k: nat, s: byte :: PiecesBefore(w, t, i, n, k, s) ==> ord == k && sum == s)
    && (if w.noLfn then blk == 0xFFFF_FFFF else StartsAt(t, blk, i))
  }

  lemma KnowsNothing(w: Want, t: seq<seq<byte>>, i: nat, sum: byte)
    requires Slots(t) && |w.buf| == 256 && i <= |t| && (i > 0 ==> !IsLong(t[i - 1]))
    ensures Knows(w, t, i, 0xFF, sum, 0xFFFF_FFFF)
  {
  }

  lemma StartsNext(t: seq<seq<byte>>, blk: nat, blk': nat, i: nat)
    requires Slots(t) && i < |t| && StartsAt(t, blk, i) && IsLong(t[i]) && 32 * i < MAX_DIR
    requires blk' == if Llef(t[i][0]) then 32 * i else blk
    ensures StartsAt(t, blk', i + 1)
  {
    if blk' == 0xFFFF_FFFF {
      forall j: nat | j < i + 1 && LongRow(t, j, i + 1)
        ensures !Llef(t[j][0])
      {
        assert j < i ==> LongRow(t, j, i);
      }
    }
  }

  lemma KnowsLong(w: Want, t: seq<seq<byte>>, i: nat, ord: byte, sum: byte, blk: nat, ord': byte, sum': byte, blk': nat)
    requires Slots(t) && |w.buf| == 256 && i < |t| && Knows(w, t, i, ord, sum, blk) && IsLong(t[i]) && 32 * i < MAX_DIR
    requires !w.noLfn
    requires var e := t[i];
      var c := ClearLlef(e[0]);
      var ord1, sum1 := if Llef(e[0]) then c else ord, if Llef(e[0]) then e[13] else sum;
      && blk' == (if Llef(e[0]) then 32 * i else blk)
      && sum' == sum1
      && ord' == if c == ord1 && sum1 == e[13] && Matches(w.buf, e, w.up) then (ord1 + 255) % 256 else 0xFF
    ensures Knows(w, t, i + 1, ord', sum', blk')
  {
    var next := i + 1;
    StartsNext(t, blk, blk', i);
    forall n: nat, k: nat, s: byte | PiecesBefore(w, t, next, n, k, s)
      ensures ord' == k && sum' == s
    {
      if n != k + 1 { assert PiecesBefore(w, t, i, n, k + 1, s); }
    }
  }

  /** Offset `blk` is where the long name of entry `i` starts, or stands for none. */
  ghost predicate Block(t: seq<seq<byte>>, blk: nat, i: nat)
    requires Slots(t) && i < |t|
  {
    blk != 0xFFFF_FFFF ==> blk % 32 == 0 && blk / 32 < i && forall j: nat | blk / 32 <= j < i :: IsLong(t[j])
  }

  /** What is known of `blk` when entry `i` has been found: with long names looked at, the last start of one in the row
      before it, and the start of this one if it has been found by its long name. */
  ghost predicate BlockOf(w: Want, t: seq<seq<byte>>, blk: nat, i: nat)
    requires Slots(t) && |w.buf| == 256 && i < |t|
  {
    && Block(t, blk, i)
    && (if w.noLfn then blk == 0xFFFF_FFFF else StartsAt(t, blk, i))
    && (LongAt(w, t, i, SumSfn(t[i])) ==>
          blk != 0xFFFF_FFFF && PiecesBefore(w, t, i, i - blk / 32, 0, SumSfn(t[i])))
  }

  lemma KnownBlock(w: Want, t: seq<seq<byte>>, i: nat, ord: byte, sum: byte, blk: nat)
    requires Slots(t) && |w.buf| == 256 && i < |t| && Knows(w, t, i, ord, sum, blk)
    ensures BlockOf(w, t, blk, i)
  {
    if LongAt(w, t, i, SumSfn(t[i])) {
      var n: nat :| PiecesBefore(w, t, i, n, 0, SumSfn(t[i]));
      assert ord == 0 && sum == SumSfn(t[i]);
    }
  }

  /** Looks at entry `i`, which is in use or deleted. `hit`: it is the one. */
  method Judge(dir: seq<byte>, lfn: array<wchar>, up: wchar -> wchar, fn: seq<byte>, noLfn: bool, loss: bool,
               ord: byte, sum: byte, blk: nat, i: nat, ghost t: seq<seq<byte>>)
      returns (hit: bool, ord': byte, sum': byte, blk': nat)
    requires lfn.Length == 256 && Slots(t) && i < |t| && dir == t[i] && dir[0] != 0 && 32 * i < MAX_DIR
    requires Knows(Want(lfn[..], up, fn, noLfn, loss), t, i, ord, sum, blk)
    ensures hit <==> MatchAt(Want(lfn[..], up, fn, noLfn, loss), t, i)
    ensures hit ==> blk' == blk && BlockOf(Want(lfn[..], up, fn, noLfn, loss), t, blk, i)
    ensures !hit ==> Knows(Want(lfn[..], up, fn, noLfn, loss), t, i + 1, ord', sum', blk')
  {
    ghost var w := Want(lfn[..], up, fn, noLfn, loss);
    hit, ord', sum', blk' := false, ord, sum, blk;
    var c, a := dir[0], dir[11] % 0x40;
    if c == 0xE5 || (a / 8 % 2 == 1 && a != 0x0F) {
      ord', blk' := 0xFF, 0xFFFF_FFFF;
      KnowsNothing(w, t, i + 1, sum');
    } else if a == 0x0F {
      if !noLfn {
        if Llef(c) {
          sum' := dir[13];
          c := ClearLlef(c);
          ord' := c;
          blk' := 32 * i;
        }
        var same := CmpLfn(lfn, dir, up);
        ord' := if c == ord' && sum' == dir[13] && same then (ord' + 255) % 256 else 0xFF;
        KnowsLong(w, t, i, ord, sum, blk, ord', sum', blk');
      }
    } else {
      KnownBlock(w, t, i, ord, sum, blk);
      var own := Checksum(dir);
      if ord == 0 && sum == own { return true, ord', sum', blk'; }
      if !loss && dir[..11] == fn { return true, ord', sum', blk'; }
      ord', blk' := 0xFF, 0xFFFF_FFFF;
      KnowsNothing(w, t, i + 1, sum');
    }
  }

  // ---------- The search

  function Wanted(dp: Dir, lfn: array<wchar>, up: wchar -> wchar): Want
    reads dp, lfn
  {
    Want(lfn[..], up, dp.fn, dp.noLfn, dp.loss)
  }

  /** The first `i` entries have been looked at: none of them starts with zero, and none is the object. */
  ghost predicate Passed(w: Want, t: seq<seq<byte>>, i: nat)
    requires Slots(t) && |w.buf| == 256 && i <= |t|
  {
    forall j: nat | j < i :: t[j][0] != 0 && !MatchAt(w, t, j)
  }

  // What the following two say is used only where `Sought` is mentioned.

  predicate Sought(x: int) {
    true
  }

  /** What the search has come to at entry `i`. */
  ghost predicate Sofar(w: Want, t: seq<seq<byte>>, i: nat, ord: byte, sum: byte, blk: nat)
    requires Slots(t) && |w.buf| == 256 && i <= |t|
  {
    forall x: int {:trigger Sought(x)} | Sought(x) :: Knows(w, t, i, ord, sum, blk) && Passed(w, t, i)
  }

  /** Entry `i` is the first one that is the object, no entry before it starts with zero, and `blk` is the start of its
      long name. */
  ghost predicate First(w: Want, t: seq<seq<byte>>, i: nat, blk: nat)
    requires Slots(t) && |w.buf| == 256 && i < |t|
  {
    forall x: int {:trigger Sought(x)} | Sought(x) :: MatchAt(w, t, i) && Passed(w, t, i) && BlockOf(w, t, blk, i)
  }

  /** `Judge`, in terms of these. */
  method Weigh(dir: seq<byte>, lfn: array<wchar>, up: wchar -> wchar, fn: seq<byte>, noLfn: bool, loss: bool,
               ord: byte, sum: byte, blk: nat, i: nat, ghost t: seq<seq<byte>>)
      returns (hit: bool, ord': byte, sum': byte, blk': nat)
    requires lfn.Length == 256 && Slots(t) && i < |t| && dir == t[i] && dir[0] != 0 && 32 * i < MAX_DIR
    requires Sofar(Want(lfn[..], up, fn, noLfn, loss), t, i, ord, sum, blk)
    ensures hit ==> blk' == blk && First(Want(lfn[..], up, fn, noLfn, loss), t, i, blk)
    ensures !hit ==> Sofar(Want(lfn[..], up, fn, noLfn, loss), t, i + 1, ord', sum', blk')
  {
    assert Sought(0);
    hit, ord', sum', blk' := Judge(dir, lfn, up, fn, noLfn, loss, ord, sum, blk, i, t);
  }

  /** What the search found. */
  ghost predicate FoundIt(dp: Dir, lfn: array<wchar>, up: wchar -> wchar, i: nat)
    requires dp.Valid() && Slots(T(dp)) && lfn.Length == 256
    reads dp, dp.fs, dp.fs.win, lfn
  {
    var w := Wanted(dp, lfn, up);
    dp.Here(i) && First(w, T(dp), i, dp.blkOfs)
  }

  /** There is nothing to be found. */
  ghost predicate NotThere(dp: Dir, lfn: array<wchar>, up: wchar -> wchar)
    requires dp.Valid() && Slots(T(dp)) && lfn.Length == 256
    reads dp, dp.fs, dp.fs.win, lfn
  {
    forall j: nat | dp.Has(j) :: !MatchAt(Wanted(dp, lfn, up), T(dp), j)
  }

  /** Entry `i` has been reached without finding the name, and nothing has changed since `d` and `ch`. */
  ghost predicate Finding(dp: Dir, lfn: array<wchar>, up: wchar -> wchar, i: nat, ord: byte, sum: byte, d: seq<Sector>,
                          ch: seq<nat>)
    reads dp, dp.fs, dp.fs.win, lfn
  {
    && dp.Valid() && dp.Same(d, ch) && Slots(T(dp)) && dp.Here(i) && lfn.Length == 256
    && var w := Wanted(dp, lfn, up);
    Sofar(w, T(dp), i, ord, sum, dp.blkOfs)
  }

  /** Moves on from entry `i`, which is not the one. */
  method FindNext(dp: Dir, lfn: array<wchar>, up: wchar -> wchar, ghost i: nat, ghost ord: byte, ghost sum: byte,
                  ghost d: seq<Sector>, ghost ch: seq<nat>)
      returns (res: FResult)
    requires dp.Valid() && dp.Same(d, ch) && Slots(T(dp)) && dp.Here(i) && lfn.Length == 256
    requires Sofar(Wanted(dp, lfn, up), T(dp), i + 1, ord, sum, dp.blkOfs)
    modifies dp.fs`disk, dp.fs`wflag, dp.fs`winsect, dp.fs.win, dp.fs`freeClst, dp.fs`lastClst
    modifies dp`dptr, dp`clust, dp`sect, dp`chain
    ensures dp.Valid() && dp.Same(d, ch) && lfn[..] == old(lfn[..]) && Slots(T(dp))
    ensures res in {Ok, NoFile, DiskErr} && (res == DiskErr ==> !dp.fs.reliable)
    ensures res == Ok ==> Finding(dp, lfn, up, i + 1, ord, sum, d, ch)
    ensures res == NoFile ==> NotThere(dp, lfn, up)
    ensures unchanged(dp.fs`freeClst, dp.fs`lastClst)
  {
    TabAt(dp.fs.g, Fat(dp.fs.g, d), dp.sclust, ch, i / 16);
    res := dp.Next(false, i);
    if res == NoFile { assert Sought(0); }
  }

  /** Looks at entry `i`, which is `dir`, and moves on unless it is the one. */
  method FindHere(dp: Dir, dir: seq<byte>, lfn: array<wchar>, up: wchar -> wchar, ord: byte, sum: byte, ghost i: nat,
                  ghost d: seq<Sector>, ghost ch: seq<nat>)
      returns (res: FResult, hit: bool, ord': byte, sum': byte)
    requires Finding(dp, lfn, up, i, ord, sum, d, ch) && dir == T(dp)[i] && |dir| == 32 && dir[0] != 0
    modifies dp.fs`disk, dp.fs`wflag, dp.fs`winsect, dp.fs.win, dp.fs`freeClst, dp.fs`lastClst
    modifies dp`dptr, dp`clust, dp`sect, dp`chain, dp`blkOfs
    ensures dp.Valid() && dp.Same(d, ch) && lfn[..] == old(lfn[..]) && Slots(T(dp))
    ensures res in {Ok, NoFile, DiskErr} && (res == DiskErr ==> !dp.fs.reliable)
    ensures res == Ok && hit ==> FoundIt(dp, lfn, up, i)
    ensures res == Ok && !hit ==> Finding(dp, lfn, up, i + 1, ord', sum', d, ch)
    ensures res == NoFile ==> NotThere(dp, lfn, up)
    ensures unchanged(dp.fs`freeClst, dp.fs`lastClst)
  {
    var blk;
    hit, ord', sum', blk := Weigh(dir, lfn, up, dp.fn, dp.noLfn, dp.loss, ord, sum, dp.blkOfs, dp.dptr / 32, T(dp));
    if hit { return Ok, hit, ord', sum'; }
    dp.blkOfs := blk;
    res := FindNext(dp, lfn, up, i, ord', sum', d, ch);
  }

  /** None of the first `i` entries starts with zero. */
  ghost predicate NoZero(t: seq<seq<byte>>, i: nat)
    requires Slots(t) && i <= |t|
  {
    forall j: nat | j < i :: t[j][0] != 0
  }

  /** There is nothing to be found before an entry that starts with zero. */
  ghost predicate NotBefore(dp: Dir, lfn: array<wchar>, up: wchar -> wchar)
    requires dp.Valid() && Slots(T(dp)) && lfn.Length == 256
    reads dp, dp.fs, dp.fs.win, lfn
  {
    forall j: nat | dp.Has(j) && NoZero(T(dp), j + 1) :: !MatchAt(Wanted(dp, lfn, up), T(dp), j)
  }

  /** The search may stop at an entry that starts with zero. */
  lemma StopsRightly(w: Want, t: seq<seq<byte>>, n: nat)
    requires Slots(t) && |w.buf| == 256 && n <= |t| && ZeroEnds(t)
    requires forall j: nat | j < n && NoZero(t, j + 1) :: !MatchAt(w, t, j)
    ensures forall j: nat | j < n :: !MatchAt(w, t, j)
  {
    forall j: nat | j < n && !NoZero(t, j + 1)
      ensures !MatchAt(w, t, j)
    {
      var k: nat :| k < j + 1 && t[k][0] == 0;
      assert Unused(t[j]);
    }
  }

  /** One round of the loop: looks at entry `i`, and moves on unless it is the one. */
  method FindAt(dp: Dir, lfn: array<wchar>, up: wchar -> wchar, ord: byte, sum: byte, ghost i: nat,
                ghost d: seq<Sector>, ghost ch: seq<nat>)
      returns (res: FResult, hit: bool, ord': byte, sum': byte)
    requires Finding(dp, lfn, up, i, ord, sum, d, ch)
    modifies dp.fs`disk, dp.fs`wflag, dp.fs`winsect, dp.fs.win, dp.fs`freeClst, dp.fs`lastClst
    modifies dp`dptr, dp`clust, dp`sect, dp`chain, dp`blkOfs
    ensures dp.Valid() && dp.Same(d, ch) && lfn[..] == old(lfn[..]) && Slots(T(dp))
    ensures res in {Ok, NoFile, DiskErr} && (res == DiskErr ==> !dp.fs.reliable)
    ensures res == Ok && hit ==> FoundIt(dp, lfn, up, i)
    ensures res == Ok && !hit ==> Finding(dp, lfn, up, i + 1, ord', sum', d, ch)
    ensures res == NoFile ==> NotBefore(dp, lfn, up)
    ensures unchanged(dp.fs`freeClst, dp.fs`lastClst)
  {
    hit, ord', sum' := false, ord, sum;
    var dir;
    res, dir := Load(dp, i);
    if res != Ok { return; }
    if dir[0] == 0 {
      assert Sought(0);
      return NoFile, hit, ord', sum';
    }
    res, hit, ord', sum' := FindHere(dp, dir, lfn, up, ord, sum, i, d, ch);
  }

  /** The loop of `Find`, which began at `d` with the chain `ch`. */
  method FindLoop(dp: Dir, lfn: array<wchar>, up: wchar -> wchar, ghost d: seq<Sector>, ghost ch: seq<nat>)
      returns (res: FResult, ghost i: nat)
    requires Finding(dp, lfn, up, 0, 0xFF, 0xFF, d, ch)
    modifies dp.fs`disk, dp.fs`wflag, dp.fs`winsect, dp.fs.win, dp.fs`freeClst, dp.fs`lastClst
    modifies dp`dptr, dp`clust, dp`sect, dp`chain, dp`blkOfs
    ensures dp.Valid() && dp.Same(d, ch) && lfn[..] == old(lfn[..]) && Slots(T(dp))
    ensures res in {Ok, NoFile, DiskErr} && (res == DiskErr ==> !dp.fs.reliable)
    ensures res == Ok ==> FoundIt(dp, lfn, up, i)
    ensures res == NoFile ==> NotBefore(dp, lfn, up)
    ensures unchanged(dp.fs`freeClst, dp.fs`lastClst)
  {
    var ord: byte, sum: byte := 0xFF, 0xFF;
    i := 0;
    while true
      invariant unchanged(dp.fs`freeClst, dp.fs`lastClst)
      invariant Finding(dp, lfn, up, i, ord, sum, d, ch) && lfn[..] == old(lfn[..])
      decreases 0x1_0000 - i
    {
      var hit;
      res, hit, ord, sum := FindAt(dp, lfn, up, ord, sum, i, d, ch);
      if res != Ok || hit { return; }
      i := i + 1;
    }
  }

  lemma NotThereAtAll(dp: Dir, lfn: array<wchar>, up: wchar -> wchar)
    requires dp.Valid() && Slots(T(dp)) && lfn.Length == 256 && ZeroEnds(T(dp)) && NotBefore(dp, lfn, up)
    ensures NotThere(dp, lfn, up)
  {
    forall j: nat | dp.Has(j)
      ensures !MatchAt(Wanted(dp, lfn, up), T(dp), j)
    {
      forall k: nat | k < j + 1 && NoZero(T(dp), k + 1)
        ensures !MatchAt(Wanted(dp, lfn, up), T(dp), k)
      {
        assert dp.Has(k);
      }
      StopsRightly(Wanted(dp, lfn, up), T(dp), j + 1);
    }
  }

  /** Looks for the name of the directory object. `i`: the entry it has come to. */
  method Find(dp: Dir, lfn: array<wchar>, up: wchar -> wchar) returns (res: FResult, ghost i: nat)
    requires dp.Valid() && lfn.Length == 256
    modifies dp.fs`disk, dp.fs`wflag, dp.fs`winsect, dp.fs.win, dp.fs`freeClst, dp.fs`lastClst
    modifies dp`dptr, dp`clust, dp`sect, dp`chain, dp`blkOfs
    ensures dp.Valid() && dp.Same(old(dp.fs.L()), old(dp.chain)) && lfn[..] == old(lfn[..]) && Slots(T(dp))
    ensures res in {Ok, NoFile, DiskErr, IntErr} && (res == DiskErr ==> !dp.fs.reliable)
    ensures res == IntErr ==> !dp.Has(0)
    ensures res == Ok ==> FoundIt(dp, lfn, up, i)
    ensures res == NoFile ==> NotBefore(dp, lfn, up) && (ZeroEnds(T(dp)) ==> NotThere(dp, lfn, up))
    ensures unchanged(dp.fs`freeClst, dp.fs`lastClst)
  {
    i := 0;
    EntriesAreSlots(dp.fs.g, dp.sclust, dp.fs.L(), dp.chain);
    res := dp.Sdi(0);
    if res != Ok { return; }
    dp.blkOfs := 0xFFFF_FFFF;
    KnowsNothing(Wanted(dp, lfn, up), T(dp), 0, 0xFF);
    res, i := FindLoop(dp, lfn, up, dp.fs.L(), dp.chain);
    if res == NoFile && ZeroEnds(T(dp)) { NotThereAtAll(dp, lfn, up); }
  }
}
