/** Long file names, cut into directory entries of 13 characters each. */
module Lfn {
  import opened Volume
  import opened FatTable

  type wchar = w: int | 0 <= w < 0x1_0000

  /** Where character `s` of an entry is. */
  function LfnOfs(s: nat): nat
    requires s < 13
  {
    if s < 5 then 1 + 2 * s else if s < 11 then 4 + 2 * s else 6 + 2 * s
  }

  /** The offsets as the table has them. */
  lemma OffsetTable(s: nat)
    requires s < 13
    ensures LfnOfs(s) == [1, 3, 5, 7, 9, 14, 16, 18, 20, 22, 24, 28, 30][s]
  {
  }

  function Char(e: seq<byte>, s: nat): wchar
    requires |e| == 32 && s < 13
  {
    var h: nat := e[LfnOfs(s) + 1];
    h * 256 + e[LfnOfs(s)]
  }

  /** A character is stored as a word. */
  lemma CharIsWord(e: seq<byte>, s: nat)
    requires |e| == 32 && s < 13
    ensures Char(e, s) == LdWord(e[LfnOfs(s)], e[LfnOfs(s) + 1])
  {
  }

  /** A long name: no unit is the terminator or the filler. */
  predicate Name(nm: seq<wchar>) {
    1 <= |nm| <= 255 && forall i | 0 <= i < |nm| :: nm[i] != 0 && nm[i] != 0xFFFF
  }

  /** The working buffer holds the name, terminated. */
  predicate Holding(buf: seq<wchar>, nm: seq<wchar>) {
    |nm| < |buf| == 256 && buf[|nm|] == 0 && forall i | 0 <= i < |nm| :: buf[i] == nm[i]
  }

  /** The unit at position `i` of a name cut into entries: after its end a terminator, then filler. */
  function Unit(nm: seq<wchar>, i: nat): wchar {
    if i < |nm| then nm[i] else if i == |nm| then 0 else 0xFFFF
  }

  /** Number of entries a name of length `n` takes. */
  function Pieces(n: nat): nat {
    (n + 12) / 13
  }

  /** `e` is piece `ord` of the name, the last piece being the start of the sequence. */
  ghost predicate IsPiece(nm: seq<wchar>, ord: nat, sum: byte, e: seq<byte>) {
    && |e| == 32
    && e[0] == (if ord == Pieces(|nm|) then ord + 0x40 else ord)
    && e[11] == 0x0F && e[12] == 0 && e[13] == sum && e[26] == 0 && e[27] == 0
    && ord >= 1
    && forall s: nat {:trigger At(s)} :: At(s) && s < 13 ==> Char(e, s) == Unit(nm, 13 * (ord - 1) + s)
  }

  /** Character `s` of the entry at `o`. */
  function CharAt(win: array<byte>, o: nat, s: nat): wchar
    requires o + 32 <= win.Length && s < 13
    reads win
  {
    var h: nat := win[o + LfnOfs(s) + 1];
    h * 256 + win[o + LfnOfs(s)]
  }

  method PutChar(win: array<byte>, o: nat, s: nat, wc: wchar)
    requires o + 32 <= win.Length && s < 13
    modifies win
    ensures CharAt(win, o, s) == wc
    ensures forall t: nat | t < 13 && t != s :: CharAt(win, o, t) == old(CharAt(win, o, t))
    ensures forall j | 0 <= j < win.Length && j != o + LfnOfs(s) && j != o + LfnOfs(s) + 1 :: win[j] == old(win[j])
  {
    var bs := StWord(wc);
    win[o + LfnOfs(s)], win[o + LfnOfs(s) + 1] := bs[0], bs[1];
  }

  /** Byte `j` holds none of the characters of the entry at `o`. */
  predicate NotChar(o: nat, j: int) {
    j < o || j in {o, o + 11, o + 12, o + 13, o + 26, o + 27} || o + 32 <= j
  }

  /** Stores the 13 characters of piece `ord`. `last`: the name ends here. */
  method PutChars(lfn: array<wchar>, win: array<byte>, o: nat, ord: nat, ghost nm: seq<wchar>) returns (last: bool)
    requires lfn.Length == 256 && Name(nm) && Holding(lfn[..], nm) && 1 <= ord <= Pieces(|nm|) && o + 32 <= win.Length
    modifies win
    ensures forall s: nat | s < 13 :: CharAt(win, o, s) == Unit(nm, 13 * (ord - 1) + s)
    ensures forall j | 0 <= j < win.Length && NotChar(o, j) :: win[j] == old(win[j])
    ensures last <==> ord == Pieces(|nm|)
  {
    var i, s, wc: wchar := 13 * (ord - 1), 0, 0;
    while true
      invariant 0 <= s < 13
      invariant if wc != 0xFFFF then i == 13 * (ord - 1) + s <= |nm| else i == |nm| + 1 <= 13 * (ord - 1) + s
      invariant (wc == 0 ==> s == 0) && lfn[..] == old(lfn[..])
      invariant forall t: nat | t < s :: CharAt(win, o, t) == Unit(nm, 13 * (ord - 1) + t)
      invariant forall j | 0 <= j < win.Length && NotChar(o, j) :: win[j] == old(win[j])
      decreases 13 - s
    {
      if wc != 0xFFFF {
        wc := lfn[i];
        i := i + 1;
      }
      PutChar(win, o, s, wc);
      if wc == 0 { wc := 0xFFFF; }
      s := s + 1;
      if s >= 13 { break; }
    }
    last := wc == 0xFFFF || lfn[i] == 0;
  }

  /** Cuts piece `ord` out of the name and stores it at `o`. */
  method PutLfn(lfn: array<wchar>, win: array<byte>, o: nat, ord: byte, sum: byte, ghost nm: seq<wchar>)
    requires lfn.Length == 256 && Name(nm) && Holding(lfn[..], nm) && 1 <= ord <= Pieces(|nm|) && o + 32 <= win.Length
    modifies win
    ensures IsPiece(nm, ord, sum, win[o..o + 32])
    ensures forall j | 0 <= j < win.Length && !(o <= j < o + 32) :: win[j] == old(win[j])
  {
    win[o + 13] := sum;
    win[o + 11] := 0x0F;
    win[o + 12] := 0;
    win[o + 26], win[o + 27] := 0, 0;
    var last := PutChars(lfn, win, o, ord, nm);
    label put:
    win[o] := if last then ord + 0x40 else ord;
    ghost var e := win[o..o + 32];
    forall t: nat | t < 13
      ensures Char(e, t) == Unit(nm, 13 * (ord - 1) + t)
    {
      assert CharAt(win, o, t) == old@put(CharAt(win, o, t));
      assert Char(e, t) == CharAt(win, o, t);
    }
  }

  // ---------- Reading entries back

  ghost predicate IsChars(e: seq<byte>, c: seq<wchar>)
    requires |e| == 32
  {
    |c| == 13 && forall s: nat {:trigger At(s)} :: At(s) && s < 13 ==> c[s] == Char(e, s)
  }

  /** The 13 characters of an entry. */
  ghost function Chars(e: seq<byte>): (c: seq<wchar>)
    requires |e| == 32
    ensures |c| == 13
  {
    assert IsChars(e, seq(13, s requires 0 <= s < 13 => Char(e, s)));
    var c :| IsChars(e, c);
    c
  }

  /** Character `s` belongs to the name or is its terminator: none before it is a terminator. */
  predicate Live(c: seq<wchar>, s: nat)
    requires s <= |c|
  {
    s == 0 || (Live(c, s - 1) && c[s - 1] != 0)
  }

  /** How many of the first `s` characters that is. */
  function LiveCount(c: seq<wchar>, s: nat): (n: nat)
    requires s <= |c|
    ensures n <= s && (Live(c, s) ==> n == s)
  {
    if s == 0 then 0 else LiveCount(c, s - 1) + (if Live(c, s - 1) then 1 else 0)
  }

  /** The field that holds the first cluster in other entries. */
  predicate NoCluster(e: seq<byte>)
    requires |e| == 32
  {
    e[26] == 0 && e[27] == 0
  }

  /** It is a word, too. */
  lemma ClusterIsWord(e: seq<byte>)
    requires |e| == 32
    ensures NoCluster(e) <==> LdWord(e[26], e[27]) == 0
  {
  }

  /** The flag that marks the entry that comes first. */
  predicate Llef(b: byte) {
    b % 0x80 >= 0x40
  }

  function ClearLlef(b: byte): byte {
    if Llef(b) then b - 0x40 else b
  }

  /** The flag is bit 6, and clearing it keeps all other bits. */
  lemma LlefIsBit(b: byte, x: bv8)
    requires b == x as int
    ensures Llef(b) <==> x & 0x40 != 0
    ensures ClearLlef(b) == (x & 0xBF) as int
  {
    assert x & 0x40 == if x % 0x80 >= 0x40 then 0x40 else 0;
    assert x & 0xBF == if x % 0x80 >= 0x40 then x - 0x40 else x;
  }

  /** Where in the name piece `n` starts; for 0 the product wraps. */
  function Offset(n: nat): (i: nat)
    ensures n < 256 ==> i < 0x1_0000_0000 && (i + 13) % 0x1_0000_0000 == 13 * n
  {
    if n == 0 then 0xFFFF_FFF3 else 13 * (n - 1)
  }

  /** The first `s` characters agree with the name from `b` on. */
  ghost predicate Agree(buf: seq<wchar>, b: nat, c: seq<wchar>, s: nat, up: wchar -> wchar)
    requires |buf| == 256 && |c| == 13
  {
    forall t: nat | t < s <= 13 ::
      if Live(c, t) then b + t < 255 && up(c[t]) == up(buf[b + t]) else c[t] == 0xFFFF
  }

  /** The entry agrees with the name in the buffer. */
  ghost predicate Matches(buf: seq<wchar>, e: seq<byte>, up: wchar -> wchar)
    requires |buf| == 256 && |e| == 32
  {
    var b, c := Offset(e[0] % 0x40), Chars(e);
    && NoCluster(e)
    && Agree(buf, b, c, 13, up)
    && (Llef(e[0]) && Live(c, 13) ==> b + 13 < 256 && buf[b + 13] == 0)
  }

  /** The loop of `CmpLfn`; `i` is where the name goes on if it has not ended, or else 256. */
  method CmpChars(lfn: array<wchar>, dir: seq<byte>, b: nat, ghost c: seq<wchar>, up: wchar -> wchar)
      returns (ok: bool, i: nat)
    requires lfn.Length == 256 && |dir| == 32 && c == Chars(dir)
    ensures ok <==> Agree(lfn[..], b, c, 13, up)
    ensures ok ==> i == if Live(c, 13) then b + 13 else 256
  {
    i := b;
    var wc: wchar, s := 1, 0;
    while s < 13
      invariant 0 <= s <= 13 && (wc != 0 <==> Live(c, s)) && (s > 0 ==> b < 255)
      invariant wc != 0 ==> i == b + s
      invariant Agree(lfn[..], b, c, s, up)
    {
      var uc := Char(dir, s);
      assert At(s) && uc == c[s];
      if wc != 0 {
        if i >= 255 || up(uc) != up(lfn[i]) { return false, i; }
        i := i + 1;
        wc := uc;
      } else {
        if uc != 0xFFFF { return false, i; }
      }
      s := s + 1;
    }
    ok := true;
    if wc == 0 { i := 256; }
  }

  /** Compares an entry with the part of the name it stands for. */
  method CmpLfn(lfn: array<wchar>, dir: seq<byte>, up: wchar -> wchar) returns (ok: bool)
    requires lfn.Length == 256 && |dir| == 32
    ensures ok <==> Matches(lfn[..], dir, up)
  {
    if !NoCluster(dir) { return false; }
    var i;
    ok, i := CmpChars(lfn, dir, Offset(dir[0] % 0x40), Chars(dir), up);
    if ok && Llef(dir[0]) && i < 256 && lfn[i] != 0 { return false; }
  }

  /** Where the name goes on after the entry. */
  ghost function EndOf(e: seq<byte>): nat
    requires |e| == 32
  {
    Offset(ClearLlef(e[0])) + LiveCount(Chars(e), 13)
  }

  /** The first `s` characters are proper, and find room in the buffer from `b` on. */
  ghost predicate Proper(b: nat, c: seq<wchar>, s: nat)
    requires |c| == 13
  {
    forall t: nat | t < s <= 13 :: if Live(c, t) then b + t < 255 else c[t] == 0xFFFF
  }

  ghost predicate Pickable(e: seq<byte>)
    requires |e| == 32
  {
    && NoCluster(e)
    && Proper(Offset(ClearLlef(e[0])), Chars(e), 13)
    && (Llef(e[0]) ==> EndOf(e) < 255)
  }

  /** The buffer after `n` characters have been stored from `b` on. */
  ghost predicate CharsIn(buf: seq<wchar>, b: nat, c: seq<wchar>, n: nat, buf': seq<wchar>)
    requires |buf| == 256 && |c| == 13 && n <= 13
  {
    |buf'| == 256 && forall i: nat | i < 256 :: buf'[i] == if b <= i < b + n then c[i - b] else buf[i]
  }

  /** The buffer after the entry has been picked up. */
  ghost predicate Picked(buf: seq<wchar>, e: seq<byte>, buf': seq<wchar>)
    requires |buf| == 256 && |e| == 32
  {
    exists m: seq<wchar> ::
      && CharsIn(buf, Offset(ClearLlef(e[0])), Chars(e), LiveCount(Chars(e), 13), m)
      && buf' == if Llef(e[0]) && EndOf(e) < 256 then m[EndOf(e) := 0] else m
  }

  /** The loop of `PickLfn`; `i` is where the name goes on. */
  method PickChars(lfn: array<wchar>, dir: seq<byte>, b: nat, ghost c: seq<wchar>) returns (ok: bool, i: nat)
    requires lfn.Length == 256 && |dir| == 32 && c == Chars(dir)
    modifies lfn
    ensures ok <==> Proper(b, c, 13)
    ensures ok ==> i == b + LiveCount(c, 13) && CharsIn(old(lfn[..]), b, c, LiveCount(c, 13), lfn[..])
  {
    i := b;
    var wc: wchar, s := 1, 0;
    while s < 13
      invariant 0 <= s <= 13 && (wc != 0 <==> Live(c, s)) && (s > 0 ==> b < 255)
      invariant i == b + LiveCount(c, s)
      invariant Proper(b, c, s)
      invariant CharsIn(old(lfn[..]), b, c, LiveCount(c, s), lfn[..])
    {
      var uc := Char(dir, s);
      assert At(s) && uc == c[s];
      if wc != 0 {
        if i >= 255 { return false, i; }
        lfn[i] := uc;
        wc := uc;
        i := i + 1;
      } else {
        if uc != 0xFFFF { return false, i; }
      }
      s := s + 1;
    }
    ok := true;
  }

  /** Picks the part of the name up that an entry holds. */
  method PickLfn(lfn: array<wchar>, dir: seq<byte>) returns (ok: bool)
    requires lfn.Length == 256 && |dir| == 32
    modifies lfn
    ensures ok <==> Pickable(dir)
    ensures ok ==> Picked(old(lfn[..]), dir, lfn[..])
  {
    if !NoCluster(dir) { return false; }
    var i;
    ok, i := PickChars(lfn, dir, Offset(ClearLlef(dir[0])), Chars(dir));
    if ok && Llef(dir[0]) {
      if i >= 255 { return false; }
      lfn[i] := 0;
    }
  }

  // ---------- A name cut into pieces

  lemma {:induction false} PieceLive(nm: seq<wchar>, b: nat, c: seq<wchar>, s: nat)
    requires Name(nm) && b <= |nm| && |c| == 13 && s <= 13
    requires forall t: nat | t < 13 :: c[t] == Unit(nm, b + t)
    ensures Live(c, s) <==> b + s <= |nm|
    ensures LiveCount(c, s) == if b + s <= |nm| + 1 then s else |nm| + 1 - b
  {
    if s > 0 { PieceLive(nm, b, c, s - 1); }
  }

  lemma PieceChars(nm: seq<wchar>, ord: nat, sum: byte, e: seq<byte>)
    requires Name(nm) && 1 <= ord <= Pieces(|nm|) && IsPiece(nm, ord, sum, e)
    ensures forall t: nat | t < 13 :: Chars(e)[t] == Unit(nm, 13 * (ord - 1) + t)
    ensures NoCluster(e) && e[0] % 0x40 == ord && ClearLlef(e[0]) == ord && (Llef(e[0]) <==> ord == Pieces(|nm|))
    ensures Offset(ord) == 13 * (ord - 1) < |nm|
  {
    forall t: nat | t < 13
      ensures Chars(e)[t] == Unit(nm, 13 * (ord - 1) + t)
    {
      assert At(t);
    }
  }

  /** Picking up the pieces works exactly for names of at most 253 units: a longer one fails at its last piece. */
  lemma PickableExactly(nm: seq<wchar>, ord: nat, sum: byte, e: seq<byte>)
    requires Name(nm) && 1 <= ord <= Pieces(|nm|) && IsPiece(nm, ord, sum, e)
    ensures Pickable(e) <==> |nm| <= 253 || ord < Pieces(|nm|)
  {
    var b := 13 * (ord - 1);
    PieceChars(nm, ord, sum, e);
    forall s: nat | s <= 13
      ensures Live(Chars(e), s) <==> b + s <= |nm|
    {
      PieceLive(nm, b, Chars(e), s);
    }
    PieceLive(nm, b, Chars(e), 13);
    if |nm| == 255 && ord == Pieces(|nm|) { assert Live(Chars(e), 8); }
  }

  /** All pieces of a name, the first one first. */
  ghost predicate AllPieces(nm: seq<wchar>, sum: byte, es: seq<seq<byte>>) {
    && |es| == Pieces(|nm|)
    && forall k: nat {:trigger es[k]} | k < |es| :: |es[k]| == 32 && IsPiece(nm, k + 1, sum, es[k])
  }

  /** The buffer while the pieces are picked up, the last one first. */
  ghost predicate PickedUp(es: seq<seq<byte>>, bufs: seq<seq<wchar>>) {
    && |bufs| == |es| + 1
    && (forall k: nat | k < |bufs| :: |bufs[k]| == 256)
    && forall k: nat {:trigger es[k]} | k < |es| :: |es[k]| == 32 && Picked(bufs[k + 1], es[k], bufs[k])
  }

  lemma PickedPiece(nm: seq<wchar>, ord: nat, sum: byte, e: seq<byte>, buf: seq<wchar>, buf': seq<wchar>)
    requires Name(nm) && |nm| <= 253 && 1 <= ord <= Pieces(|nm|) && IsPiece(nm, ord, sum, e)
    requires |buf| == 256 && Picked(buf, e, buf')
    requires ord < Pieces(|nm|) ==> buf[|nm|] == 0
    ensures |buf'| == 256 && buf'[|nm|] == 0
    ensures forall i: nat | 13 * (ord - 1) <= i < |nm| :: buf'[i] == if i < 13 * ord then nm[i] else buf[i]
  {
    PieceChars(nm, ord, sum, e);
    var b, c := 13 * (ord - 1), Chars(e);
    PieceLive(nm, b, c, 13);
    var n := LiveCount(c, 13);
    var m :| CharsIn(buf, b, c, n, m) && buf' == if Llef(e[0]) && EndOf(e) < 256 then m[EndOf(e) := 0] else m;
    forall i: nat | b <= i < |nm| && i < 13 * ord
      ensures m[i] == nm[i]
    {
      assert c[i - b] == Unit(nm, b + (i - b));
    }
    if b + 13 > |nm| { assert c[|nm| - b] == 0; }
  }

  /** `bufs[j]` is the buffer after the pieces down to `j + 1` have been picked up: the name is there from the first of
      them on. */
  lemma {:induction false} RebuiltFrom(nm: seq<wchar>, sum: byte, es: seq<seq<byte>>, bufs: seq<seq<wchar>>, j: nat)
    requires Name(nm) && |nm| <= 253 && AllPieces(nm, sum, es) && PickedUp(es, bufs) && j < |es|
    ensures bufs[j][|nm|] == 0 && forall i: nat | 13 * j <= i < |nm| :: bufs[j][i] == nm[i]
    decreases |es| - j
  {
    if j + 1 < |es| { RebuiltFrom(nm, sum, es, bufs, j + 1); }
    PieceChars(nm, j + 1, sum, es[j]);
    PieceLive(nm, 13 * j, Chars(es[j]), 13);
    PickedPiece(nm, j + 1, sum, es[j], bufs[j + 1], bufs[j]);
  }

  /** A name of up to 253 units, cut into entries and picked up from them again, is the same name. */
  lemma RoundTrip(nm: seq<wchar>, sum: byte, es: seq<seq<byte>>, bufs: seq<seq<wchar>>)
    requires Name(nm) && |nm| <= 253 && AllPieces(nm, sum, es) && PickedUp(es, bufs)
    ensures Holding(bufs[0], nm)
  {
    RebuiltFrom(nm, sum, es, bufs, 0);
  }

  /** Upper-casing makes nothing the terminator. */
  ghost predicate Casing(up: wchar -> wchar) {
    forall c: wchar :: up(c) == up(0) ==> c == 0
  }

  /** Equal up to case. */
  ghost predicate SameName(a: seq<wchar>, b: seq<wchar>, up: wchar -> wchar) {
    |a| == |b| && forall i | 0 <= i < |a| :: up(a[i]) == up(b[i])
  }

  /** Position `i` of the name cut into pieces agrees with the buffer. */
  ghost predicate UnitOk(nm: seq<wchar>, buf: seq<wchar>, i: nat, up: wchar -> wchar)
    requires |buf| == 256
  {
    i < 255 && up(Unit(nm, i)) == up(buf[i])
  }

  /** The characters of a piece up to where the name ends. */
  ghost predicate PieceIs(nm: seq<wchar>, b: nat, c: seq<wchar>) {
    |c| == 13 && (forall s: nat | s <= 13 :: Live(c, s) <==> b + s <= |nm|)
    && forall s: nat | s < 13 :: c[s] == Unit(nm, b + s)
  }

  lemma AgreeingPiece(nm: seq<wchar>, b: nat, c: seq<wchar>, buf: seq<wchar>, up: wchar -> wchar)
    requires PieceIs(nm, b, c) && |buf| == 256 && Agree(buf, b, c, 13, up)
    ensures forall i: nat | b <= i < b + 13 && i <= |nm| :: UnitOk(nm, buf, i, up)
  {
    forall i: nat | b <= i < b + 13 && i <= |nm|
      ensures UnitOk(nm, buf, i, up)
    {
      assert Live(c, i - b) && c[i - b] == Unit(nm, b + (i - b));
    }
  }

  lemma PieceAgrees(nm: seq<wchar>, b: nat, c: seq<wchar>, buf: seq<wchar>, up: wchar -> wchar)
    requires PieceIs(nm, b, c) && |buf| == 256 && forall i: nat | b <= i < b + 13 && i <= |nm| :: UnitOk(nm, buf, i, up)
    ensures Agree(buf, b, c, 13, up)
  {
    forall t: nat | t < 13
      ensures if Live(c, t) then b + t < 255 && up(c[t]) == up(buf[b + t]) else c[t] == 0xFFFF
    {
      if Live(c, t) { assert UnitOk(nm, buf, b + t, up); }
    }
  }

  /** Comparing one piece of `nm`. */
  lemma PieceMatches(nm: seq<wchar>, ord: nat, sum: byte, e: seq<byte>, buf: seq<wchar>, up: wchar -> wchar)
    requires Name(nm) && 1 <= ord <= Pieces(|nm|) && IsPiece(nm, ord, sum, e) && |buf| == 256
    ensures Matches(buf, e, up) <==>
      && (forall i: nat | 13 * (ord - 1) <= i < 13 * ord && i <= |nm| :: UnitOk(nm, buf, i, up))
      && (13 * ord == |nm| ==> buf[|nm|] == 0)
  {
    PieceChars(nm, ord, sum, e);
    var b, c := 13 * (ord - 1), Chars(e);
    forall s: nat | s <= 13
      ensures Live(c, s) <==> b + s <= |nm|
    {
      PieceLive(nm, b, c, s);
    }
    assert PieceIs(nm, b, c);
    assert Live(c, 13) <==> 13 * ord <= |nm|;
    if Agree(buf, b, c, 13, up) {
      AgreeingPiece(nm, b, c, buf, up);
    } else if forall i: nat | b <= i < 13 * ord && i <= |nm| :: UnitOk(nm, buf, i, up) {
      PieceAgrees(nm, b, c, buf, up);
    }
  }

  lemma AgreeingNames(want: seq<wchar>, nm: seq<wchar>, buf: seq<wchar>, up: wchar -> wchar)
    requires Name(want) && Name(nm) && Holding(buf, want) && Casing(up) && buf[|nm|] == 0
    requires forall i: nat | i < |nm| :: UnitOk(nm, buf, i, up)
    ensures SameName(want, nm, up)
  {
    assert |want| < |nm| ==> UnitOk(nm, buf, |want|, up);
    forall i | 0 <= i < |want|
      ensures up(want[i]) == up(nm[i])
    {
      assert UnitOk(nm, buf, i, up);
    }
  }

  /** What piece `k + 1` of the name tells. */
  ghost predicate PieceOk(nm: seq<wchar>, buf: seq<wchar>, k: nat, up: wchar -> wchar)
    requires |buf| == 256 && |nm| <= 255
  {
    && (forall i: nat | 13 * k <= i < 13 * (k + 1) && i <= |nm| :: UnitOk(nm, buf, i, up))
    && (13 * (k + 1) == |nm| ==> buf[|nm|] == 0)
  }

  lemma AllOk(nm: seq<wchar>, buf: seq<wchar>, n: nat, up: wchar -> wchar)
    requires |buf| == 256 && 1 <= |nm| <= 255 && n == Pieces(|nm|) && Casing(up)
    requires forall k: nat | k < n :: PieceOk(nm, buf, k, up)
    ensures |nm| <= 254 && buf[|nm|] == 0 && forall i: nat | i < |nm| :: UnitOk(nm, buf, i, up)
  {
    forall i: nat | i <= |nm| && i < 13 * n
      ensures UnitOk(nm, buf, i, up)
    {
      assert PieceOk(nm, buf, i / 13, up);
    }
    if |nm| % 13 == 0 { assert PieceOk(nm, buf, n - 1, up); } else { assert UnitOk(nm, buf, |nm|, up); }
  }

  /** Comparing all pieces accepts exactly the same names up to case; a stored name of 255 units is never found. */
  lemma CountdownExact(want: seq<wchar>, nm: seq<wchar>, sum: byte, es: seq<seq<byte>>, buf: seq<wchar>,
                       up: wchar -> wchar)
    requires Name(want) && Name(nm) && Holding(buf, want) && Casing(up) && AllPieces(nm, sum, es)
    ensures (forall k: nat | k < |es| :: Matches(buf, es[k], up)) <==> SameName(want, nm, up) && |nm| <= 254
  {
    forall k: nat | k < |es|
      ensures Matches(buf, es[k], up) <==> PieceOk(nm, buf, k, up)
    {
      PieceMatches(nm, k + 1, sum, es[k], buf, up);
    }
    if forall k: nat | k < |es| :: Matches(buf, es[k], up) {
      assert forall k: nat | k < |es| :: PieceOk(nm, buf, k, up);
      AllOk(nm, buf, |es|, up);
      AgreeingNames(want, nm, buf, up);
    }
    if SameName(want, nm, up) && |nm| <= 254 {
      forall k: nat | k < |es|
        ensures PieceOk(nm, buf, k, up)
      {
        assert forall i: nat | i <= |nm| :: UnitOk(nm, buf, i, up);
      }
    }
  }
}
