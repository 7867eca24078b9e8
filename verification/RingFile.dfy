/** The ring file: a first-in first-out queue of records in a file of fixed size. */
module RingFile {
  import opened Division

  type Byte = x: int | 0 <= x < 256

  const HEADER_SIZE: nat := 14
  const RECORD_SIZE: nat := 259

  /** The header of the file. */
  datatype Header = Header(max: nat, count: nat, size: nat, buffer: nat, pop: nat, push: nat)

  predicate Fits(h: Header) {
    && h.max < 0x10000 && h.count < 0x10000 && h.size < 0x10000 && h.buffer < 0x1_0000_0000
    && h.pop < 0x10000 && h.push < 0x10000
  }

  // ---------- The header in the file

  /** A word, low byte first. */
  function Word(lo: Byte, hi: Byte): nat {
    lo + 256 * hi
  }

  /** The header that the first bytes stand for: six packed fields, low bytes first. */
  function Decode(s: seq<Byte>): Header
    requires |s| >= HEADER_SIZE
  {
    Header(Word(s[0], s[1]), Word(s[2], s[3]), Word(s[4], s[5]), Word(s[6], s[7]) + 0x10000 * Word(s[8], s[9]),
           Word(s[10], s[11]), Word(s[12], s[13]))
  }

  method ToWord(x: nat) returns (lo: Byte, hi: Byte)
    requires x < 0x10000
    ensures Word(lo, hi) == x
  {
    lo, hi := x % 256, x / 256;
  }

  method ToDword(x: nat) returns (b0: Byte, b1: Byte, b2: Byte, b3: Byte)
    requires x < 0x1_0000_0000
    ensures Word(b0, b1) + 0x10000 * Word(b2, b3) == x
  {
    b0, b1 := ToWord(x % 0x10000);
    b2, b3 := ToWord(x / 0x10000);
  }

  /** The bytes of a header. */
  method Encode(h: Header) returns (s: seq<Byte>)
    requires Fits(h)
    ensures |s| == HEADER_SIZE && Decode(s) == h
  {
    var m0, m1 := ToWord(h.max);
    var c0, c1 := ToWord(h.count);
    var s0, s1 := ToWord(h.size);
    var b0, b1, b2, b3 := ToDword(h.buffer);
    var o0, o1 := ToWord(h.pop);
    var u0, u1 := ToWord(h.push);
    s := [m0, m1, c0, c1, s0, s1, b0, b1, b2, b3, o0, o1, u0, u1];
  }

  /** Two bytes of a number, and four, the low one first. */
  function Bytes2(x: nat): seq<Byte>
    requires x < 0x10000
  {
    [x % 256, x / 256]
  }

  function Bytes4(x: nat): seq<Byte>
    requires x < 0x1_0000_0000
  {
    [x % 256, x / 256 % 256, x / 0x10000 % 256, x / 0x100_0000]
  }

  /** The fields of the header one after the other. */
  function Packed(h: Header): seq<Byte>
    requires Fits(h)
  {
    Bytes2(h.max) + Bytes2(h.count) + Bytes2(h.size) + Bytes4(h.buffer) + Bytes2(h.pop) + Bytes2(h.push)
  }

  lemma WordUnique(a: Byte, b: Byte, c: Byte, d: Byte)
    requires Word(a, b) == Word(c, d)
    ensures a == c && b == d
  {
  }

  lemma DwordUnique(x: nat, y: nat, z: nat, w: nat)
    requires x < 0x10000 && z < 0x10000 && x + 0x10000 * y == z + 0x10000 * w
    ensures x == z && y == w
  {
  }

  lemma SameFourteen(s: seq<Byte>, t: seq<Byte>)
    requires |s| == |t| == 14 && s[0] == t[0] && s[1] == t[1] && s[2] == t[2] && s[3] == t[3] && s[4] == t[4]
    requires s[5] == t[5] && s[6] == t[6] && s[7] == t[7] && s[8] == t[8] && s[9] == t[9] && s[10] == t[10]
    requires s[11] == t[11] && s[12] == t[12] && s[13] == t[13]
    ensures s == t
  {
  }

  /** No other bytes stand for the same header. */
  lemma EncodingUnique(s: seq<Byte>, t: seq<Byte>)
    requires |s| == |t| == HEADER_SIZE && Decode(s) == Decode(t)
    ensures s == t
  {
    DwordUnique(Word(s[6], s[7]), Word(s[8], s[9]), Word(t[6], t[7]), Word(t[8], t[9]));
    WordUnique(s[0], s[1], t[0], t[1]);
    WordUnique(s[2], s[3], t[2], t[3]);
    WordUnique(s[4], s[5], t[4], t[5]);
    WordUnique(s[6], s[7], t[6], t[7]);
    WordUnique(s[8], s[9], t[8], t[9]);
    WordUnique(s[10], s[11], t[10], t[11]);
    WordUnique(s[12], s[13], t[12], t[13]);
    SameFourteen(s, t);
  }

  /** The header is packed in the order in which its fields are declared. */
  lemma PackedInOrder(h: Header, s: seq<Byte>)
    requires Fits(h) && |s| == HEADER_SIZE
    ensures Decode(s) == h <==> s == Packed(h)
  {
    var t := Packed(h);
    assert |t| == HEADER_SIZE && t[6..10] == Bytes4(h.buffer) && t[10..12] == Bytes2(h.pop)
           && t[12..] == Bytes2(h.push);
    var a := h.buffer / 256;
    assert h.buffer / 0x10000 == a / 256 && h.buffer / 0x100_0000 == a / 256 / 256;
    assert Decode(t) == h;
    if Decode(s) == h { EncodingUnique(s, t); }
  }

  // The bytes of the header matter only where `Open` is mentioned.

  predicate Open(i: int) {
    true
  }

  /** The file begins with these bytes. */
  predicate Begins(f: seq<Byte>, s: seq<Byte>) {
    |s| <= |f| && forall i: nat | i < |s| :: f[i] == s[i]
  }

  /** The header in the file. */
  ghost predicate Head(f: seq<Byte>, h: Header) {
    forall i: int {:trigger Open(i)} :: Open(i) ==> |f| >= HEADER_SIZE && Decode(f) == h && Fits(h)
  }

  lemma HeadWritten(f: seq<Byte>, e: seq<Byte>, h: Header)
    requires Fits(h) && |e| == HEADER_SIZE && Decode(e) == h && Begins(f, e)
    ensures Head(f, h)
  {
  }

  lemma HeadUnique(f: seq<Byte>, h: Header, h': Header)
    requires Head(f, h) && Head(f, h')
    ensures h == h'
  {
    assert Open(0);
  }

  // ---------- Records in the file

  /** `f'` is the file `f` after `d` has been written at `off`. */
  ghost predicate Written(f: seq<Byte>, off: nat, d: seq<Byte>, f': seq<Byte>) {
    && |f'| == |f|
    && forall i: nat {:trigger f'[i]} | i < |f| :: f'[i] == if off <= i < off + |d| then d[i - off] else f[i]
  }

  function Offset(i: nat): nat {
    HEADER_SIZE + RECORD_SIZE * i
  }

  predicate Sized(f: seq<Byte>, max: nat) {
    |f| == Offset(max)
  }

  /** `r` is the record in place `i`. */
  ghost predicate IsSlot(f: seq<Byte>, i: nat, r: seq<Byte>) {
    && |r| == RECORD_SIZE && Offset(i + 1) <= |f|
    && forall k: nat {:trigger r[k]} | k < RECORD_SIZE :: r[k] == f[Offset(i) + k]
  }

  ghost function SlotOf(f: seq<Byte>, i: nat): (r: seq<Byte>)
    requires Offset(i + 1) <= |f|
  {
    assert IsSlot(f, i, f[Offset(i)..Offset(i + 1)]);
    var r :| IsSlot(f, i, r);
    r
  }

  lemma SlotIs(f: seq<Byte>, i: nat, r: seq<Byte>)
    requires IsSlot(f, i, r)
    ensures r == SlotOf(f, i)
  {
  }

  lemma SlotWritten(f: seq<Byte>, max: nat, i: nat, d: seq<Byte>, j: nat, f': seq<Byte>)
    requires Sized(f, max) && i < max && j < max && |d| == RECORD_SIZE && Written(f, Offset(i), d, f')
    ensures SlotOf(f', j) == if i == j then d else SlotOf(f, j)
  {
    SlotIs(f', j, if i == j then d else SlotOf(f, j));
  }

  lemma SlotKept(f: seq<Byte>, max: nat, j: nat, d: seq<Byte>, f': seq<Byte>)
    requires Sized(f, max) && j < max && |d| == HEADER_SIZE && Written(f, 0, d, f')
    ensures SlotOf(f', j) == SlotOf(f, j)
  {
    SlotIs(f', j, SlotOf(f, j));
  }

  // ---------- The queue in the file

  function Wrap(i: nat, max: nat): nat {
    if i < max then i else i - max
  }

  /** What holds of the header and the file, whatever has been pushed. */
  ghost predicate Shape(h: Header, f: seq<Byte>) {
    && Fits(h) && Sized(f, h.max) && h.size == RECORD_SIZE && h.buffer == RECORD_SIZE * h.max
    && h.count <= h.max && (h.pop < h.max || h.pop == h.max == 0) && Head(f, h)
  }

  /** The place of the record with the number `k` in the queue. */
  function Place(h: Header, k: nat): nat {
    Wrap(h.pop + k, h.max)
  }

  ghost predicate IsQueue(h: Header, f: seq<Byte>, q: seq<seq<Byte>>) {
    && Sized(f, h.max) && |q| == h.count
    && forall k: nat {:trigger q[k]} | k < h.count :: Place(h, k) < h.max && q[k] == SlotOf(f, Place(h, k))
  }

  /** The records from the oldest to the latest. */
  ghost function QueueOf(h: Header, f: seq<Byte>): (q: seq<seq<Byte>>)
    requires Shape(h, f)
    ensures |q| == h.count
  {
    var s := seq(h.count, k requires 0 <= k < h.count => SlotOf(f, Place(h, k)));
    assert IsQueue(h, f, s);
    var q :| IsQueue(h, f, q);
    q
  }

  lemma QueueIs(h: Header, f: seq<Byte>, q: seq<seq<Byte>>)
    requires Shape(h, f) && IsQueue(h, f, q)
    ensures q == QueueOf(h, f)
  {
    var r := QueueOf(h, f);
    assert IsQueue(h, f, r);
    assert forall k: nat | k < h.count :: q[k] == r[k];
  }

  /** The place for the next record is right behind the latest one. */
  predicate Aligned(h: Header) {
    h.max > 0 ==> Rem(h.max, h.push) == Wrap(h.pop + h.count, h.max)
  }

  /** Indices are 16 bits wide. */
  function Inc16(x: nat): nat {
    if x == 0xFFFF then 0 else x + 1
  }

  function Pushed(h: Header): Header {
    h.(push := Inc16(h.push), count := h.count + 1)
  }

  function Popped(h: Header): Header
    requires h.max > 0 && h.count > 0
  {
    h.(pop := Rem(h.max, Inc16(h.pop)), count := h.count - 1)
  }

  /** A record is written to place `i`, and then the header. */
  ghost predicate Stored(h: Header, f: seq<Byte>, i: nat, d: seq<Byte>, h': Header, f': seq<Byte>) {
    && Shape(h, f) && i < h.max == h'.max && |d| == RECORD_SIZE && Sized(f', h.max) && Head(f', h')
    && forall j: nat {:trigger SlotOf(f', j)} | j < h.max :: SlotOf(f', j) == if i == j then d else SlotOf(f, j)
  }

  lemma WritesStore(h: Header, f: seq<Byte>, i: nat, d: seq<Byte>, f1: seq<Byte>, h': Header, e: seq<Byte>,
                    f': seq<Byte>)
    requires Shape(h, f) && i < h.max == h'.max && |d| == RECORD_SIZE
    requires Written(f, Offset(i), d, f1) && |e| == HEADER_SIZE && Written(f1, 0, e, f') && Head(f', h')
    ensures Stored(h, f, i, d, h', f')
  {
    forall j: nat | j < h.max
      ensures SlotOf(f', j) == if i == j then d else SlotOf(f, j)
    {
      SlotWritten(f, h.max, i, d, j, f1);
      SlotKept(f1, h.max, j, e, f');
    }
  }

  /** A record of the queue that a push to the place behind the latest one does not touch, or the one that it brings. */
  lemma PushedAt(h: Header, f: seq<Byte>, d: seq<Byte>, i: nat, f': seq<Byte>, k: nat)
    requires k <= h.count < h.max && Stored(h, f, i, d, Pushed(h), f') && i == Place(h, h.count)
    ensures Place(h, k) < h.max && SlotOf(f', Place(h, k)) == if k < h.count then QueueOf(h, f)[k] else d
  {
    assert IsQueue(h, f, QueueOf(h, f));
  }

  /** If the place is right, a push appends the record. */
  lemma PushAppends(h: Header, f: seq<Byte>, d: seq<Byte>, f': seq<Byte>)
    requires h.count < h.max && Stored(h, f, Rem(h.max, h.push), d, Pushed(h), f') && Aligned(h)
    ensures Shape(Pushed(h), f')
    ensures QueueOf(Pushed(h), f') == QueueOf(h, f) + [d]
  {
    var i, q := Rem(h.max, h.push), QueueOf(h, f) + [d];
    forall k: nat | k <= h.count
      ensures Place(h, k) < h.max && q[k] == SlotOf(f', Place(h, k))
    {
      PushedAt(h, f, d, i, f', k);
    }
    assert forall k: nat :: Place(Pushed(h), k) == Place(h, k);
    QueueIs(Pushed(h), f', q);
  }

  /** If the place is wrong, the latest record of the queue is not the one pushed but what was left in its place. */
  lemma PushMisplaced(h: Header, f: seq<Byte>, d: seq<Byte>, f': seq<Byte>)
    requires h.count < h.max && Stored(h, f, Rem(h.max, h.push), d, Pushed(h), f') && !Aligned(h)
    ensures Shape(Pushed(h), f')
    ensures QueueOf(Pushed(h), f')[h.count] == SlotOf(f, Place(h, h.count))
  {
    var q := QueueOf(Pushed(h), f');
    assert IsQueue(Pushed(h), f', q);
    assert q[h.count] == SlotOf(f', Place(Pushed(h), h.count));
  }

  /** A push keeps the next place right exactly if the index does not wrap around, or the number of places divides
      65536. */
  lemma PushKeepsAligned(h: Header)
    requires Fits(h) && h.pop < h.max && h.count < h.max && Aligned(h)
    ensures Aligned(Pushed(h)) <==> h.push != 0xFFFF || 0x10000 % h.max == 0
  {
    RemNext(h.max, h.push);
    RemIsRemainder(h.max, 0x10000);
  }

  /** A table of 5000 records loses its place when the index wraps around. */
  lemma RetryTable(h: Header)
    requires Fits(h) && h.max == 5000 && h.pop < 5000 && h.count < 5000 && Aligned(h) && h.push == 0xFFFF
    ensures !Aligned(Pushed(h))
  {
    PushKeepsAligned(h);
  }

  /** A pop takes the oldest record out, and the next place stays right if it was. */
  lemma PopTakes(h: Header, f: seq<Byte>, d: seq<Byte>, f': seq<Byte>)
    requires 0 < h.count <= h.max && Stored(h, f, h.pop, d, Popped(h), f')
    ensures Shape(Popped(h), f')
    ensures QueueOf(Popped(h), f') == QueueOf(h, f)[1..]
    ensures Aligned(Popped(h)) <==> Aligned(h)
  {
    RemNext(h.max, h.pop);
    var q := QueueOf(h, f);
    assert IsQueue(h, f, q);
    forall k: nat | k < h.count - 1
      ensures Place(Popped(h), k) < h.max && q[1..][k] == SlotOf(f', Place(Popped(h), k))
    {
      assert q[1..][k] == q[k + 1];
      assert Place(Popped(h), k) == Place(h, k + 1) != h.pop;
    }
    QueueIs(Popped(h), f', q[1..]);
  }

  lemma OldestIs(h: Header, f: seq<Byte>, r: seq<Byte>)
    requires Shape(h, f) && h.count > 0 && IsSlot(f, h.pop, r)
    ensures r == QueueOf(h, f)[0]
  {
    SlotIs(f, h.pop, r);
    assert IsQueue(h, f, QueueOf(h, f));
    assert Place(h, 0) == h.pop;
  }

  lemma Cleared(h: Header, f: seq<Byte>)
    requires Shape(h, f) && h.count == 0
    ensures QueueOf(h, f) == []
    ensures h.pop == h.push == 0 ==> Aligned(h)
  {
  }

  lemma {:induction false} Product(a: nat, b: nat, m: nat)
    requires a <= m
    ensures a * b <= m * b
    decreases m
  {
    if a < m { Product(a, b, m - 1); }
  }

  lemma ProductFits(count: nat, size: nat)
    requires count < 0x10000 && size < 0x10000
    ensures count * size < 0x1_0000_0000
  {
    Product(count, size, 0xFFFF);
  }

  /** The header of an empty ring. */
  function Fresh(count: nat, size: nat): (h: Header)
    requires count < 0x10000 && size < 0x10000
    ensures Fits(h)
  {
    ProductFits(count, size);
    Header(count, 0, size, count * size, 0, 0)
  }

  /** The test of an existing file. */
  predicate FileFits(f: seq<Byte>, count: nat, size: nat) {
    |f| == HEADER_SIZE + count * size
  }

  /** What is created passes the test when it is opened again exactly for the record size that is written. */
  lemma ReopenKeeps(f: seq<Byte>, count: nat, size: nat)
    requires Sized(f, count)
    ensures FileFits(f, count, size) <==> count == 0 || size == RECORD_SIZE
  {
    var k := size - RECORD_SIZE;
    assert count * k == count * size - RECORD_SIZE * count;
    assert count * -k == -(count * k);
    if k > 0 { ProductAtLeast(count, k); }
    if k < 0 { ProductAtLeast(count, -k); }
  }

  ghost function Last(q: seq<seq<Byte>>): seq<Byte>
    requires q != []
  {
    q[|q| - 1]
  }

  /** Behind the header there are only zeros. */
  ghost predicate Zeros(f: seq<Byte>) {
    forall i: nat | HEADER_SIZE <= i < |f| :: f[i] == 0
  }

  class RingFile {
    /** The file on the disk, and the header in memory. */
    var file: seq<Byte>
    var header: Header
    /** How many records have been pushed since the file was created or flushed, and whether the index has lost its
        place. */
    ghost var pushes: nat
    ghost var lost: bool

    ghost predicate Valid()
      reads this
    {
      && Shape(header, file) && (!lost ==> Aligned(header))
      && (pushes < 0x10000 || (header.max > 0 && 0x10000 % header.max == 0) ==> !lost)
      && (pushes < 0x10000 ==> header.push == pushes)
    }

    ghost function Queue(): seq<seq<Byte>>
      reads this
      requires Shape(header, file)
    {
      QueueOf(header, file)
    }

    /** A file of any content is there. */
    constructor (f: seq<Byte>)
      ensures file == f
    {
      file, header, pushes, lost := f, Header(0, 0, 0, 0, 0, 0), 0, false;
    }

    /** Writes `d` at `off`, inside the file. */
    method Write(off: nat, d: seq<Byte>)
      requires off + |d| <= |file|
      modifies this`file
      ensures Written(old(file), off, d, file)
    {
      file := file[..off] + d + file[off + |d|..];
    }

    /** Reads the record at `off`. */
    method Read(off: nat) returns (d: seq<Byte>)
      requires off + RECORD_SIZE <= |file|
      ensures |d| == RECORD_SIZE && forall k: nat {:trigger d[k]} | k < RECORD_SIZE :: d[k] == file[off + k]
    {
      d := file[off..off + RECORD_SIZE];
    }

    method ReadHeader()
      requires |file| >= HEADER_SIZE
      modifies this`header
      ensures Head(file, header)
    {
      header := Decode(file);
    }

    /** Writes the header and reads it back. */
    method UpdateHeader(h: Header) returns (ghost e: seq<Byte>)
      requires Fits(h) && |file| >= HEADER_SIZE
      modifies this`file, this`header
      ensures |e| == HEADER_SIZE && Written(old(file), 0, e, file) && Head(file, h) && header == h
    {
      header := h;
      var bytes := Encode(h);
      e := bytes;
      Write(0, bytes);
      HeadWritten(file, bytes, h);
      ReadHeader();
      HeadUnique(file, header, h);
    }

    method AppendZeros()
      modifies this`file
      ensures |file| == |old(file)| + RECORD_SIZE
      ensures forall i: nat | i < |file| :: file[i] == if i < |old(file)| then old(file)[i] else 0
    {
      file := file + seq(RECORD_SIZE, i => 0);
    }

    /** A new file with as many empty records of the one size that is ever written, whatever `size` says. */
    method CreateNew(count: nat, size: nat)
      requires count < 0x10000 && size < 0x10000
      modifies this`file
      ensures Sized(file, count) && Head(file, Fresh(count, size)) && Zeros(file)
    {
      var bytes := Encode(Fresh(count, size));
      file := bytes;
      for cnt := 0 to count
        invariant Sized(file, cnt) && Begins(file, bytes) && Zeros(file)
      {
        AppendZeros();
      }
      HeadWritten(file, bytes, Fresh(count, size));
    }

    /** Opens the file. One of the right size is taken as it is, with any header; any other one is replaced. */
    method Init(count: nat, size: nat)
      requires count < 0x10000 && size < 0x10000
      modifies this
      ensures Head(file, header)
      ensures if FileFits(old(file), count, size) then file == old(file)
              else Sized(file, count) && header == Fresh(count, size) && Zeros(file)
      ensures !FileFits(old(file), count, size) && size == RECORD_SIZE ==> Valid() && Queue() == []
      ensures old(Valid()) && old(header.max) == count && size == RECORD_SIZE ==> Valid() && Queue() == old(Queue())
    {
      ghost var f, h := file, header;
      if |file| != HEADER_SIZE + count * size {
        CreateNew(count, size);
        pushes, lost := 0, false;
        ReadHeader();
        HeadUnique(file, header, Fresh(count, size));
        if size == RECORD_SIZE { Cleared(header, file); }
      } else {
        ReadHeader();
        if Shape(h, f) { HeadUnique(file, header, h); }
      }
    }

    /** Appends a record if there is room. */
    method PushBack(data: seq<Byte>) returns (ok: bool)
      requires Valid() && |data| == RECORD_SIZE
      modifies this
      ensures Valid() && header.max == old(header.max)
      ensures ok <==> |old(Queue())| < header.max
      ensures !ok ==> Queue() == old(Queue()) && pushes == old(pushes) && lost == old(lost)
      ensures ok ==> pushes == old(pushes) + 1 && |Queue()| == |old(Queue())| + 1
      ensures ok && old(Aligned(header)) ==> Queue() == old(Queue()) + [data]
      ensures ok && !old(Aligned(header)) ==> Last(Queue()) == old(SlotOf(file, Place(header, header.count)))
    {
      if (header.count + 1) * header.size > header.buffer { return false; }
      ghost var h, f := header, file;
      var offset := HEADER_SIZE + header.size * Rem(header.max, header.push);
      Write(offset, data);
      ghost var f1 := file;
      ghost var e := UpdateHeader(Pushed(header));
      WritesStore(h, f, Rem(h.max, h.push), data, f1, Pushed(h), e, file);
      if Aligned(h) {
        PushAppends(h, f, data, file);
        PushKeepsAligned(h);
      } else {
        PushMisplaced(h, f, data, file);
      }
      pushes := pushes + 1;
      lost := lost || !Aligned(header);
      ok := true;
    }

    /** Reads the oldest record. */
    method GetFront() returns (ok: bool, data: seq<Byte>)
      requires Valid()
      ensures ok <==> Queue() != []
      ensures ok ==> data == Queue()[0]
    {
      ok, data := false, [];
      if header.count == 0 { return; }
      var offset := HEADER_SIZE + header.size * header.pop;
      if offset > header.buffer { return; }
      data := Read(offset);
      OldestIs(header, file, data);
      ok := true;
    }

    /** Takes the oldest record out; its place is overwritten. */
    method PopFront() returns (ok: bool, data: seq<Byte>)
      requires Valid()
      modifies this`file, this`header
      ensures Valid() && header.max == old(header.max) && (ok <==> old(Queue()) != [])
      ensures if ok then data == old(Queue())[0] && Queue() == old(Queue())[1..] else Queue() == old(Queue())
      ensures ok ==> SlotOf(file, old(header.pop)) == seq(RECORD_SIZE, i => 0xFF)
    {
      ok, data := GetFront();
      if !ok { return; }
      ghost var h, f := header, file;
      var erased: seq<Byte> := seq(RECORD_SIZE, i => 0xFF);
      Write(HEADER_SIZE + header.size * header.pop, erased);
      ghost var f1 := file;
      ghost var e := UpdateHeader(Popped(header));
      WritesStore(h, f, h.pop, erased, f1, Popped(h), e, file);
      PopTakes(h, f, erased, file);
    }

    /** Empties the ring, which puts the indices right again. */
    method Flush()
      requires Valid()
      modifies this
      ensures Valid() && Queue() == [] && pushes == 0 && !lost && header.max == old(header.max)
    {
      ghost var e := UpdateHeader(header.(count := 0, pop := 0, push := 0));
      Cleared(header, file);
      pushes, lost := 0, false;
    }

    method Count() returns (n: nat)
      requires Valid()
      ensures n == |Queue()|
    {
      n := header.count;
    }

    method AvailableCount() returns (n: nat)
      requires Valid()
      ensures |Queue()| + n == header.max
    {
      n := header.max - header.count;
    }
  }
}
