/** What the single steps of reading and writing do to the meaning of an open file. */
module FileSteps {
  import opened Division
  import opened Volume
  import opened FatTable
  import opened ClusterChain
  import opened FileSpec

  // ---------- Transfers that bypass the window

  lemma RawIsLogical(g: Geometry, mr: bool, v: Vol, s: nat)
    requires VolInv(g, mr, v) && s < |v.disk| && s != v.winsect && !InMirror(g, s)
    ensures Logical(g, v)[s] == v.disk[s]
  {
    LogicalAt(g, v, s);
  }

  /** A sector outside the FATs and the window can be written directly. */
  lemma DirectWrite(g: Geometry, mr: bool, v: Vol, s: nat, x: Sector)
    requires VolInv(g, mr, v) && FatEnd(g) <= s < |v.disk| && s != v.winsect
    ensures var v' := v.(disk := v.disk[s := x]); VolInv(g, mr, v') && Logical(g, v') == Logical(g, v)[s := x]
  {
    var v' := v.(disk := v.disk[s := x]);
    forall k: nat | k < |v.disk|
      ensures Logical(g, v')[k] == Logical(g, v)[s := x][k]
    {
      LogicalAt(g, v, k);
      LogicalAt(g, v', k);
    }
    assert Logical(g, v') == Logical(g, v)[s := x];
  }

  /** The table depends on the first FAT only. */
  lemma FatSame(g: Geometry, d: seq<Sector>, d': seq<Sector>)
    requires Ready(g, d) && |d'| == |d| && forall s: nat | InFat1(g, s) :: d'[s] == d[s]
    ensures Fat(g, d') == Fat(g, d)
  {
    forall i: nat | i < 512 * g.fsize
      ensures FatArea(g, d')[i] == FatArea(g, d)[i]
    {
      assert InFat1(g, g.fatbase + i / 512);
      FatAreaAt(g, d, i / 512, i % 512);
      FatAreaAt(g, d', i / 512, i % 512);
    }
    assert FatArea(g, d') == FatArea(g, d);
    forall c: nat | c < g.nFatent
      ensures Fat(g, d')[c] == Fat(g, d)[c]
    {
      FatAt(g, d, c);
      FatAt(g, d', c);
    }
    assert Fat(g, d') == Fat(g, d);
  }

  lemma NonFatSame(g: Geometry, d: seq<Sector>, d': seq<Sector>, s: nat)
    requires NonFat(g, d') == NonFat(g, d) && s < |d| && !InFat1(g, s)
    ensures |d'| == |d| && d'[s] == d[s]
  {
    assert |NonFat(g, d')| == |NonFat(g, d)|;
    NonFatAt(g, d, s);
    NonFatAt(g, d', s);
  }

  // ---------- What belongs to the file

  lemma SectIsOwn(g: Geometry, t: seq<nat>, ch: seq<nat>, k: nat)
    requires Sound(g) && |t| == g.nFatent && Clusters(g, ch) && k < |Sects(g, ch)|
    ensures Own(g, t, ch, Sects(g, ch)[k])
  {
    SectAt(g, ch, k);
    assert ch[Quot(g.csize, k)] in ch;
  }

  lemma OwnIsData(g: Geometry, t: seq<nat>, ch: seq<nat>, s: nat)
    requires Sound(g) && |t| == g.nFatent && Own(g, t, ch, s)
    ensures FatEnd(g) <= s < g.volEnd && 0 < s
  {
    var c: nat :| 2 <= c < |t| && (c in ch || t[c] == 0) && InCluster(g, c, s);
    ClusterBounds(g, c);
  }

  /** What the file owns does not change while its chain takes clusters from, or gives clusters to, the free ones. */
  lemma OwnKept(g: Geometry, t: seq<nat>, t': seq<nat>, ch: seq<nat>, ch': seq<nat>, s: nat)
    requires |t'| == |t| && forall c: nat | 2 <= c < |t| :: (c in ch || t[c] == 0) == (c in ch' || t'[c] == 0)
    ensures Own(g, t', ch', s) == Own(g, t, ch, s)
  {
  }

  /** A window that moved within the first FAT, or became unusable, is not at a sector of the file. */
  lemma WinStepAway(g: Geometry, t: seq<nat>, ch: seq<nat>, w: nat, w': nat)
    requires Sound(g) && |t| == g.nFatent && !Own(g, t, ch, w) && WinStep(g, w, w')
    ensures !Own(g, t, ch, w')
  {
    if Own(g, t, ch, w') {
      OwnIsData(g, t, ch, w');
    }
  }

  // ---------- The invariant without the cursor

  /** The part of `FileBase` that is used only where `Look` is mentioned. */
  ghost predicate Backed(g: Geometry, d: seq<Sector>, w: nat, f: Fil, ch: seq<nat>)
    requires Ready(g, d) && Clusters(g, ch)
  {
    forall i: int {:trigger Look(i)} :: Look(i) ==>
    && (ch == [] <==> f.sclust == 0)
    && (ch != [] ==> ChainOk(Fat(g, d), ch) && f.sclust == ch[0])
    && (f.sect != 0 ==> Own(g, Fat(g, d), ch, f.sect) && f.sect < |d|)
    && (f.dirty ==> f.sect in Sects(g, ch))
    && (f.sect != 0 && !f.dirty ==> d[f.sect] == f.buf)
    && !Own(g, Fat(g, d), ch, w)
  }

  ghost predicate FileBase(g: Geometry, d: seq<Sector>, w: nat, f: Fil, ch: seq<nat>) {
    && Ready(g, d)
    && Clusters(g, ch)
    && f.objsize <= 512 * |Sects(g, ch)| && f.objsize < 0x1_0000_0000
    && f.fptr <= f.objsize
    && Backed(g, d, w, f, ch)
  }

  ghost predicate FileInv(g: Geometry, d: seq<Sector>, w: nat, f: Fil, ch: seq<nat>) {
    FileBase(g, d, w, f, ch) && CursorOk(g, f, ch)
  }

  /** The current cluster is that of file sector `k`. */
  ghost predicate AtSector(g: Geometry, f: Fil, ch: seq<nat>, k: nat)
    requires Sound(g)
  {
    Quot(g.csize, k) < |ch| && f.clust == ch[Quot(g.csize, k)]
  }

  /** Only the window has moved. */
  lemma BaseMoved(g: Geometry, d: seq<Sector>, w: nat, w': nat, f: Fil, ch: seq<nat>)
    requires FileBase(g, d, w, f, ch) && WinStep(g, w, w')
    ensures FileBase(g, d, w', f, ch)
  {
    assert Look(0);
    WinStepAway(g, Fat(g, d), ch, w, w');
  }

  /** After a transfer that ends within the cluster it began in, the cursor is right. */
  lemma CursorAfter(g: Geometry, f: Fil, ch: seq<nat>, p: nat, n: nat)
    requires Sound(g) && Clusters(g, ch) && AtSector(g, f, ch, p / 512) && f.fptr == p + n && 0 < n
    requires p / 512 < |Sects(g, ch)|
    requires Rem(g.csize, p / 512) + (p + n - 1) / 512 - p / 512 < g.csize
    requires f.fptr % 512 != 0 ==> (p + n) / 512 == p / 512 && f.sect == Sects(g, ch)[p / 512]
    ensures CursorOk(g, f, ch)
  {
    SectRun(g, ch, p / 512, (p + n - 1) / 512 - p / 512);
  }

  /** Off a sector boundary the cursor is at the sector to be used next. */
  lemma CursorInside(g: Geometry, f: Fil, ch: seq<nat>)
    requires Sound(g) && Clusters(g, ch) && CursorOk(g, f, ch)
    requires f.fptr % 512 != 0
    ensures AtSector(g, f, ch, f.fptr / 512)
    ensures f.fptr / 512 < |Sects(g, ch)| && f.sect == Sects(g, ch)[f.fptr / 512]
  {
    assert (f.fptr - 1) / 512 == f.fptr / 512;
  }

  /** On a sector boundary inside a cluster the current cluster is that of the next sector. */
  lemma CursorSameCluster(g: Geometry, f: Fil, ch: seq<nat>)
    requires Sound(g) && Clusters(g, ch) && CursorOk(g, f, ch)
    requires f.fptr % 512 == 0 && Rem(g.csize, f.fptr / 512) != 0
    ensures AtSector(g, f, ch, f.fptr / 512) && f.fptr / 512 < |Sects(g, ch)|
  {
    var k := f.fptr / 512;
    QuotRem(g.csize, k);
    assert (f.fptr - 1) / 512 == k - 1;
    QuotOf(g.csize, Quot(g.csize, k), Rem(g.csize, k) - 1);
    SectorsMono(g.csize, Quot(g.csize, k) + 1, |ch|);
  }

  /** On a cluster boundary the current cluster is the one before that of the next sector. */
  lemma CursorBoundary(g: Geometry, f: Fil, ch: seq<nat>)
    requires Sound(g) && Clusters(g, ch) && CursorOk(g, f, ch)
    requires f.fptr % 512 == 0 && Rem(g.csize, f.fptr / 512) == 0 && f.fptr > 0
    ensures var q := Quot(g.csize, f.fptr / 512); 1 <= q <= |ch| && f.clust == ch[q - 1]
    ensures f.fptr / 512 == Sectors(g.csize, Quot(g.csize, f.fptr / 512))
  {
    var k := f.fptr / 512;
    var q := Quot(g.csize, k);
    QuotRem(g.csize, k);
    assert (f.fptr - 1) / 512 == k - 1;
    QuotOf(g.csize, q - 1, g.csize - 1);
  }

  // ---------- Steps that keep the content

  lemma ContentSame(g: Geometry, d: seq<Sector>, f: Fil, d': seq<Sector>, f': Fil, ch: seq<nat>)
    requires Ready(g, d) && Ready(g, d') && Clusters(g, ch) && f.objsize <= 512 * |Sects(g, ch)|
    requires f'.objsize == f.objsize && |d'| == |d|
    requires forall k: nat | k < |Sects(g, ch)| ::
               Sects(g, ch)[k] < |d| && Data(d', f', Sects(g, ch)[k]) == Data(d, f, Sects(g, ch)[k])
    ensures Content(g, d', f', ch) == Content(g, d, f, ch)
  {
    forall i: nat | i < f.objsize
      ensures Content(g, d', f', ch)[i] == Content(g, d, f, ch)[i]
    {
      ContentAt(g, d, f, ch, i / 512, i % 512);
      ContentAt(g, d', f', ch, i / 512, i % 512);
    }
    assert Content(g, d', f', ch) == Content(g, d, f, ch);
  }

  /** Writing a sector of the data area leaves the table and what the file owns as they are. */
  lemma DataWriteKeepsFat(g: Geometry, d: seq<Sector>, s: nat, x: Sector)
    requires Ready(g, d) && FatEnd(g) <= s < |d|
    ensures Fat(g, d[s := x]) == Fat(g, d)
  {
    FatSame(g, d, d[s := x]);
  }

  /** Writing the buffer back. */
  lemma Flushed(g: Geometry, d: seq<Sector>, w: nat, f: Fil, ch: seq<nat>)
    requires FileBase(g, d, w, f, ch) && f.dirty
    ensures f.sect != 0 && f.sect != w && FatEnd(g) <= f.sect < g.volEnd
    ensures var d', f' := d[f.sect := f.buf], f.(dirty := false);
      && FileBase(g, d', w, f', ch)
      && Fat(g, d') == Fat(g, d)
      && Content(g, d', f', ch) == Content(g, d, f, ch)
  {
    assert Look(0);
    var k :| 0 <= k < |Sects(g, ch)| && Sects(g, ch)[k] == f.sect;
    SectAt(g, ch, k);
    var d', f' := d[f.sect := f.buf], f.(dirty := false);
    DataWriteKeepsFat(g, d, f.sect, f.buf);
    forall j: nat | j < |Sects(g, ch)|
      ensures Sects(g, ch)[j] < |d| && Data(d', f', Sects(g, ch)[j]) == Data(d, f, Sects(g, ch)[j])
    {
      SectAt(g, ch, j);
    }
    ContentSame(g, d, f, d', f', ch);
  }

  /** Taking file sector `k` into a clean buffer. */
  lemma Loaded(g: Geometry, d: seq<Sector>, w: nat, f: Fil, ch: seq<nat>, k: nat)
    requires FileBase(g, d, w, f, ch) && !f.dirty && k < |Sects(g, ch)|
    ensures Sects(g, ch)[k] < |d| && Sects(g, ch)[k] != w
    ensures var f' := f.(sect := Sects(g, ch)[k], buf := d[Sects(g, ch)[k]]);
      && FileBase(g, d, w, f', ch)
      && Content(g, d, f', ch) == Content(g, d, f, ch)
  {
    assert Look(0);
    SectAt(g, ch, k);
    SectIsOwn(g, Fat(g, d), ch, k);
    var f' := f.(sect := Sects(g, ch)[k], buf := d[Sects(g, ch)[k]]);
    forall j: nat | j < |Sects(g, ch)|
      ensures Sects(g, ch)[j] < |d| && Data(d, f', Sects(g, ch)[j]) == Data(d, f, Sects(g, ch)[j])
    {
      SectAt(g, ch, j);
    }
    ContentSame(g, d, f, d, f', ch);
  }

  // ---------- Runs of sectors

  /** `data` is what the `n` sectors from `s` on hold. */
  ghost predicate Holds(d: seq<Sector>, s: nat, n: nat, data: seq<byte>) {
    && s + n <= |d| && |data| == 512 * n
    && forall j: nat, o: nat {:trigger At(j), At(o)} :: At(j) && At(o) && j < n && o < 512 ==>
         data[512 * j + o] == d[s + j][o]
  }

  /** The sector that starts at byte `512 * j`. */
  function Chunk(data: seq<byte>, j: nat): Sector
    requires 512 * j + 512 <= |data|
  {
    data[512 * j..512 * j + 512]
  }

  /** `d'` is `d` with the first `n` sectors of `data` from sector `s` on. */
  ghost predicate RunStored(d: seq<Sector>, d': seq<Sector>, s: nat, n: nat, data: seq<byte>) {
    && |d'| == |d| && s + n <= |d| && 512 * n <= |data|
    && (forall j: nat {:trigger At(j)} :: At(j) && j < n ==> d'[s + j] == Chunk(data, j))
    && forall x: nat | x < |d| && !(s <= x < s + n) :: d'[x] == d[x]
  }

  lemma HoldsMore(d: seq<Sector>, s: nat, n: nat, data: seq<byte>, x: Sector)
    requires Holds(d, s, n, data) && s + n < |d| && d[s + n] == x
    ensures Holds(d, s, n + 1, data + x)
  {
  }

  lemma StoredMore(d0: seq<Sector>, d: seq<Sector>, s: nat, n: nat, data: seq<byte>)
    requires 512 * (n + 1) <= |data| && RunStored(d0, d, s, n, data) && s + n < |d|
    ensures RunStored(d0, d[s + n := Chunk(data, n)], s, n + 1, data)
  {
  }

  // ---------- Reading

  /** `data` is what the file has from its file pointer on. */
  ghost predicate ReadHere(c: seq<byte>, p: nat, data: seq<byte>) {
    p + |data| <= |c| && forall i: nat | i < |data| :: data[i] == c[p + i]
  }

  lemma ReadMore(c: seq<byte>, p: nat, a: seq<byte>, b: seq<byte>)
    requires ReadHere(c, p, a) && ReadHere(c, p + |a|, b)
    ensures ReadHere(c, p, a + b)
  {
  }

  /** Reading from the buffer. */
  lemma CachedRead(g: Geometry, d: seq<Sector>, w: nat, f: Fil, ch: seq<nat>, k: nat, o: nat, data: seq<byte>)
    requires FileBase(g, d, w, f, ch) && k < |Sects(g, ch)| && f.sect == Sects(g, ch)[k]
    requires f.fptr == 512 * k + o && o + |data| <= 512 && f.fptr + |data| <= f.objsize
    requires forall i: nat | i < |data| :: data[i] == f.buf[o + i]
    ensures ReadHere(Content(g, d, f, ch), f.fptr, data)
  {
    assert Look(0);
    SectAt(g, ch, k);
    forall i: nat | i < |data|
      ensures data[i] == Content(g, d, f, ch)[f.fptr + i]
    {
      ContentAt(g, d, f, ch, k, o + i);
    }
  }

  lemma DirectByte(d: seq<Sector>, f: Fil, s: nat, n: nat, raw: seq<byte>, data: seq<byte>, j: nat, o: nat)
    requires Holds(d, s, n, raw) && j < n && o < 512
    requires if f.dirty && s <= f.sect < s + n then IsSplice(raw, 512 * (f.sect - s), f.buf, data) else data == raw
    ensures |data| == 512 * n && data[512 * j + o] == Data(d, f, s + j)[o]
  {
    assert At(j) && At(o);
    assert raw[512 * j + o] == d[s + j][o];
  }

  /** Reading whole sectors past the buffer; the one that is dirty in the buffer is taken from there. */
  lemma DirectRead(g: Geometry, d: seq<Sector>, w: nat, f: Fil, ch: seq<nat>, k: nat, n: nat, raw: seq<byte>,
                   data: seq<byte>)
    requires FileBase(g, d, w, f, ch) && k < |Sects(g, ch)| && 0 < n && Rem(g.csize, k) + n <= g.csize
    requires f.fptr == 512 * k && f.fptr + 512 * n <= f.objsize
    requires Holds(d, Sects(g, ch)[k], n, raw)
    requires var s := Sects(g, ch)[k];
      if f.dirty && s <= f.sect < s + n then IsSplice(raw, 512 * (f.sect - s), f.buf, data) else data == raw
    ensures ReadHere(Content(g, d, f, ch), f.fptr, data)
  {
    var s := Sects(g, ch)[k];
    forall i: nat | i < |data|
      ensures data[i] == Content(g, d, f, ch)[f.fptr + i]
    {
      var j, o := i / 512, i % 512;
      SectRun(g, ch, k, j);
      ContentAt(g, d, f, ch, k + j, o);
      DirectByte(d, f, s, n, raw, data, j, o);
    }
  }

  // ---------- Writing

  /** `c'` is `c` with `data` stored at `p`, which may be at its end or reach beyond it. */
  ghost predicate IsWritten(c: seq<byte>, p: nat, data: seq<byte>, c': seq<byte>) {
    && p <= |c|
    && |c'| == (if p + |data| > |c| then p + |data| else |c|)
    && forall i: nat | i < |c'| :: c'[i] == if p <= i < p + |data| then data[i - p] else c[i]
  }

  lemma WrittenTwice(c: seq<byte>, p: nat, a: seq<byte>, c1: seq<byte>, b: seq<byte>, c2: seq<byte>)
    requires IsWritten(c, p, a, c1) && IsWritten(c1, p + |a|, b, c2)
    ensures IsWritten(c, p, a + b, c2)
  {
  }

  /** Byte `o` of file sector `k`, which is sector `s`, is as it must be after `data` has been stored at `p`. */
  ghost predicate ByteOk(d: seq<Sector>, f: Fil, d': seq<Sector>, f': Fil, p: nat, data: seq<byte>, s: nat, k: nat,
                         o: nat)
  {
    && s < |d| == |d'| && o < 512
    && Data(d', f', s)[o] == if p <= 512 * k + o < p + |data| then data[512 * k + o - p] else Data(d, f, s)[o]
  }

  lemma WrittenMore(c: seq<byte>, p: nat, data: seq<byte>, n: nat, m: nat, c1: seq<byte>, k: nat, c2: seq<byte>)
    requires n + k <= m <= |data| && IsWritten(c, p, data[..n], c1) && IsWritten(c1, p + n, data[n..m][..k], c2)
    ensures IsWritten(c, p, data[..n + k], c2)
  {
    WrittenTwice(c, p, data[..n], c1, data[n..m][..k], c2);
    assert data[..n] + data[n..m][..k] == data[..n + k];
  }

  lemma ContentWritten(g: Geometry, d: seq<Sector>, f: Fil, d': seq<Sector>, f': Fil, ch: seq<nat>, p: nat,
                       data: seq<byte>)
    requires Ready(g, d) && Ready(g, d') && Clusters(g, ch) && p <= f.objsize
    requires f.objsize <= 512 * |Sects(g, ch)| && f'.objsize <= 512 * |Sects(g, ch)| && |d'| == |d|
    requires f'.objsize == if p + |data| > f.objsize then p + |data| else f.objsize
    requires forall k: nat, o: nat | k < |Sects(g, ch)| && o < 512 && 512 * k + o < f'.objsize ::
               ByteOk(d, f, d', f', p, data, Sects(g, ch)[k], k, o)
    ensures IsWritten(Content(g, d, f, ch), p, data, Content(g, d', f', ch))
  {
    var c, c' := Content(g, d, f, ch), Content(g, d', f', ch);
    forall i: nat | i < |c'|
      ensures c'[i] == if p <= i < p + |data| then data[i - p] else c[i]
    {
      var k, o := i / 512, i % 512;
      ContentAt(g, d', f', ch, k, o);
      assert ByteOk(d, f, d', f', p, data, Sects(g, ch)[k], k, o);
      if !(p <= i < p + |data|) {
        ContentAt(g, d, f, ch, k, o);
      }
    }
  }

  function Max(a: nat, b: nat): nat {
    if a > b then a else b
  }

  /** Writing into the buffer. Either it holds the sector already, or the file ends here and what it holds is of no
      account. */
  lemma CachedWrite(g: Geometry, d: seq<Sector>, w: nat, f: Fil, ch: seq<nat>, k: nat, o: nat, data: seq<byte>,
                    buf: Sector)
    requires FileBase(g, d, w, f, ch) && k < |Sects(g, ch)|
    requires f.fptr == 512 * k + o && 0 < |data| && o + |data| <= 512 && f.fptr + |data| < 0x1_0000_0000
    requires f.sect == Sects(g, ch)[k] || (!f.dirty && o == 0 && f.fptr == f.objsize)
    requires IsSplice(f.buf, o, data, buf)
    ensures var p := f.fptr + |data|;
      var f' := f.(sect := Sects(g, ch)[k], buf := buf, dirty := true, fptr := p, objsize := Max(f.objsize, p));
      && FileBase(g, d, w, f', ch)
      && IsWritten(Content(g, d, f, ch), f.fptr, data, Content(g, d, f', ch))
  {
    assert Look(0);
    var ss := Sects(g, ch);
    var p := f.fptr + |data|;
    var f' := f.(sect := ss[k], buf := buf, dirty := true, fptr := p, objsize := Max(f.objsize, p));
    SectAt(g, ch, k);
    SectIsOwn(g, Fat(g, d), ch, k);
    forall j: nat, b: nat | j < |ss| && b < 512 && 512 * j + b < f'.objsize
      ensures ByteOk(d, f, d, f', f.fptr, data, Sects(g, ch)[j], j, b)
    {
      SectAt(g, ch, j);
      if ss[j] == ss[k] {
        SectsDistinct(g, Fat(g, d), ch, j, k);
        assert buf[b] == if o <= b < o + |data| then data[b - o] else f.buf[b];
      }
    }
    ContentWritten(g, d, f, d, f', ch, f.fptr, data);
  }

  lemma DirectBase(g: Geometry, d: seq<Sector>, w: nat, f: Fil, ch: seq<nat>, k: nat, n: nat, data: seq<byte>,
                   d': seq<Sector>, buf: Sector)
    requires FileBase(g, d, w, f, ch) && !f.dirty && k < |Sects(g, ch)| && 0 < n && Rem(g.csize, k) + n <= g.csize
    requires f.fptr == 512 * k && f.fptr + 512 * n < 0x1_0000_0000 && |data| == 512 * n
    requires RunStored(d, d', Sects(g, ch)[k], n, data)
    requires var s := Sects(g, ch)[k]; buf == if s <= f.sect < s + n then d'[f.sect] else f.buf
    ensures var p := f.fptr + 512 * n;
      FileBase(g, d', w, f.(buf := buf, fptr := p, objsize := Max(f.objsize, p)), ch) && Fat(g, d') == Fat(g, d)
  {
    assert Look(0);
    SectAt(g, ch, k);
    SectRun(g, ch, k, n - 1);
    FatSame(g, d, d');
  }

  lemma OutsideRun(g: Geometry, t: seq<nat>, ch: seq<nat>, k: nat, n: nat, j: nat)
    requires Sound(g) && |t| == g.nFatent && Clusters(g, ch) && (ch != [] ==> ChainOk(t, ch))
    requires k < |Sects(g, ch)| && Rem(g.csize, k) + n <= g.csize && j < |Sects(g, ch)| && !(k <= j < k + n)
    ensures var s := Sects(g, ch)[k]; !(s <= Sects(g, ch)[j] < s + n)
  {
    var ss := Sects(g, ch);
    SectAt(g, ch, j);
    if ss[k] <= ss[j] < ss[k] + n {
      SectRun(g, ch, k, ss[j] - ss[k]);
      SectsDistinct(g, t, ch, j, k + (ss[j] - ss[k]));
    }
  }

  /** One byte of one sector after a direct write. */
  lemma DirectSector(g: Geometry, d: seq<Sector>, ch: seq<nat>, k: nat, n: nat, data: seq<byte>, d': seq<Sector>,
                     j: nat, b: nat)
    requires Ready(g, d) && Clusters(g, ch) && (ch != [] ==> ChainOk(Fat(g, d), ch))
    requires k < |Sects(g, ch)| && 0 < n && Rem(g.csize, k) + n <= g.csize && j < |Sects(g, ch)| && b < 512
    requires RunStored(d, d', Sects(g, ch)[k], n, data)
    ensures Sects(g, ch)[j] < |d|
    ensures d'[Sects(g, ch)[j]][b] == if k <= j < k + n then data[512 * (j - k) + b] else d[Sects(g, ch)[j]][b]
  {
    SectAt(g, ch, j);
    if k <= j < k + n {
      SectRun(g, ch, k, j - k);
      assert At(j - k);
    } else {
      OutsideRun(g, Fat(g, d), ch, k, n, j);
    }
  }

  /** Writing whole sectors past the buffer, which is clean and follows if it holds one of them. */
  lemma DirectWritten(g: Geometry, d: seq<Sector>, w: nat, f: Fil, ch: seq<nat>, k: nat, n: nat, data: seq<byte>,
                      d': seq<Sector>, buf: Sector)
    requires FileBase(g, d, w, f, ch) && !f.dirty && k < |Sects(g, ch)| && 0 < n && Rem(g.csize, k) + n <= g.csize
    requires f.fptr == 512 * k && f.fptr + 512 * n < 0x1_0000_0000 && |data| == 512 * n
    requires RunStored(d, d', Sects(g, ch)[k], n, data)
    requires var s := Sects(g, ch)[k]; buf == if s <= f.sect < s + n then d'[f.sect] else f.buf
    ensures var p := f.fptr + 512 * n;
      var f' := f.(buf := buf, fptr := p, objsize := Max(f.objsize, p));
      && FileBase(g, d', w, f', ch)
      && Fat(g, d') == Fat(g, d)
      && IsWritten(Content(g, d, f, ch), f.fptr, data, Content(g, d', f', ch))
  {
    DirectBase(g, d, w, f, ch, k, n, data, d', buf);
    assert Look(0);
    var ss := Sects(g, ch);
    var p := f.fptr + 512 * n;
    var f' := f.(buf := buf, fptr := p, objsize := Max(f.objsize, p));
    forall j: nat, b: nat | j < |ss| && b < 512 && 512 * j + b < f'.objsize
      ensures ByteOk(d, f, d', f', f.fptr, data, Sects(g, ch)[j], j, b)
    {
      SectAt(g, ch, j);
      DirectSector(g, d, ch, k, n, data, d', j, b);
    }
    ContentWritten(g, d, f, d', f', ch, f.fptr, data);
  }

  // ---------- Changing the chain

  /** The file over a table that only its own chain and free clusters have changed in. */
  ghost predicate Kept(g: Geometry, d: seq<Sector>, d': seq<Sector>, ch: seq<nat>, ch': seq<nat>)
    requires Ready(g, d) && Ready(g, d') && Clusters(g, ch) && Clusters(g, ch')
  {
    && |d'| == |d|
    && (forall s: nat | s < |d| && !InFat1(g, s) && s !in Sects(g, ch') :: d'[s] == d[s])
    && (forall c: nat | c < g.nFatent && c !in ch && (c < 2 || Fat(g, d)[c] != 0) :: Fat(g, d')[c] == Fat(g, d)[c])
    && (forall c: nat | c in ch' :: c in ch || Fat(g, d)[c] == 0)
  }

  lemma KeptTrans(g: Geometry, d: seq<Sector>, d': seq<Sector>, d'': seq<Sector>, ch: seq<nat>, ch': seq<nat>,
                  ch'': seq<nat>)
    requires Ready(g, d) && Ready(g, d') && Ready(g, d'') && Clusters(g, ch) && Clusters(g, ch') && Clusters(g, ch'')
    requires Kept(g, d, d', ch, ch') && Kept(g, d', d'', ch', ch'') && ch' <= ch''
    ensures Kept(g, d, d'', ch, ch'')
  {
    SectsPrefix(g, ch', ch'');
    forall s: nat | s < |d| && !InFat1(g, s) && s !in Sects(g, ch'')
      ensures d''[s] == d[s]
    {
      assert s !in Sects(g, ch');
    }
    forall c: nat | c < g.nFatent && c !in ch && (c < 2 || Fat(g, d)[c] != 0)
      ensures Fat(g, d'')[c] == Fat(g, d)[c]
    {
      assert c !in ch';
    }
  }

  /** Nothing but sectors of the file has changed. */
  ghost predicate DataOnly(g: Geometry, d: seq<Sector>, d': seq<Sector>, ch: seq<nat>)
    requires Sound(g) && Clusters(g, ch)
  {
    |d'| == |d| && forall s: nat | s < |d| && s !in Sects(g, ch) :: d'[s] == d[s]
  }

  /** Writing sectors of the file keeps everything else. */
  lemma KeptByData(g: Geometry, d: seq<Sector>, d': seq<Sector>, ch: seq<nat>)
    requires Ready(g, d) && Ready(g, d') && Clusters(g, ch) && DataOnly(g, d, d', ch)
    ensures Kept(g, d, d', ch, ch) && Fat(g, d') == Fat(g, d)
  {
    forall s: nat | InFat1(g, s)
      ensures d'[s] == d[s]
    {
      if s in Sects(g, ch) {
        var k :| 0 <= k < |Sects(g, ch)| && Sects(g, ch)[k] == s;
        SectAt(g, ch, k);
      }
    }
    FatSame(g, d, d');
  }

  lemma SameOwner(t: seq<nat>, t': seq<nat>, ch: seq<nat>, c: nat, eoc: nat)
    requires 2 <= c < |t| && t[c] == 0 && eoc > 0 && (ch != [] ==> 2 <= ch[|ch| - 1] < |t|)
    requires t' == Linked(t, if ch == [] then 0 else ch[|ch| - 1], c, eoc)
    ensures forall x: nat | 2 <= x < |t| :: (x in ch || t[x] == 0) == (x in ch + [c] || t'[x] == 0)
  {
  }

  lemma ContentGrown(g: Geometry, d: seq<Sector>, f: Fil, d': seq<Sector>, f': Fil, ch: seq<nat>, ch': seq<nat>)
    requires Ready(g, d) && Ready(g, d') && Clusters(g, ch) && Clusters(g, ch') && |d'| == |d|
    requires Sects(g, ch) <= Sects(g, ch') && f.objsize <= 512 * |Sects(g, ch)|
    requires f' == f.(sclust := f'.sclust)
    requires forall s: nat | s < |d| && !InFat1(g, s) :: d'[s] == d[s]
    ensures Content(g, d', f', ch') == Content(g, d, f, ch)
  {
    forall i: nat | i < f.objsize
      ensures Content(g, d', f', ch')[i] == Content(g, d, f, ch)[i]
    {
      ContentAt(g, d, f, ch, i / 512, i % 512);
      ContentAt(g, d', f', ch', i / 512, i % 512);
      SectAt(g, ch, i / 512);
      assert Sects(g, ch)[i / 512] == Sects(g, ch')[i / 512];
    }
    assert Content(g, d', f', ch') == Content(g, d, f, ch);
  }

  /** Content and invariant survive a longer chain: nothing is read from the new cluster yet. */
  lemma Extended(g: Geometry, d: seq<Sector>, w: nat, f: Fil, ch: seq<nat>, d': seq<Sector>, w': nat, c: nat)
    requires FileBase(g, d, w, f, ch) && 2 <= c < g.nFatent && Fat(g, d)[c] == 0
    requires Ready(g, d') && NonFat(g, d') == NonFat(g, d) && WinStep(g, w, w')
    requires Fat(g, d') == Linked(Fat(g, d), if ch == [] then 0 else ch[|ch| - 1], c, Eoc(g))
    ensures Clusters(g, ch + [c]) && Sects(g, ch) <= Sects(g, ch + [c])
    ensures var f' := f.(sclust := if ch == [] then c else f.sclust);
      && FileBase(g, d', w', f', ch + [c])
      && Content(g, d', f', ch + [c]) == Content(g, d, f, ch)
      && Kept(g, d, d', ch, ch + [c])
  {
    assert Look(0);
    var f' := f.(sclust := if ch == [] then c else f.sclust);
    var ch' := ch + [c];
    var t, t' := Fat(g, d), Fat(g, d');
    EndMarkEndsChain(g);
    assert |d'| == |d| by { assert |NonFat(g, d')| == |NonFat(g, d)|; }
    if ch == [] {
      assert ChainOk(t', ch');
    } else {
      Grown(t, ch, c, Eoc(g));
    }
    SectsPrefix(g, ch, ch');
    forall s: nat | s < |d| && !InFat1(g, s)
      ensures d'[s] == d[s]
    {
      NonFatSame(g, d, d', s);
    }
    SameOwner(t, t', ch, c, Eoc(g));
    forall s: nat
      ensures Own(g, t', ch', s) == Own(g, t, ch, s)
    {
      OwnKept(g, t, t', ch, ch', s);
    }
    WinStepAway(g, t, ch, w, w');
    if f.sect != 0 {
      OwnIsData(g, t, ch, f.sect);
    }
    ContentGrown(g, d, f, d', f', ch, ch');
  }

  /** At a cluster boundary within the file, the table leads from the current cluster to the next. */
  lemma NextCluster(g: Geometry, d: seq<Sector>, w: nat, f: Fil, ch: seq<nat>)
    requires FileInv(g, d, w, f, ch) && f.fptr < f.objsize && f.fptr % 512 == 0 && Rem(g.csize, f.fptr / 512) == 0
    ensures f.fptr / 512 < |Sects(g, ch)|
    ensures var q := Quot(g.csize, f.fptr / 512);
      && q < |ch|
      && 2 <= ch[q] < g.nFatent
      && (if f.fptr == 0 then f.sclust == ch[q] else 2 <= f.clust < g.nFatent && Fat(g, d)[f.clust] == ch[q])
  {
    assert Look(0);
    SectAt(g, ch, f.fptr / 512);
    if f.fptr > 0 {
      CursorBoundary(g, f, ch);
    }
  }

  /** The current cluster plays no part in anything but the cursor. */
  lemma ClustIrrelevant(g: Geometry, d: seq<Sector>, w: nat, f: Fil, ch: seq<nat>, c: nat)
    requires FileBase(g, d, w, f, ch)
    ensures FileBase(g, d, w, f.(clust := c), ch) && Content(g, d, f.(clust := c), ch) == Content(g, d, f, ch)
  {
    forall k: nat | k < |Sects(g, ch)|
      ensures Sects(g, ch)[k] < |d|
    {
      SectAt(g, ch, k);
    }
    ContentSame(g, d, f, d, f.(clust := c), ch);
  }

  lemma FatKeptByFlush(g: Geometry, d: seq<Sector>, ch: seq<nat>, s: nat, x: Sector)
    requires Ready(g, d) && Clusters(g, ch) && s in Sects(g, ch) && s < |d|
    ensures DataOnly(g, d, d[s := x], ch) && Fat(g, d[s := x]) == Fat(g, d)
  {
    KeptByData(g, d, d[s := x], ch);
  }

  lemma RunIsOwn(g: Geometry, t: seq<nat>, ch: seq<nat>, k: nat, n: nat, x: nat)
    requires Sound(g) && |t| == g.nFatent && Clusters(g, ch) && k < |Sects(g, ch)| && Rem(g.csize, k) + n <= g.csize
    ensures Sects(g, ch)[k] <= x < Sects(g, ch)[k] + n ==> Own(g, t, ch, x)
  {
    var s := Sects(g, ch)[k];
    if s <= x < s + n {
      SectRun(g, ch, k, x - s);
      SectIsOwn(g, t, ch, k + (x - s));
    }
  }

  /** Consecutive sectors of one cluster of the file are on the volume and away from the window. */
  lemma RunBounds(g: Geometry, d: seq<Sector>, w: nat, f: Fil, ch: seq<nat>, k: nat, n: nat)
    requires FileBase(g, d, w, f, ch) && k < |Sects(g, ch)| && 0 < n && Rem(g.csize, k) + n <= g.csize
    ensures var s := Sects(g, ch)[k]; 0 < s && FatEnd(g) <= s && s + n <= g.volEnd && !(s <= w < s + n)
    ensures k + n <= |Sects(g, ch)|
  {
    assert Look(0);
    var s := Sects(g, ch)[k];
    SectAt(g, ch, k);
    SectRun(g, ch, k, n - 1);
    SectAt(g, ch, k + n - 1);
    RunIsOwn(g, Fat(g, d), ch, k, n, w);
  }

  lemma PointerIrrelevant(g: Geometry, d: seq<Sector>, f: Fil, ch: seq<nat>, p: nat)
    requires Ready(g, d) && Clusters(g, ch) && f.objsize <= 512 * |Sects(g, ch)|
    ensures Content(g, d, f.(fptr := p), ch) == Content(g, d, f, ch)
  {
    forall k: nat | k < |Sects(g, ch)|
      ensures Sects(g, ch)[k] < |d|
    {
      SectAt(g, ch, k);
    }
    ContentSame(g, d, f, d, f.(fptr := p), ch);
  }

  /** Moving the file pointer past `n` whole sectors of one cluster. */
  lemma AdvanceSectors(g: Geometry, d: seq<Sector>, w: nat, f: Fil, ch: seq<nat>, n: nat)
    requires FileBase(g, d, w, f, ch) && f.fptr % 512 == 0 && AtSector(g, f, ch, f.fptr / 512)
    requires f.fptr / 512 < |Sects(g, ch)|
    requires 0 < n && Rem(g.csize, f.fptr / 512) + n <= g.csize && f.fptr + 512 * n <= f.objsize
    ensures var f' := f.(fptr := f.fptr + 512 * n);
      FileInv(g, d, w, f', ch) && Content(g, d, f', ch) == Content(g, d, f, ch)
  {
    var f' := f.(fptr := f.fptr + 512 * n);
    var k := f.fptr / 512;
    assert (f.fptr + 512 * n - 1) / 512 == k + n - 1;
    CursorAfter(g, f', ch, f.fptr, 512 * n);
    PointerIrrelevant(g, d, f, ch, f'.fptr);
  }

  /** Moving the file pointer within, or to the end of, the sector in the buffer. */
  lemma AdvanceInside(g: Geometry, d: seq<Sector>, w: nat, f: Fil, ch: seq<nat>, n: nat)
    requires FileBase(g, d, w, f, ch) && AtSector(g, f, ch, f.fptr / 512) && f.fptr / 512 < |Sects(g, ch)|
    requires f.sect == Sects(g, ch)[f.fptr / 512]
    requires 0 < n && f.fptr % 512 + n <= 512 && f.fptr + n <= f.objsize
    ensures var f' := f.(fptr := f.fptr + n);
      FileInv(g, d, w, f', ch) && Content(g, d, f', ch) == Content(g, d, f, ch)
  {
    var f' := f.(fptr := f.fptr + n);
    assert (f.fptr + n - 1) / 512 == f.fptr / 512;
    QuotRem(g.csize, f.fptr / 512);
    CursorAfter(g, f', ch, f.fptr, n);
    PointerIrrelevant(g, d, f, ch, f'.fptr);
  }

  // ---------- Clusters for writing

  /** No entry is 1, the value that reads as an internal error. */
  ghost predicate NoBad(t: seq<nat>) {
    forall c: nat | 2 <= c < |t| :: t[c] != 1
  }

  /** At a cluster boundary: either the chain goes on, or its end has been reached. */
  lemma ClusterToWrite(g: Geometry, d: seq<Sector>, w: nat, f: Fil, ch: seq<nat>)
    requires FileInv(g, d, w, f, ch) && f.fptr % 512 == 0 && Rem(g.csize, f.fptr / 512) == 0
    ensures var q := Quot(g.csize, f.fptr / 512);
      && q <= |ch| && f.fptr / 512 == Sectors(g.csize, q)
      && (f.fptr == 0 <==> q == 0)
      && (q > 0 ==> f.clust == ch[q - 1] && 2 <= f.clust < g.nFatent)
      && (0 < q < |ch| ==> Fat(g, d)[f.clust] == ch[q])
      && (0 < q == |ch| ==> Stretchable(Fat(g, d), f.clust))
      && (q < |ch| ==> 2 <= ch[q] < g.nFatent && f.fptr / 512 < |Sects(g, ch)|)
  {
    assert Look(0);
    var q := Quot(g.csize, f.fptr / 512);
    QuotRem(g.csize, f.fptr / 512);
    if f.fptr > 0 {
      CursorBoundary(g, f, ch);
    }
    if q < |ch| {
      SectorsMono(g.csize, q, |ch|);
    }
  }

  /** After the chain has been stretched at its end, the new cluster is that of the next sector. */
  lemma StretchedHere(g: Geometry, f: Fil, ch: seq<nat>, c: nat)
    requires Sound(g) && Clusters(g, ch + [c])
    requires f.fptr / 512 == Sectors(g.csize, |ch|) && f.clust == c
    ensures AtSector(g, f, ch + [c], f.fptr / 512) && f.fptr / 512 < |Sects(g, ch + [c])|
  {
    QuotOf(g.csize, |ch|, 0);
    SectorsMono(g.csize, |ch|, |ch| + 1);
  }

  /** What is done at the end of the chain, 0 standing for a chain that is yet to begin. */
  function LastOf(ch: seq<nat>): nat {
    if ch == [] then 0 else ch[|ch| - 1]
  }

  /** `c` is the cluster after the first `q` of the chain, or has been added to it because it ends there. */
  ghost predicate ClusterFor(g: Geometry, d: seq<Sector>, d': seq<Sector>, q: nat, ch: seq<nat>, c: nat)
    requires Ready(g, d)
  {
    if q < |ch| then d' == d && c == ch[q]
    else && Ready(g, d') && NonFat(g, d') == NonFat(g, d)
         && 2 <= c < g.nFatent && Fat(g, d)[c] == 0 && LastOf(ch) < g.nFatent
         && Fat(g, d') == Linked(Fat(g, d), LastOf(ch), c, Eoc(g))
  }

  lemma LinkKeepsNoBad(t: seq<nat>, clst: nat, c: nat, eoc: nat)
    requires NoBad(t) && c < |t| && clst < |t| && c != 1 && eoc != 1
    ensures NoBad(Linked(t, clst, c, eoc))
  {
  }

  /** The file after a seek has added cluster `c` at the end of its chain, or come to it there. */
  lemma SoughtCluster(g: Geometry, d: seq<Sector>, w: nat, f: Fil, ch: seq<nat>, d': seq<Sector>, w': nat, q: nat,
                      c: nat)
    requires FileBase(g, d, w, f, ch) && WinStep(g, w, w') && q <= |ch| && ClusterFor(g, d, d', q, ch, c)
    ensures var ch' := if q < |ch| then ch else ch + [c];
      var f' := f.(clust := c, sclust := if f.sclust == 0 then c else f.sclust);
      && FileBase(g, d', w', f', ch')
      && Content(g, d', f', ch') == Content(g, d, f, ch)
      && ch <= ch' && Kept(g, d, d', ch, ch')
      && q < |ch'| && ch'[q] == c
      && (NoBad(Fat(g, d)) ==> NoBad(Fat(g, d')))
  {
    assert Look(0);
    if q < |ch| {
      BaseMoved(g, d, w, w', f, ch);
      KeptByData(g, d, d, ch);
      ClustIrrelevant(g, d, w', f, ch, c);
    } else {
      Extended(g, d, w, f, ch, d', w', c);
      var f1 := f.(sclust := if ch == [] then c else f.sclust);
      ClustIrrelevant(g, d', w', f1, ch + [c], c);
      EndMarkEndsChain(g);
      if NoBad(Fat(g, d)) { LinkKeepsNoBad(Fat(g, d), LastOf(ch), c, Eoc(g)); }
    }
  }

  /** The file after it has moved on to cluster `c`, which follows on the chain or has been added to it. */
  lemma EnteredCluster(g: Geometry, d: seq<Sector>, w: nat, f: Fil, ch: seq<nat>, d': seq<Sector>, w': nat, c: nat)
    requires FileInv(g, d, w, f, ch) && f.fptr % 512 == 0 && Rem(g.csize, f.fptr / 512) == 0 && WinStep(g, w, w')
    requires ClusterFor(g, d, d', Quot(g.csize, f.fptr / 512), ch, c)
    ensures var ch' := if Quot(g.csize, f.fptr / 512) < |ch| then ch else ch + [c];
      var f' := f.(clust := c, sclust := if f.sclust == 0 then c else f.sclust);
      && FileBase(g, d', w', f', ch')
      && Content(g, d', f', ch') == Content(g, d, f, ch)
      && ch <= ch' && Kept(g, d, d', ch, ch')
      && AtSector(g, f', ch', f.fptr / 512) && f.fptr / 512 < |Sects(g, ch')|
      && (NoBad(Fat(g, d)) ==> NoBad(Fat(g, d')))
  {
    var q := Quot(g.csize, f.fptr / 512);
    ClusterToWrite(g, d, w, f, ch);
    SoughtCluster(g, d, w, f, ch, d', w', q, c);
    if q == |ch| {
      StretchedHere(g, f.(clust := c), ch, c);
    }
  }

  /** After `n` sectors from `s` on have been written past the buffer: it follows if it holds one of them, and the file
      pointer moves past them. */
  ghost predicate RanOn(f: Fil, s: nat, n: nat, data: seq<byte>, f': Fil)
    requires |data| == 512 * n
  {
    f' == f.(buf := if s <= f.sect < s + n then Chunk(data, f.sect - s) else f.buf, fptr := f.fptr + |data|,
             objsize := Max(f.objsize, f.fptr + |data|))
  }

  lemma CursorAfterRun(g: Geometry, f: Fil, ch: seq<nat>, p: nat, n: nat)
    requires Sound(g) && Clusters(g, ch) && p % 512 == 0 && AtSector(g, f, ch, p / 512) && f.fptr == p + 512 * n
             && 0 < n
    requires p / 512 < |Sects(g, ch)| && Rem(g.csize, p / 512) + n <= g.csize
    ensures CursorOk(g, f, ch)
  {
    assert (p + 512 * n - 1) / 512 == p / 512 + n - 1;
    CursorAfter(g, f, ch, p, 512 * n);
  }

  lemma RunOnly(g: Geometry, d: seq<Sector>, d': seq<Sector>, ch: seq<nat>, k: nat, n: nat, data: seq<byte>)
    requires Sound(g) && Clusters(g, ch) && k < |Sects(g, ch)| && Rem(g.csize, k) + n <= g.csize
    requires RunStored(d, d', Sects(g, ch)[k], n, data)
    ensures DataOnly(g, d, d', ch)
  {
    var s := Sects(g, ch)[k];
    forall x: nat | x < |d| && x !in Sects(g, ch)
      ensures d'[x] == d[x]
    {
      if s <= x < s + n {
        SectRun(g, ch, k, x - s);
      }
    }
  }

  /** A direct write moves the cursor along. */
  lemma WroteSectors(g: Geometry, d: seq<Sector>, w: nat, f: Fil, ch: seq<nat>, n: nat, data: seq<byte>,
                     d': seq<Sector>, f': Fil)
    requires FileBase(g, d, w, f, ch) && !f.dirty && f.fptr % 512 == 0 && AtSector(g, f, ch, f.fptr / 512)
    requires f.fptr / 512 < |Sects(g, ch)| && 0 < n && Rem(g.csize, f.fptr / 512) + n <= g.csize
    requires |data| == 512 * n && f.fptr + |data| < 0x1_0000_0000
    requires RunStored(d, d', Sects(g, ch)[f.fptr / 512], n, data)
    requires RanOn(f, Sects(g, ch)[f.fptr / 512], n, data, f')
    ensures FileInv(g, d', w, f', ch)
    ensures IsWritten(Content(g, d, f, ch), f.fptr, data, Content(g, d', f', ch))
    ensures DataOnly(g, d, d', ch)
  {
    var k := f.fptr / 512;
    assert At(f.sect - Sects(g, ch)[k]);
    DirectWritten(g, d, w, f, ch, k, n, data, d', f'.buf);
    CursorAfterRun(g, f', ch, f.fptr, n);
    RunOnly(g, d, d', ch, k, n, data);
  }

  /** So does a write into the buffer. */
  lemma WroteBuffer(g: Geometry, d: seq<Sector>, w: nat, f: Fil, ch: seq<nat>, data: seq<byte>, buf: Sector)
    requires FileBase(g, d, w, f, ch) && AtSector(g, f, ch, f.fptr / 512) && f.fptr / 512 < |Sects(g, ch)|
    requires 0 < |data| && f.fptr % 512 + |data| <= 512 && f.fptr + |data| < 0x1_0000_0000
    requires f.sect == Sects(g, ch)[f.fptr / 512] || (!f.dirty && f.fptr % 512 == 0 && f.fptr == f.objsize)
    requires IsSplice(f.buf, f.fptr % 512, data, buf)
    ensures var p := f.fptr + |data|;
      var f' := f.(sect := Sects(g, ch)[f.fptr / 512], buf := buf, dirty := true, fptr := p,
          objsize := Max(f.objsize, p));
      && FileInv(g, d, w, f', ch)
      && IsWritten(Content(g, d, f, ch), f.fptr, data, Content(g, d, f', ch))
  {
    var k := f.fptr / 512;
    var p := f.fptr + |data|;
    var f' := f.(sect := Sects(g, ch)[k], buf := buf, dirty := true, fptr := p, objsize := Max(f.objsize, p));
    CachedWrite(g, d, w, f, ch, k, f.fptr % 512, data, buf);
    assert (p - 1) / 512 == k;
    QuotRem(g.csize, k);
    CursorAfter(g, f', ch, f.fptr, |data|);
  }

  // ---------- Seeking

  /** The cursor at `e` bytes into cluster `m`, the end of the cluster included. */
  lemma SeekCursor(g: Geometry, f: Fil, ch: seq<nat>, m: nat, e: nat)
    requires Sound(g) && Clusters(g, ch) && m < |ch| && f.clust == ch[m]
    requires 0 < e <= 512 * g.csize && f.fptr == 512 * Sectors(g.csize, m) + e
    ensures f.fptr <= 512 * |Sects(g, ch)|
    ensures Quot(g.csize, (f.fptr - 1) / 512) == m
    ensures f.fptr % 512 != 0 ==> e % 512 == f.fptr % 512 && f.fptr / 512 < |Sects(g, ch)|
                                  && Sects(g, ch)[f.fptr / 512] == Base(g, ch[m]) + e / 512
  {
    SectorsMono(g.csize, m + 1, |ch|);
    assert (f.fptr - 1) / 512 == Sectors(g.csize, m) + (e - 1) / 512;
    QuotOf(g.csize, m, (e - 1) / 512);
    if f.fptr % 512 != 0 {
      assert f.fptr / 512 == Sectors(g.csize, m) + e / 512 && e / 512 < g.csize;
      QuotOf(g.csize, m, e / 512);
      SectAt(g, ch, f.fptr / 512);
    }
  }

  /** A larger size shows more of the chain and keeps what was there. */
  lemma ContentLonger(g: Geometry, d: seq<Sector>, f: Fil, ch: seq<nat>, n: nat)
    requires Ready(g, d) && Clusters(g, ch) && f.objsize <= n <= 512 * |Sects(g, ch)|
    ensures Content(g, d, f, ch) <= Content(g, d, f.(objsize := n), ch)
  {
    var f' := f.(objsize := n);
    forall i: nat | i < f.objsize
      ensures Content(g, d, f', ch)[i] == Content(g, d, f, ch)[i]
    {
      ContentAt(g, d, f, ch, i / 512, i % 512);
      ContentAt(g, d, f', ch, i / 512, i % 512);
    }
  }

  /** The next cluster on the way of a seek. */
  lemma NextOnChain(g: Geometry, d: seq<Sector>, w: nat, f: Fil, ch: seq<nat>, m: nat)
    requires FileBase(g, d, w, f, ch) && m < |ch|
    ensures 2 <= ch[m] < g.nFatent
    ensures if m + 1 < |ch| then Fat(g, d)[ch[m]] == ch[m + 1] else Stretchable(Fat(g, d), ch[m])
  {
    assert Look(0);
  }

  /** A seek that does not go back finds its target at or after the start of the current cluster. */
  lemma TargetAhead(csize: nat, ofs: nat, m: nat)
    requires csize > 0 && ofs > 0 && Quot(csize, (ofs - 1) / 512) >= m
    ensures 512 * Sectors(csize, m) < ofs
  {
    QuotRem(csize, (ofs - 1) / 512);
    SectorsMono(csize, m, Quot(csize, (ofs - 1) / 512));
  }

  /** More than a cluster to go within the size of the file: the chain goes on. */
  lemma ChainGoesOn(csize: nat, m: nat, n: nat)
    requires Sectors(csize, m) + csize < Sectors(csize, n)
    ensures m + 1 < n
  {
    if n <= m + 1 {
      SectorsMono(csize, n, m + 1);
    }
  }

  /** The part of the cursor that does not depend on the buffer. */
  ghost predicate AtPointer(g: Geometry, f: Fil, ch: seq<nat>)
    requires Sound(g)
  {
    f.fptr > 0 ==> var q := Quot(g.csize, (f.fptr - 1) / 512); q < |ch| && f.clust == ch[q]
  }

  /** A size that is raised to the pointer. */
  lemma SizeRaised(g: Geometry, d: seq<Sector>, w: nat, f: Fil, ch: seq<nat>)
    requires FileBase(g, d, w, f.(fptr := 0), ch) && f.fptr <= 512 * |Sects(g, ch)| && f.fptr < 0x1_0000_0000
    ensures var f' := f.(objsize := Max(f.objsize, f.fptr));
      FileBase(g, d, w, f', ch) && Content(g, d, f.(fptr := 0), ch) <= Content(g, d, f', ch)
  {
    var f0, f' := f.(fptr := 0), f.(objsize := Max(f.objsize, f.fptr));
    ContentLonger(g, d, f0, ch, f'.objsize);
    PointerIrrelevant(g, d, f', ch, 0);
    assert f0.(objsize := f'.objsize) == f'.(fptr := 0);
  }

  /** At the end of a seek: pointer, size and cursor are right again. */
  lemma SeekEnded(g: Geometry, d: seq<Sector>, w: nat, f: Fil, ch: seq<nat>, m: nat, e: nat)
    requires FileBase(g, d, w, f.(fptr := 0), ch) && m < |ch| && f.clust == ch[m] && f.fptr < 0x1_0000_0000
    requires 0 < e <= 512 * g.csize && f.fptr == 512 * Sectors(g.csize, m) + e
    ensures var f' := f.(objsize := Max(f.objsize, f.fptr));
      && FileBase(g, d, w, f', ch)
      && Content(g, d, f.(fptr := 0), ch) <= Content(g, d, f', ch)
      && AtPointer(g, f', ch)
    ensures f.fptr % 512 == e % 512
    ensures e % 512 != 0 ==> f.fptr / 512 < |Sects(g, ch)| && 2 <= ch[m] < g.nFatent
                             && Sects(g, ch)[f.fptr / 512] == Base(g, ch[m]) + e / 512
    ensures e == 512 * g.csize && m + 1 == |ch| ==> f.fptr == 512 * |Sects(g, ch)|
  {
    SeekCursor(g, f, ch, m, e);
    SizeRaised(g, d, w, f, ch);
  }

  // ---------- Truncating

  /** The clusters that hold the first `p` bytes. */
  function ClustersFor(csize: nat, p: nat): nat
    requires csize > 0
  {
    if p == 0 then 0 else Quot(csize, (p - 1) / 512) + 1
  }

  /** The table after the chain has been cut to its first `q` clusters. */
  ghost function CutTo(g: Geometry, t: seq<nat>, ch: seq<nat>, q: nat): (r: seq<nat>)
    requires ChainOk(t, ch) && q <= |ch|
    ensures |r| == |t|
  {
    if q == |ch| then t
    else
      var s := ch[q..];
      assert forall i: nat | i < |s| :: s[i] == ch[q + i];
      Freed(CutAt(t, LastOf(ch[..q]), Eoc(g)), s)
  }

  lemma CutOne(g: Geometry, t: seq<nat>, ch: seq<nat>, q: nat, c: nat)
    requires Sound(g) && |t| == g.nFatent && ChainOk(t, ch) && q <= |ch| && c < |t|
    ensures (c in ch || t[c] == 0) == (c in ch[..q] || CutTo(g, t, ch, q)[c] == 0)
  {
    if q < |ch| {
      EndMarkEndsChain(g);
      var s := ch[q..];
      assert forall i: nat | i < |s| :: s[i] == ch[q + i];
      assert c in ch <==> c in ch[..q] || c in s by { assert ch == ch[..q] + s; }
      if c in ch[..q] { assert c in ch; }
      if q > 0 { assert LastOf(ch[..q]) in ch[..q]; }
      assert CutTo(g, t, ch, q)[c] == if c in s then 0 else CutAt(t, LastOf(ch[..q]), Eoc(g))[c];
    }
  }

  /** Cutting keeps the first part of the chain, and the file owns what it owned, some of it now free. */
  lemma CutChainOwn(g: Geometry, t: seq<nat>, ch: seq<nat>, q: nat)
    requires Sound(g) && |t| == g.nFatent && ChainOk(t, ch) && q <= |ch|
    ensures var t', ch' := CutTo(g, t, ch, q), ch[..q];
      && (q > 0 ==> ChainOk(t', ch'))
      && forall c: nat | 2 <= c < |t| :: (c in ch || t[c] == 0) == (c in ch' || t'[c] == 0)
  {
    EndMarkEndsChain(g);
    if q < |ch| {
      CutChain(t, ch, q, Eoc(g));
      assert LastOf(ch[..q]) == if q == 0 then 0 else ch[q - 1];
    } else {
      assert ch[..q] == ch;
    }
    forall c: nat | 2 <= c < |t|
      ensures (c in ch || t[c] == 0) == (c in ch[..q] || CutTo(g, t, ch, q)[c] == 0)
    {
      CutOne(g, t, ch, q, c);
    }
  }

  /** Cutting leaves the medium alone outside the FAT, and the file with what it owned. */
  lemma CutOwn(g: Geometry, d: seq<Sector>, ch: seq<nat>, d1: seq<Sector>, q: nat, s: nat)
    requires Ready(g, d) && Ready(g, d1) && NonFat(g, d1) == NonFat(g, d)
    requires Clusters(g, ch) && q <= |ch| && ChainOk(Fat(g, d), ch)
    requires Fat(g, d1) == CutTo(g, Fat(g, d), ch, q)
    ensures |d1| == |d|
    ensures Own(g, Fat(g, d1), ch[..q], s) == Own(g, Fat(g, d), ch, s)
    ensures q > 0 ==> ChainOk(Fat(g, d1), ch[..q])
    ensures s < |d| && !InFat1(g, s) ==> d1[s] == d[s]
  {
    assert |d1| == |d| by { assert |NonFat(g, d1)| == |NonFat(g, d)|; }
    CutChainOwn(g, Fat(g, d), ch, q);
    OwnKept(g, Fat(g, d), Fat(g, d1), ch, ch[..q], s);
    if s < |d| && !InFat1(g, s) { NonFatSame(g, d, d1, s); }
  }

  lemma CutPlace(g: Geometry, t: seq<nat>, ch: seq<nat>, q: nat)
    requires Sound(g) && |t| == g.nFatent && ChainOk(t, ch) && q <= |ch|
    ensures var p := LastOf(ch[..q]);
      && (q > 0 ==> p == ch[q - 1] && 2 <= p < g.nFatent && t[p] != 0)
      && (q == |ch| ==> t[p] >= g.nFatent && CutTo(g, t, ch, q) == t)
      && (q < |ch| ==> 2 <= ch[q] < g.nFatent && p < g.nFatent && (q > 0 ==> t[p] == ch[q]))
  {
    if 0 < q < |ch| { assert t[ch[q - 1]] == ch[q]; }
  }

  lemma CutWalk(g: Geometry, t: seq<nat>, ch: seq<nat>, q: nat)
    requires Sound(g) && |t| == g.nFatent && ChainOk(t, ch) && q < |ch|
    ensures var p := if q == 0 then 0 else ch[q - 1];
      RemoveWalk(CutAt(t, p, Eoc(g)), ch[q]) == Removed(CutTo(g, t, ch, q))
  {
    EndMarkEndsChain(g);
    CutChain(t, ch, q, Eoc(g));
    assert LastOf(ch[..q]) == if q == 0 then 0 else ch[q - 1];
    WalkFreesSuffix(CutAt(t, LastOf(ch[..q]), Eoc(g)), ch[q..]);
  }

  lemma CutPlanAt(g: Geometry, t: seq<nat>, ch: seq<nat>, q: nat)
    requires Sound(g) && |t| == g.nFatent && ChainOk(t, ch) && q <= |ch|
    ensures var p := if q == 0 then 0 else ch[q - 1];
      && (q > 0 ==> 2 <= p < g.nFatent && t[p] != 0)
      && (q == |ch| ==> t[p] >= g.nFatent && CutTo(g, t, ch, q) == t && 0 < q)
      && (q < |ch| ==> 2 <= ch[q] < g.nFatent && p < g.nFatent
                       && RemoveWalk(CutAt(t, p, Eoc(g)), ch[q]) == Removed(CutTo(g, t, ch, q))
                       && (q > 0 ==> ch[q] == t[p]))
  {
    CutPlace(g, t, ch, q);
    if q < |ch| { CutWalk(g, t, ch, q); }
  }

  lemma SomeCluster(g: Geometry, f: Fil, ch: seq<nat>)
    requires Sound(g) && Clusters(g, ch) && CursorOk(g, f, ch) && f.objsize <= 512 * |Sects(g, ch)|
             && f.fptr < f.objsize
    ensures ch != [] && ClustersFor(g.csize, f.fptr) <= |ch|
  {
  }

  lemma CutPoint(g: Geometry, d: seq<Sector>, w: nat, f: Fil, ch: seq<nat>)
    requires FileInv(g, d, w, f, ch) && f.fptr < f.objsize
    ensures ChainOk(Fat(g, d), ch)
    ensures var q := ClustersFor(g.csize, f.fptr);
      && q <= |ch|
      && (if f.fptr == 0 then q == 0 && f.sclust == ch[0] else q > 0 && f.clust == ch[q - 1])
  {
    assert Look(0);
    SomeCluster(g, f, ch);
  }

  /** What cutting finds in the table: the cluster after the current one is the first to go, and removing the chain from
      there cuts it. */
  lemma CutPlan(g: Geometry, d: seq<Sector>, w: nat, f: Fil, ch: seq<nat>)
    requires FileInv(g, d, w, f, ch) && f.fptr < f.objsize
    ensures ChainOk(Fat(g, d), ch) && ClustersFor(g.csize, f.fptr) <= |ch|
    ensures var t, q := Fat(g, d), ClustersFor(g.csize, f.fptr);
      var p := if f.fptr == 0 then 0 else f.clust;
      && (f.fptr > 0 ==> 2 <= p < g.nFatent && t[p] != 0)
      && (q == |ch| ==> t[p] >= g.nFatent && CutTo(g, t, ch, q) == t && 0 < q)
      && (q < |ch| ==> 2 <= ch[q] < g.nFatent && p < g.nFatent
                       && RemoveWalk(CutAt(t, p, Eoc(g)), ch[q]) == Removed(CutTo(g, t, ch, q))
                       && ch[q] == if f.fptr == 0 then f.sclust else t[p])
  {
    CutPoint(g, d, w, f, ch);
    CutPlanAt(g, Fat(g, d), ch, ClustersFor(g.csize, f.fptr));
  }

  lemma DirtySector(g: Geometry, d: seq<Sector>, w: nat, f: Fil, ch: seq<nat>)
    requires FileBase(g, d, w, f, ch) && f.dirty
    ensures f.sect != 0 && f.sect != w && FatEnd(g) <= f.sect < g.volEnd
  {
    assert Look(0);
    var k :| 0 <= k < |Sects(g, ch)| && Sects(g, ch)[k] == f.sect;
    SectAt(g, ch, k);
  }

  lemma TruncatedBase(g: Geometry, d: seq<Sector>, w: nat, f: Fil, ch: seq<nat>, d1: seq<Sector>, q: nat)
    requires FileBase(g, d, w, f, ch) && ChainOk(Fat(g, d), ch) && q <= |ch|
    requires Ready(g, d1) && NonFat(g, d1) == NonFat(g, d) && Fat(g, d1) == CutTo(g, Fat(g, d), ch, q)
    requires f.fptr <= 512 * |Sects(g, ch[..q])|
    requires f.dirty ==> f.sect != 0 && f.sect != w && FatEnd(g) <= f.sect < g.volEnd
    ensures |d1| == |d|
    ensures var d' := if f.dirty then d1[f.sect := f.buf] else d1;
      var f' := f.(objsize := f.fptr, sclust := if q == 0 then 0 else f.sclust, dirty := false);
      FileBase(g, d', w, f', ch[..q]) && Fat(g, d') == Fat(g, d1)
  {
    assert Look(0);
    CutOwn(g, d, ch, d1, q, w);
    CutOwn(g, d, ch, d1, q, f.sect);
    if f.sect != 0 { OwnIsData(g, Fat(g, d), ch, f.sect); }
    if f.dirty { DataWriteKeepsFat(g, d1, f.sect, f.buf); }
  }

  /** What is kept of the chain covers what is kept of the file, and the cursor stays right. */
  lemma CutCovers(g: Geometry, f: Fil, ch: seq<nat>)
    requires Sound(g) && Clusters(g, ch) && CursorOk(g, f, ch)
    requires f.fptr <= 512 * |Sects(g, ch)|
    ensures var q := ClustersFor(g.csize, f.fptr);
      && q <= |ch| && Clusters(g, ch[..q])
      && f.fptr <= 512 * |Sects(g, ch[..q])|
      && CursorOk(g, f, ch[..q])
  {
    var q := ClustersFor(g.csize, f.fptr);
    if f.fptr > 0 {
      SectsPrefix(g, ch[..q], ch);
      QuotRem(g.csize, (f.fptr - 1) / 512);
      if f.fptr % 512 != 0 {
        assert (f.fptr - 1) / 512 == f.fptr / 512;
      }
    }
  }

  lemma CutContent(g: Geometry, d: seq<Sector>, f: Fil, ch: seq<nat>, d1: seq<Sector>, d': seq<Sector>, f': Fil, q: nat)
    requires Ready(g, d) && Ready(g, d1) && Clusters(g, ch) && q <= |ch| && Clusters(g, ch[..q]) && |d1| == |d|
    requires f.objsize <= 512 * |Sects(g, ch)| && f.fptr <= f.objsize && f.fptr <= 512 * |Sects(g, ch[..q])|
    requires forall s: nat | s < |d| && !InFat1(g, s) :: d1[s] == d[s]
    requires f.dirty ==> f.sect < |d|
    requires d' == if f.dirty then d1[f.sect := f.buf] else d1
    requires f'.objsize == f.fptr && !f'.dirty
    ensures Content(g, d', f', ch[..q]) == Content(g, d, f, ch)[..f.fptr]
  {
    SectsPrefix(g, ch[..q], ch);
    forall i: nat | i < f.fptr
      ensures Content(g, d', f', ch[..q])[i] == Content(g, d, f, ch)[i]
    {
      ContentAt(g, d, f, ch, i / 512, i % 512);
      ContentAt(g, d', f', ch[..q], i / 512, i % 512);
      SectAt(g, ch, i / 512);
      assert Sects(g, ch[..q])[i / 512] == Sects(g, ch)[i / 512];
    }
  }

  /** The file after it has been cut at its pointer; `d1` is the disk with the new table, and the buffer is written
      back after that. */
  lemma TruncatedFile(g: Geometry, d: seq<Sector>, w: nat, f: Fil, ch: seq<nat>, d1: seq<Sector>, w': nat)
    requires FileInv(g, d, w, f, ch) && f.fptr < f.objsize
    requires Ready(g, d1) && NonFat(g, d1) == NonFat(g, d) && WinStep(g, w, w')
    requires ChainOk(Fat(g, d), ch) && ClustersFor(g.csize, f.fptr) <= |ch|
    requires Fat(g, d1) == CutTo(g, Fat(g, d), ch, ClustersFor(g.csize, f.fptr))
    ensures |d1| == |d| && (f.dirty ==> FatEnd(g) <= f.sect < g.volEnd && f.sect != w')
    ensures var q := ClustersFor(g.csize, f.fptr);
      var d' := if f.dirty then d1[f.sect := f.buf] else d1;
      var f' := f.(objsize := f.fptr, sclust := if q == 0 then 0 else f.sclust, dirty := false);
      && FileInv(g, d', w', f', ch[..q])
      && Fat(g, d') == Fat(g, d1)
      && Content(g, d', f', ch[..q]) == Content(g, d, f, ch)[..f.fptr]
  {
    var q := ClustersFor(g.csize, f.fptr);
    var f' := f.(objsize := f.fptr, sclust := if q == 0 then 0 else f.sclust, dirty := false);
    BaseMoved(g, d, w, w', f, ch);
    if f.dirty { DirtySector(g, d, w', f, ch); }
    CutCovers(g, f, ch);
    TruncatedBase(g, d, w', f, ch, d1, q);
    forall s: nat | s < |d| && !InFat1(g, s)
      ensures d1[s] == d[s]
    {
      CutOwn(g, d, ch, d1, q, s);
    }
    CutContent(g, d, f, ch, d1, if f.dirty then d1[f.sect := f.buf] else d1, f', q);
  }

  ghost predicate CutOnly(g: Geometry, d: seq<Sector>, d': seq<Sector>, ch: seq<nat>)
    requires Sound(g) && Clusters(g, ch)
  {
    |d'| == |d| && forall s: nat | s < |d| && !InFat1(g, s) && s !in Sects(g, ch) :: d'[s] == d[s]
  }

  /** What has to be known before the buffer is written back. */
  lemma BufferPlace(g: Geometry, d: seq<Sector>, w: nat, w': nat, f: Fil, ch: seq<nat>)
    requires FileBase(g, d, w, f, ch) && WinStep(g, w, w')
    ensures f.dirty ==> FatEnd(g) <= f.sect < g.volEnd && f.sect != w'
  {
    BaseMoved(g, d, w, w', f, ch);
    if f.dirty { DirtySector(g, d, w', f, ch); }
  }

  lemma TruncatedOnly(g: Geometry, d: seq<Sector>, w: nat, f: Fil, ch: seq<nat>, d1: seq<Sector>, d': seq<Sector>)
    requires FileBase(g, d, w, f, ch) && NonFat(g, d1) == NonFat(g, d)
    requires if f.dirty then f.sect < |d1| && d' == d1[f.sect := f.buf] else d' == d1
    ensures CutOnly(g, d, d', ch)
  {
    assert Look(0);
    assert |d1| == |d| by { assert |NonFat(g, d1)| == |NonFat(g, d)|; }
    forall s: nat | s < |d| && !InFat1(g, s) && s !in Sects(g, ch)
      ensures d'[s] == d[s]
    {
      NonFatSame(g, d, d1, s);
    }
  }

  /** Truncating a file, as a whole: `d1` is the disk with the new table, `d'` the one with the buffer written back. */
  lemma Truncated(g: Geometry, d: seq<Sector>, w: nat, f: Fil, ch: seq<nat>, d1: seq<Sector>, d': seq<Sector>, w': nat,
                  f': Fil)
    requires FileInv(g, d, w, f, ch) && f.fptr < f.objsize
    requires Ready(g, d1) && NonFat(g, d1) == NonFat(g, d) && WinStep(g, w, w')
    requires ChainOk(Fat(g, d), ch) && ClustersFor(g.csize, f.fptr) <= |ch|
    requires Fat(g, d1) == CutTo(g, Fat(g, d), ch, ClustersFor(g.csize, f.fptr))
    requires if f.dirty then f.sect < |d1| && d' == d1[f.sect := f.buf] else d' == d1
    requires f' == f.(objsize := f.fptr, sclust := if f.fptr == 0 then 0 else f.sclust, dirty := false)
    ensures var q := ClustersFor(g.csize, f.fptr);
      && FileInv(g, d', w', f', ch[..q])
      && Fat(g, d') == Fat(g, d1)
      && Content(g, d', f', ch[..q]) == Content(g, d, f, ch)[..f.fptr]
      && CutOnly(g, d, d', ch)
  {
    TruncatedFile(g, d, w, f, ch, d1, w');
    TruncatedOnly(g, d, w, f, ch, d1, d');
  }
}
