/** Reading, writing, seeking and truncating an open file. */
module FileIO {
  import opened Division
  import opened Volume
  import opened Window
  import opened FatTable
  import opened ClusterChain
  import opened FileSpec
  import opened FileSteps

  /** First sector of a cluster; 0 for a number that is not a cluster. */
  method ClusterToSector(g: Geometry, clst: nat) returns (s: nat)
    requires Sound(g) && clst <= INVALID
    ensures 2 <= clst < g.nFatent ==> s == Base(g, clst)
    ensures !(2 <= clst < g.nFatent) ==> s == 0
  {
    var c := Sub32(clst, 2);
    if c >= g.nFatent - 2 { return 0; }
    SectorsIsProduct(g.csize, c);
    return g.database + g.csize * c;
  }

  /** The medium's read of `n` sectors from `s` on. */
  method ReadSectors(fs: Fatfs, s: nat, n: nat) returns (ok: bool, data: seq<byte>)
    requires fs.Valid() && FatEnd(fs.g) <= s && s + n <= fs.g.volEnd && !(s <= fs.winsect < s + n)
    ensures ok ==> Holds(fs.L(), s, n, data)
    ensures fs.reliable ==> ok
  {
    data := [];
    ok := true;
    var i := 0;
    while i < n && ok
      invariant 0 <= i <= n
      invariant ok ==> Holds(fs.L(), s, i, data)
      invariant fs.reliable ==> ok
    {
      var x;
      ok, x := fs.DiskRead(s + i);
      RawIsLogical(fs.g, fs.mirrorReliable, fs.V(), s + i);
      if ok { HoldsMore(fs.L(), s, i, data, x); }
      data := data + x;
      i := i + 1;
    }
  }

  /** The medium's write of a sector outside the FATs and the window. */
  method WriteSector(fs: Fatfs, x: Sector, s: nat) returns (ok: bool)
    requires fs.Valid() && FatEnd(fs.g) <= s < fs.g.volEnd && s != fs.winsect
    modifies fs`disk
    ensures fs.Valid() && |fs.L()| == |old(fs.L())|
    ensures ok ==> fs.L() == old(fs.L())[s := x]
    ensures fs.reliable ==> ok
  {
    ghost var v := fs.V();
    ok := fs.DiskWrite(x, s);
    DirectWrite(fs.g, fs.mirrorReliable, v, s, fs.disk[s]);
    assert fs.V() == v.(disk := v.disk[s := fs.disk[s]]);
  }

  /** The medium's write of `n` sectors from `s` on. */
  method WriteSectors(fs: Fatfs, data: seq<byte>, s: nat, n: nat) returns (ok: bool)
    requires fs.Valid() && FatEnd(fs.g) <= s && s + n <= fs.g.volEnd && !(s <= fs.winsect < s + n) && |data| >= 512 * n
    modifies fs`disk
    ensures fs.Valid()
    ensures ok ==> RunStored(old(fs.L()), fs.L(), s, n, data)
    ensures fs.reliable ==> ok
  {
    ok := true;
    var i := 0;
    while i < n && ok
      invariant 0 <= i <= n && fs.Valid() && |fs.L()| == |old(fs.L())|
      invariant ok ==> RunStored(old(fs.L()), fs.L(), s, i, data)
      invariant fs.reliable ==> ok
    {
      ghost var d := fs.L();
      ok := WriteSector(fs, Chunk(data, i), s + i);
      if ok { StoredMore(old(fs.L()), d, s, i, data); }
      i := i + 1;
    }
  }

  class File {
    const fs: Fatfs
    const canRead: bool
    const canWrite: bool
    const buf: array<byte>
    var err: FResult
    var sclust: nat
    var objsize: nat
    var fptr: nat
    var clust: nat
    var sect: nat
    var dirty: bool
    var modified: bool
    /** The clusters of the file in order. */
    ghost var chain: seq<nat>

    ghost function F(): Fil
      requires buf.Length == 512
      reads this, buf
    {
      Fil(sclust, objsize, fptr, clust, sect, buf[..], dirty)
    }

    ghost predicate Valid()
      reads this, fs, fs.win, buf
    {
      Shape() && FileInv(fs.g, fs.L(), fs.winsect, F(), chain)
    }

    ghost predicate Shape()
      reads this, fs, fs.win, buf
    {
      buf.Length == 512 && buf != fs.win && fs.Valid()
    }

    /** The state in which opening leaves the file object. */
    constructor (fs: Fatfs, canRead: bool, canWrite: bool, sclust: nat, objsize: nat, ghost chain: seq<nat>)
      requires fs.Valid() && Clusters(fs.g, chain)
      requires chain == [] <==> sclust == 0
      requires chain != [] ==> ChainOk(Fat(fs.g, fs.L()), chain) && chain[0] == sclust
      requires objsize <= 512 * |Sects(fs.g, chain)| && objsize < 0x1_0000_0000
      requires !Own(fs.g, Fat(fs.g, fs.L()), chain, fs.winsect)
      ensures Valid() && err == Ok && fptr == 0 && fresh(buf)
      ensures this.fs == fs && this.canRead == canRead && this.canWrite == canWrite && this.chain == chain
    {
      this.fs, this.canRead, this.canWrite := fs, canRead, canWrite;
      this.sclust, this.objsize, this.chain := sclust, objsize, chain;
      err, fptr, clust, sect, dirty, modified := Ok, 0, 0, 0, false, false;
      buf := new byte[512](i => 0);
    }

    /** Everything but the cursor is as it should be. */
    ghost predicate Based()
      reads this, fs, fs.win, buf
    {
      Shape() && FileBase(fs.g, fs.L(), fs.winsect, F(), chain)
    }

    /** The bytes of the file. */
    ghost function C(): (c: seq<byte>)
      requires Based()
      reads this, fs, fs.win, buf
    {
      Content(fs.g, fs.L(), F(), chain)
    }

    /** The current cluster is that of the sector at the file pointer. */
    ghost predicate Here()
      requires Shape()
      reads this, fs, fs.win, buf
    {
      Clusters(fs.g, chain) && AtSector(fs.g, F(), chain, fptr / 512) && fptr / 512 < |Sects(fs.g, chain)|
    }

    /** Writes the buffer back. */
    method FlushBuf() returns (ok: bool)
      requires Based() && dirty
      modifies fs`disk, this`dirty
      ensures Shape()
      ensures ok ==> !dirty && Based() && C() == old(C()) && sect < |old(fs.L())|
      ensures ok ==> fs.L() == old(fs.L())[sect := buf[..]]
      ensures fs.reliable ==> ok
    {
      ghost var f := F();
      Flushed(fs.g, fs.L(), fs.winsect, f, chain);
      ok := WriteSector(fs, buf[..], sect);
      if ok {
        dirty := false;
        assert F() == f.(dirty := false);
      }
    }

    /** Writes the buffer back if it has changes. */
    method FlushDirty() returns (ok: bool)
      requires Based()
      modifies fs`disk, this`dirty
      ensures Shape() && (fs.reliable ==> ok)
      ensures ok ==> !dirty && Based() && C() == old(C())
      ensures ok ==> DataOnly(fs.g, old(fs.L()), fs.L(), chain)
    {
      assert Look(0);
      ok := true;
      if dirty {
        ghost var d := fs.L();
        ok := FlushBuf();
        if ok { FatKeptByFlush(fs.g, d, chain, sect, buf[..]); }
      }
    }

    /** Fills the buffer. */
    method FillBuf(data: Sector)
      requires buf.Length == 512
      modifies buf
      ensures buf[..] == data
    {
      forall i | 0 <= i < 512 {
        buf[i] := data[i];
      }
    }

    // ---------- Reading

    /** At a cluster boundary: moves to the cluster of the sector at the file pointer. */
    method EnterRead() returns (res: FResult)
      requires Valid() && fptr < objsize && fptr % 512 == 0 && Rem(fs.g.csize, fptr / 512) == 0
      modifies fs`disk, fs`wflag, fs`winsect, fs.win, this`clust
      ensures Shape() && (res == Ok || !fs.reliable)
      ensures res == Ok ==> Based() && Here() && fs.L() == old(fs.L()) && C() == old(C())
    {
      ghost var d, w, f := fs.L(), fs.winsect, F();
      NextCluster(fs.g, d, w, f, chain);
      var c;
      if fptr == 0 {
        c := sclust;
      } else {
        c := GetFat(fs, clust);
      }
      BaseMoved(fs.g, d, w, fs.winsect, f, chain);
      if c < 2 { return IntErr; }
      if c == INVALID { return DiskErr; }
      clust := c;
      assert F() == f.(clust := c);
      ClustIrrelevant(fs.g, d, fs.winsect, f, chain, c);
      return Ok;
    }

    /** Fills the buffer with the sector at the file pointer. */
    method Fill(s: nat) returns (ok: bool)
      requires Based() && Here() && !dirty && s == Sects(fs.g, chain)[fptr / 512]
      modifies buf
      ensures Shape() && (fs.reliable ==> ok)
      ensures ok ==> FileBase(fs.g, fs.L(), fs.winsect, F().(sect := s), chain)
      ensures ok ==> Content(fs.g, fs.L(), F().(sect := s), chain) == old(C())
    {
      ghost var f := F();
      SectAt(fs.g, chain, fptr / 512);
      Loaded(fs.g, fs.L(), fs.winsect, f, chain, fptr / 512);
      RawIsLogical(fs.g, fs.mirrorReliable, fs.V(), s);
      var x;
      ok, x := fs.DiskRead(s);
      FillBuf(x);
      if ok { assert F().(sect := s) == f.(sect := s, buf := x); }
    }

    /** Makes the buffer hold sector `s`, which is the one at the file pointer. */
    method LoadForRead(s: nat) returns (res: FResult)
      requires Based() && Here() && s == Sects(fs.g, chain)[fptr / 512]
      modifies fs`disk, this`dirty, this`sect, buf
      ensures Shape() && (res == Ok || (res == DiskErr && !fs.reliable))
      ensures res == Ok ==> Based() && sect == s && C() == old(C())
      ensures res == Ok ==> DataOnly(fs.g, old(fs.L()), fs.L(), chain)
    {
      if sect != s {
        var ok := FlushDirty();
        if !ok { return DiskErr; }
        ok := Fill(s);
        if !ok { return DiskErr; }
        sect := s;
      }
      return Ok;
    }

    /** Transfers `cc` whole sectors from the medium; one that is dirty in the buffer is taken from there. */
    method ReadDirect(s: nat, cc: nat) returns (res: FResult, data: seq<byte>)
      requires Based() && Here() && fptr % 512 == 0 && s == Sects(fs.g, chain)[fptr / 512]
      requires 0 < cc && Rem(fs.g.csize, fptr / 512) + cc <= fs.g.csize && fptr + 512 * cc <= objsize
      ensures res == Ok || (res == DiskErr && !fs.reliable)
      ensures res == Ok ==> |data| == 512 * cc && ReadHere(C(), fptr, data)
    {
      RunBounds(fs.g, fs.L(), fs.winsect, F(), chain, fptr / 512, cc);
      var ok, raw := ReadSectors(fs, s, cc);
      if !ok { return DiskErr, []; }
      data := raw;
      if dirty && Sub32(sect, s) < cc {
        var o := 512 * (sect - s);
        data := raw[..o] + buf[..] + raw[o + 512..];
      }
      DirectRead(fs.g, fs.L(), fs.winsect, F(), chain, fptr / 512, cc, raw, data);
      return Ok, data;
    }

    /** On a sector boundary: the sector at the file pointer, on which the current cluster follows. */
    method SectorForRead() returns (res: FResult, s: nat)
      requires Valid() && fptr < objsize && fptr % 512 == 0
      modifies fs`disk, fs`wflag, fs`winsect, fs.win, this`clust
      ensures Shape() && (res == Ok || !fs.reliable)
      ensures res == Ok ==> Based() && Here() && fs.L() == old(fs.L()) && C() == old(C())
      ensures res == Ok ==> s == Sects(fs.g, chain)[fptr / 512]
    {
      s := 0;
      var csect := Rem(fs.g.csize, fptr / 512);
      if csect == 0 {
        res := EnterRead();
        if res != Ok { return; }
      } else {
        CursorSameCluster(fs.g, F(), chain);
      }
      SectAt(fs.g, chain, fptr / 512);
      s := ClusterToSector(fs.g, clust);
      if s == 0 { return IntErr, s; }
      s := s + csect;
      return Ok, s;
    }

    /** Transfers as many of `want` whole sectors as the cluster still has, and moves past them. */
    method ReadWhole(s: nat, want: nat) returns (res: FResult, data: seq<byte>)
      requires Based() && Here() && fptr % 512 == 0 && s == Sects(fs.g, chain)[fptr / 512]
      requires 0 < want && fptr + 512 * want <= objsize
      modifies this`fptr
      ensures Shape() && (res == Ok || !fs.reliable)
      ensures res == Ok ==> Valid() && C() == old(C()) && 0 < |data| <= 512 * want && ReadHere(C(), old(fptr), data)
      ensures res == Ok ==> fptr == old(fptr) + |data|
    {
      var csect := Rem(fs.g.csize, fptr / 512);
      QuotRem(fs.g.csize, fptr / 512);
      var cc := want;
      if csect + cc > fs.g.csize { cc := fs.g.csize - csect; }
      res, data := ReadDirect(s, cc);
      if res == Ok {
        AdvanceSectors(fs.g, fs.L(), fs.winsect, F(), chain, cc);
        fptr := fptr + 512 * cc;
      }
    }

    /** Takes what the buffer has of the bytes wanted. */
    method ReadBuffer(btr: nat) returns (res: FResult, data: seq<byte>)
      requires Based() && Here() && sect == Sects(fs.g, chain)[fptr / 512] && 0 < btr && fptr + btr <= objsize
      modifies this`fptr
      ensures res == Ok && Valid() && C() == old(C()) && 0 < |data| <= btr && ReadHere(C(), old(fptr), data)
      ensures fptr == old(fptr) + |data|
    {
      var o := fptr % 512;
      var rcnt := 512 - o;
      if rcnt > btr { rcnt := btr; }
      data := buf[o..o + rcnt];
      CachedRead(fs.g, fs.L(), fs.winsect, F(), chain, fptr / 512, o, data);
      AdvanceInside(fs.g, fs.L(), fs.winsect, F(), chain, rcnt);
      fptr := fptr + rcnt;
      return Ok, data;
    }

    /** One round of the loop of `Read`: transfers at least one of `btr` bytes. */
    method ReadOnce(btr: nat) returns (res: FResult, data: seq<byte>)
      requires Valid() && 0 < btr && fptr + btr <= objsize
      modifies fs`disk, fs`wflag, fs`winsect, fs.win, this`clust, this`dirty, this`sect, this`fptr, buf
      ensures Shape() && (res == Ok || !fs.reliable)
      ensures res == Ok ==> Valid() && C() == old(C()) && 0 < |data| <= btr && ReadHere(C(), old(fptr), data)
      ensures res == Ok ==> fptr == old(fptr) + |data| && DataOnly(fs.g, old(fs.L()), fs.L(), chain)
    {
      data := [];
      if fptr % 512 == 0 {
        var s;
        res, s := SectorForRead();
        if res != Ok { return; }
        if btr / 512 > 0 {
          res, data := ReadWhole(s, btr / 512);
          return;
        }
        res := LoadForRead(s);
        if res != Ok { return; }
      } else {
        CursorInside(fs.g, F(), chain);
      }
      res, data := ReadBuffer(btr);
    }

    /** Reads up to `btr` bytes. After an error the file object reports that error to every later call. */
    method Read(btr: nat) returns (res: FResult, data: seq<byte>)
      requires Shape() && (err == Ok ==> Valid())
      modifies fs`disk, fs`wflag, fs`winsect, fs.win, this`clust, this`dirty, this`sect, this`fptr, this`err, buf
      ensures Shape() && (err == Ok ==> Valid())
      ensures old(err) != Ok ==> res == old(err) && err == old(err)
      ensures old(err) == Ok && !canRead ==> res == Denied && err == Ok
      ensures old(err) == Ok && canRead ==> res == err && (res == Ok || !fs.reliable)
      ensures res == Ok ==> C() == old(C()) && DataOnly(fs.g, old(fs.L()), fs.L(), chain)
      ensures res == Ok ==> |data| == (if btr > objsize - old(fptr) then objsize - old(fptr) else btr)
                            && ReadHere(C(), old(fptr), data) && fptr == old(fptr) + |data|
    {
      data := [];
      if err != Ok { return err, data; }
      if !canRead { return Denied, data; }
      var remain := objsize - fptr;
      var left := if btr > remain then remain else btr;
      res := Ok;
      while left > 0
        invariant 0 <= left && res == Ok && err == Ok && Valid()
        invariant C() == old(C()) && DataOnly(fs.g, old(fs.L()), fs.L(), chain)
        invariant fptr == old(fptr) + |data| && |data| + left == (if btr > remain then remain else btr)
        invariant ReadHere(C(), old(fptr), data)
      {
        var part;
        res, part := ReadOnce(left);
        if res != Ok { err := res; return; }
        left := left - |part|;
        ReadMore(C(), old(fptr), data, part);
        data := data + part;
      }
    }

    // ---------- Writing

    /** Since the logical disk was `d`, the chain `ch` and the number of free clusters recorded as `fc`, only sectors of
        the chain have changed, the chain has only grown, by clusters that were free, and the number of free clusters is
        still right if it was right. */
    ghost predicate Since(d: seq<Sector>, ch: seq<nat>, fc: nat)
      requires Shape()
      reads this, fs, fs.win, buf
    {
      && Ready(fs.g, d) && Clusters(fs.g, ch) && Clusters(fs.g, chain)
      && ch <= chain && Kept(fs.g, d, fs.L(), ch, chain)
      && (NoBad(Fat(fs.g, d)) ==> NoBad(Fat(fs.g, fs.L())))
      && CountKept(fs.g, d, fc, fs.L(), fs.freeClst)
    }

    /** The disk cannot be to blame for an error. */
    ghost predicate Sane(d: seq<Sector>)
      reads fs
    {
      fs.reliable && Ready(fs.g, d) && NoBad(Fat(fs.g, d))
    }

    /** No cluster can be added. */
    ghost predicate NoRoom()
      requires Shape()
      reads this, fs, fs.win, buf
    {
      fs.freeClst == 0 || FreeCount(Fat(fs.g, fs.L())) == 0
    }

    /** The chain ends at the file pointer and cannot be stretched. */
    ghost predicate Stuck()
      requires Shape()
      reads this, fs, fs.win, buf
    {
      NoRoom() && Clusters(fs.g, chain) && fptr == 512 * |Sects(fs.g, chain)|
    }

    /** `ClusterAhead` at the start of the file. */
    method ClusterFirst() returns (c: nat)
      requires Valid() && fptr == 0
      modifies fs`disk, fs`wflag, fs`winsect, fs.win, fs`freeClst, fs`lastClst
      ensures Shape() && WinStep(fs.g, old(fs.winsect), fs.winsect)
      ensures c <= INVALID && (c == INVALID ==> !fs.reliable)
      ensures c == 1 ==> !NoBad(Fat(fs.g, old(fs.L())))
      ensures c == 0 ==> fs.L() == old(fs.L()) && Stuck() && fs.freeClst == old(fs.freeClst)
      ensures c != INVALID ==> CountKept(fs.g, old(fs.L()), old(fs.freeClst), fs.L(), fs.freeClst)
      ensures 2 <= c < INVALID ==> ClusterFor(fs.g, old(fs.L()), fs.L(), Quot(fs.g.csize, fptr / 512), chain, c)
    {
      assert Look(0);
      ClusterToWrite(fs.g, fs.L(), fs.winsect, F(), chain);
      PickMeaning(Fat(fs.g, fs.L()), 0, fs.lastClst);
      c := sclust;
      if c == 0 { c := CreateChain(fs, 0); }
    }

    /** `ClusterAhead` after the first cluster. */
    method ClusterNext() returns (c: nat)
      requires Valid() && fptr % 512 == 0 && Rem(fs.g.csize, fptr / 512) == 0 && fptr > 0
      modifies fs`disk, fs`wflag, fs`winsect, fs.win, fs`freeClst, fs`lastClst
      ensures Shape() && WinStep(fs.g, old(fs.winsect), fs.winsect)
      ensures c <= INVALID && (c == INVALID ==> !fs.reliable)
      ensures c == 1 ==> !NoBad(Fat(fs.g, old(fs.L())))
      ensures c == 0 ==> fs.L() == old(fs.L()) && Stuck() && fs.freeClst == old(fs.freeClst)
      ensures c != INVALID ==> CountKept(fs.g, old(fs.L()), old(fs.freeClst), fs.L(), fs.freeClst)
      ensures 2 <= c < INVALID ==> ClusterFor(fs.g, old(fs.L()), fs.L(), Quot(fs.g.csize, fptr / 512), chain, c)
    {
      ghost var q := Quot(fs.g.csize, fptr / 512);
      ClusterToWrite(fs.g, fs.L(), fs.winsect, F(), chain);
      PickMeaning(Fat(fs.g, fs.L()), if q < |chain| then 0 else clust, fs.lastClst);
      c := CreateChain(fs, clust);
    }

    /** The cluster of the sector at the file pointer, added to the chain if it ends here; 0 when there is none to add,
        1 on an internal error and `INVALID` on a disk error. */
    method ClusterAhead() returns (c: nat)
      requires Valid() && fptr % 512 == 0 && Rem(fs.g.csize, fptr / 512) == 0
      modifies fs`disk, fs`wflag, fs`winsect, fs.win, fs`freeClst, fs`lastClst
      ensures Shape() && WinStep(fs.g, old(fs.winsect), fs.winsect)
      ensures c <= INVALID && (c == INVALID ==> !fs.reliable)
      ensures c == 1 ==> !NoBad(Fat(fs.g, old(fs.L())))
      ensures c == 0 ==> fs.L() == old(fs.L()) && Stuck() && fs.freeClst == old(fs.freeClst)
      ensures c != INVALID ==> CountKept(fs.g, old(fs.L()), old(fs.freeClst), fs.L(), fs.freeClst)
      ensures 2 <= c < INVALID ==> ClusterFor(fs.g, old(fs.L()), fs.L(), Quot(fs.g.csize, fptr / 512), chain, c)
    {
      if fptr == 0 {
        c := ClusterFirst();
      } else {
        c := ClusterNext();
      }
    }

    /** Makes `c` the current cluster, and the first one if there was none. */
    method SetCluster(c: nat, ghost ch: seq<nat>)
      requires buf.Length == 512
      modifies this`clust, this`sclust, this`chain
      ensures F() == old(F()).(clust := c, sclust := if old(sclust) == 0 then c else old(sclust)) && chain == ch
    {
      clust := c;
      if sclust == 0 { sclust := c; }
      chain := ch;
    }

    /** At a cluster boundary: moves to the cluster of the sector at the file pointer, adding one if the chain ends
        here. `full`: there is none to add. */
    method EnterWrite() returns (res: FResult, full: bool)
      requires Valid() && fptr % 512 == 0 && Rem(fs.g.csize, fptr / 512) == 0
      modifies fs`disk, fs`wflag, fs`winsect, fs.win, fs`freeClst, fs`lastClst, this`clust, this`sclust, this`chain
      ensures Shape() && (Sane(old(fs.L())) ==> res == Ok)
      ensures res == Ok ==> Based() && C() == old(C()) && Since(old(fs.L()), old(chain), old(fs.freeClst))
      ensures res == Ok && !full ==> Here()
      ensures res == Ok && full ==> Valid() && Stuck()
    {
      ghost var d, w, f, ch := fs.L(), fs.winsect, F(), chain;
      var c := ClusterAhead();
      if c == 0 {
        BaseMoved(fs.g, d, w, fs.winsect, f, ch);
        KeptByData(fs.g, d, d, ch);
        return Ok, true;
      }
      if c == 1 { return IntErr, false; }
      if c == INVALID { return DiskErr, false; }
      EnteredCluster(fs.g, d, w, f, ch, fs.L(), fs.winsect, c);
      SetCluster(c, if Quot(fs.g.csize, fptr / 512) < |ch| then ch else ch + [c]);
      return Ok, false;
    }

    /** On a sector boundary: the current cluster becomes that of the sector at the file pointer. */
    method ClusterForWrite() returns (res: FResult, full: bool)
      requires Valid() && fptr % 512 == 0
      modifies fs`disk, fs`wflag, fs`winsect, fs.win, fs`freeClst, fs`lastClst, this`clust, this`sclust, this`chain
      ensures Shape() && (Sane(old(fs.L())) ==> res == Ok)
      ensures res == Ok ==> Based() && C() == old(C()) && Since(old(fs.L()), old(chain), old(fs.freeClst))
      ensures res == Ok && !full ==> Here()
      ensures res == Ok && full ==> Valid() && Stuck()
    {
      if Rem(fs.g.csize, fptr / 512) == 0 {
        res, full := EnterWrite();
      } else {
        CursorSameCluster(fs.g, F(), chain);
        KeptByData(fs.g, fs.L(), fs.L(), chain);
        res, full := Ok, false;
      }
    }

    /** `FlushDirty`, for a caller that began at `d` with the chain `ch`. */
    method FlushForWrite(ghost d: seq<Sector>, ghost ch: seq<nat>, ghost fc: nat) returns (ok: bool)
      requires Based() && Since(d, ch, fc)
      modifies fs`disk, this`dirty
      ensures Shape() && (fs.reliable ==> ok)
      ensures ok ==> !dirty && Based() && C() == old(C()) && Since(d, ch, fc)
    {
      ghost var e := fs.L();
      ok := FlushDirty();
      if ok {
        KeptByData(fs.g, e, fs.L(), chain);
        KeptTrans(fs.g, d, e, fs.L(), ch, chain, chain);
      }
    }

    /** The sector at the file pointer. */
    method SectorHere() returns (s: nat)
      requires Based() && Here()
      ensures s == Sects(fs.g, chain)[fptr / 512] > 0
    {
      SectAt(fs.g, chain, fptr / 512);
      s := ClusterToSector(fs.g, clust);
      s := s + Rem(fs.g.csize, fptr / 512);
    }

    /** On a sector boundary: the sector at the file pointer, with the buffer written back. `full`: the chain ends here
        and cannot be stretched. */
    method SectorForWrite() returns (res: FResult, full: bool, s: nat)
      requires Valid() && fptr % 512 == 0
      modifies fs`disk, fs`wflag, fs`winsect, fs.win, fs`freeClst, fs`lastClst
      modifies this`clust, this`sclust, this`chain, this`dirty
      ensures Shape() && (Sane(old(fs.L())) ==> res == Ok)
      ensures res == Ok ==> Based() && C() == old(C()) && Since(old(fs.L()), old(chain), old(fs.freeClst))
      ensures res == Ok && !full ==> Here() && !dirty && s == Sects(fs.g, chain)[fptr / 512]
      ensures res == Ok && full ==> Valid() && Stuck()
    {
      s := 0;
      res, full := ClusterForWrite();
      if res != Ok || full { return; }
      var ok := FlushForWrite(old(fs.L()), old(chain), old(fs.freeClst));
      if !ok { return DiskErr, false, 0; }
      s := SectorHere();
      if s == 0 { return IntErr, false, s; }
    }

    /** Moves the file pointer, and the end of the file with it if need be. */
    method Advance(wcnt: nat)
      requires buf.Length == 512
      modifies this`fptr, this`objsize
      ensures F() == old(F()).(fptr := old(fptr) + wcnt, objsize := Max(old(objsize), old(fptr) + wcnt))
    {
      fptr := fptr + wcnt;
      objsize := if fptr > objsize then fptr else objsize;
    }

    /** After a direct write of the sectors of `part`: the buffer follows if it holds one of them, and the file pointer
        moves past them. */
    method FinishRun(s: nat, cc: nat, part: seq<byte>)
      requires buf.Length == 512 && |part| == 512 * cc && s + cc < INVALID && !dirty
      modifies buf, this`dirty, this`fptr, this`objsize
      ensures RanOn(old(F()), s, cc, part, F()) && fptr == old(fptr) + |part|
    {
      if Sub32(sect, s) < cc {
        FillBuf(Chunk(part, sect - s));
        dirty := false;
      }
      Advance(|part|);
    }

    /** Writes the sectors of `part` directly, and moves past them. */
    method WriteRun(s: nat, cc: nat, part: seq<byte>) returns (res: FResult)
      requires Based() && Here() && !dirty && fptr % 512 == 0 && s == Sects(fs.g, chain)[fptr / 512]
      requires 0 < cc && Rem(fs.g.csize, fptr / 512) + cc <= fs.g.csize
      requires |part| == 512 * cc && fptr + |part| < 0x1_0000_0000
      modifies fs`disk, this`fptr, this`objsize, this`dirty, buf
      ensures Shape() && (res == Ok || (res == DiskErr && !fs.reliable))
      ensures res == Ok ==> Valid() && IsWritten(old(C()), old(fptr), part, C())
      ensures res == Ok ==> fptr == old(fptr) + |part| && DataOnly(fs.g, old(fs.L()), fs.L(), chain)
    {
      ghost var d, f := fs.L(), F();
      RunBounds(fs.g, d, fs.winsect, f, chain, fptr / 512, cc);
      var ok := WriteSectors(fs, part, s, cc);
      if !ok { return DiskErr; }
      FinishRun(s, cc, part);
      WroteSectors(fs.g, d, fs.winsect, f, chain, cc, part, fs.L(), F());
      return Ok;
    }

    /** Transfers as many whole sectors of `data` as the cluster still has, and moves past them. */
    method WriteWhole(s: nat, data: seq<byte>) returns (res: FResult, wcnt: nat)
      requires Based() && Here() && !dirty && fptr % 512 == 0 && s == Sects(fs.g, chain)[fptr / 512]
      requires 512 <= |data| && fptr + |data| < 0x1_0000_0000
      modifies fs`disk, this`fptr, this`objsize, this`dirty, buf
      ensures Shape() && (res == Ok || (res == DiskErr && !fs.reliable))
      ensures res == Ok ==> Valid() && 0 < wcnt <= |data| && IsWritten(old(C()), old(fptr), data[..wcnt], C())
      ensures res == Ok ==> fptr == old(fptr) + wcnt && DataOnly(fs.g, old(fs.L()), fs.L(), chain)
    {
      var csect := Rem(fs.g.csize, fptr / 512);
      QuotRem(fs.g.csize, fptr / 512);
      var cc := |data| / 512;
      if csect + cc > fs.g.csize { cc := fs.g.csize - csect; }
      wcnt := 512 * cc;
      res := WriteRun(s, cc, data[..wcnt]);
    }

    method CopyIn(o: nat, data: seq<byte>)
      requires buf.Length == 512 && o + |data| <= 512
      modifies buf, this`dirty
      ensures IsSplice(old(buf[..]), o, data, buf[..]) && dirty
    {
      forall i | 0 <= i < |data| {
        buf[o + i] := data[i];
      }
      dirty := true;
    }

    /** Stores `part` in the buffer, which stands for the sector at the file pointer, and moves past it. `f` is the file
        before it stood for that sector; past the end of the file it is not filled for that. */
    method PutBuffer(part: seq<byte>, ghost f: Fil)
      requires Shape() && FileBase(fs.g, fs.L(), fs.winsect, f, chain)
      requires AtSector(fs.g, f, chain, f.fptr / 512) && f.fptr / 512 < |Sects(fs.g, chain)|
      requires F() == f.(sect := Sects(fs.g, chain)[f.fptr / 512])
      requires f.sect == Sects(fs.g, chain)[f.fptr / 512] || (!f.dirty && f.fptr % 512 == 0 && f.fptr == f.objsize)
      requires 0 < |part| && fptr % 512 + |part| <= 512 && fptr + |part| < 0x1_0000_0000
      modifies this`fptr, this`objsize, this`dirty, buf
      ensures Valid() && fptr == old(fptr) + |part|
      ensures IsWritten(Content(fs.g, fs.L(), f, chain), old(fptr), part, C())
    {
      CopyIn(fptr % 512, part);
      WroteBuffer(fs.g, fs.L(), fs.winsect, f, chain, part, buf[..]);
      Advance(|part|);
    }

    /** Makes the buffer stand for sector `s`, filling it unless the file ends here. */
    method BufferForWrite(s: nat) returns (res: FResult, ghost f: Fil)
      requires Based() && Here() && !dirty && fptr % 512 == 0 && s == Sects(fs.g, chain)[fptr / 512]
      modifies this`sect, buf
      ensures Shape() && (res == Ok || (res == DiskErr && !fs.reliable))
      ensures res == Ok ==> FileBase(fs.g, fs.L(), fs.winsect, f, chain) && F() == f.(sect := s)
                            && Content(fs.g, fs.L(), f, chain) == old(C())
      ensures res == Ok ==> f.clust == clust && f.fptr == fptr && (f.sect == s || (!f.dirty && f.fptr == f.objsize))
    {
      f := F();
      if sect != s && fptr < objsize {
        var ok := Fill(s);
        if !ok { return DiskErr, f; }
        f := F().(sect := s);
      }
      sect := s;
      return Ok, f;
    }

    /** The part of a round that starts on a sector boundary, once the sector is known. */
    method WriteAt(s: nat, data: seq<byte>) returns (res: FResult, wcnt: nat)
      requires Based() && Here() && !dirty && fptr % 512 == 0 && s == Sects(fs.g, chain)[fptr / 512]
      requires 0 < |data| && fptr + |data| < 0x1_0000_0000
      modifies fs`disk, this`fptr, this`objsize, this`dirty, this`sect, buf
      ensures Shape() && (res == Ok || (res == DiskErr && !fs.reliable))
      ensures res == Ok ==> Valid() && 0 < wcnt <= |data| && IsWritten(old(C()), old(fptr), data[..wcnt], C())
      ensures res == Ok ==> fptr == old(fptr) + wcnt && DataOnly(fs.g, old(fs.L()), fs.L(), chain)
    {
      if |data| / 512 > 0 {
        res, wcnt := WriteWhole(s, data);
      } else {
        wcnt := |data|;
        ghost var f;
        res, f := BufferForWrite(s);
        if res != Ok { return; }
        PutBuffer(data, f);
        assert data[..wcnt] == data;
      }
    }

    /** Off a sector boundary: fills the buffer up. */
    method WriteInside(data: seq<byte>) returns (wcnt: nat)
      requires Valid() && fptr % 512 != 0 && 0 < |data| && fptr + |data| < 0x1_0000_0000
      modifies buf, this`dirty, this`fptr, this`objsize
      ensures Valid() && 0 < wcnt <= |data| && IsWritten(old(C()), old(fptr), data[..wcnt], C())
      ensures fptr == old(fptr) + wcnt
    {
      CursorInside(fs.g, F(), chain);
      wcnt := 512 - fptr % 512;
      if wcnt > |data| { wcnt := |data|; }
      PutBuffer(data[..wcnt], F());
    }

    /** `WriteAt`, for a caller that began at `d` with the chain `ch`. */
    method WriteFrom(s: nat, data: seq<byte>, ghost d: seq<Sector>, ghost ch: seq<nat>, ghost fc: nat)
        returns (res: FResult, wcnt: nat)
      requires Based() && Here() && !dirty && fptr % 512 == 0 && s == Sects(fs.g, chain)[fptr / 512]
      requires 0 < |data| && fptr + |data| < 0x1_0000_0000 && Since(d, ch, fc)
      modifies fs`disk, this`fptr, this`objsize, this`dirty, this`sect, buf
      ensures Shape() && (res == Ok || (res == DiskErr && !fs.reliable))
      ensures res == Ok ==> Valid() && 0 < wcnt <= |data| && IsWritten(old(C()), old(fptr), data[..wcnt], C())
      ensures res == Ok ==> fptr == old(fptr) + wcnt && Since(d, ch, fc)
    {
      ghost var e := fs.L();
      res, wcnt := WriteAt(s, data);
      if res == Ok {
        KeptByData(fs.g, e, fs.L(), chain);
        KeptTrans(fs.g, d, e, fs.L(), ch, chain, chain);
      }
    }

    /** One round of the loop of `Write`: transfers at least one byte of `data`, or none if the disk is full. `d` and
        `ch` are the logical disk and the chain when the call began. */
    method WriteOnce(data: seq<byte>, ghost d: seq<Sector>, ghost ch: seq<nat>, ghost fc: nat)
        returns (res: FResult, wcnt: nat)
      requires Valid() && Since(d, ch, fc) && 0 < |data| && fptr + |data| < 0x1_0000_0000
      modifies fs`disk, fs`wflag, fs`winsect, fs.win, fs`freeClst, fs`lastClst, buf
      modifies this`clust, this`sclust, this`chain, this`dirty, this`sect, this`fptr, this`objsize
      ensures Shape() && (Sane(d) ==> res == Ok)
      ensures res == Ok ==> Valid() && wcnt <= |data| && IsWritten(old(C()), old(fptr), data[..wcnt], C())
      ensures res == Ok ==> fptr == old(fptr) + wcnt && (wcnt == 0 ==> Stuck()) && Since(d, ch, fc)
    {
      if fptr % 512 == 0 {
        wcnt := 0;
        ghost var d1, ch1 := fs.L(), chain;
        var full, s;
        res, full, s := SectorForWrite();
        if res != Ok { return; }
        KeptTrans(fs.g, d, d1, fs.L(), ch, ch1, chain);
        if full { return; }
        res, wcnt := WriteFrom(s, data, d, ch, fc);
      } else {
        wcnt := WriteInside(data);
        res := Ok;
      }
    }

    /** `WriteOnce` on what is left of `data`, in terms of the content `c0` and pointer `p0` the call began with. */
    method WriteRound(data: seq<byte>, bw: nat, btw: nat, ghost c0: seq<byte>, ghost p0: nat,
                      ghost d: seq<Sector>, ghost ch: seq<nat>, ghost fc: nat) returns (res: FResult, wcnt: nat)
      requires Valid() && Since(d, ch, fc) && bw < btw <= |data| && p0 + btw < 0x1_0000_0000 && fptr == p0 + bw
      requires IsWritten(c0, p0, data[..bw], C())
      modifies fs`disk, fs`wflag, fs`winsect, fs.win, fs`freeClst, fs`lastClst, buf
      modifies this`clust, this`sclust, this`chain, this`dirty, this`sect, this`fptr, this`objsize
      ensures Shape() && (Sane(d) ==> res == Ok)
      ensures res == Ok ==> Valid() && bw + wcnt <= btw && IsWritten(c0, p0, data[..bw + wcnt], C())
      ensures res == Ok ==> fptr == p0 + bw + wcnt && (wcnt == 0 ==> Stuck()) && Since(d, ch, fc)
    {
      ghost var c := C();
      res, wcnt := WriteOnce(data[bw..btw], d, ch, fc);
      if res == Ok { WrittenMore(c0, p0, data, bw, btw, c, wcnt, C()); }
    }

    /** The loop of `Write`. */
    method WriteLoop(data: seq<byte>, btw: nat) returns (res: FResult, bw: nat)
      requires Valid() && err == Ok && btw <= |data| && fptr + btw < 0x1_0000_0000
      modifies fs`disk, fs`wflag, fs`winsect, fs.win, fs`freeClst, fs`lastClst, buf
      modifies this`clust, this`sclust, this`chain, this`dirty, this`sect, this`fptr, this`objsize, this`err
      ensures Shape() && (res == Ok ==> Valid()) && res == err && (Sane(old(fs.L())) ==> res == Ok)
      ensures res == Ok ==> bw <= btw && IsWritten(old(C()), old(fptr), data[..bw], C()) && fptr == old(fptr) + bw
      ensures res == Ok ==> Since(old(fs.L()), old(chain), old(fs.freeClst)) && (bw < btw ==> Stuck())
    {
      ghost var c0, p0, d0, ch0, fc0 := C(), fptr, fs.L(), chain, fs.freeClst;
      res, bw := Ok, 0;
      KeptByData(fs.g, d0, d0, ch0);
      var full := false;
      while bw < btw && !full
        invariant bw <= btw && res == Ok && err == Ok && Valid() && Since(d0, ch0, fc0) && (full ==> Stuck())
        invariant IsWritten(c0, p0, data[..bw], C()) && fptr == p0 + bw
        decreases !full, btw - bw
      {
        var wcnt;
        res, wcnt := WriteRound(data, bw, btw, c0, p0, d0, ch0, fc0);
        if res != Ok { err := res; return; }
        full := wcnt == 0;
        bw := bw + wcnt;
      }
    }

    /** Writes `data` at the file pointer, as much of it as there is room for. */
    method Write(data: seq<byte>) returns (res: FResult, bw: nat)
      requires Shape() && (err == Ok ==> Valid()) && |data| <= 0xFFFF_FFFF
      modifies fs`disk, fs`wflag, fs`winsect, fs.win, fs`freeClst, fs`lastClst, buf
      modifies this`clust, this`sclust, this`chain, this`dirty, this`sect, this`fptr, this`objsize, this`err,
               this`modified
      ensures Shape() && (err == Ok ==> Valid())
      ensures old(err) != Ok ==> res == old(err) && err == old(err)
      ensures old(err) == Ok && !canWrite ==> res == Denied && err == Ok
      ensures old(err) == Ok && canWrite ==> res == err && (Sane(old(fs.L())) ==> res == Ok)
      ensures res == Ok ==> bw <= |data| && IsWritten(old(C()), old(fptr), data[..bw], C())
      ensures res == Ok ==> fptr == old(fptr) + bw && modified && Since(old(fs.L()), old(chain), old(fs.freeClst))
      ensures res == Ok && bw < |data| && bw < 0xFFFF_FFFF - old(fptr) ==>
                NoRoom() && fptr == 512 * |Sects(fs.g, chain)|
      ensures modified == (old(modified) || res == Ok)
    {
      bw := 0;
      if err != Ok { return err, bw; }
      if !canWrite { return Denied, bw; }
      // a file cannot reach 4 GiB
      var btw := |data|;
      if (fptr + btw) % 0x1_0000_0000 < fptr { btw := 0xFFFF_FFFF - fptr; }
      res, bw := WriteLoop(data, btw);
      modified := res == Ok || modified;
    }

    // ---------- Seeking

    /** Everything but the file pointer and the cursor is as it should be, while a seek moves them. */
    ghost predicate Seeking()
      reads this, fs, fs.win, buf
    {
      Shape() && FileBase(fs.g, fs.L(), fs.winsect, F().(fptr := 0), chain)
    }

    /** The bytes of the file meanwhile. */
    ghost function SC(): (c: seq<byte>)
      requires Seeking()
      reads this, fs, fs.win, buf
    {
      Content(fs.g, fs.L(), F().(fptr := 0), chain)
    }

    /** The file pointer is at the start of cluster `m` of the chain, which is the current one. */
    ghost predicate AtCluster(m: nat)
      reads this, fs
    {
      m < |chain| && clust == chain[m] && fptr == 512 * Sectors(fs.g.csize, m)
    }

    /** Cluster `q` of the chain, where `q - 1` is `prev`, added to it if it ends there. */
    method SeekCluster(prev: nat, ghost q: nat) returns (c: nat)
      requires Seeking() && q <= |chain|
      requires if q == 0 then prev == 0 == sclust else prev == chain[q - 1]
      modifies fs`disk, fs`wflag, fs`winsect, fs.win, fs`freeClst, fs`lastClst
      ensures Shape() && WinStep(fs.g, old(fs.winsect), fs.winsect)
      ensures c <= INVALID && (c == INVALID ==> !fs.reliable)
      ensures c == 1 ==> !NoBad(Fat(fs.g, old(fs.L())))
      ensures c == 0 ==> fs.L() == old(fs.L()) && NoRoom() && q == |chain| && fs.freeClst == old(fs.freeClst)
      ensures c != INVALID ==> CountKept(fs.g, old(fs.L()), old(fs.freeClst), fs.L(), fs.freeClst)
      ensures 2 <= c < INVALID ==> ClusterFor(fs.g, old(fs.L()), fs.L(), q, chain, c)
    {
      assert Look(0);
      if q > 0 { NextOnChain(fs.g, fs.L(), fs.winsect, F().(fptr := 0), chain, q - 1); }
      PickMeaning(Fat(fs.g, fs.L()), if q < |chain| then 0 else prev, fs.lastClst);
      c := CreateChain(fs, prev);
    }

    /** Moves on to cluster `q` of the chain; 0 when the chain ends there and cannot be stretched. */
    method SeekNext(prev: nat, ghost q: nat) returns (res: FResult, c: nat)
      requires Seeking() && q <= |chain|
      requires if q == 0 then prev == 0 == sclust else prev == chain[q - 1]
      modifies fs`disk, fs`wflag, fs`winsect, fs.win, fs`freeClst, fs`lastClst, this`clust, this`sclust, this`chain
      ensures Shape() && (Sane(old(fs.L())) ==> res == Ok)
      ensures res == Ok ==> Seeking() && SC() == old(SC()) && Since(old(fs.L()), old(chain), old(fs.freeClst))
      ensures res == Ok && c == 0 ==> NoRoom() && clust == old(clust) && chain == old(chain) && q == |chain|
      ensures res == Ok && c != 0 ==> q < |chain| && c == clust == chain[q]
    {
      ghost var e, w, f, ch := fs.L(), fs.winsect, F().(fptr := 0), chain;
      c := SeekCluster(prev, q);
      if c == 0 {
        BaseMoved(fs.g, e, w, fs.winsect, f, ch);
        KeptByData(fs.g, e, e, ch);
        return Ok, 0;
      }
      if c == 1 { return IntErr, c; }
      if c == INVALID { return DiskErr, c; }
      SoughtCluster(fs.g, e, w, f, ch, fs.L(), fs.winsect, q, c);
      SetCluster(c, if q < |ch| then ch else ch + [c]);
      return Ok, c;
    }

    /** The number of the cluster that holds the byte at `x`. */
    method ClusterIndex(x: nat) returns (q: nat)
      requires Sound(fs.g)
      ensures q == Quot(fs.g.csize, x / 512)
    {
      var bcs := 512 * fs.g.csize;
      QuotIsDivision(fs.g.csize, x);
      q := x / bcs;
    }

    /** Takes the file pointer back to the start of the current cluster. */
    method SeekFromHere(ofs: nat, q: nat) returns (left: nat)
      requires 512 * Sectors(fs.g.csize, q) < ofs && buf.Length == 512
      modifies this`fptr
      ensures fptr == 512 * Sectors(fs.g.csize, q) && fptr + left == ofs && F() == old(F()).(fptr := fptr)
    {
      SectorsIsProduct(fs.g.csize, q);
      fptr := 512 * (fs.g.csize * q);
      left := ofs - fptr;
    }

    /** Starts at the current cluster. */
    method SeekAhead(ofs: nat) returns (left: nat, ghost m: nat)
      requires Valid() && 0 < fptr && 0 < ofs < 0x1_0000_0000
      requires Quot(fs.g.csize, (ofs - 1) / 512) >= Quot(fs.g.csize, (fptr - 1) / 512)
      modifies this`fptr
      ensures Seeking() && SC() == old(C()) && Since(old(fs.L()), old(chain), old(fs.freeClst))
      ensures AtCluster(m) && clust != 0 && 0 < left && fptr + left == ofs
    {
      assert Look(0);
      PointerIrrelevant(fs.g, fs.L(), F(), chain, 0);
      KeptByData(fs.g, fs.L(), fs.L(), chain);
      var q := ClusterIndex(fptr - 1);
      m := q;
      TargetAhead(fs.g.csize, ofs, m);
      left := SeekFromHere(ofs, q);
    }

    /** Moves to the first cluster, which is created if there is none. */
    method SeekFirst() returns (res: FResult, c: nat)
      requires Seeking() && fptr == 0
      modifies fs`disk, fs`wflag, fs`winsect, fs.win, fs`freeClst, fs`lastClst
      modifies this`clust, this`sclust, this`chain
      ensures Shape() && (Sane(old(fs.L())) ==> res == Ok)
      ensures res == Ok ==> Seeking() && SC() == old(SC()) && Since(old(fs.L()), old(chain), old(fs.freeClst))
      ensures res == Ok && c == 0 ==> NoRoom() && chain == []
      ensures res == Ok && c != 0 ==> AtCluster(0) && c == clust
    {
      assert Look(0);
      c := sclust;
      if c == 0 {
        res, c := SeekNext(0, 0);
      } else {
        KeptByData(fs.g, fs.L(), fs.L(), chain);
        ClustIrrelevant(fs.g, fs.L(), fs.winsect, F(), chain, c);
        clust := c;
        res := Ok;
      }
    }

    /** Where a seek to `ofs` starts: at the current cluster if it does not lead back, or else at the first one, which
        is created if there is none. `left`: how far it is from there; `c` is 0 if no cluster could be created. */
    method SeekStart(ofs: nat) returns (res: FResult, c: nat, left: nat, ghost m: nat)
      requires Valid() && 0 < ofs < 0x1_0000_0000
      modifies fs`disk, fs`wflag, fs`winsect, fs.win, fs`freeClst, fs`lastClst
      modifies this`clust, this`sclust, this`chain, this`fptr
      ensures Shape() && (Sane(old(fs.L())) ==> res == Ok)
      ensures res == Ok ==> Seeking() && SC() == old(C()) && Since(old(fs.L()), old(chain), old(fs.freeClst))
      ensures res == Ok && c == 0 ==> NoRoom() && chain == [] && fptr == 0
      ensures res == Ok && c != 0 ==> AtCluster(m) && c == clust && 0 < left && fptr + left == ofs
    {
      if fptr > 0 {
        var to := ClusterIndex(ofs - 1);
        var from := ClusterIndex(fptr - 1);
        if to >= from {
          left, m := SeekAhead(ofs);
          return Ok, clust, left, m;
        }
      }
      assert Look(0);
      PointerIrrelevant(fs.g, fs.L(), F(), chain, 0);
      fptr := 0;
      left, m := ofs, 0;
      res, c := SeekFirst();
    }

    /** One step of the walk of a seek, from cluster `m` of the chain to the next. */
    method SeekStep(prev: nat, ghost m: nat) returns (res: FResult, c: nat)
      requires Seeking() && m < |chain| && prev == clust == chain[m] && (!canWrite ==> m + 1 < |chain|)
      modifies fs`disk, fs`wflag, fs`winsect, fs.win, fs`freeClst, fs`lastClst, this`clust, this`sclust, this`chain
      ensures Shape() && (Sane(old(fs.L())) ==> res == Ok)
      ensures res == Ok ==> Seeking() && SC() == old(SC()) && Since(old(fs.L()), old(chain), old(fs.freeClst))
      ensures res == Ok && c == 0 ==> NoRoom() && chain == old(chain) && clust == old(clust) && m + 1 == |chain|
      ensures res == Ok && c != 0 ==> m + 1 < |chain| && c == clust == chain[m + 1]
    {
      if canWrite {
        res, c := SeekNext(prev, m + 1);
      } else {
        ghost var d, w, f := fs.L(), fs.winsect, F().(fptr := 0);
        NextOnChain(fs.g, d, w, f, chain, m);
        c := GetFat(fs, prev);
        BaseMoved(fs.g, d, w, fs.winsect, f, chain);
        KeptByData(fs.g, d, d, chain);
        if c == INVALID { return DiskErr, c; }
        if c <= 1 || c >= fs.g.nFatent { return IntErr, c; }
        ClustIrrelevant(fs.g, d, fs.winsect, f, chain, c);
        clust := c;
        res := Ok;
      }
    }

    /** One round of the walk, for a caller that began at `d` with the chain `ch`. */
    method SeekOn(prev: nat, ghost m: nat, ghost d: seq<Sector>, ghost ch: seq<nat>, ghost fc: nat)
        returns (res: FResult, c: nat)
      requires Seeking() && AtCluster(m) && prev == clust && (!canWrite ==> m + 1 < |chain|) && Since(d, ch, fc)
      modifies fs`disk, fs`wflag, fs`winsect, fs.win, fs`freeClst, fs`lastClst
      modifies this`clust, this`sclust, this`chain, this`fptr
      ensures Shape() && (Sane(d) ==> res == Ok)
      ensures res == Ok ==> Seeking() && SC() == old(SC()) && Since(d, ch, fc)
      ensures res == Ok ==> fptr == old(fptr) + 512 * fs.g.csize
      ensures res == Ok ==> if c == 0 then NoRoom() && m + 1 == |chain| && clust == chain[m]
                            else AtCluster(m + 1) && c == clust
    {
      fptr := fptr + 512 * fs.g.csize;
      ghost var e, ch1 := fs.L(), chain;
      res, c := SeekStep(prev, m);
      if res == Ok { KeptTrans(fs.g, d, e, fs.L(), ch, ch1, chain); }
    }

    /** Walks along the chain until the target is in the current cluster, stretching the chain on the way if the file
        is open for writing. `e`: how far into cluster `m` the file pointer ends up. */
    method SeekWalk(start: nat, dist: nat, ghost m0: nat, ghost d: seq<Sector>, ghost ch: seq<nat>, ghost fc: nat)
        returns (res: FResult, c: nat, left: nat, ghost m: nat, ghost e: nat)
      requires Seeking() && AtCluster(m0) && start == clust && 0 < dist && Since(d, ch, fc)
      requires fptr + dist < 0x1_0000_0000 && (!canWrite ==> fptr + dist <= objsize)
      modifies fs`disk, fs`wflag, fs`winsect, fs.win, fs`freeClst, fs`lastClst
      modifies this`clust, this`sclust, this`chain, this`fptr
      ensures Shape() && (Sane(d) ==> res == Ok)
      ensures res == Ok ==> Seeking() && SC() == old(SC()) && Since(d, ch, fc)
      ensures res == Ok ==> m < |chain| && clust == chain[m] && 0 < e <= 512 * fs.g.csize
                            && fptr + left == 512 * Sectors(fs.g.csize, m) + e <= old(fptr) + dist
      ensures res == Ok ==> if c == 0 then NoRoom() && left == 0 && e == 512 * fs.g.csize && m + 1 == |chain|
                            else c == clust && e == left && fptr + left == old(fptr) + dist
    {
      var bcs := 512 * fs.g.csize;
      res, c, left, m, e := Ok, start, dist, m0, dist;
      while left > bcs
        invariant res == Ok && Seeking() && SC() == old(SC()) && Since(d, ch, fc)
        invariant AtCluster(m) && c == clust && 0 < left && fptr + left == old(fptr) + dist
        decreases left
      {
        if !canWrite { ChainGoesOn(fs.g.csize, m, |chain|); }
        left := left - bcs;
        res, c := SeekOn(c, m, d, ch, fc);
        if res != Ok { return; }
        if c == 0 {
          left := 0;
          e := bcs;
          return;
        }
        m := m + 1;
      }
      e := left;
    }

    /** Moves the file pointer on, and the end of the file with it if need be. */
    method SetPointer(p: nat)
      requires buf.Length == 512
      modifies this`fptr, this`objsize, this`modified
      ensures F() == old(F()).(fptr := p, objsize := Max(old(objsize), p))
      ensures modified == (old(modified) || objsize != old(objsize))
    {
      fptr := p;
      if fptr > objsize {
        objsize := fptr;
        modified := true;
      }
    }

    /** The sector `left` bytes into cluster `c`, if that is off a sector boundary. */
    method SectorIn(c: nat, left: nat) returns (nsect: nat)
      requires Sound(fs.g) && c <= INVALID
      ensures left % 512 != 0 && 2 <= c < fs.g.nFatent ==> nsect == Base(fs.g, c) + left / 512
    {
      nsect := 0;
      if left % 512 != 0 {
        nsect := ClusterToSector(fs.g, c);
        nsect := nsect + left / 512;
      }
    }

    /** The end of a seek that has come to cluster `m`, `e` bytes into which the file pointer goes. */
    method SeekFinish(c: nat, left: nat, ghost m: nat, ghost e: nat) returns (nsect: nat)
      requires Seeking() && m < |chain| && clust == chain[m] && 0 < e <= 512 * fs.g.csize
      requires fptr + left == 512 * Sectors(fs.g.csize, m) + e < 0x1_0000_0000
      requires if c == 0 then left == 0 && e == 512 * fs.g.csize else c == clust && e == left
      modifies this`fptr, this`objsize, this`modified
      ensures Based() && AtPointer(fs.g, F(), chain) && old(SC()) <= C()
      ensures fptr == old(fptr) + left && objsize == Max(old(objsize), fptr)
      ensures fptr % 512 != 0 ==> fptr / 512 < |Sects(fs.g, chain)| && nsect == Sects(fs.g, chain)[fptr / 512]
      ensures c == 0 && m + 1 == |chain| ==> fptr == 512 * |Sects(fs.g, chain)|
      ensures modified == (old(modified) || objsize != old(objsize))
    {
      SeekEnded(fs.g, fs.L(), fs.winsect, F().(fptr := fptr + left), chain, m, e);
      nsect := SectorIn(c, left);
      SetPointer(fptr + left);
    }

    /** The walk of a seek from where it starts, and its end. */
    method SeekRun(c: nat, left: nat, ghost m: nat, ghost d: seq<Sector>, ghost ch: seq<nat>, ghost fc: nat)
        returns (res: FResult, nsect: nat)
      requires Seeking() && Since(d, ch, fc) && AtCluster(m) && c == clust && 0 < left && fptr + left < 0x1_0000_0000
      requires !canWrite ==> fptr + left <= objsize
      modifies fs`disk, fs`wflag, fs`winsect, fs.win, fs`freeClst, fs`lastClst
      modifies this`clust, this`sclust, this`chain, this`fptr, this`objsize, this`modified
      ensures Shape() && (Sane(d) ==> res == Ok)
      ensures res == Ok ==> Based() && AtPointer(fs.g, F(), chain) && old(SC()) <= C() && Since(d, ch, fc)
      ensures res == Ok && fptr % 512 != 0 ==>
                fptr / 512 < |Sects(fs.g, chain)| && nsect == Sects(fs.g, chain)[fptr / 512]
      ensures res == Ok ==> objsize == Max(old(objsize), fptr)
      ensures modified == (old(modified) || objsize != old(objsize))
      ensures res == Ok ==> var to := old(fptr) + left;
                            fptr == to || (fptr < to && fptr == 512 * |Sects(fs.g, chain)| && NoRoom())
    {
      nsect := 0;
      var c1, left1;
      ghost var m1, e;
      res, c1, left1, m1, e := SeekWalk(c, left, m, d, ch, fc);
      if res == Ok { nsect := SeekFinish(c1, left1, m1, e); }
    }

    /** Moves the file pointer to `ofs`, or as far as the disk has room; `nsect` is the sector it is in if it is off a
        sector boundary. */
    method SeekMove(ofs: nat) returns (res: FResult, nsect: nat)
      requires Valid() && ofs < 0x1_0000_0000 && (!canWrite ==> ofs <= objsize)
      modifies fs`disk, fs`wflag, fs`winsect, fs.win, fs`freeClst, fs`lastClst
      modifies this`clust, this`sclust, this`chain, this`fptr, this`objsize, this`modified
      ensures Shape() && (Sane(old(fs.L())) ==> res == Ok)
      ensures res == Ok ==> Based() && AtPointer(fs.g, F(), chain) && old(C()) <= C()
      ensures res == Ok ==> Since(old(fs.L()), old(chain), old(fs.freeClst))
      ensures res == Ok && fptr % 512 != 0 ==>
                fptr / 512 < |Sects(fs.g, chain)| && nsect == Sects(fs.g, chain)[fptr / 512]
      ensures res == Ok ==> objsize == Max(old(objsize), fptr)
      ensures modified == (old(modified) || objsize != old(objsize))
      ensures res == Ok ==> fptr == ofs || (fptr < ofs && fptr == 512 * |Sects(fs.g, chain)| && NoRoom())
    {
      ghost var d, ch, fc := fs.L(), chain, fs.freeClst;
      nsect := 0;
      if ofs == 0 {
        KeptByData(fs.g, d, d, ch);
        PointerIrrelevant(fs.g, d, F(), ch, 0);
        fptr := 0;
        return Ok, 0;
      }
      var c, left;
      ghost var m;
      res, c, left, m := SeekStart(ofs);
      if res != Ok || c == 0 { return; }
      res, nsect := SeekRun(c, left, m, d, ch, fc);
    }

    /** Makes the buffer hold the sector the file pointer is in. */
    method SeekFill(nsect: nat, ghost d: seq<Sector>, ghost ch: seq<nat>, ghost fc: nat) returns (res: FResult)
      requires Based() && AtPointer(fs.g, F(), chain) && Since(d, ch, fc)
      requires fptr % 512 != 0 ==> fptr / 512 < |Sects(fs.g, chain)| && nsect == Sects(fs.g, chain)[fptr / 512]
      modifies fs`disk, this`dirty, this`sect, buf
      ensures Shape() && (res == Ok || (res == DiskErr && !fs.reliable))
      ensures res == Ok ==> Valid() && C() == old(C()) && Since(d, ch, fc)
      ensures res == Ok ==> Fat(fs.g, fs.L()) == Fat(fs.g, old(fs.L()))
    {
      res := Ok;
      if fptr % 512 != 0 {
        assert (fptr - 1) / 512 == fptr / 512;
        ghost var e := fs.L();
        res := LoadForRead(nsect);
        if res == Ok {
          KeptByData(fs.g, e, fs.L(), chain);
          KeptTrans(fs.g, d, e, fs.L(), ch, chain, chain);
        }
      }
    }

    /** Moves the file pointer to `ofs`, stretching a file open for writing if that lies beyond its end. */
    method Seek(ofs: nat) returns (res: FResult)
      requires Shape() && (err == Ok ==> Valid()) && ofs < 0x1_0000_0000
      modifies fs`disk, fs`wflag, fs`winsect, fs.win, fs`freeClst, fs`lastClst, buf
      modifies this`clust, this`sclust, this`chain, this`fptr, this`objsize, this`modified, this`dirty, this`sect,
               this`err
      ensures Shape() && (err == Ok ==> Valid())
      ensures old(err) != Ok ==> res == old(err) && err == old(err)
      ensures old(err) == Ok ==> res == err && (Sane(old(fs.L())) ==> res == Ok)
      ensures res == Ok ==> old(C()) <= C() && |C()| == Max(|old(C())|, fptr)
      ensures res == Ok ==> Since(old(fs.L()), old(chain), old(fs.freeClst))
      ensures modified == (old(modified) || objsize != old(objsize))
      ensures res == Ok ==> var to := if ofs > |old(C())| && !canWrite then |old(C())| else ofs;
                            fptr == to || (fptr < to && fptr == 512 * |Sects(fs.g, chain)| && NoRoom())
    {
      if err != Ok { return err; }
      var nsect;
      res, nsect := SeekMove(if ofs > objsize && !canWrite then objsize else ofs);
      if res != Ok { err := res; return; }
      res := SeekFill(nsect, old(fs.L()), old(chain), old(fs.freeClst));
      if res != Ok { err := res; }
    }

    // ---------- Truncating

    /** Frees the clusters after the one the file pointer is in. */
    method CutClusters() returns (res: FResult)
      requires Valid() && fptr < objsize
      modifies fs`disk, fs`wflag, fs`winsect, fs.win, fs`freeClst
      ensures Shape() && (res == Ok || !fs.reliable)
      ensures WinStep(fs.g, old(fs.winsect), fs.winsect) && NonFat(fs.g, fs.L()) == NonFat(fs.g, old(fs.L()))
      ensures ChainOk(Fat(fs.g, old(fs.L())), chain) && ClustersFor(fs.g.csize, fptr) <= |chain|
      ensures res == Ok ==>
                Fat(fs.g, fs.L()) == CutTo(fs.g, Fat(fs.g, old(fs.L())), chain, ClustersFor(fs.g.csize, fptr))
      ensures res == Ok ==> CountKept(fs.g, old(fs.L()), old(fs.freeClst), fs.L(), fs.freeClst)
    {
      CutPlan(fs.g, fs.L(), fs.winsect, F(), chain);
      if fptr == 0 {
        res := RemoveChain(fs, sclust, 0);
      } else {
        var ncl := GetFat(fs, clust);
        res := Ok;
        if ncl == INVALID { res := DiskErr; }
        if ncl == 1 { res := IntErr; }
        if res == Ok && ncl < fs.g.nFatent {
          res := RemoveChain(fs, ncl, clust);
        }
      }
    }

    /** Since the logical disk was `d`, the chain `ch` and the number of free clusters recorded as `fc`, the clusters
        that the file does not need up to its pointer have been freed, nothing else has changed in the table, and
        outside the FATs only sectors of the file. */
    ghost predicate Cut(d: seq<Sector>, ch: seq<nat>, fc: nat)
      requires Shape()
      reads this, fs, fs.win, buf
    {
      var q := ClustersFor(fs.g.csize, fptr);
      && Ready(fs.g, d) && ChainOk(Fat(fs.g, d), ch) && Clusters(fs.g, ch)
      && q <= |ch| && chain == ch[..q]
      && Fat(fs.g, fs.L()) == CutTo(fs.g, Fat(fs.g, d), ch, q)
      && CutOnly(fs.g, d, fs.L(), ch)
      && CountKept(fs.g, d, fc, fs.L(), fs.freeClst)
    }

    /** Writes the buffer back, whatever the file is like meanwhile. */
    method FlushCut() returns (res: FResult)
      requires Shape() && (dirty ==> FatEnd(fs.g) <= sect < fs.g.volEnd && sect != fs.winsect)
      modifies fs`disk, this`dirty
      ensures Shape() && (res == Ok || !fs.reliable)
      ensures res == Ok ==> fs.L() == (if old(dirty) then old(fs.L())[sect := buf[..]] else old(fs.L())) && !dirty
    {
      res := Ok;
      if dirty {
        var ok := WriteSector(fs, buf[..], sect);
        if ok { dirty := false; } else { res := DiskErr; }
      }
    }

    /** The file ends at its pointer. */
    method SetTruncated(ghost ch: seq<nat>)
      requires buf.Length == 512
      modifies this`sclust, this`objsize, this`modified, this`chain
      ensures F() == old(F()).(objsize := fptr, sclust := if fptr == 0 then 0 else old(sclust)) && chain == ch
      ensures modified
    {
      if fptr == 0 { sclust := 0; }
      objsize := fptr;
      modified := true;
      chain := ch;
    }

    /** The truncation proper. */
    method TruncateHere() returns (res: FResult)
      requires Valid() && fptr < objsize
      modifies fs`disk, fs`wflag, fs`winsect, fs.win, fs`freeClst, this`sclust, this`objsize, this`chain
      modifies this`modified, this`dirty
      ensures Shape() && (res == Ok || !fs.reliable) && modified
      ensures res == Ok ==> Valid() && C() == old(C())[..fptr] && Cut(old(fs.L()), old(chain), old(fs.freeClst))
    {
      ghost var d, w, f, ch := fs.L(), fs.winsect, F(), chain;
      res := CutClusters();
      BufferPlace(fs.g, d, w, fs.winsect, f, ch);
      ghost var d1 := fs.L();
      SetTruncated(ch[..ClustersFor(fs.g.csize, fptr)]);
      if res == Ok { res := FlushCut(); }
      if res == Ok { Truncated(fs.g, d, w, f, ch, d1, fs.L(), fs.winsect, F()); }
    }

    /** Cuts the file at the file pointer: frees the clusters after the one it is in, and touches no other. */
    method Truncate() returns (res: FResult)
      requires Shape() && (err == Ok ==> Valid())
      modifies fs`disk, fs`wflag, fs`winsect, fs.win, fs`freeClst, this`sclust, this`objsize, this`chain
      modifies this`modified, this`dirty, this`err
      ensures Shape() && (err == Ok ==> Valid())
      ensures old(err) != Ok ==> res == old(err) && err == old(err)
      ensures old(err) == Ok && !canWrite ==> res == Denied && err == Ok
      ensures old(err) == Ok && canWrite ==> res == err && (res == Ok || !fs.reliable)
      ensures res == Ok ==> fptr <= |old(C())| && C() == old(C())[..fptr]
      ensures res == Ok && fptr == |old(C())| ==> chain == old(chain) && fs.L() == old(fs.L())
      ensures modified == (old(modified) || (old(err) == Ok && canWrite && fptr < old(objsize)))
      ensures res == Ok && fptr < |old(C())| ==> Cut(old(fs.L()), old(chain), old(fs.freeClst))
    {
      if err != Ok { return err; }
      if !canWrite { return Denied; }
      res := Ok;
      if fptr < objsize {
        res := TruncateHere();
        if res != Ok { err := res; }
      }
    }
  }
}
