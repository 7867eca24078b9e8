/** The state of a mounted FAT volume: its layout, the medium under it, and the filesystem object with its
    one-sector window. */
module Volume {
  import opened Division

  type byte = b: int | 0 <= b < 256

  // The sector size is 512 throughout: the configuration fixes it. It is written out because the solver treats a
  // product with a named constant as a product of two unknowns.

  type Sector = s: seq<byte> | |s| == 512 witness seq(512, i => 0)

  /** Sector number that marks an unusable window. It is also the disk-error code of `GetFat` and `CreateChain`. */
  const INVALID: nat := 0xFFFF_FFFF

  datatype FResult = Ok | DiskErr | IntErr | NoFile | Denied | InvalidName

  datatype FsType = Fat12 | Fat16 | Fat32

  /** The fields of the filesystem object that mounting fixes. `volEnd` is the first sector after the volume. */
  datatype Geometry = Geometry(
    fsType: FsType, nFats: nat, csize: nat, nRootdir: nat, nFatent: nat, fsize: nat,
    fatbase: nat, dirbase: nat, database: nat, volEnd: nat)

  /** A snapshot of the medium and the window. */
  datatype Vol = Vol(disk: seq<Sector>, win: Sector, winsect: nat, wflag: bool)

  function MaxClusters(t: FsType): nat {
    match t
    case Fat12 => 0xFF5
    case Fat16 => 0xFFF5
    case Fat32 => 0x0FFF_FFF5
  }

  /** Number of bytes the FAT entries below `n` occupy. */
  function FatBytes(t: FsType, n: nat): nat {
    match t
    case Fat12 => n * 3 / 2 + n % 2
    case Fat16 => n * 2
    case Fat32 => n * 4
  }

  /** They are just enough to hold so many entries of 12, 16 or 32 bits. */
  lemma FatBytesHold(t: FsType, n: nat)
    ensures var bits := match t { case Fat12 => 12 case Fat16 => 16 case Fat32 => 32 };
      bits * n <= 8 * FatBytes(t, n) < bits * n + 8
  {
  }

  /** Unsigned 32-bit subtraction. */
  function Sub32(a: nat, b: nat): (r: nat)
    requires b <= 0xFFFF_FFFF
    ensures r + b == a || (a < b && r + b == a + 0x1_0000_0000)
  {
    if b <= a then a - b else a + 0x1_0000_0000 - b
  }

  ghost predicate IsSplice<T>(a: seq<T>, i: nat, bs: seq<T>, r: seq<T>) {
    |r| == |a| && forall j: nat | j < |a| :: r[j] == if i <= j < i + |bs| then bs[j - i] else a[j]
  }

  /** `a` with `bs` stored from offset `i` on. */
  ghost function Splice<T>(a: seq<T>, i: nat, bs: seq<T>): (r: seq<T>)
    requires i + |bs| <= |a|
    ensures IsSplice(a, i, bs, r)
  {
    assert IsSplice(a, i, bs, a[..i] + bs + a[i + |bs|..]);
    var r :| IsSplice(a, i, bs, r);
    r
  }

  function FatEnd(g: Geometry): nat {
    g.fatbase + (if g.nFats == 2 then 2 * g.fsize else g.fsize)
  }

  predicate InFat1(g: Geometry, s: nat) {
    g.fatbase <= s < g.fatbase + g.fsize
  }

  predicate InMirror(g: Geometry, s: nat) {
    g.nFats == 2 && g.fatbase + g.fsize <= s < g.fatbase + 2 * g.fsize
  }

  predicate ValidClusterSize(csize: nat) {
    csize in {1, 2, 4, 8, 16, 32, 64, 128}
  }

  /** What every accepted boot sector guarantees (proved in `Mount`) and every operation relies on. */
  predicate Sound(g: Geometry) {
    && 1 <= g.nFats <= 2
    && ValidClusterSize(g.csize)
    && 3 <= g.nFatent <= MaxClusters(g.fsType) + 2
    && FatBytes(g.fsType, g.nFatent) <= g.fsize * 512
    && 0 < g.fatbase
    && FatEnd(g) <= g.database
    && g.database + Sectors(g.csize, g.nFatent - 2) <= g.volEnd < INVALID
    && (g.fsType != Fat32 ==>
          && 0 < g.nRootdir && g.nRootdir % 16 == 0
          && g.dirbase == FatEnd(g)
          && g.dirbase + g.nRootdir / 16 <= g.database)
  }

  /** The sector as a client sees it: the window's copy where the window stands, the medium elsewhere. */
  function Log(v: Vol, s: nat): Sector
    requires s < |v.disk|
  {
    if s == v.winsect then v.win else v.disk[s]
  }

  /** Every sector of the first FAT that is not waiting in the window equals its copy in the second FAT. */
  ghost predicate MirrorOk(g: Geometry, v: Vol)
    requires g.volEnd <= |v.disk| && Sound(g)
  {
    g.nFats == 2 ==>
      forall s: nat {:trigger InFat1(g, s)} :: InFat1(g, s) && !(v.wflag && s == v.winsect) ==>
          v.disk[s] == v.disk[s + g.fsize]
  }

  /** The invariant of the window and the medium. `mr`: writes to the second FAT do not fail. */
  ghost predicate VolInv(g: Geometry, mr: bool, v: Vol) {
    && Sound(g)
    && g.volEnd <= |v.disk| < INVALID
    && (v.winsect == INVALID || v.winsect < |v.disk|)
    && !InMirror(g, v.winsect)
    && (v.wflag ==> v.winsect != INVALID)
    && (!v.wflag && v.winsect < |v.disk| ==> v.disk[v.winsect] == v.win)
    && (mr ==> MirrorOk(g, v))
  }

  function Blank(): Sector {
    seq(512, i => 0)
  }

  // Definitions that would cost the solver dearly wherever they are merely mentioned are given in two steps: a
  // predicate whose quantifiers can only be used at indices named with `At`, and a function that satisfies it.

  predicate At(i: int) {
    true
  }

  // In the same way a condition under `Look` takes no part in a proof that does not name `Look`.

  predicate Look(i: int) {
    true
  }

  /** `d` is the medium as the filesystem sees it through its window. The second FAT, which is never read, is blank. */
  ghost predicate IsLogical(g: Geometry, v: Vol, d: seq<Sector>) {
    && |d| == |v.disk|
    && forall s: nat {:trigger At(s)} :: At(s) && s < |d| ==> d[s] == if InMirror(g, s) then Blank() else Log(v, s)
  }

  ghost function Logical(g: Geometry, v: Vol): (d: seq<Sector>)
    ensures |d| == |v.disk|
  {
    var l := seq(|v.disk|, s requires 0 <= s < |v.disk| => if InMirror(g, s) then Blank() else Log(v, s));
    assert IsLogical(g, v, l);
    var d :| IsLogical(g, v, d);
    d
  }

  lemma LogicalAt(g: Geometry, v: Vol, s: nat)
    requires s < |v.disk|
    ensures Logical(g, v)[s] == if InMirror(g, s) then Blank() else Log(v, s)
  {
    assert At(s);
  }

  /** Everything but the FATs. */
  ghost predicate IsNonFat(g: Geometry, d: seq<Sector>, r: seq<Sector>) {
    && |r| == |d|
    && forall s: nat {:trigger At(s)} :: At(s) && s < |d| ==> r[s] == if InFat1(g, s) then Blank() else d[s]
  }

  ghost function NonFat(g: Geometry, d: seq<Sector>): (r: seq<Sector>)
    ensures |r| == |d|
  {
    assert IsNonFat(g, d, seq(|d|, s requires 0 <= s < |d| => if InFat1(g, s) then Blank() else d[s]));
    var r :| IsNonFat(g, d, r);
    r
  }

  lemma NonFatAt(g: Geometry, d: seq<Sector>, s: nat)
    requires s < |d|
    ensures NonFat(g, d)[s] == if InFat1(g, s) then Blank() else d[s]
  {
    assert At(s);
  }

  /** A window that was at `w` is now there, at a sector of the first FAT, or unusable. */
  predicate WinStep(g: Geometry, w: nat, w': nat) {
    w' == w || w' == INVALID || InFat1(g, w')
  }

  /** The filesystem object together with the medium it is mounted on. A medium operation that fails leaves
      arbitrary contents behind, so no result below depends on what a failed transfer wrote. */
  class Fatfs {
    const g: Geometry
    /** No operation on a sector outside the second FAT fails. */
    const reliable: bool
    /** No operation on a sector of the second FAT fails. */
    const mirrorReliable: bool
    const win: array<byte>
    var disk: seq<Sector>
    var winsect: nat
    var wflag: bool
    var freeClst: nat
    var lastClst: nat

    ghost function V(): (v: Vol)
      requires win.Length == 512
      reads this, win
    {
      Vol(disk, win[..], winsect, wflag)
    }

    ghost predicate Valid()
      reads this, win
    {
      win.Length == 512 && VolInv(g, mirrorReliable, V())
    }

    constructor (g: Geometry, disk: seq<Sector>, reliable: bool, mirrorReliable: bool)
      requires Sound(g) && g.volEnd <= |disk| < INVALID
      requires mirrorReliable && g.nFats == 2 ==> forall s: nat :: InFat1(g, s) ==> disk[s] == disk[s + g.fsize]
      ensures Valid() && fresh(win) && this.g == g && this.disk == disk
      ensures this.reliable == reliable && this.mirrorReliable == mirrorReliable
      ensures winsect == INVALID && freeClst == INVALID && lastClst == INVALID
    {
      this.g, this.reliable, this.mirrorReliable := g, reliable, mirrorReliable;
      this.disk := disk;
      win := new byte[512](i => 0);
      winsect, wflag, freeClst, lastClst := INVALID, false, INVALID, INVALID;
    }

    ghost function L(): (d: seq<Sector>)
      requires win.Length == 512
      reads this, win
    {
      Logical(g, V())
    }

    predicate MustWork(s: nat) {
      if InMirror(g, s) then mirrorReliable else reliable
    }

    /** The medium's write of one sector. */
    method DiskWrite(data: Sector, s: nat) returns (ok: bool)
      modifies this`disk
      ensures ok ==> s < |old(disk)| && disk == old(disk)[s := data]
      ensures !ok ==> |disk| == |old(disk)| && forall i | 0 <= i < |disk| && i != s :: disk[i] == old(disk[i])
      ensures s < |old(disk)| && MustWork(s) ==> ok
    {
      if s >= |disk| { return false; }
      var fault: bool := *;
      if fault && !MustWork(s) {
        var garbage: Sector := *;
        disk := disk[s := garbage];
        return false;
      }
      disk := disk[s := data];
      return true;
    }

    /** The medium's read of one sector. */
    method DiskRead(s: nat) returns (ok: bool, data: Sector)
      ensures ok ==> s < |disk| && data == disk[s]
      ensures s < |disk| && MustWork(s) ==> ok
    {
      data := *;
      if s >= |disk| { return false, data; }
      var fault: bool := *;
      if fault && !MustWork(s) { return false, data; }
      return true, disk[s];
    }
  }
}
