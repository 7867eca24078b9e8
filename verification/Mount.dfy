/** Reading the layout of a volume from its boot sector. */
module Mount {
  import opened Division
  import opened Volume
  import opened FatTable
  import opened FileSpec

  /** The fields of the boot sector's parameter block that are used. */
  datatype Bpb = Bpb(
    bytsPerSec: nat, secPerClus: byte, rsvdSecCnt: nat, numFats: byte, rootEntCnt: nat, totSec16: nat, fatSz16: nat,
    totSec32: nat, fatSz32: nat, fsVer32: nat, rootClus32: nat)

  datatype Mounting = Mounted(g: Geometry) | NoFilesystem

  /** The fields have the widths they have on the medium. */
  predicate Loaded(b: Bpb) {
    && b.bytsPerSec < 0x1_0000 && b.rsvdSecCnt < 0x1_0000 && b.rootEntCnt < 0x1_0000 && b.totSec16 < 0x1_0000
    && b.fatSz16 < 0x1_0000 && b.totSec32 < 0x1_0000_0000 && b.fatSz32 < 0x1_0000_0000 && b.fsVer32 < 0x1_0000
    && b.rootClus32 < 0x1_0000_0000
  }

  function LoadBpb(w: Sector): (b: Bpb)
    ensures Loaded(b)
  {
    Bpb(LdWord(w[11], w[12]), w[13], LdWord(w[14], w[15]), w[16], LdWord(w[17], w[18]), LdWord(w[19], w[20]),
        LdWord(w[22], w[23]), Dword(w, 32), Dword(w, 36), LdWord(w[42], w[43]), Dword(w, 44))
  }

  /** A number as two bytes, and as four, the low one first. */
  function Word(v: nat): (s: seq<byte>)
    requires v < 0x1_0000
  {
    [v % 256, v / 256]
  }

  function DoubleWord(v: nat): (s: seq<byte>)
    requires v < 0x1_0000_0000
  {
    [v % 256, v / 256 % 256, v / 0x1_0000 % 256, v / 0x100_0000]
  }

  /** A boot sector whose fields follow each other in the order and with the widths that the parameter block gives them:
      the jump and the name, the fields up to the size of a FAT, the geometry of the drive, the fields of FAT32, the
      rest. */
  function BootSector(b: Bpb, name: seq<byte>, media: byte, drive: seq<byte>, flags: seq<byte>, rest: seq<byte>)
      : seq<byte>
    requires Loaded(b)
  {
    name
    + Word(b.bytsPerSec) + [b.secPerClus] + Word(b.rsvdSecCnt) + [b.numFats] + Word(b.rootEntCnt)
    + Word(b.totSec16) + [media] + Word(b.fatSz16)
    + drive
    + DoubleWord(b.totSec32) + DoubleWord(b.fatSz32) + flags + Word(b.fsVer32) + DoubleWord(b.rootClus32)
    + rest
  }

  lemma WordRead(v: nat)
    requires v < 0x1_0000
    ensures LdWord(Word(v)[0], Word(v)[1]) == v
  {
  }

  lemma DoubleWordRead(v: nat)
    requires v < 0x1_0000_0000
    ensures var s := DoubleWord(v); LdDword(s[0], s[1], s[2], s[3]) == v
  {
    var a, b := v / 256, v / 256 / 256;
    assert v / 0x1_0000 == b && v / 0x100_0000 == b / 256;
    assert v == a * 256 + v % 256 && a == b * 256 + a % 256 && b == b / 256 * 256 + b % 256;
  }

  /** Every field is read where it is. */
  lemma BootSectorRead(b: Bpb, name: seq<byte>, media: byte, drive: seq<byte>, flags: seq<byte>, rest: seq<byte>)
    requires Loaded(b) && |name| == 11 && |drive| == 8 && |flags| == 2 && |rest| == 464
    ensures var w := BootSector(b, name, media, drive, flags, rest); |w| == 512 && LoadBpb(w) == b
  {
    var w := BootSector(b, name, media, drive, flags, rest);
    assert w[11..13] == Word(b.bytsPerSec) && w[14..16] == Word(b.rsvdSecCnt) && w[17..19] == Word(b.rootEntCnt);
    assert w[19..21] == Word(b.totSec16) && w[22..24] == Word(b.fatSz16) && w[42..44] == Word(b.fsVer32);
    assert w[32..36] == DoubleWord(b.totSec32) && w[36..40] == DoubleWord(b.fatSz32);
    assert w[44..48] == DoubleWord(b.rootClus32) && w[13] == b.secPerClus && w[16] == b.numFats;
    WordRead(b.bytsPerSec);
    WordRead(b.rsvdSecCnt);
    WordRead(b.rootEntCnt);
    WordRead(b.totSec16);
    WordRead(b.fatSz16);
    WordRead(b.fsVer32);
    DoubleWordRead(b.totSec32);
    DoubleWordRead(b.fatSz32);
    DoubleWordRead(b.rootClus32);
  }

  function FatSz(b: Bpb): nat {
    if b.fatSz16 == 0 then b.fatSz32 else b.fatSz16
  }

  function TotSec(b: Bpb): nat {
    if b.totSec16 == 0 then b.totSec32 else b.totSec16
  }

  /** Sectors of all FATs, of which there are one or two. */
  function FatSectors(b: Bpb): nat {
    if b.numFats == 2 then 2 * FatSz(b) else FatSz(b)
  }

  /** Sectors before the data area. */
  function SysSectors(b: Bpb): nat {
    b.rsvdSecCnt + FatSectors(b) + b.rootEntCnt / 16
  }

  /** The lower 32 bits of a number, `x % 0x1_0000_0000`; see `WrapIsRemainder`. */
  function Wrap32(x: nat): (r: nat)
    ensures r < 0x1_0000_0000 && (x < 0x1_0000_0000 ==> r == x)
  {
    if x < 0x1_0000_0000 then x else Wrap32(x - 0x1_0000_0000)
  }

  lemma {:induction false} WrapIsRemainder(x: nat)
    ensures Wrap32(x) == x % 0x1_0000_0000
  {
    if x >= 0x1_0000_0000 { WrapIsRemainder(x - 0x1_0000_0000); }
  }

  function TypeOf(nclst: nat): FsType {
    if nclst <= MaxClusters(Fat12) then Fat12 else if nclst <= MaxClusters(Fat16) then Fat16 else Fat32
  }

  /** The number of clusters alone decides the type. */
  lemma TypeExactly(nclst: nat)
    ensures TypeOf(nclst) == Fat12 <==> nclst <= 4085
    ensures TypeOf(nclst) == Fat16 <==> 4086 <= nclst <= 65525
    ensures TypeOf(nclst) == Fat32 <==> nclst >= 65526
  {
  }

  /** The number of clusters and what follows from it. */
  function Limits(b: Bpb, bsect: nat, fasize: nat, sysect: nat): Mounting
    requires b.secPerClus > 0 && sysect <= TotSec(b)
  {
    var nclst := Quot(b.secPerClus, TotSec(b) - sysect);
    var t := TypeOf(nclst);
    if nclst == 0 || nclst > MaxClusters(Fat32) then NoFilesystem
    else if t == Fat32 && (b.fsVer32 != 0 || b.rootEntCnt != 0) then NoFilesystem
    else if t != Fat32 && b.rootEntCnt == 0 then NoFilesystem
    else if FatSz(b) < (FatBytes(t, nclst + 2) + 511) / 512 then NoFilesystem
    else
      var fatbase := Wrap32(bsect + b.rsvdSecCnt);
      Mounted(Geometry(t, b.numFats, b.secPerClus, b.rootEntCnt, nclst + 2, FatSz(b), fatbase,
                       if t == Fat32 then b.rootClus32 else Wrap32(fatbase + fasize),
                       Wrap32(bsect + sysect), bsect + TotSec(b)))
  }

  /** What mounting makes of a parameter block, in 32-bit arithmetic. `bsect`: the sector it was read from. */
  function Layout(b: Bpb, bsect: nat): Mounting {
    var fasize := Wrap32(FatSectors(b));
    var sysect := Wrap32(b.rsvdSecCnt + fasize + b.rootEntCnt / 16);
    if b.bytsPerSec != 512 then NoFilesystem
    else if b.numFats != 1 && b.numFats != 2 then NoFilesystem
    else if !ValidClusterSize(b.secPerClus) then NoFilesystem
    else if b.rootEntCnt % 16 != 0 || b.rsvdSecCnt == 0 || TotSec(b) < sysect then NoFilesystem
    else Limits(b, bsect, fasize, sysect)
  }

  /** The test for a cluster size, `csize == 0 || (csize & (csize - 1))`, lets exactly the powers of two pass. */
  lemma PowerOfTwo(csize: bv8)
    ensures !(csize == 0 || csize & (csize - 1) != 0) <==> csize in {1, 2, 4, 8, 16, 32, 64, 128}
  {
  }

  /** No sum reaches beyond 32 bits. */
  predicate Fits(b: Bpb, bsect: nat) {
    SysSectors(b) < 0x1_0000_0000 && bsect + TotSec(b) < INVALID
  }

  /** The layout that a parameter block stands for: reserved sectors, FATs, root directory, and as many clusters as
      there is room for, whose number decides the type. */
  predicate Describes(b: Bpb, bsect: nat, g: Geometry) {
    && b.bytsPerSec == 512
    && g.nFats == b.numFats && g.csize == b.secPerClus && g.nRootdir == b.rootEntCnt && g.fsize == FatSz(b)
    && bsect < g.fatbase == bsect + b.rsvdSecCnt
    && g.database == bsect + SysSectors(b) && g.volEnd == bsect + TotSec(b)
    && g.nFatent >= 2
    && g.database + Sectors(g.csize, g.nFatent - 2) <= g.volEnd < g.database + Sectors(g.csize, g.nFatent - 1)
    && g.fsType == TypeOf(g.nFatent - 2)
    && g.nRootdir % 16 == 0
    && (g.fsType == Fat32 ==> g.dirbase == b.rootClus32 && g.nRootdir == 0 && b.fsVer32 == 0)
  }

  lemma Divided(n: nat, csize: nat)
    requires csize > 0
    ensures Sectors(csize, Quot(csize, n)) <= n < Sectors(csize, Quot(csize, n) + 1)
  {
    QuotRem(csize, n);
  }

  lemma DividedOnce(csize: nat, a: nat, b: nat, n: nat)
    requires csize > 0 && Sectors(csize, a) <= n < Sectors(csize, a + 1)
             && Sectors(csize, b) <= n < Sectors(csize, b + 1)
    ensures a == b
  {
    if a < b { SectorsMono(csize, a + 1, b); }
    if b < a { SectorsMono(csize, b + 1, a); }
  }

  /** Within 32 bits the arithmetic is exact. */
  lemma Unwrapped(b: Bpb, bsect: nat)
    requires Loaded(b) && Fits(b, bsect)
    ensures Wrap32(FatSectors(b)) == FatSectors(b)
    ensures Wrap32(b.rsvdSecCnt + FatSectors(b) + b.rootEntCnt / 16) == SysSectors(b)
    ensures SysSectors(b) <= TotSec(b) ==>
              && Wrap32(bsect + b.rsvdSecCnt) == bsect + b.rsvdSecCnt
              && Wrap32(bsect + b.rsvdSecCnt + FatSectors(b)) == bsect + b.rsvdSecCnt + FatSectors(b)
              && Wrap32(bsect + SysSectors(b)) == bsect + SysSectors(b)
  {
  }

  /** What an accepted parameter block satisfies. */
  lemma Accepted(b: Bpb, bsect: nat)
    requires Loaded(b) && Fits(b, bsect) && Layout(b, bsect).Mounted?
    ensures b.bytsPerSec == 512 && 1 <= b.numFats <= 2 && ValidClusterSize(b.secPerClus) && b.rootEntCnt % 16 == 0
    ensures b.rsvdSecCnt > 0 && SysSectors(b) <= TotSec(b)
    ensures var g := Layout(b, bsect).g;
      && g.nFats == b.numFats && g.csize == b.secPerClus && g.nRootdir == b.rootEntCnt && g.fsize == FatSz(b)
      && g.fatbase == bsect + b.rsvdSecCnt && g.database == bsect + SysSectors(b) && g.volEnd == bsect + TotSec(b)
      && g.nFatent == Quot(b.secPerClus, TotSec(b) - SysSectors(b)) + 2
      && 3 <= g.nFatent <= MaxClusters(Fat32) + 2 && g.fsType == TypeOf(g.nFatent - 2)
      && FatSz(b) >= (FatBytes(g.fsType, g.nFatent) + 511) / 512
      && (if g.fsType == Fat32 then g.dirbase == b.rootClus32 && b.rootEntCnt == 0 && b.fsVer32 == 0
          else g.dirbase == bsect + b.rsvdSecCnt + FatSectors(b) && b.rootEntCnt > 0)
  {
    Unwrapped(b, bsect);
  }

  lemma RoundedUp(n: nat, k: nat)
    ensures k >= (n + 511) / 512 <==> n <= 512 * k
  {
  }

  lemma AcceptedDescribes(b: Bpb, bsect: nat)
    requires Loaded(b) && Fits(b, bsect) && Layout(b, bsect).Mounted?
    ensures Describes(b, bsect, Layout(b, bsect).g)
  {
    Accepted(b, bsect);
    Divided(TotSec(b) - SysSectors(b), b.secPerClus);
  }

  /** An accepted volume whose sums stay within 32 bits has the layout its parameter block stands for, and is sound. */
  lemma AcceptedIsSound(b: Bpb, bsect: nat)
    requires Loaded(b) && Fits(b, bsect) && Layout(b, bsect).Mounted?
    ensures Describes(b, bsect, Layout(b, bsect).g) && Sound(Layout(b, bsect).g)
  {
    var g := Layout(b, bsect).g;
    AcceptedDescribes(b, bsect);
    Accepted(b, bsect);
    RoundedUp(FatBytes(g.fsType, g.nFatent), g.fsize);
  }

  lemma DescribedLimits(b: Bpb, bsect: nat, g: Geometry, fasize: nat)
    requires Describes(b, bsect, g) && Sound(g)
    ensures Limits(b, bsect, fasize, SysSectors(b)).Mounted?
  {
    var n := TotSec(b) - SysSectors(b);
    Divided(n, b.secPerClus);
    RoundedUp(FatBytes(g.fsType, g.nFatent), g.fsize);
    DividedOnce(g.csize, g.nFatent - 2, Quot(b.secPerClus, n), n);
  }

  lemma DescribedIsAccepted(b: Bpb, bsect: nat, g: Geometry)
    requires Loaded(b) && Fits(b, bsect) && Describes(b, bsect, g) && Sound(g)
    ensures Layout(b, bsect).Mounted?
  {
    Unwrapped(b, bsect);
    DescribedLimits(b, bsect, g, FatSectors(b));
  }

  /** A volume is accepted exactly when its parameter block stands for a sound layout. */
  lemma AcceptedExactly(b: Bpb, bsect: nat)
    requires Loaded(b) && Fits(b, bsect)
    ensures Layout(b, bsect).Mounted? <==> exists g :: Describes(b, bsect, g) && Sound(g)
  {
    if Layout(b, bsect).Mounted? {
      AcceptedIsSound(b, bsect);
    }
    forall g | Describes(b, bsect, g) && Sound(g)
      ensures Layout(b, bsect).Mounted?
    {
      DescribedIsAccepted(b, bsect, g);
    }
  }

  // ---------- Addresses

  /** Where the code finds sector `o` of cluster `c`. */
  function AddressOf(g: Geometry, c: nat, o: nat): nat
    requires 2 <= c
  {
    Wrap32(Wrap32(g.database + Sectors(g.csize, c - 2)) + o)
  }

  /** Where it finds sector `k` of the FATs. */
  function FatAddress(g: Geometry, k: nat): nat {
    Wrap32(g.fatbase + k)
  }

  /** Where it finds sector `k` of a root directory that is not a chain. */
  function RootAddress(g: Geometry, k: nat): nat {
    Wrap32(g.dirbase + k)
  }

  /** Every sector that the code addresses, in 32 bits, is the one where the parameter block puts it: the FATs behind
      the reserved sectors, then the root directory, then the clusters. */
  ghost predicate InPlace(b: Bpb, bsect: nat, g: Geometry) {
    && (forall k: nat | k < FatSectors(b) :: FatAddress(g, k) == bsect + b.rsvdSecCnt + k)
    && (g.fsType != Fat32 ==> forall k: nat | k < b.rootEntCnt / 16 ::
                                RootAddress(g, k) == bsect + b.rsvdSecCnt + FatSectors(b) + k)
    && forall c: nat, o: nat {:trigger AddressOf(g, c, o)} | 2 <= c < g.nFatent && o < g.csize ::
         AddressOf(g, c, o) == bsect + SysSectors(b) + Sectors(g.csize, c - 2) + o
  }

  /** The number of sectors from the boot sector to the end of the last cluster. */
  function Span(b: Bpb, g: Geometry): nat
    requires g.nFatent >= 2
  {
    SysSectors(b) + Sectors(g.csize, g.nFatent - 2)
  }

  lemma LayoutShape(b: Bpb, bsect: nat)
    requires Loaded(b) && Layout(b, bsect).Mounted?
    ensures var g := Layout(b, bsect).g;
      && g.nFatent >= 3 && g.csize == b.secPerClus > 0
      && g.fatbase == Wrap32(bsect + b.rsvdSecCnt)
      && (g.fsType != Fat32 ==> g.dirbase == Wrap32(g.fatbase + Wrap32(FatSectors(b))))
      && g.database == Wrap32(bsect + Wrap32(b.rsvdSecCnt + Wrap32(FatSectors(b)) + b.rootEntCnt / 16))
  {
  }

  lemma BasesExact(b: Bpb, bsect: nat)
    requires Loaded(b) && Layout(b, bsect).Mounted? && bsect + SysSectors(b) < 0x1_0000_0000
    ensures var g := Layout(b, bsect).g;
      && g.fatbase == bsect + b.rsvdSecCnt && g.database == bsect + SysSectors(b)
      && (g.fsType != Fat32 ==> g.dirbase == bsect + b.rsvdSecCnt + FatSectors(b))
  {
    LayoutShape(b, bsect);
  }

  lemma ExactInPlace(b: Bpb, bsect: nat, g: Geometry)
    requires g.nFatent >= 2 && bsect + Span(b, g) <= 0x1_0000_0000
    requires g.fatbase == bsect + b.rsvdSecCnt && g.database == bsect + SysSectors(b)
    requires g.fsType != Fat32 ==> g.dirbase == bsect + b.rsvdSecCnt + FatSectors(b)
    ensures InPlace(b, bsect, g)
  {
    forall c: nat, o: nat | 2 <= c < g.nFatent && o < g.csize
      ensures AddressOf(g, c, o) == bsect + SysSectors(b) + Sectors(g.csize, c - 2) + o
    {
      SectorsMono(g.csize, c - 1, g.nFatent - 2);
    }
  }

  /** Within 32 bits all addresses are exact. */
  lemma SpanInPlace(b: Bpb, bsect: nat)
    requires Loaded(b) && Layout(b, bsect).Mounted? && bsect + Span(b, Layout(b, bsect).g) <= 0x1_0000_0000
    ensures InPlace(b, bsect, Layout(b, bsect).g)
  {
    var g := Layout(b, bsect).g;
    LayoutShape(b, bsect);
    SectorsMono(g.csize, 0, g.nFatent - 2);
    BasesExact(b, bsect);
    ExactInPlace(b, bsect, g);
  }

  /** The last sector of the last cluster is in its place only if nothing wraps. */
  lemma InPlaceSpan(b: Bpb, bsect: nat)
    requires Loaded(b) && Layout(b, bsect).Mounted? && InPlace(b, bsect, Layout(b, bsect).g)
    ensures bsect + Span(b, Layout(b, bsect).g) <= 0x1_0000_0000
  {
    var g := Layout(b, bsect).g;
    LayoutShape(b, bsect);
    var c, o := g.nFatent - 1, g.csize - 1;
    assert AddressOf(g, c, o) == bsect + SysSectors(b) + Sectors(g.csize, c - 2) + o;
  }

  /** The code addresses an accepted volume rightly if and only if its sectors, counted from the boot sector to the end
      of the last cluster, have numbers of 32 bits. */
  lemma InPlaceExactly(b: Bpb, bsect: nat)
    requires Loaded(b) && Layout(b, bsect).Mounted?
    ensures InPlace(b, bsect, Layout(b, bsect).g) <==> bsect + Span(b, Layout(b, bsect).g) <= 0x1_0000_0000
  {
    if bsect + Span(b, Layout(b, bsect).g) <= 0x1_0000_0000 {
      SpanInPlace(b, bsect);
    } else if InPlace(b, bsect, Layout(b, bsect).g) {
      InPlaceSpan(b, bsect);
    }
  }

  /** Addressed rightly, the sectors are apart: those of different clusters, and those of clusters from the FATs, which
      come after the boot sector, and from the root directory, which comes after them. */
  lemma PlacesApart(b: Bpb, bsect: nat, g: Geometry, c: nat, o: nat, c': nat, o': nat, k: nat)
    requires InPlace(b, bsect, g) && b.rsvdSecCnt > 0
    requires 2 <= c < g.nFatent && 2 <= c' < g.nFatent && o < g.csize && o' < g.csize
    ensures AddressOf(g, c, o) == AddressOf(g, c', o') ==> c == c' && o == o'
    ensures k < FatSectors(b) ==> bsect < FatAddress(g, k) < AddressOf(g, c, o)
    ensures g.fsType != Fat32 && k < b.rootEntCnt / 16 ==>
              bsect + b.rsvdSecCnt + FatSectors(b) <= RootAddress(g, k) < AddressOf(g, c, o)
  {
    var at, at' := AddressOf(g, c, o), AddressOf(g, c', o');
    assert at == bsect + SysSectors(b) + Sectors(g.csize, c - 2) + o;
    assert at' == bsect + SysSectors(b) + Sectors(g.csize, c' - 2) + o';
    if c < c' {
      SectorsMono(g.csize, c - 2, c' - 2);
    } else if c' < c {
      SectorsMono(g.csize, c' - 2, c - 2);
    }
  }

  /** A volume that is accepted and not addressed rightly: two FATs of 2^31 sectors, whose sum wraps to nothing. */
  lemma WrappedVolume()
    ensures var b := Bpb(512, 128, 1, 2, 512, 161, 0, 0, 0x8000_0000, 0, 0);
      Loaded(b) && Layout(b, 0).Mounted? && !InPlace(b, 0, Layout(b, 0).g) && !Sound(Layout(b, 0).g)
  {
    var b := Bpb(512, 128, 1, 2, 512, 161, 0, 0, 0x8000_0000, 0, 0);
    InPlaceExactly(b, 0);
  }

  lemma SoundPlace(g: Geometry, c: nat, c': nat, s: nat)
    requires Sound(g) && 2 <= c < g.nFatent && 2 <= c' < g.nFatent && InCluster(g, c, s)
    ensures EntryOffset(g.fsType, c) + EntrySize(g.fsType) <= 512 * g.fsize
    ensures g.fatbase < s < g.volEnd && FatEnd(g) <= s && (g.fsType != Fat32 ==> g.dirbase + g.nRootdir / 16 <= s)
    ensures InCluster(g, c', s) ==> c' == c
    ensures Mask(g.fsType, INVALID) >= g.nFatent
  {
    EntryFits(g, seq(512 * g.fsize, i => 0), c);
    ClusterBounds(g, c);
    if InCluster(g, c', s) { ClustersApart(g, c, c', s); }
    EndMarkEndsChain(g);
  }

  /** What soundness means for a cluster of an accepted volume: its FAT entry lies within the first FAT, the last of a
      FAT12 table included; its sectors lie within the volume, after the FATs and the root directory, and apart from
      those of every other cluster; and the end mark reads back as one. */
  lemma ClusterPlace(b: Bpb, bsect: nat, c: nat, c': nat, s: nat)
    requires Loaded(b) && Fits(b, bsect) && Layout(b, bsect).Mounted?
    requires var g := Layout(b, bsect).g; 2 <= c < g.nFatent && 2 <= c' < g.nFatent && InCluster(g, c, s)
    ensures var g := Layout(b, bsect).g;
      && EntryOffset(g.fsType, c) + EntrySize(g.fsType) <= 512 * g.fsize
      && bsect < s < bsect + TotSec(b)
      && FatEnd(g) <= s && (g.fsType != Fat32 ==> g.dirbase + g.nRootdir / 16 <= s)
      && (InCluster(g, c', s) ==> c' == c)
      && Mask(g.fsType, INVALID) >= g.nFatent
  {
    AcceptedIsSound(b, bsect);
    SoundPlace(Layout(b, bsect).g, c, c', s);
  }

  // Where the fields are matters only where `Open` is mentioned.

  predicate Open(i: int) {
    true
  }

  ghost predicate IsBpb(w: Sector, b: Bpb) {
    Loaded(b) && forall i: int {:trigger Open(i)} :: Open(i) ==> b == LoadBpb(w)
  }

  /** The parameter block in a boot sector. */
  ghost function BpbOf(w: Sector): (b: Bpb)
    ensures Loaded(b)
  {
    assert IsBpb(w, LoadBpb(w));
    var b :| IsBpb(w, b);
    b
  }

  /** Its second half: the type, the boundaries and the needed size of the FAT. */
  method FindLimits(b: Bpb, bsect: nat, fsize: nat, fasize: nat, tsect: nat, sysect: nat) returns (m: Mounting)
    requires b.secPerClus > 0 && sysect <= tsect == TotSec(b) && fsize == FatSz(b)
    ensures m == Limits(b, bsect, fasize, sysect)
  {
    var nclst := Quot(b.secPerClus, tsect - sysect);
    if nclst == 0 || nclst > MaxClusters(Fat32) { return NoFilesystem; }
    var fmt := Fat32;
    if nclst <= MaxClusters(Fat16) { fmt := Fat16; }
    if nclst <= MaxClusters(Fat12) { fmt := Fat12; }
    var nFatent := nclst + 2;
    var fatbase := Wrap32(bsect + b.rsvdSecCnt);
    var dirbase;
    var szbfat;
    if fmt == Fat32 {
      if b.fsVer32 != 0 || b.rootEntCnt != 0 { return NoFilesystem; }
      dirbase := b.rootClus32;
      szbfat := nFatent * 4;
    } else {
      if b.rootEntCnt == 0 { return NoFilesystem; }
      dirbase := Wrap32(fatbase + fasize);
      szbfat := if fmt == Fat16 then nFatent * 2 else nFatent * 3 / 2 + nFatent % 2;
    }
    if fsize < (szbfat + 511) / 512 { return NoFilesystem; }
    return Mounted(Geometry(fmt, b.numFats, b.secPerClus, b.rootEntCnt, nFatent, fsize, fatbase, dirbase,
                            Wrap32(bsect + sysect), bsect + tsect));
  }

  method CheckBpb(b: Bpb, bsect: nat) returns (m: Mounting)
    ensures m == Layout(b, bsect)
  {
    if b.bytsPerSec != 512 { return NoFilesystem; }
    var fasize := b.fatSz16;
    if fasize == 0 { fasize := b.fatSz32; }
    var fsize := fasize;
    if b.numFats != 1 && b.numFats != 2 { return NoFilesystem; }
    fasize := Wrap32(if b.numFats == 2 then 2 * fasize else fasize);
    if !ValidClusterSize(b.secPerClus) { return NoFilesystem; }
    if b.rootEntCnt % 16 != 0 { return NoFilesystem; }
    var tsect := b.totSec16;
    if tsect == 0 { tsect := b.totSec32; }
    if b.rsvdSecCnt == 0 { return NoFilesystem; }
    var sysect := Wrap32(b.rsvdSecCnt + fasize + b.rootEntCnt / 16);
    if tsect < sysect { return NoFilesystem; }
    m := FindLimits(b, bsect, fsize, fasize, tsect, sysect);
  }

  /** Reads the layout of the volume that starts at sector `bsect` from its boot sector. */
  method InitVolume(w: Sector, bsect: nat) returns (m: Mounting)
    ensures m == Layout(BpbOf(w), bsect)
  {
    m := CheckBpb(LoadBpb(w), bsect);
    assert Open(0);
  }
}
