/** What an open file means: the sectors of its chain in order, and the bytes they and the private buffer hold. */
module FileSpec {
  import opened Division
  import opened Volume
  import opened FatTable
  import opened ClusterChain

  // ---------- Sectors and clusters

  /** For the cluster sizes that mounting accepts, masking with `csize - 1` takes the remainder. */
  lemma MaskIsRemainder(k: bv32)
    ensures k & 0 == k % 1 && k & 1 == k % 2 && k & 3 == k % 4 && k & 7 == k % 8
    ensures k & 15 == k % 16 && k & 31 == k % 32 && k & 63 == k % 64 && k & 127 == k % 128
  {
  }

  /** First sector of cluster `c`. */
  function Base(g: Geometry, c: nat): nat
    requires 2 <= c
  {
    g.database + Sectors(g.csize, c - 2)
  }

  predicate InCluster(g: Geometry, c: nat, s: nat)
    requires 2 <= c
  {
    Base(g, c) <= s < Base(g, c) + g.csize
  }

  /** Clusters lie after the FATs, within the volume, and apart from each other. */
  lemma ClusterBounds(g: Geometry, c: nat)
    requires Sound(g) && 2 <= c < g.nFatent
    ensures FatEnd(g) <= g.database <= Base(g, c) && Base(g, c) + g.csize <= g.volEnd && 0 < Base(g, c)
  {
    SectorsMono(g.csize, c - 2, g.nFatent - 2);
  }

  lemma ClustersApart(g: Geometry, c: nat, d: nat, s: nat)
    requires 2 <= c && 2 <= d && InCluster(g, c, s) && InCluster(g, d, s)
    ensures c == d
  {
    if c < d {
      SectorsMono(g.csize, c - 2, d - 2);
    } else if d < c {
      SectorsMono(g.csize, d - 2, c - 2);
    }
  }

  // ---------- The sectors of a chain

  ghost predicate Clusters(g: Geometry, ch: seq<nat>) {
    forall i: nat | i < |ch| :: 2 <= ch[i] < g.nFatent
  }

  ghost predicate IsSects(g: Geometry, ch: seq<nat>, ss: seq<nat>)
    requires Sound(g) && Clusters(g, ch)
  {
    && |ss| == Sectors(g.csize, |ch|)
    && forall k: nat {:trigger At(k)} :: At(k) && k < |ss| ==>
         Quot(g.csize, k) < |ch| && ss[k] == Base(g, ch[Quot(g.csize, k)]) + Rem(g.csize, k)
  }

  lemma QuotInside(csize: nat, k: nat, n: nat)
    requires csize > 0 && k < Sectors(csize, n)
    ensures Quot(csize, k) < n
  {
    QuotRem(csize, k);
    if Quot(csize, k) >= n {
      SectorsMono(csize, n, Quot(csize, k));
    }
  }

  lemma SectsExist(g: Geometry, ch: seq<nat>)
    requires Sound(g) && Clusters(g, ch)
    ensures exists ss :: IsSects(g, ch, ss)
  {
    forall k: nat | k < Sectors(g.csize, |ch|)
      ensures Quot(g.csize, k) < |ch|
    {
      QuotInside(g.csize, k, |ch|);
    }
    var ss := seq(Sectors(g.csize, |ch|), k requires 0 <= k < Sectors(g.csize, |ch|) =>
                    Base(g, ch[Quot(g.csize, k)]) + Rem(g.csize, k));
    assert IsSects(g, ch, ss);
  }

  /** The sectors of the chain `ch` in file order. */
  ghost function Sects(g: Geometry, ch: seq<nat>): (ss: seq<nat>)
    requires Sound(g) && Clusters(g, ch)
    ensures |ss| == Sectors(g.csize, |ch|)
  {
    SectsExist(g, ch);
    var ss :| IsSects(g, ch, ss);
    ss
  }

  lemma SectAt(g: Geometry, ch: seq<nat>, k: nat)
    requires Sound(g) && Clusters(g, ch) && k < |Sects(g, ch)|
    ensures Quot(g.csize, k) < |ch|
    ensures Sects(g, ch)[k] == Base(g, ch[Quot(g.csize, k)]) + Rem(g.csize, k)
    ensures InCluster(g, ch[Quot(g.csize, k)], Sects(g, ch)[k])
    ensures FatEnd(g) <= Sects(g, ch)[k] < g.volEnd && 0 < Sects(g, ch)[k]
  {
    assert At(k);
    QuotRem(g.csize, k);
    ClusterBounds(g, ch[Quot(g.csize, k)]);
  }

  /** Consecutive sectors of one cluster are consecutive on the medium. */
  lemma SectRun(g: Geometry, ch: seq<nat>, k: nat, j: nat)
    requires Sound(g) && Clusters(g, ch) && k < |Sects(g, ch)| && Rem(g.csize, k) + j < g.csize
    ensures k + j < |Sects(g, ch)| && Sects(g, ch)[k + j] == Sects(g, ch)[k] + j
    ensures Quot(g.csize, k + j) == Quot(g.csize, k) < |ch|
  {
    SectAt(g, ch, k);
    QuotRem(g.csize, k);
    QuotOf(g.csize, Quot(g.csize, k), Rem(g.csize, k) + j);
    SectorsMono(g.csize, Quot(g.csize, k), |ch|);
    SectAt(g, ch, k + j);
  }

  /** No sector occurs twice. */
  lemma SectsDistinct(g: Geometry, f: seq<nat>, ch: seq<nat>, a: nat, b: nat)
    requires Sound(g) && |f| == g.nFatent && ChainOk(f, ch) && a < |Sects(g, ch)| && b < |Sects(g, ch)|
    requires Sects(g, ch)[a] == Sects(g, ch)[b]
    ensures a == b
  {
    SectAt(g, ch, a);
    SectAt(g, ch, b);
    var i, j := Quot(g.csize, a), Quot(g.csize, b);
    ClustersApart(g, ch[i], ch[j], Sects(g, ch)[a]);
    if i < j { ChainDistinct(f, ch, i, j); }
    if j < i { ChainDistinct(f, ch, j, i); }
    QuotRem(g.csize, a);
    QuotRem(g.csize, b);
  }

  /** The sectors of a prefix of the chain come first. */
  lemma SectsPrefix(g: Geometry, ch: seq<nat>, ch': seq<nat>)
    requires Sound(g) && Clusters(g, ch') && ch <= ch'
    ensures Clusters(g, ch)
    ensures Sects(g, ch) <= Sects(g, ch')
  {
    assert forall i: nat | i < |ch| :: ch[i] == ch'[i];
    SectorsMono(g.csize, |ch|, |ch'|);
    forall k: nat | k < |Sects(g, ch)|
      ensures Sects(g, ch)[k] == Sects(g, ch')[k]
    {
      SectAt(g, ch, k);
      SectAt(g, ch', k);
    }
  }

  // ---------- The open file

  /** A snapshot of the file object; `dirty`: the buffer has changes that are not on the medium. */
  datatype Fil = Fil(sclust: nat, objsize: nat, fptr: nat, clust: nat, sect: nat, buf: Sector, dirty: bool)

  /** A sector as the file has it. */
  function Data(d: seq<Sector>, f: Fil, s: nat): Sector
    requires s < |d|
  {
    if f.dirty && f.sect == s then f.buf else d[s]
  }

  /** `s` belongs to the file's chain or to a free cluster. */
  ghost predicate Own(g: Geometry, t: seq<nat>, ch: seq<nat>, s: nat) {
    exists c: nat :: 2 <= c < |t| && (c in ch || t[c] == 0) && InCluster(g, c, s)
  }

  /** The cursor: the cluster of the byte before the file pointer, and off a sector boundary the sector it is in. */
  ghost predicate CursorOk(g: Geometry, f: Fil, ch: seq<nat>)
    requires Sound(g) && Clusters(g, ch)
  {
    && (f.fptr > 0 ==> var q := Quot(g.csize, (f.fptr - 1) / 512); q < |ch| && f.clust == ch[q])
    && (f.fptr % 512 != 0 ==> f.fptr / 512 < |Sects(g, ch)| && f.sect == Sects(g, ch)[f.fptr / 512])
  }

  ghost predicate IsContent(g: Geometry, d: seq<Sector>, f: Fil, ch: seq<nat>, c: seq<byte>)
    requires Ready(g, d) && Clusters(g, ch) && f.objsize <= 512 * |Sects(g, ch)|
  {
    && |c| == f.objsize
    && forall k: nat, o: nat {:trigger At(k), At(o)} :: At(k) && At(o) && o < 512 && 512 * k + o < f.objsize ==>
         Sects(g, ch)[k] < |d| && c[512 * k + o] == Data(d, f, Sects(g, ch)[k])[o]
  }

  lemma ContentExists(g: Geometry, d: seq<Sector>, f: Fil, ch: seq<nat>)
    requires Ready(g, d) && Clusters(g, ch) && f.objsize <= 512 * |Sects(g, ch)|
    ensures exists c :: IsContent(g, d, f, ch, c)
  {
    var ss := Sects(g, ch);
    forall k: nat | k < |ss|
      ensures ss[k] < |d|
    {
      SectAt(g, ch, k);
    }
    var c: seq<byte> := seq(f.objsize, i requires 0 <= i < f.objsize => Data(d, f, ss[i / 512])[i % 512]);
    forall k: nat, o: nat | o < 512 && 512 * k + o < f.objsize
      ensures ss[k] < |d| && c[512 * k + o] == Data(d, f, ss[k])[o]
    {
      assert (512 * k + o) / 512 == k && (512 * k + o) % 512 == o;
    }
    assert IsContent(g, d, f, ch, c);
  }

  /** The bytes of the file. */
  ghost function Content(g: Geometry, d: seq<Sector>, f: Fil, ch: seq<nat>): (c: seq<byte>)
    requires Ready(g, d) && Clusters(g, ch) && f.objsize <= 512 * |Sects(g, ch)|
    ensures |c| == f.objsize
  {
    ContentExists(g, d, f, ch);
    var c :| IsContent(g, d, f, ch, c);
    c
  }

  lemma ContentAt(g: Geometry, d: seq<Sector>, f: Fil, ch: seq<nat>, k: nat, o: nat)
    requires Ready(g, d) && Clusters(g, ch) && f.objsize <= 512 * |Sects(g, ch)|
    requires o < 512 && 512 * k + o < f.objsize
    ensures Sects(g, ch)[k] < |d| && Content(g, d, f, ch)[512 * k + o] == Data(d, f, Sects(g, ch)[k])[o]
  {
    var c := Content(g, d, f, ch);
    assert IsContent(g, d, f, ch, c);
    assert At(k) && At(o);
  }
}
