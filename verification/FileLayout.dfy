/** Where the bytes of a file are: its clusters in order, and the sectors and bytes in them. */
module FileLayout {
  import opened Bytes
  import opened Chains
  import opened Geometry
  import opened Numbers
  import opened Sectors

  /** Bytes per cluster divide as sectors do: (n / 512) / d is n / (512 * d). */
  lemma ClusterOfByte(d: nat, n: nat)
    requires d > 0
    ensures n / (d * 512) == n / 512 / d
    ensures n % (d * 512) == n / 512 % d * 512 + n % 512
  {
    var q, r := DivModDef(d, n / 512);
    assert n == 512 * (d * q + r) + n % 512;
    assert 512 * (d * q) == (d * 512) * q;
    DivModIs(d * 512, n, q, r * 512 + n % 512);
  }

  // ----- sectors of a chain -----

  /** Clusters of the data area, none twice. */
  ghost predicate OwnClusters(g: Geo, chain: seq<nat>) {
    && (forall i :: 0 <= i < |chain| ==> g.IsCluster(chain[i]))
    && (forall i, j :: 0 <= i < |chain| && 0 <= j < |chain| && chain[i] == chain[j] ==> i == j)
  }

  lemma ChainOwns(g: Geo, f: Table, chain: seq<nat>)
    requires IsChain(f, chain) && |f| == g.nFatent
    ensures OwnClusters(g, chain)
  {
    forall i, j | 0 <= i < |chain| && 0 <= j < |chain| && chain[i] == chain[j]
      ensures i == j
    {
      ChainDistinct(f, chain, i, j);
    }
  }

  /** The file has a sector number j. */
  ghost predicate HasSector(g: Geo, chain: seq<nat>, j: nat) {
    g.csize > 0 && j / g.csize < |chain|
  }

  /** The drive sector that holds sector j of the file. */
  ghost function Lba(g: Geo, chain: seq<nat>, j: nat): nat
    requires HasSector(g, chain, j)
  {
    g.ClstSect(chain[j / g.csize]) + j % g.csize
  }

  lemma LbaInDataArea(g: Geo, nsect: nat, chain: seq<nat>, j: nat)
    requires g.Valid(nsect) && OwnClusters(g, chain) && HasSector(g, chain, j)
    ensures g.database <= Lba(g, chain, j) < nsect
    ensures 0 < Lba(g, chain, j)
  {
    ClusterInDataArea(g, nsect, chain[j / g.csize]);
  }

  /** Two sectors of a file are two sectors of the drive. */
  lemma LbaInjective(g: Geo, nsect: nat, chain: seq<nat>, j: nat, k: nat)
    requires g.Valid(nsect) && OwnClusters(g, chain) && HasSector(g, chain, j) && HasSector(g, chain, k)
    requires Lba(g, chain, j) == Lba(g, chain, k)
    ensures j == k
  {
    SectorIsInOneCluster(g, chain[j / g.csize], j % g.csize, chain[k / g.csize], k % g.csize);
    var q, r := DivModDef(g.csize, j);
    var q', r' := DivModDef(g.csize, k);
  }

  /** Within a cluster the sectors of a file follow one another on the drive. */
  lemma LbaContiguous(g: Geo, chain: seq<nat>, j: nat, i: nat)
    requires IsClusterSize(g.csize) && HasSector(g, chain, j) && j % g.csize + i < g.csize
    ensures HasSector(g, chain, j + i) && Lba(g, chain, j + i) == Lba(g, chain, j) + i
  {
    SameMultiple(g.csize, j, i);
  }

  lemma LbaOfPrefix(g: Geo, chain: seq<nat>, longer: seq<nat>, j: nat)
    requires HasSector(g, chain, j) && chain <= longer
    ensures HasSector(g, longer, j) && Lba(g, longer, j) == Lba(g, chain, j)
  {
  }

  // ----- content -----

  /** The chain has room for size bytes. */
  ghost predicate Covers(g: Geo, chain: seq<nat>, size: nat) {
    size == 0 || HasSector(g, chain, (size - 1) / 512)
  }

  /** Clusters a file of size bytes needs. */
  function Needed(g: Geo, size: nat): nat
    requires g.csize > 0
  {
    if size == 0 then 0 else (size - 1) / 512 / g.csize + 1
  }

  lemma NeededIs(g: Geo, size: nat)
    requires g.csize > 0
    ensures Needed(g, size) == if size == 0 then 0 else (size - 1) / 512 / g.csize + 1
  {
  }

  lemma CoversNeeded(g: Geo, chain: seq<nat>, size: nat)
    requires g.csize > 0
    ensures Covers(g, chain, size) <==> Needed(g, size) <= |chain|
  {
  }

  lemma CoversByte(g: Geo, chain: seq<nat>, size: nat, k: nat)
    requires IsClusterSize(g.csize) && Covers(g, chain, size) && k < size
    ensures HasSector(g, chain, k / 512)
  {
    DivMonotone(g.csize, k / 512, (size - 1) / 512);
  }

  /** The first size bytes of the file on the image e. */
  ghost function Content(g: Geo, e: Image, chain: seq<nat>, size: nat): (s: seq<byte>)
    requires g.Valid(|e|) && OwnClusters(g, chain) && Covers(g, chain, size)
    ensures |s| == size
  {
    seq(size, k requires 0 <= k < size => ByteOf(g, e, chain, size, k))
  }

  ghost function ByteOf(g: Geo, e: Image, chain: seq<nat>, size: nat, k: nat): byte
    requires g.Valid(|e|) && OwnClusters(g, chain) && Covers(g, chain, size) && k < size
  {
    CoversByte(g, chain, size, k);
    LbaInDataArea(g, |e|, chain, k / 512);
    e[Lba(g, chain, k / 512)][k % 512]
  }

  lemma ContentAt(g: Geo, e: Image, chain: seq<nat>, size: nat, k: nat)
    requires g.Valid(|e|) && OwnClusters(g, chain) && Covers(g, chain, size) && k < size
    ensures HasSector(g, chain, k / 512) && Lba(g, chain, k / 512) < |e|
    ensures Content(g, e, chain, size)[k] == e[Lba(g, chain, k / 512)][k % 512]
  {
    CoversByte(g, chain, size, k);
    LbaInDataArea(g, |e|, chain, k / 512);
  }

  /** Images that agree on the sectors of a file give it the same content. */
  ghost predicate SameOn(g: Geo, a: Image, b: Image, chain: seq<nat>) {
    |a| == |b| && forall j: nat :: HasSector(g, chain, j) && Lba(g, chain, j) < |a| ==>
      a[Lba(g, chain, j)] == b[Lba(g, chain, j)]
  }

  lemma SameContent(g: Geo, a: Image, b: Image, chain: seq<nat>, size: nat)
    requires g.Valid(|a|) && OwnClusters(g, chain) && Covers(g, chain, size) && SameOn(g, a, b, chain)
    ensures Content(g, a, chain, size) == Content(g, b, chain, size)
  {
    forall k | 0 <= k < size
      ensures Content(g, a, chain, size)[k] == Content(g, b, chain, size)[k]
    {
      ContentAt(g, a, chain, size, k);
      ContentAt(g, b, chain, size, k);
    }
  }

  /** A longer chain, or a smaller size, leaves the bytes where they are. */
  lemma ContentOfLonger(g: Geo, e: Image, chain: seq<nat>, longer: seq<nat>, size: nat)
    requires g.Valid(|e|) && OwnClusters(g, chain) && OwnClusters(g, longer) && chain <= longer
    requires Covers(g, chain, size)
    ensures Covers(g, longer, size) && Content(g, e, longer, size) == Content(g, e, chain, size)
  {
    if size > 0 { LbaOfPrefix(g, chain, longer, (size - 1) / 512); }
    forall k | 0 <= k < size
      ensures Content(g, e, longer, size)[k] == Content(g, e, chain, size)[k]
    {
      ContentAt(g, e, chain, size, k);
      ContentAt(g, e, longer, size, k);
      LbaOfPrefix(g, chain, longer, k / 512);
    }
  }

  lemma ContentOfShorter(g: Geo, e: Image, chain: seq<nat>, size: nat, less: nat)
    requires g.Valid(|e|) && OwnClusters(g, chain) && Covers(g, chain, size) && less <= size
    ensures Covers(g, chain, less) && Content(g, e, chain, less) == Content(g, e, chain, size)[..less]
  {
    if less > 0 { CoversByte(g, chain, size, less - 1); }
    forall k | 0 <= k < less
      ensures Content(g, e, chain, less)[k] == Content(g, e, chain, size)[k]
    {
      ContentAt(g, e, chain, less, k);
      ContentAt(g, e, chain, size, k);
    }
  }

  // ----- a byte array with d written at p -----

  function Splice(c: seq<byte>, p: nat, d: seq<byte>): (r: seq<byte>)
    requires p <= |c|
    ensures |r| == if p + |d| < |c| then |c| else p + |d|
  {
    c[..p] + d + (if p + |d| < |c| then c[p + |d|..] else [])
  }

  lemma SpliceAt(c: seq<byte>, p: nat, d: seq<byte>, k: nat)
    requires p <= |c| && k < |Splice(c, p, d)|
    ensures Splice(c, p, d)[k] == if k < p then c[k] else if k < p + |d| then d[k - p] else c[k]
    ensures !(p <= k < p + |d|) ==> k < |c|
  {
  }

  /** Writing in two parts is writing the whole. */
  lemma SpliceTwice(c: seq<byte>, p: nat, d: seq<byte>, e: seq<byte>)
    requires p <= |c|
    ensures Splice(Splice(c, p, d), p + |d|, e) == Splice(c, p, d + e)
  {
    var once, twice, whole := Splice(c, p, d), Splice(Splice(c, p, d), p + |d|, e), Splice(c, p, d + e);
    assert |twice| == |whole|;
    forall k | 0 <= k < |whole|
      ensures twice[k] == whole[k]
    {
      SpliceAt(c, p, d + e, k);
      SpliceAt(once, p + |d|, e, k);
      if k < |once| { SpliceAt(c, p, d, k); }
    }
  }

  /** What a sector-sized buffer must hold to stand for sector j with d written at offset o of it:
      the new bytes, and around them the bytes of the file that were there. */
  ghost predicate SectorTakes(g: Geo, e: Image, chain: seq<nat>, size: nat, j: nat, sec: Sector, o: nat, d: seq<byte>)
    requires g.Valid(|e|) && OwnClusters(g, chain) && HasSector(g, chain, j)
  {
    LbaInDataArea(g, |e|, chain, j);
    && o + |d| <= 512
    && sec[o..o + |d|] == d
    && forall i :: 0 <= i < 512 && !(o <= i < o + |d|) && 512 * j + i < size ==> sec[i] == e[Lba(g, chain, j)][i]
  }

  /** Replacing one sector of the image writes d into the content. */
  lemma OneSectorWritten(g: Geo, e: Image, chain: seq<nat>, size: nat, j: nat, sec: Sector, o: nat, d: seq<byte>)
    requires g.Valid(|e|) && OwnClusters(g, chain) && Covers(g, chain, size) && HasSector(g, chain, j)
    requires SectorTakes(g, e, chain, size, j, sec, o, d)
    requires 512 * j + o <= size && |d| > 0
    ensures Lba(g, chain, j) < |e|
    ensures var after := if size < 512 * j + o + |d| then 512 * j + o + |d| else size;
            && Covers(g, chain, after)
            && Content(g, e[Lba(g, chain, j) := sec], chain, after) ==
               Splice(Content(g, e, chain, size), 512 * j + o, d)
  {
    hide *;
    LbaInDataArea(g, |e|, chain, j);
    SectorTakesFits(g, e, chain, size, j, sec, o, d);
    var p := 512 * j + o;
    var after := if size < p + |d| then p + |d| else size;
    CoversSector(g, chain, p + |d|, j);
    var e' := e[Lba(g, chain, j) := sec];
    var c, c' := Content(g, e, chain, size), Content(g, e', chain, after);
    SpliceLength(c, p, d);
    forall k | 0 <= k < after
      ensures c'[k] == Splice(c, p, d)[k]
    {
      WrittenByte(g, e, chain, size, j, sec, o, d, k);
    }
  }

  lemma SectorTakesFits(g: Geo, e: Image, chain: seq<nat>, size: nat, j: nat, sec: Sector, o: nat, d: seq<byte>)
    requires g.Valid(|e|) && OwnClusters(g, chain) && HasSector(g, chain, j)
    requires SectorTakes(g, e, chain, size, j, sec, o, d)
    ensures o + |d| <= 512
  {
  }

  lemma CoversSector(g: Geo, chain: seq<nat>, size: nat, j: nat)
    requires HasSector(g, chain, j) && 512 * j < size <= 512 * j + 512
    ensures Covers(g, chain, size)
  {
    assert (size - 1) / 512 == j;
  }

  lemma SpliceLength(c: seq<byte>, p: nat, d: seq<byte>)
    requires p <= |c|
    ensures |Splice(c, p, d)| == if |c| < p + |d| then p + |d| else |c|
  {
  }

  lemma WrittenByte(g: Geo, e: Image, chain: seq<nat>, size: nat, j: nat, sec: Sector, o: nat, d: seq<byte>, k: nat)
    requires g.Valid(|e|) && OwnClusters(g, chain) && Covers(g, chain, size) && HasSector(g, chain, j)
    requires SectorTakes(g, e, chain, size, j, sec, o, d) && Lba(g, chain, j) < |e|
    requires 512 * j + o <= size
    requires var after := if size < 512 * j + o + |d| then 512 * j + o + |d| else size;
             Covers(g, chain, after) && k < after
    ensures var after := if size < 512 * j + o + |d| then 512 * j + o + |d| else size;
            Content(g, e[Lba(g, chain, j) := sec], chain, after)[k] ==
              Splice(Content(g, e, chain, size), 512 * j + o, d)[k]
  {
    hide Covers, OwnClusters, HasSector, Lba, Content;
    var p := 512 * j + o;
    var after := if size < p + |d| then p + |d| else size;
    var e' := e[Lba(g, chain, j) := sec];
    var c := Content(g, e, chain, size);
    ContentAt(g, e', chain, after, k);
    SpliceAt(c, p, d, k);
    if k / 512 == j {
      var i := k % 512;
      assert k == 512 * j + i;
      if o <= i < o + |d| {
        assert sec[i] == sec[o..o + |d|][i - o];
      } else {
        ContentAt(g, e, chain, size, k);
      }
    } else {
      ContentAt(g, e, chain, size, k);
      if Lba(g, chain, k / 512) == Lba(g, chain, j) {
        LbaInjective(g, |e|, chain, k / 512, j);
      }
    }
  }

  // ----- transfers of several sectors -----

  /** A run of sectors within one cluster lies on the drive. */
  lemma RunInCluster(g: Geo, nsect: nat, chain: seq<nat>, j: nat, n: nat)
    requires g.Valid(nsect) && OwnClusters(g, chain) && HasSector(g, chain, j)
    requires j % g.csize + n <= g.csize && n > 0
    ensures Lba(g, chain, j) + n <= nsect
  {
    LbaContiguous(g, chain, j, n - 1);
    LbaInDataArea(g, nsect, chain, j + n - 1);
  }

  lemma DirectReadByte(g: Geo, e: Image, chain: seq<nat>, size: nat, j: nat, n: nat, k: nat)
    requires g.Valid(|e|) && IsClusterSize(g.csize)
    requires OwnClusters(g, chain) && Covers(g, chain, size) && HasSector(g, chain, j)
    requires j % g.csize + n <= g.csize && 512 * (j + n) <= size && k < 512 * n
    requires Lba(g, chain, j) + n <= |e|
    ensures GetSectors(e, Lba(g, chain, j), n)[k] == Content(g, e, chain, size)[512 * j + k]
  {
    hide *;
    GetSectorsAt(e, Lba(g, chain, j), n, k);
    ContentAt(g, e, chain, size, 512 * j + k);
    LbaContiguous(g, chain, j, k / 512);
    assert (512 * j + k) / 512 == j + k / 512 && (512 * j + k) % 512 == k % 512;
  }

  /** Sectors read in one transfer are the content, as long as they stay in one cluster. */
  lemma DirectRead(g: Geo, e: Image, chain: seq<nat>, size: nat, j: nat, n: nat)
    requires g.Valid(|e|) && IsClusterSize(g.csize)
    requires OwnClusters(g, chain) && Covers(g, chain, size) && HasSector(g, chain, j)
    requires j % g.csize + n <= g.csize && 512 * (j + n) <= size && n > 0
    ensures Lba(g, chain, j) + n <= |e|
    ensures GetSectors(e, Lba(g, chain, j), n) == Content(g, e, chain, size)[512 * j..512 * (j + n)]
  {
    hide *;
    RunInCluster(g, |e|, chain, j, n);
    var run, part := GetSectors(e, Lba(g, chain, j), n), Content(g, e, chain, size)[512 * j..512 * (j + n)];
    forall k | 0 <= k < 512 * n
      ensures run[k] == part[k]
    {
      DirectReadByte(g, e, chain, size, j, n, k);
    }
  }

  /** A whole sector written at its place. */
  lemma WholeSectorTakes(g: Geo, e: Image, chain: seq<nat>, size: nat, j: nat, d: seq<byte>)
    requires g.Valid(|e|) && OwnClusters(g, chain) && HasSector(g, chain, j) && |d| == 512
    ensures SectorTakes(g, e, chain, size, j, d, 0, d)
  {
    LbaInDataArea(g, |e|, chain, j);
  }

  lemma DirectWriteStep(g: Geo, e: Image, chain: seq<nat>, size: nat, j: nat, data: seq<byte>)
    requires g.Valid(|e|) && OwnClusters(g, chain) && Covers(g, chain, size) && HasSector(g, chain, j)
    requires |data| >= 512 && 512 * j <= size
    ensures Lba(g, chain, j) < |e|
    ensures var after := if size < 512 * j + 512 then 512 * j + 512 else size;
            && Covers(g, chain, after)
            && Content(g, e[Lba(g, chain, j) := data[..512]], chain, after) ==
               Splice(Content(g, e, chain, size), 512 * j, data[..512])
  {
    WholeSectorTakes(g, e, chain, size, j, data[..512]);
    OneSectorWritten(g, e, chain, size, j, data[..512], 0, data[..512]);
  }

  /** Whole sectors written in one transfer are written into the content. */
  lemma {:induction false} DirectWrite(g: Geo, e: Image, chain: seq<nat>, size: nat, j: nat, data: seq<byte>)
    requires g.Valid(|e|) && IsClusterSize(g.csize)
    requires OwnClusters(g, chain) && Covers(g, chain, size) && HasSector(g, chain, j)
    requires |data| % 512 == 0 && |data| > 0 && j % g.csize + |data| / 512 <= g.csize
    requires 512 * j <= size
    ensures Lba(g, chain, j) + |data| / 512 <= |e|
    ensures var after := if size < 512 * j + |data| then 512 * j + |data| else size;
            && Covers(g, chain, after)
            && Content(g, PutSectors(e, Lba(g, chain, j), data), chain, after) ==
               Splice(Content(g, e, chain, size), 512 * j, data)
    decreases |data|
  {
    hide *;
    var n := |data| / 512;
    RunInCluster(g, |e|, chain, j, n);
    DirectWriteStep(g, e, chain, size, j, data);
    PutSectorsStep(e, Lba(g, chain, j), data);
    var first, rest := data[..512], data[512..];
    assert data == first + rest;
    if |data| > 512 {
      LbaContiguous(g, chain, j, 1);
      SameMultiple(g.csize, j, 1);
      var c := Content(g, e, chain, size);
      DirectWrite(g, e[Lba(g, chain, j) := first], chain, if size < 512 * j + 512 then 512 * j + 512 else size,
                  j + 1, rest);
      SpliceTwice(c, 512 * j, first, rest);
      assert 512 * j + |first| == 512 * (j + 1);
    } else {
      assert data == first;
    }
  }
}
