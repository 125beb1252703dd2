/** f_lseek without a link map: the walk from the current cluster or from the first one. */
module FileSeek {
  import opened Allocation
  import opened Bytes
  import opened Chains
  import opened FileGrow
  import opened FileLayout
  import opened FileRead
  import opened FileWrite
  import opened Files
  import opened Geometry
  import opened LinkMap
  import opened Numbers
  import opened Results
  import opened Sectors
  import opened Volume

  /** pos is the start of a cluster of the chain, and clst is that cluster. */
  ghost predicate AtCluster(g: Geo, chain: seq<nat>, pos: nat, clst: nat) {
    pos % 512 == 0 && g.csize > 0 && pos / 512 % g.csize == 0 && Here(g, chain, pos, clst)
  }

  lemma AtClusterIs(g: Geo, chain: seq<nat>, pos: nat, clst: nat)
    ensures AtCluster(g, chain, pos, clst) <==>
            pos % 512 == 0 && g.csize > 0 && pos / 512 % g.csize == 0 && Here(g, chain, pos, clst)
  {
  }

  /** One cluster further on the position is at the end of this cluster and on a boundary. */
  lemma OneClusterOn(g: Geo, chain: seq<nat>, pos: nat, clst: nat)
    requires IsClusterSize(g.csize) && AtCluster(g, chain, pos, clst)
    ensures var next := pos + g.csize * 512;
            && next > 0 && next % 512 == 0 && next / 512 % g.csize == 0
            && AtPrev(g, chain, next, clst)
  {
    MultipleOfCluster(g.csize, pos);
    Advance(g, chain, pos, clst, g.csize * 512);
  }

  lemma AddMultiple(d: nat, n: nat)
    requires d > 0
    ensures (n + d) % d == n % d && (n + d) / d == n / d + 1
  {
    var q, r := DivModDef(d, n);
    assert d * (q + 1) == d * q + d;
    DivModIs(d, n + d, q + 1, r);
  }

  lemma MultipleOfCluster(d: nat, pos: nat)
    requires d > 0 && pos % 512 == 0 && pos / 512 % d == 0
    ensures (pos + d * 512) % 512 == 0 && (pos + d * 512) / 512 % d == 0
    ensures FitsCluster(d, pos, d * 512)
  {
    var n := pos / 512;
    assert pos == 512 * n;
    assert (512 * (n + d)) / 512 == n + d;
    AddMultiple(d, n);
  }

  lemma Floor(d: nat, n: nat)
    requires d > 0
    ensures var m := n - n % d; 0 <= m <= n < m + d && m % d == 0 && m / d == n / d
  {
    var q, r := DivModDef(d, n);
    DivModIs(d, n - r, q, 0);
  }

  /** A multiple of the cluster size in bytes starts a cluster. */
  lemma StartOfCluster(d: nat, p: nat)
    requires d > 0
    ensures d * 512 > 0
    ensures var q := p - p % (d * 512);
            0 <= q <= p < q + d * 512 && q % 512 == 0 && q / 512 % d == 0 && q / 512 / d == p / 512 / d
    ensures p / (d * 512) == p / 512 / d
  {
    ClusterOfByte(d, p);
    var n := p / 512;
    Floor(d, n);
    var m := n - n % d;
    assert p - p % (d * 512) == 512 * m;
    assert (512 * m) / 512 == m;
  }

  /** The current cluster serves as start when the target is in it or after it. */
  lemma StartFromCurrent(g: Geo, chain: seq<nat>, fptr: nat, clust: nat, ofs: nat)
    requires IsClusterSize(g.csize) && AtPrev(g, chain, fptr, clust) && fptr > 0 && ofs > 0
    requires (ofs - 1) / (g.csize * 512) >= (fptr - 1) / (g.csize * 512)
    ensures var pos := (fptr - 1) - (fptr - 1) % (g.csize * 512);
            0 <= pos < ofs && AtCluster(g, chain, pos, clust)
  {
    var pos := (fptr - 1) - (fptr - 1) % (g.csize * 512);
    StartOfCluster(g.csize, fptr - 1);
    StartOfCluster(g.csize, ofs - 1);
    if pos >= ofs {
      DivMonotone(g.csize, (ofs - 1) / 512, pos / 512);
      BelowStart(g.csize, ofs - 1, pos);
    }
  }

  lemma BelowStart(d: nat, p: nat, q: nat)
    requires d > 0 && q % 512 == 0 && q / 512 % d == 0 && p < q
    ensures p / 512 / d < q / 512 / d
  {
    var n := q / 512;
    assert q == 512 * n && p / 512 <= n - 1;
    DivMonotone(d, p / 512, n - 1);
    NextMultiple(d, n);
  }

  lemma StartFromFirst(g: Geo, f: Table, sclust: nat, chain: seq<nat>, size: nat)
    requires IsClusterSize(g.csize) && ChainOk(g, f, sclust, chain, size) && chain != []
    ensures sclust != 0 && AtCluster(g, chain, 0, sclust)
  {
  }

  lemma FirstOfFile(g: Geo, f: Table, sclust: nat, chain: seq<nat>, size: nat)
    requires IsClusterSize(g.csize) && ChainOk(g, f, sclust, chain, size) && size > 0
    ensures AtCluster(g, chain, 0, sclust)
  {
    StartFromFirst(g, f, sclust, chain, size);
  }

  lemma AtClusterRange(g: Geo, nsect: nat, chain: seq<nat>, pos: nat, clst: nat)
    requires AtCluster(g, chain, pos, clst) && OwnClusters(g, chain) && g.Valid(nsect)
    ensures clst >= 2 && g.ClstSect(clst) > 0
  {
  }

  lemma NewFirst(g: Geo, chain: seq<nat>, ncl: nat)
    requires IsClusterSize(g.csize) && chain == [ncl]
    ensures AtCluster(g, chain, 0, ncl)
  {
  }

  // ----- the clusters a seek takes -----

  /** The chain once n clusters have been asked for: what create_chain takes, one after another, until
      there are as many or none is free. */
  ghost function Asked(g: Geo, f: Table, chain: seq<nat>, last: nat, n: nat): (longer: seq<nat>)
    requires |f| >= 3
    decreases n - |chain|
  {
    var arg := if chain == [] then 0 else chain[|chain| - 1];
    if |chain| >= n || !Allocates(f, arg, last, |f|) then chain
    else
      var ncl := Created(f, arg, last, |f|);
      Asked(g, Stretched(f, arg, ncl, g.Eoc()), chain + [ncl], ncl, n)
  }

  /** The count only tells whether a cluster is free. */
  lemma CountAside(f: Table, arg: nat, last: nat, free: nat)
    requires WellFormed(f) && |f| >= 3 && CountTracks(f, free) && (arg == 0 || (InTable(f, arg) && f[arg] != 0))
    ensures Created(f, arg, last, |f|) == Created(f, arg, last, free)
    ensures Allocates(f, arg, last, |f|) == Allocates(f, arg, last, free)
  {
    CreatedOnWellFormed(f, arg, last, free);
    CreatedOnWellFormed(f, arg, last, |f|);
  }

  /** One call of create_chain is one step of it, or none. */
  lemma AskedStep(g: Geo, f: Table, sclust: nat, chain: seq<nat>, last: nat, free: nat, arg: nat, n: nat)
    requires Sound(f, free) && |f| >= 3 && MayStretch(f, sclust, chain, arg) && (sclust == 0 <==> chain == [])
    requires Allocates(f, arg, last, free) ==> |chain| < n
    ensures var ncl := Created(f, arg, last, free);
            Allocates(f, arg, last, free) ==>
              arg < |f| && Asked(g, Stretched(f, arg, ncl, g.Eoc()), chain + [ncl], ncl, n) ==
                Asked(g, f, chain, last, n)
  {
    CountAside(f, arg, last, free);
    hide WellFormed, Created, FreeCount;
  }

  lemma AskedEnough(g: Geo, f: Table, chain: seq<nat>, last: nat, n: nat)
    requires |f| >= 3 && n <= |chain|
    ensures Asked(g, f, chain, last, n) == chain
  {
  }

  lemma AskedFull(g: Geo, f: Table, free: nat, sclust: nat, chain: seq<nat>, size: nat, last: nat, n: nat)
    requires Sound(f, free) && |f| == g.nFatent >= 3 && ChainOk(g, f, sclust, chain, size) && FreeCount(f) == 0
    ensures Asked(g, f, chain, last, n) == chain
  {
    EndOfChain(g, f, sclust, chain, size);
    CreatedOnWellFormed(f, if chain == [] then 0 else chain[|chain| - 1], last, |f|);
    hide WellFormed, Created, FreeCount, ChainOk;
  }

  /** A walk through the FAT: only this file is stretched, towards n clusters, and no data changes. */
  ghost predicate FatWalk(g: Geo, n: nat, f: Table, i: Image, c: seq<nat>, last: nat, f': Table, i': Image,
                          c': seq<nat>,
                         last': nat) {
    && |f| >= 3 && OnlyThisFile(g, f, i, c, f', i', c') && KeepsOthers(g, i, i', [])
    && Asked(g, f', c', last', n) == Asked(g, f, c, last, n)
  }

  lemma FatWalkIs(g: Geo, n: nat, f: Table, i: Image, c: seq<nat>, last: nat, f': Table, i': Image, c': seq<nat>,
                 last': nat)
    requires FatWalk(g, n, f, i, c, last, f', i', c', last')
    ensures |f| >= 3 && |f'| == |f| && OnlyThisFile(g, f, i, c, f', i', c') && KeepsOthers(g, i, i', [])
    ensures Asked(g, f', c', last', n) == Asked(g, f, c, last, n)
  {
  }

  lemma FatWalkRefl(g: Geo, n: nat, f: Table, i: Image, c: seq<nat>, last: nat)
    requires |f| >= 3
    ensures FatWalk(g, n, f, i, c, last, f, i, c, last)
  {
    hide Asked;
  }

  lemma FatWalkTrans(g: Geo, n: nat, f: Table, i: Image, c: seq<nat>, last: nat, f1: Table, i1: Image, c1: seq<nat>,
                    last1: nat, f2: Table, i2: Image, c2: seq<nat>, last2: nat)
    requires FatWalk(g, n, f, i, c, last, f1, i1, c1, last1) && FatWalk(g, n, f1, i1, c1, last1, f2, i2, c2, last2)
    requires forall k :: 0 <= k < |c1| ==> c1[k] < |f1| && f1[c1[k]] != 0
    requires OwnClusters(g, c2)
    ensures FatWalk(g, n, f, i, c, last, f2, i2, c2, last2)
  {
    hide Asked, OnlyThisFile;
    OnlyThisFileTrans(g, f, i, c, f1, i1, c1, f2, i2, c2);
    KeepsOthersTrans(g, i, i1, i2, []);
  }

  /** A call of create_chain is such a walk, if it is one of those n clusters ask for. */
  lemma FatWalkFrom(g: Geo, n: nat, f: Table, i: Image, sclust: nat, c: seq<nat>, last: nat, free: nat, arg: nat,
                   took: bool, ncl: nat, f': Table, i': Image, c': seq<nat>, last': nat)
    requires Sound(f, free) && |f| >= 3 && MayStretch(f, sclust, c, arg) && (sclust == 0 <==> c == [])
    requires ncl == Created(f, arg, last, free) && took == Allocates(f, arg, last, free) && (took ==> |c| < n)
    requires took ==> ncl < |f| && f[ncl] == 0 && arg < |f| && f' == Stretched(f, arg, ncl, g.Eoc())
    requires !took ==> f' == f
    requires last' == if took then ncl else last
    requires c' == Grown(c, took, ncl) && KeepsEntries(f, f', c') && KeepsOthers(g, i, i', [])
    requires |f'| >= 2 && |c'| + FreeCount(f') == |c| + FreeCount(f)
    ensures FatWalk(g, n, f, i, c, last, f', i', c', last')
  {
    hide *;
    AskedStep(g, f, sclust, c, last, free, arg, n);
    GrownIs(c, took, ncl);
    NothingToAll(g, i, i', c');
    OnlyThisFileFrom(g, f, i, c, f', i', c', took, ncl);
    FatWalkIf(g, n, f, i, c, last, f', i', c', last');
  }

  lemma FatWalkIf(g: Geo, n: nat, f: Table, i: Image, c: seq<nat>, last: nat, f': Table, i': Image, c': seq<nat>,
                 last': nat)
    requires |f| >= 3 && |f'| >= 3 && OnlyThisFile(g, f, i, c, f', i', c') && KeepsOthers(g, i, i', [])
    requires Asked(g, f', c', last', n) == Asked(g, f, c, last, n)
    ensures FatWalk(g, n, f, i, c, last, f', i', c', last')
  {
  }

  lemma NothingToAll(g: Geo, i: Image, i': Image, c: seq<nat>)
    requires KeepsOthers(g, i, i', [])
    ensures KeepsOthers(g, i, i', c)
  {
    KeepsOthersWider(g, i, i', [], c);
  }

  // ----- one step of the walk -----

  /** In write mode: along the chain, or by stretching it; 0 if there is no room. */
  method WalkWrite(f: File, pos: nat, clst: nat, ghost n: nat) returns (ncl: nat)
    requires f.fs.geo.csize > 0 && (pos + f.fs.geo.csize * 512) / 512 / f.fs.geo.csize < n
    requires f.Base() && AtCluster(f.fs.geo, f.chain, pos, clst)
    modifies f`sclust, f`chain
    modifies f.fs`winsect, f.fs`wflag, f.fs.win, f.fs.disk, f.fs`lastClst, f.fs`freeClst, f.fs`fsiFlag
    ensures f.Base() && f.Bytes() == old(f.Bytes())
    ensures FatWalk(f.fs.geo, n, old(f.fs.Fat()), old(f.fs.Img()), old(f.chain), old(f.fs.lastClst), f.fs.Fat(),
                    f.fs.Img(),
                   f.chain, f.fs.lastClst)
    ensures ncl != 0 ==> AtCluster(f.fs.geo, f.chain, pos + f.fs.geo.csize * 512, ncl)
    ensures ncl == 0 ==> f.chain == old(f.chain) && FreeCount(f.fs.Fat()) == 0
    ensures ncl == 0 ==> !HasSector(f.fs.geo, f.chain, (pos + f.fs.geo.csize * 512) / 512)
  {
    hide *;
    FileFacts(f);
    ghost var f0, i0, chain0, last0, free0 := f.fs.Fat(), f.fs.Img(), f.chain, f.fs.lastClst, f.fs.freeClst;
    ghost var sclust0, next := f.sclust, pos + f.fs.geo.csize * 512;
    OneClusterOn(f.fs.geo, chain0, pos, clst);
    SoundIs(f0, f.fs.freeClst);
    GrowArgument(f.fs.geo, f0, f.sclust, chain0, f.objsize, next, clst);
    GrowCases(f.fs.geo, |f.fs.disk.sectors|, f0, f.sclust, chain0, f.objsize, next, clst, f.fs.lastClst, f.fs.freeClst);
    ghost var took;
    ncl, took := StretchFile(f, clst);
    FileFacts(f);
    GrownIs(chain0, took, ncl);
    HasSectorIs(f.fs.geo, chain0, next);
    FatWalkFrom(f.fs.geo, n, f0, i0, sclust0, chain0, last0, free0, clst, took, ncl, f.fs.Fat(), f.fs.Img(), f.chain,
               f.fs.lastClst);
    AtClusterIs(f.fs.geo, f.chain, next, ncl);
  }

  /** In read mode: get_fat, for a target inside the file. */
  method WalkRead(f: File, ghost pos: nat, clst: nat) returns (ncl: nat)
    requires f.Base() && AtCluster(f.fs.geo, f.chain, pos, clst) && pos + f.fs.geo.csize * 512 < f.objsize
    modifies f.fs`winsect, f.fs`wflag, f.fs.win, f.fs.disk
    ensures f.Base() && f.Bytes() == old(f.Bytes())
    ensures f.fs.Valid() && f.fs.Img() == old(f.fs.Img()) && f.fs.Fat() == old(f.fs.Fat())
    ensures ncl != 0 && AtCluster(f.fs.geo, f.chain, pos + f.fs.geo.csize * 512, ncl)
  {
    hide *;
    Unfold(f);
    FileFacts(f);
    VolumeFacts(f.fs);
    ghost var next := pos + f.fs.geo.csize * 512;
    OneClusterOn(f.fs.geo, f.chain, pos, clst);
    NextOfChain(f.fs.geo, f.fs.Fat(), f.sclust, f.chain, f.objsize, next, clst);
    ncl := NextLink(f, clst);
    AtClusterIs(f.fs.geo, f.chain, next, ncl);
  }

  /** One step in either mode. */
  method WalkStep(f: File, pos: nat, clst: nat, ghost n: nat) returns (ncl: nat)
    requires f.fs.geo.csize > 0 && (pos + f.fs.geo.csize * 512) / 512 / f.fs.geo.csize < n
    requires f.Base() && AtCluster(f.fs.geo, f.chain, pos, clst)
    requires f.canWrite || pos + f.fs.geo.csize * 512 < f.objsize
    modifies f`sclust, f`chain
    modifies f.fs`winsect, f.fs`wflag, f.fs.win, f.fs.disk, f.fs`lastClst, f.fs`freeClst, f.fs`fsiFlag
    ensures f.Base() && f.Bytes() == old(f.Bytes())
    ensures FatWalk(f.fs.geo, n, old(f.fs.Fat()), old(f.fs.Img()), old(f.chain), old(f.fs.lastClst), f.fs.Fat(),
                    f.fs.Img(),
                   f.chain, f.fs.lastClst)
    ensures ncl != 0 ==> AtCluster(f.fs.geo, f.chain, pos + f.fs.geo.csize * 512, ncl)
    ensures ncl == 0 ==> f.chain == old(f.chain) && FreeCount(f.fs.Fat()) == 0
    ensures ncl == 0 ==> !HasSector(f.fs.geo, f.chain, (pos + f.fs.geo.csize * 512) / 512)
  {
    hide *;
    FileFacts(f);
    FatWalkRefl(f.fs.geo, n, f.fs.Fat(), f.fs.Img(), f.chain, f.fs.lastClst);
    if f.canWrite {
      ncl := WalkWrite(f, pos, clst, n);
    } else {
      ncl := WalkRead(f, pos, clst);
    }
  }

  // ----- the walk -----

  /** Where the walk to target (above 0) starts: the start of a cluster below it, and the cluster,
      or 0 for a file without clusters that could not get one. */
  method SeekStart(f: File, target: nat, ghost n: nat) returns (pos: nat, clst: nat)
    requires n > 0 && f.Held() && target > 0 && (f.canWrite || target <= f.objsize)
    modifies f`sclust, f`chain
    modifies f.fs`winsect, f.fs`wflag, f.fs.win, f.fs.disk, f.fs`lastClst, f.fs`freeClst, f.fs`fsiFlag
    ensures f.Base() && f.Bytes() == old(f.Bytes())
    ensures FatWalk(f.fs.geo, n, old(f.fs.Fat()), old(f.fs.Img()), old(f.chain), old(f.fs.lastClst), f.fs.Fat(),
                    f.fs.Img(),
                   f.chain, f.fs.lastClst)
    ensures pos < target
    ensures clst != 0 ==> AtCluster(f.fs.geo, f.chain, pos, clst)
    ensures clst == 0 ==> pos == 0 && f.chain == [] && FreeCount(f.fs.Fat()) == 0
  {
    hide *;
    UnfoldValid(f);
    FileFacts(f);
    SoundIs(f.fs.Fat(), f.fs.freeClst);
    FatWalkRefl(f.fs.geo, n, f.fs.Fat(), f.fs.Img(), f.chain, f.fs.lastClst);
    var bcs := f.fs.geo.csize * 512;
    PositiveBytes(f.fs.geo.csize);
    pos := 0;
    if f.fptr > 0 && (target - 1) / bcs >= (f.fptr - 1) / bcs {
      StartFromCurrent(f.fs.geo, f.chain, f.fptr, f.clust, target);
      pos := (f.fptr - 1) - (f.fptr - 1) % bcs;
      clst := f.clust;
      ClusterNotZero(f.fs.geo, f.fs.Fat(), f.sclust, f.chain, f.objsize, pos, clst);
    } else {
      clst := f.sclust;
      if clst == 0 {
        clst := FirstCluster(f, n);
      } else {
        StartFromFirst(f.fs.geo, f.fs.Fat(), f.sclust, f.chain, f.objsize);
      }
    }
  }

  lemma NextNeeded(g: Geo, target: nat, next: nat)
    requires g.csize > 0 && next < target
    ensures next / 512 / g.csize < Needed(g, target)
  {
    DivMonotone(g.csize, next / 512, (target - 1) / 512);
  }

  lemma PositiveBytes(d: nat)
    requires d > 0
    ensures d * 512 > 0
  {
  }

  lemma ClusterNotZero(g: Geo, f: Table, sclust: nat, chain: seq<nat>, size: nat, pos: nat, clst: nat)
    requires ChainOk(g, f, sclust, chain, size) && AtCluster(g, chain, pos, clst)
    ensures clst != 0
  {
  }

  /** The first cluster of a file that has none. */
  method FirstCluster(f: File, ghost n: nat) returns (clst: nat)
    requires n > 0 && f.Base() && f.sclust == 0
    modifies f`sclust, f`chain
    modifies f.fs`winsect, f.fs`wflag, f.fs.win, f.fs.disk, f.fs`lastClst, f.fs`freeClst, f.fs`fsiFlag
    ensures f.Base() && f.Bytes() == old(f.Bytes())
    ensures FatWalk(f.fs.geo, n, old(f.fs.Fat()), old(f.fs.Img()), old(f.chain), old(f.fs.lastClst), f.fs.Fat(),
                    f.fs.Img(),
                   f.chain, f.fs.lastClst)
    ensures clst != 0 ==> AtCluster(f.fs.geo, f.chain, 0, clst)
    ensures clst == 0 ==> f.chain == [] && FreeCount(f.fs.Fat()) == 0
  {
    hide *;
    FileFacts(f);
    ghost var f0, i0, chain0, last0, free0 := f.fs.Fat(), f.fs.Img(), f.chain, f.fs.lastClst, f.fs.freeClst;
    SoundIs(f0, f.fs.freeClst);
    MayStretchIs(f0, f.sclust, chain0, 0);
    CreatedForFile(f0, 0, f.fs.lastClst, f.fs.freeClst);
    ghost var took;
    clst, took := StretchFile(f, 0);
    FileFacts(f);
    GrownIs(chain0, took, clst);
    FatWalkFrom(f.fs.geo, n, f0, i0, 0, chain0, last0, free0, 0, took, clst, f.fs.Fat(), f.fs.Img(), f.chain,
               f.fs.lastClst);
    if clst != 0 {
      NewFirst(f.fs.geo, f.chain, clst);
    }
  }

  /** What is left to walk ends inside the cluster reached. */
  lemma InLastCluster(g: Geo, chain: seq<nat>, pos: nat, clst: nat, left: nat)
    requires IsClusterSize(g.csize) && AtCluster(g, chain, pos, clst) && 0 < left <= g.csize * 512
    ensures AtPrev(g, chain, pos + left, clst) && Covers(g, chain, pos + left)
    ensures left % 512 != 0 ==>
      && HasSector(g, chain, (pos + left) / 512)
      && Lba(g, chain, (pos + left) / 512) == g.ClstSect(clst) + left / 512
    ensures (pos + left) % 512 == left % 512
  {
    assert FitsCluster(g.csize, pos, left);
    Advance(g, chain, pos, clst, left);
    assert (pos + left) / 512 == pos / 512 + left / 512;
    if left % 512 != 0 {
      LbaContiguous(g, chain, pos / 512, left / 512);
    }
  }

  /** The walk to target from a cluster on the way to it. It ends at the target, or in write mode
      at the end of a full volume. */
  method SeekWalk(f: File, target: nat, start: nat, first: nat, ghost n: nat) returns (pos: nat, clst: nat, left: nat)
    requires f.fs.geo.csize > 0 && n == Needed(f.fs.geo, target)
    requires f.Base() && target > start && AtCluster(f.fs.geo, f.chain, start, first)
    requires f.canWrite || target <= f.objsize
    modifies f`sclust, f`chain, f`clust
    modifies f.fs`winsect, f.fs`wflag, f.fs.win, f.fs.disk, f.fs`lastClst, f.fs`freeClst, f.fs`fsiFlag
    ensures f.Base() && f.Bytes() == old(f.Bytes())
    ensures FatWalk(f.fs.geo, n, old(f.fs.Fat()), old(f.fs.Img()), old(f.chain), old(f.fs.lastClst), f.fs.Fat(),
                    f.fs.Img(),
                   f.chain, f.fs.lastClst)
    ensures left > 0 ==>
            AtCluster(f.fs.geo, f.chain, pos, clst) && left <= f.fs.geo.csize * 512 && pos + left == target
            && f.clust == clst
    ensures left == 0 ==> pos < target && AtPrev(f.fs.geo, f.chain, pos, f.clust) && pos > 0 && pos % 512 == 0
    ensures left == 0 ==> FreeCount(f.fs.Fat()) == 0 && !HasSector(f.fs.geo, f.chain, pos / 512)
  {
    hide *;
    FileFacts(f);
    ghost var g, f0, i0, chain0, bytes, last0 := f.fs.geo, f.fs.Fat(), f.fs.Img(), f.chain, f.Bytes(), f.fs.lastClst;
    FatWalkRefl(g, n, f0, i0, chain0, last0);
    var bcs := f.fs.geo.csize * 512;
    PositiveBytes(f.fs.geo.csize);
    pos, clst, left := start, first, target - start;
    f.clust := clst;
    while left > bcs
      invariant f.Base() && f.Bytes() == bytes && f.fs.Valid() && |f.fs.Fat()| >= 2
      invariant FatWalk(g, n, f0, i0, chain0, last0, f.fs.Fat(), f.fs.Img(), f.chain, f.fs.lastClst)
      invariant left > 0 ==> AtCluster(g, f.chain, pos, clst) && pos + left == target && f.clust == clst
      invariant left == 0 ==> pos < target && AtPrev(g, f.chain, pos, f.clust) && pos > 0 && pos % 512 == 0
      invariant left == 0 ==> FreeCount(f.fs.Fat()) == 0 && !HasSector(g, f.chain, pos / 512)
      decreases left
    {
      FileFacts(f);
      OneClusterOn(g, f.chain, pos, clst);
      NextNeeded(g, target, pos + bcs);
      ghost var f1, i1, chain1, last1 := f.fs.Fat(), f.fs.Img(), f.chain, f.fs.lastClst;
      var ncl := WalkStep(f, pos, clst, n);
      FileFacts(f);
      FatWalkTrans(g, n, f0, i0, chain0, last0, f1, i1, chain1, last1, f.fs.Fat(), f.fs.Img(), f.chain, f.fs.lastClst);
      left := left - bcs;
      pos := pos + bcs;
      if ncl == 0 {
        left := 0;
        break;
      }
      clst := ncl;
      f.clust := ncl;
    }
  }

  /** The position the seek reaches, and the sector it is inside of, if it is inside one. */
  method SeekMove(f: File, target: nat, ghost n: nat) returns (pos: nat, nsect: nat)
    requires f.fs.geo.csize > 0 && n == Needed(f.fs.geo, target)
    requires f.Held() && target <= MAX_DWORD && (f.canWrite || target <= f.objsize)
    modifies f`sclust, f`chain, f`clust
    modifies f.fs`winsect, f.fs`wflag, f.fs.win, f.fs.disk, f.fs`lastClst, f.fs`freeClst, f.fs`fsiFlag
    ensures f.Base() && f.Bytes() == old(f.Bytes())
    ensures FatWalk(f.fs.geo, n, old(f.fs.Fat()), old(f.fs.Img()), old(f.chain), old(f.fs.lastClst), f.fs.Fat(),
                    f.fs.Img(),
                   f.chain, f.fs.lastClst)
    ensures AtPrev(f.fs.geo, f.chain, pos, f.clust) && Covers(f.fs.geo, f.chain, pos)
    ensures pos % 512 != 0 ==> HasSector(f.fs.geo, f.chain, pos / 512) && nsect == Lba(f.fs.geo, f.chain, pos / 512)
    ensures pos <= target
    ensures pos < target ==> FreeCount(f.fs.Fat()) == 0 && !HasSector(f.fs.geo, f.chain, pos / 512)
  {
    hide *;
    UnfoldValid(f);
    FileFacts(f);
    FatWalkRefl(f.fs.geo, n, f.fs.Fat(), f.fs.Img(), f.chain, f.fs.lastClst);
    pos, nsect := 0, 0;
    var left, clst := 0, 0;
    NeededIs(f.fs.geo, target);
    if target > 0 {
      pos, clst := SeekStart(f, target, n);
      FileFacts(f);
      if clst != 0 {
        pos, clst, left := WalkFrom(f, target, pos, clst, n, old(f.fs.Fat()), old(f.fs.Img()), old(f.chain),
                                    old(f.fs.lastClst));
        FileFacts(f);
      }
    }
    if left > 0 {
      InLastCluster(f.fs.geo, f.chain, pos, clst, left);
      pos := pos + left;
      if left % 512 != 0 {
        nsect := f.fs.geo.ClstSect(clst) + left / 512;
      }
    } else {
      NoPartSector(f.fs.geo, f.chain, pos, f.clust);
    }
  }

  lemma NoPartSector(g: Geo, chain: seq<nat>, pos: nat, clust: nat)
    requires pos == 0 || AtPrev(g, chain, pos, clust)
    ensures AtPrev(g, chain, pos, clust) && Covers(g, chain, pos)
    ensures chain == [] && pos == 0 ==> !HasSector(g, chain, pos / 512)
  {
  }

  /** SeekWalk, its effect counted from before SeekStart. */
  method WalkFrom(f: File, target: nat, start: nat, first: nat, ghost n: nat, ghost f0: Table, ghost i0: Image,
                  ghost chain0: seq<nat>, ghost last0: nat)
    returns (pos: nat, clst: nat, left: nat)
    requires f.fs.geo.csize > 0 && n == Needed(f.fs.geo, target)
    requires f.Base() && f.fs.Valid() && target > start && AtCluster(f.fs.geo, f.chain, start, first)
    requires f.canWrite || target <= f.objsize
    requires FatWalk(f.fs.geo, n, f0, i0, chain0, last0, f.fs.Fat(), f.fs.Img(), f.chain, f.fs.lastClst)
    modifies f`sclust, f`chain, f`clust
    modifies f.fs`winsect, f.fs`wflag, f.fs.win, f.fs.disk, f.fs`lastClst, f.fs`freeClst, f.fs`fsiFlag
    ensures f.Base() && f.Bytes() == old(f.Bytes())
    ensures FatWalk(f.fs.geo, n, f0, i0, chain0, last0, f.fs.Fat(), f.fs.Img(), f.chain, f.fs.lastClst)
    ensures left > 0 ==>
            AtCluster(f.fs.geo, f.chain, pos, clst) && left <= f.fs.geo.csize * 512 && pos + left == target
            && f.clust == clst
    ensures left == 0 ==> pos < target && AtPrev(f.fs.geo, f.chain, pos, f.clust) && pos > 0 && pos % 512 == 0
    ensures left == 0 ==> FreeCount(f.fs.Fat()) == 0 && !HasSector(f.fs.geo, f.chain, pos / 512)
  {
    hide *;
    FileFacts(f);
    ghost var f1, i1, chain1, last1 := f.fs.Fat(), f.fs.Img(), f.chain, f.fs.lastClst;
    pos, clst, left := SeekWalk(f, target, start, first, n);
    FileFacts(f);
    FatWalkTrans(f.fs.geo, n, f0, i0, chain0, last0, f1, i1, chain1, last1, f.fs.Fat(), f.fs.Img(), f.chain,
                f.fs.lastClst);
  }

  lemma GrownSize(g: Geo, e: Image, f: Table, sclust: nat, chain: seq<nat>, size: nat, more: nat)
    requires g.Valid(|e|) && ChainOk(g, f, sclust, chain, size) && OwnClusters(g, chain) && Covers(g, chain, size)
    requires size <= more <= MAX_DWORD && Covers(g, chain, more)
    ensures ChainOk(g, f, sclust, chain, more)
    ensures Content(g, e, chain, more)[..size] == Content(g, e, chain, size)
  {
    ContentOfShorter(g, e, chain, more, size);
  }

  lemma CappedMore(trust: Trust, size: nat, more: nat)
    requires Capped(trust, size) && size <= more
    ensures Capped(trust, more)
  {
  }

  /** A larger size, on clusters the file has. The bytes there were stay. */
  method ExtendTo(f: File, pos: nat)
    requires f.Base() && Covers(f.fs.geo, f.chain, pos) && pos <= MAX_DWORD
    modifies f`objsize, f`modified
    ensures f.modified <==> old(f.modified) || f.objsize > old(f.objsize)
    ensures f.Base() && f.objsize == if pos > old(f.objsize) then pos else old(f.objsize)
    ensures |f.Bytes()| == f.objsize && f.Bytes()[..old(f.objsize)] == old(f.Bytes())
  {
    hide *;
    Unfold(f);
    WholeSlice(f.Bytes());
    if pos > f.objsize {
      GrownSize(f.fs.geo, f.Eff(), f.fs.Fat(), f.sclust, f.chain, f.objsize, pos);
      CappedMore(f.trust, f.objsize, pos);
      f.objsize := pos;
      f.modified := true;
      Unfold(f);
    }
  }

  /** The position reached is the target, or the capacity if that is less. */
  lemma ReachesCapacity(f: File, pos: nat, target: nat)
    requires f.Base() && Covers(f.fs.geo, f.chain, pos) && pos <= target <= MAX_DWORD
    requires pos < target ==> FreeCount(f.fs.Fat()) == 0 && !HasSector(f.fs.geo, f.chain, pos / 512)
    ensures var cap := Capacity(f.fs.geo, f.fs.Fat(), f.chain); pos == if target <= cap then target else cap
  {
    hide *;
    FileFacts(f);
    CoversIs(f.fs.geo.csize, |f.chain|, pos);
    CapacityIs(f.fs.geo, f.fs.Fat(), f.chain);
    MoreRoom(f.fs.geo.csize, |f.chain|, Room(f.fs.Fat(), f.chain));
    PosInChain(f.fs.geo, f.chain, pos);
  }

  lemma PosInChain(g: Geo, chain: seq<nat>, pos: nat)
    requires g.csize > 0 && Covers(g, chain, pos)
    ensures pos > 0 ==> (pos - 1) / 512 / g.csize < |chain|
    ensures !HasSector(g, chain, pos / 512) <==> pos / 512 / g.csize >= |chain|
  {
  }

  /** The position is on a sector boundary or in the sector the buffer stands on. */
  ghost predicate NotMoved(g: Geo, chain: seq<nat>, pos: nat, sect: nat) {
    pos % 512 == 0 || (HasSector(g, chain, pos / 512) && Lba(g, chain, pos / 512) == sect)
  }

  lemma NotMovedIs(g: Geo, chain: seq<nat>, pos: nat, sect: nat)
    ensures NotMoved(g, chain, pos, sect) <==>
            pos % 512 == 0 || (HasSector(g, chain, pos / 512) && Lba(g, chain, pos / 512) == sect)
  {
  }

  /** Show the sector of the position in the buffer, if the position is inside one. */
  method ShowSector(f: File, nsect: nat)
    requires f.cltbl == []
    requires f.Base() && f.fptr <= f.objsize && AtPrev(f.fs.geo, f.chain, f.fptr, f.clust)
    requires f.fptr % 512 != 0 ==>
             HasSector(f.fs.geo, f.chain, f.fptr / 512) && nsect == Lba(f.fs.geo, f.chain, f.fptr / 512)
    modifies f`dirty, f`sect, f.buf, f.fs.disk
    ensures f.dirty ==> old(f.dirty)
    ensures f.Held() && f.Base() && f.Bytes() == old(f.Bytes()) && f.fs.Fat() == old(f.fs.Fat())
    ensures KeepsOthers(f.fs.geo, old(f.fs.Img()), f.fs.Img(), f.chain)
    ensures NotMoved(f.fs.geo, f.chain, f.fptr, old(f.sect)) ==>
            Stays(f, old(f.sect), old(f.dirty), old(f.buf[..])) && f.fs.disk.sectors == old(f.fs.disk.sectors)
    ensures !NotMoved(f.fs.geo, f.chain, f.fptr, old(f.sect)) ==>
            !f.dirty && f.sect < |f.fs.disk.sectors| && f.buf[..] == f.fs.disk.sectors[f.sect]
  {
    hide *;
    Unfold(f);
    KeepsOthersRefl(f.fs.geo, f.fs.Img(), f.chain);
    NotMovedIs(f.fs.geo, f.chain, f.fptr, f.sect);
    StaysIs(f, f.sect, f.dirty, f.buf[..]);
    if f.fptr % 512 != 0 {
      LbaIsOwn(f.fs.geo, f.chain, f.fptr / 512);
      ToSector(f, nsect);
      InSectFrom(f.fs.geo, f.chain, f.fptr, f.sect);
    } else {
      OnBoundary(f.fs.geo, f.chain, f.fptr, f.sect);
    }
    MapOkIs(f.cltbl, f.chain);
    UnfoldValid(f);
  }

  function Least(a: nat, b: nat): nat { if a <= b then a else b }

  function Most(a: nat, b: nat): nat { if a >= b then a else b }

  lemma LeastIs(a: nat, b: nat)
    ensures Least(a, b) == (if a <= b then a else b) && Most(a, b) == if a >= b then a else b
  {
  }

  /** The seek once its target is clipped at the size of a file that is only read. */
  method SeekTo(f: File, target: nat)
    requires f.cltbl == []
    requires f.Held() && target <= MAX_DWORD && (f.canWrite || target <= f.objsize)
    modifies f`fptr, f`objsize, f`clust, f`sclust, f`chain, f`dirty, f`sect, f`modified, f.buf
    modifies f.fs`winsect, f.fs`wflag, f.fs.win, f.fs.disk, f.fs`lastClst, f.fs`freeClst, f.fs`fsiFlag
    ensures f.objsize == old(f.objsize) ==> f.chain == old(f.chain) && f.sclust == old(f.sclust)
    ensures f.dirty ==> old(f.dirty)
    ensures f.modified <==> old(f.modified) || f.objsize > old(f.objsize)
    ensures f.Held() && f.Base() && |f.fs.Fat()| >= 3 && f.fs.geo.csize > 0
    ensures OnlyThisFile(f.fs.geo, old(f.fs.Fat()), old(f.fs.Img()), old(f.chain), f.fs.Fat(), f.fs.Img(), f.chain)
    ensures f.fptr == Least(target, old(Capacity(f.fs.geo, f.fs.Fat(), f.chain)))
    ensures f.objsize == Most(f.fptr, old(f.objsize))
    ensures |f.Bytes()| == f.objsize && f.Bytes()[..old(f.objsize)] == old(f.Bytes())
    ensures f.chain == Asked(f.fs.geo, old(f.fs.Fat()), old(f.chain), old(f.fs.lastClst), Needed(f.fs.geo, target))
    ensures NotMoved(f.fs.geo, f.chain, f.fptr, old(f.sect)) ==> Stays(f, old(f.sect), old(f.dirty), old(f.buf[..]))
    ensures NotMoved(f.fs.geo, f.chain, f.fptr, old(f.sect)) && old(f.sect) != 0 ==>
            f.sect < |f.fs.disk.sectors| == old(|f.fs.disk.sectors|)
            && f.fs.disk.sectors[f.sect] == old(f.fs.disk.sectors[f.sect])
    ensures !NotMoved(f.fs.geo, f.chain, f.fptr, old(f.sect)) ==>
            !f.dirty && f.sect < |f.fs.disk.sectors| && f.buf[..] == f.fs.disk.sectors[f.sect]
  {
    hide *;
    UnfoldValid(f);
    Unfold(f);
    FileFacts(f);
    BufferRanges(f);
    ghost var g, f0, i0, chain0, sect0, dirty0, buf0 :=
      f.fs.geo, f.fs.Fat(), f.fs.Img(), f.chain, f.sect, f.dirty, f.buf[..];
    ghost var last0, size0, free0, sclust0 := f.fs.lastClst, f.objsize, f.fs.freeClst, f.sclust;
    var pos, nsect := SeekReach(f, target);
    FileFacts(f);
    ghost var i1 := f.fs.Img();
    ArriveAt(f, pos, nsect);
    FileFacts(f);
    StaysIs(f, sect0, dirty0, buf0);
    OnlyThisFileData(g, f0, i0, chain0, f.fs.Fat(), i1, f.chain, f.fs.Img());
    NotStretched(f, f0, free0, sclust0, chain0, last0, size0, target);
  }

  /** The object takes note of the position, and shows its sector. */
  method ArriveAt(f: File, pos: nat, nsect: nat)
    requires f.cltbl == []
    requires f.Base() && Covers(f.fs.geo, f.chain, pos) && pos <= MAX_DWORD && AtPrev(f.fs.geo, f.chain, pos, f.clust)
    requires pos % 512 != 0 ==> HasSector(f.fs.geo, f.chain, pos / 512) && nsect == Lba(f.fs.geo, f.chain, pos / 512)
    modifies f`fptr, f`objsize, f`dirty, f`sect, f`modified, f.buf, f.fs.disk
    ensures f.dirty ==> old(f.dirty)
    ensures f.modified <==> old(f.modified) || f.objsize > old(f.objsize)
    ensures f.Held() && f.Base() && f.fs.Fat() == old(f.fs.Fat()) && f.fptr == pos
            && f.objsize == Most(pos, old(f.objsize))
    ensures |f.Bytes()| == f.objsize && f.Bytes()[..old(f.objsize)] == old(f.Bytes())
    ensures KeepsOthers(f.fs.geo, old(f.fs.Img()), f.fs.Img(), f.chain)
    ensures NotMoved(f.fs.geo, f.chain, pos, old(f.sect)) ==>
            Stays(f, old(f.sect), old(f.dirty), old(f.buf[..])) && f.fs.disk.sectors == old(f.fs.disk.sectors)
    ensures !NotMoved(f.fs.geo, f.chain, pos, old(f.sect)) ==>
            !f.dirty && f.sect < |f.fs.disk.sectors| && f.buf[..] == f.fs.disk.sectors[f.sect]
  {
    hide *;
    Unfold(f);
    LeastIs(pos, f.objsize);
    ExtendTo(f, pos);
    f.fptr := pos;
    ShowSector(f, nsect);
    UnfoldValid(f);
  }

  /** The position the seek reaches and the clusters it takes; under the buffer nothing changes. */
  method SeekReach(f: File, target: nat) returns (pos: nat, nsect: nat)
    requires f.Held() && target <= MAX_DWORD && (f.canWrite || target <= f.objsize)
    modifies f`sclust, f`chain, f`clust
    modifies f.fs`winsect, f.fs`wflag, f.fs.win, f.fs.disk, f.fs`lastClst, f.fs`freeClst, f.fs`fsiFlag
    ensures f.Base() && f.Bytes() == old(f.Bytes()) && |f.fs.Fat()| >= 3 && f.fs.geo.csize > 0
    ensures OnlyThisFile(f.fs.geo, old(f.fs.Fat()), old(f.fs.Img()), old(f.chain), f.fs.Fat(), f.fs.Img(), f.chain)
    ensures pos == Least(target, old(Capacity(f.fs.geo, f.fs.Fat(), f.chain)))
    ensures f.chain == Asked(f.fs.geo, old(f.fs.Fat()), old(f.chain), old(f.fs.lastClst), Needed(f.fs.geo, target))
    ensures AtPrev(f.fs.geo, f.chain, pos, f.clust) && Covers(f.fs.geo, f.chain, pos) && pos <= MAX_DWORD
    ensures pos % 512 != 0 ==> HasSector(f.fs.geo, f.chain, pos / 512) && nsect == Lba(f.fs.geo, f.chain, pos / 512)
    ensures f.sect != 0 ==>
            f.sect < |f.fs.disk.sectors| == old(|f.fs.disk.sectors|)
            && f.fs.disk.sectors[f.sect] == old(f.fs.disk.sectors[f.sect])
  {
    hide *;
    UnfoldValid(f);
    FileFacts(f);
    BufferRanges(f);
    ghost var g, f0, i0, chain0, last0 := f.fs.geo, f.fs.Fat(), f.fs.Img(), f.chain, f.fs.lastClst;
    ghost var n := Needed(g, target);
    pos, nsect := SeekMove(f, target, n);
    FileFacts(f);
    FatWalkIs(g, n, f0, i0, chain0, last0, f.fs.Fat(), f.fs.Img(), f.chain, f.fs.lastClst);
    AskedReached(g, f.fs.Fat(), f.fs.freeClst, f.sclust, f.chain, f.objsize, f.fs.lastClst, pos, target);
    BufferRanges(f);
    if f.sect != 0 { SameData(g, i0, f.fs.Img(), f.sect); }
    LeastIs(target, Capacity(g, f0, chain0));
    ReachesCapacity(f, pos, target);
    SameCapacity(g, f0, i0, chain0, f.fs.Fat(), f.fs.Img(), f.chain);
  }

  /** Where the buffer of a file stands, the drive shows the image. */
  lemma BufferRanges(f: File)
    requires f.Base()
    ensures f.fs.Valid() && |f.fs.Img()| == |f.fs.disk.sectors|
    ensures f.sect != 0 ==> f.fs.geo.FatEnd() <= f.fs.geo.database <= f.sect < |f.fs.disk.sectors|
    ensures f.sect != 0 ==> f.fs.Img()[f.sect] == f.fs.disk.sectors[f.sect]
  {
    hide *;
    Unfold(f);
    VolumeFacts(f.fs);
    WatchedFacts(f.fs.geo, f.fs.mark, f.fs.home, f.fs.Now());
    BufferSector(f.fs.geo, f.fs.disk.sectors, f.fs.home, f.chain, f.trust, f.sect, f.dirty, f.buf[..]);
    if f.sect != 0 { ImageShows(f.fs, f.sect); }
  }

  lemma BufferSector(g: Geo, d: Image, home: nat, chain: seq<nat>, trust: Trust, sect: nat, dirty: bool, buf: seq<byte>)
    requires BufferOk(g, d, home, chain, trust, sect, dirty, buf)
    ensures sect != 0 ==> g.database <= sect < |d| && sect != home
  {
  }

  lemma SameData(g: Geo, i: Image, i': Image, s: nat)
    requires KeepsOthers(g, i, i', []) && g.FatEnd() <= s < |i|
    ensures |i'| == |i| && i'[s] == i[s]
  {
  }

  /** At the end of the walk the clusters asked for are there, or none is free. */
  lemma AskedReached(g: Geo, f: Table, free: nat, sclust: nat, chain: seq<nat>, size: nat, last: nat, pos: nat,
                     target: nat)
    requires Sound(f, free) && |f| == g.nFatent >= 3 && ChainOk(g, f, sclust, chain, size) && g.csize > 0
    requires Covers(g, chain, pos) && pos <= target && (pos < target ==> FreeCount(f) == 0)
    ensures Asked(g, f, chain, last, Needed(g, target)) == chain
  {
    hide *;
    CoversNeeded(g, chain, pos);
    if pos == target {
      AskedEnough(g, f, chain, last, Needed(g, target));
    } else {
      AskedFull(g, f, free, sclust, chain, size, last, Needed(g, target));
    }
  }

  // ----- a buffer over a sector that comes back -----

  /** Known before a seek: the buffer is clean and not what is on the drive, the seek makes its sector
      hold bytes of the file, and the buffer need not be filled for the position reached. */
  ghost predicate Caught(g: Geo, d: Image, f: Table, chain: seq<nat>, last: nat, size: nat, sect: nat, dirty: bool,
                         buf: seq<byte>, target: nat)
    requires |f| >= 3 && g.csize > 0
  {
    var after := Asked(g, f, chain, last, Needed(g, target));
    var pos := Least(target, Capacity(g, f, chain));
    && !dirty && 0 < sect < |d| && buf != d[sect]
    && Carries(g, after, Most(pos, size), sect) && NotMoved(g, after, pos, sect)
  }

  /** The target of a seek: a file that is only read is not stretched. */
  function TargetOf(canWrite: bool, size: nat, ofs: nat): nat {
    if ofs > size && !canWrite then size else ofs
  }

  lemma CaughtStays(g: Geo, d: Image, f: Table, chain: seq<nat>, last: nat, size: nat, sect: nat, dirty: bool,
                    buf: seq<byte>, target: nat, d': Image, after: seq<nat>, pos: nat)
    requires |f| >= 3 && g.csize > 0 && after == Asked(g, f, chain, last, Needed(g, target))
    requires pos == Least(target, Capacity(g, f, chain)) && (sect != 0 ==> sect < |d| == |d'| && d'[sect] == d[sect])
    requires NotMoved(g, after, pos, sect)
    ensures ShowsDrive(g, d', after, Most(pos, size), sect, dirty, buf) <==>
            !Caught(g, d, f, chain, last, size, sect, dirty, buf, target)
  {
    hide Asked, Needed, Least, Most, Capacity, Carries, NotMoved;
  }

  lemma CaughtMoved(g: Geo, d: Image, f: Table, chain: seq<nat>, last: nat, size: nat, sect: nat, dirty: bool,
                    buf: seq<byte>, target: nat, d': Image, after: seq<nat>, pos: nat, sect': nat, buf': seq<byte>)
    requires |f| >= 3 && g.csize > 0 && after == Asked(g, f, chain, last, Needed(g, target))
    requires pos == Least(target, Capacity(g, f, chain)) && !NotMoved(g, after, pos, sect)
    requires sect' < |d'| && buf' == d'[sect']
    ensures ShowsDrive(g, d', after, Most(pos, size), sect', false, buf')
    ensures !Caught(g, d, f, chain, last, size, sect, dirty, buf, target)
  {
    hide Asked, Needed, Least, Most, Capacity, Carries, NotMoved;
  }

  /** A buffer that is right is caught only by a seek past the size, on a sector that holds no byte of
      the file before. */
  lemma CaughtMeans(g: Geo, d: Image, f: Table, sclust: nat, chain: seq<nat>, last: nat, size: nat, sect: nat,
                    dirty: bool, buf: seq<byte>, target: nat)
    requires |f| >= 3 && g.csize > 0 && ChainOk(g, f, sclust, chain, size)
    requires ShowsDrive(g, d, chain, size, sect, dirty, buf)
             && Caught(g, d, f, chain, last, size, sect, dirty, buf, target)
    ensures target > size && !Carries(g, chain, size, sect)
  {
    if target <= size { NotPast(g, d, f, chain, last, size, sect, dirty, buf, target); }
    hide Asked, ChainOk, Carries, NotMoved, Needed, Least, Most, Capacity;
    if Carries(g, chain, size, sect) { assert false; }
  }

  lemma NotPast(g: Geo, d: Image, f: Table, chain: seq<nat>, last: nat, size: nat, sect: nat, dirty: bool,
                buf: seq<byte>, target: nat)
    requires |f| >= 3 && g.csize > 0 && Covers(g, chain, size) && target <= size
    ensures Caught(g, d, f, chain, last, size, sect, dirty, buf, target) ==> Carries(g, chain, size, sect)
  {
    CoversLess(g, chain, size, target);
    CoversNeeded(g, chain, target);
    AskedEnough(g, f, chain, last, Needed(g, target));
    hide Asked, Carries, NotMoved, Needed, Covers;
  }

  lemma CoversLess(g: Geo, chain: seq<nat>, size: nat, less: nat)
    requires g.csize > 0 && Covers(g, chain, size) && less <= size
    ensures Covers(g, chain, less)
  {
    if less > 0 { DivMonotone(g.csize, (less - 1) / 512, (size - 1) / 512); }
  }

  /** f_lseek: the position asked for, clipped at the size of a file that is only read, and at the
      capacity of one that is written; past the end the file is stretched, its bytes kept. The
      buffer shows the drive afterwards if and only if it was not caught. */
  method Seek(f: File, ofs: nat) returns (res: FResult)
    requires f.cltbl == []
    requires f.Held() && ofs <= MAX_DWORD
    modifies f`fptr, f`objsize, f`clust, f`sclust, f`chain, f`dirty, f`sect, f`modified, f`trust, f.buf
    modifies f.fs`winsect, f.fs`wflag, f.fs.win, f.fs.disk, f.fs`lastClst, f.fs`freeClst, f.fs`fsiFlag
    ensures f.objsize == old(f.objsize) ==> f.chain == old(f.chain) && f.sclust == old(f.sclust)
    ensures f.dirty ==> old(f.dirty)
    ensures f.modified <==> old(f.modified) || f.objsize > old(f.objsize)
    ensures f.Held() && f.Base() && |f.fs.Fat()| >= 3 && f.fs.geo.csize > 0 && res == FR_OK
    ensures OnlyThisFile(f.fs.geo, old(f.fs.Fat()), old(f.fs.Img()), old(f.chain), f.fs.Fat(), f.fs.Img(), f.chain)
    ensures f.fptr == Least(TargetOf(f.canWrite, old(f.objsize), ofs), old(Capacity(f.fs.geo, f.fs.Fat(), f.chain)))
    ensures f.objsize == Most(f.fptr, old(f.objsize))
    ensures |f.Bytes()| == f.objsize && f.Bytes()[..old(f.objsize)] == old(f.Bytes())
    ensures f.chain == Asked(f.fs.geo, old(f.fs.Fat()), old(f.chain), old(f.fs.lastClst),
                             Needed(f.fs.geo, TargetOf(f.canWrite, old(f.objsize), ofs)))
    ensures f.Valid() <==>
            !Caught(f.fs.geo, old(f.fs.disk.sectors), old(f.fs.Fat()), old(f.chain), old(f.fs.lastClst), old(f.objsize),
                    old(f.sect), old(f.dirty), old(f.buf[..]), TargetOf(f.canWrite, old(f.objsize), ofs))
    ensures f.Valid() <==>
            ShowsDrive(f.fs.geo, f.fs.disk.sectors, f.chain, f.objsize, f.sect, f.dirty, f.buf[..])
    ensures old(f.trust).Whole? ==> f.trust.Whole?
    ensures NotMoved(f.fs.geo, f.chain, f.fptr, old(f.sect)) ==> Stays(f, old(f.sect), old(f.dirty), old(f.buf[..]))
    ensures NotMoved(f.fs.geo, f.chain, f.fptr, old(f.sect)) && old(f.sect) != 0 ==>
            f.sect < |f.fs.disk.sectors| == old(|f.fs.disk.sectors|)
            && f.fs.disk.sectors[f.sect] == old(f.fs.disk.sectors[f.sect])
  {
    hide *;
    UnfoldValid(f);
    FileFacts(f);
    BufferRanges(f);
    ghost var g, d0, f0, chain0, last0, size0 :=
      f.fs.geo, f.fs.disk.sectors, f.fs.Fat(), f.chain, f.fs.lastClst, f.objsize;
    ghost var sect0, dirty0, buf0 := f.sect, f.dirty, f.buf[..];
    var target := ofs;
    if target > f.objsize && !f.canWrite {
      target := f.objsize;
    }
    TargetIs(f.canWrite, f.objsize, ofs);
    SeekTo(f, target);
    FileFacts(f);
    ghost var after, pos := f.chain, f.fptr;
    StaysIs(f, sect0, dirty0, buf0);
    if NotMoved(g, after, pos, sect0) {
      CaughtStays(g, d0, f0, chain0, last0, size0, sect0, dirty0, buf0, target, f.fs.disk.sectors, after, pos);
    } else {
      CaughtMoved(g, d0, f0, chain0, last0, size0, sect0, dirty0, buf0, target, f.fs.disk.sectors, after, pos, f.sect,
                  f.buf[..]);
    }
    Reassess(f);
    res := FR_OK;
  }

  /** A seek that leaves the size leaves the clusters. */
  lemma NotStretched(f: File, f0: Table, free: nat, sclust: nat, chain: seq<nat>, last: nat, size: nat, target: nat)
    requires f.Base() && Sound(f0, free) && |f0| == f.fs.geo.nFatent >= 3 && ChainOk(f.fs.geo, f0, sclust, chain, size)
    requires f.fs.geo.csize > 0 && target <= MAX_DWORD && f.objsize == Most(f.fptr, size)
    requires f.fptr == Least(target, Capacity(f.fs.geo, f0, chain))
    requires f.chain == Asked(f.fs.geo, f0, chain, last, Needed(f.fs.geo, target))
    ensures f.objsize == size ==> f.chain == chain && f.sclust == sclust
  {
    hide *;
    FileFacts(f);
    if f.objsize == size {
      LeastIs(target, Capacity(f.fs.geo, f0, chain));
      LeastIs(f.fptr, size);
      TakesNone(f.fs.geo, f0, free, sclust, chain, last, size, target);
      SameStart(f.fs.geo, f0, sclust, chain, size, f.fs.Fat(), f.sclust, f.objsize);
    }
  }

  /** A seek that does not pass the size takes no cluster. */
  lemma TakesNone(g: Geo, f: Table, free: nat, sclust: nat, chain: seq<nat>, last: nat, size: nat, target: nat)
    requires Sound(f, free) && |f| == g.nFatent >= 3 && ChainOk(g, f, sclust, chain, size) && g.csize > 0
    requires target <= MAX_DWORD && (target <= size || Capacity(g, f, chain) <= size)
    ensures Asked(g, f, chain, last, Needed(g, target)) == chain
  {
    hide *;
    if target <= size {
      SizeCovered(g, f, sclust, chain, size);
      CoversLess(g, chain, size, target);
      CoversNeeded(g, chain, target);
      AskedEnough(g, f, chain, last, Needed(g, target));
    } else {
      FullAtSize(g, f, sclust, chain, size);
      AskedFull(g, f, free, sclust, chain, size, last, Needed(g, target));
    }
  }

  lemma SizeCovered(g: Geo, f: Table, sclust: nat, chain: seq<nat>, size: nat)
    requires ChainOk(g, f, sclust, chain, size)
    ensures Covers(g, chain, size) && size <= MAX_DWORD
  {
  }

  /** A file below 2^32 - 1 bytes that is at its capacity has all the clusters there are for it. */
  lemma FullAtSize(g: Geo, f: Table, sclust: nat, chain: seq<nat>, size: nat)
    requires |f| >= 2 && g.csize > 0 && ChainOk(g, f, sclust, chain, size)
    requires Capacity(g, f, chain) <= size < MAX_DWORD
    ensures FreeCount(f) == 0
  {
    hide *;
    SizeCovered(g, f, sclust, chain, size);
    CapacityIs(g, f, chain);
    SizeInChain(g, chain, size, f, sclust);
    CoversIs(g.csize, |chain|, size);
    RoomIs(f, chain);
    if FreeCount(f) > 0 { MoreClusters(g.csize, |chain|, Room(f, chain)); }
  }

  lemma MoreClusters(d: nat, n: nat, m: nat)
    requires d > 0 && n < m
    ensures n * (d * 512) < m * (d * 512)
  {
  }

  lemma SameStart(g: Geo, f: Table, sclust: nat, chain: seq<nat>, size: nat, f': Table, sclust': nat, size': nat)
    requires ChainOk(g, f, sclust, chain, size) && ChainOk(g, f', sclust', chain, size')
    ensures sclust' == sclust
  {
  }

  lemma TargetIs(canWrite: bool, size: nat, ofs: nat)
    ensures TargetOf(canWrite, size, ofs) == if ofs > size && !canWrite then size else ofs
  {
  }

  // ----- opening for append -----

  /** Follow the chain to the cluster the file ends in; ofs is where in it. */
  method WalkToEnd(f: File) returns (res: FResult, clst: nat, ofs: nat, ghost pos: nat)
    requires f.Base() && f.objsize > 0
    modifies f.fs`winsect, f.fs`wflag, f.fs.win, f.fs.disk
    ensures f.Base() && f.Bytes() == old(f.Bytes()) && f.fs.Valid() && res == FR_OK
    ensures f.fs.Img() == old(f.fs.Img()) && f.fs.Fat() == old(f.fs.Fat())
    ensures AtCluster(f.fs.geo, f.chain, pos, clst) && pos + ofs == f.objsize && 0 < ofs <= f.fs.geo.csize * 512
  {
    hide *;
    FileFacts(f);
    ghost var g, bytes, img, fat := f.fs.geo, f.Bytes(), f.fs.Img(), f.fs.Fat();
    FirstOfFile(g, fat, f.sclust, f.chain, f.objsize);
    PositiveBytes(g.csize);
    var bcs := f.fs.geo.csize * 512;
    res, clst, ofs, pos := FR_OK, f.sclust, f.objsize, 0;
    while res == FR_OK && ofs > bcs
      invariant f.Base() && f.Bytes() == bytes && f.fs.Valid() && f.fs.Img() == img && f.fs.Fat() == fat
      invariant AtCluster(g, f.chain, pos, clst) && pos + ofs == f.objsize && ofs > 0 && res == FR_OK
    {
      clst := WalkRead(f, pos, clst);
      FileFacts(f);
      AtClusterRange(g, |f.fs.disk.sectors|, f.chain, pos + bcs, clst);
      if clst <= 1 {
        res := FR_INT_ERR;
      }
      ofs := ofs - bcs;
      pos := pos + bcs;
    }
  }

  /** The seek at the end of f_open when appending: to the end of the file just opened. */
  method SeekEnd(f: File) returns (res: FResult)
    requires f.Valid() && f.fptr == 0 && !f.dirty
    modifies f`fptr, f`clust, f`sect, f.buf, f.fs`winsect, f.fs`wflag, f.fs.win, f.fs.disk
    ensures f.Valid() && res == FR_OK && f.fptr == f.objsize && f.Bytes() == old(f.Bytes())
    ensures f.fs.Img() == old(f.fs.Img()) && f.fs.Fat() == old(f.fs.Fat())
  {
    hide *;
    UnfoldValid(f);
    FileFacts(f);
    res := FR_OK;
    if f.objsize > 0 {
      var clst, ofs;
      ghost var pos;
      res, clst, ofs, pos := WalkToEnd(f);
      f.fptr, f.clust := f.objsize, clst;
      res := ShowEnd(f, ofs, pos);
    }
    UnfoldValid(f);
  }

  /** The last sector of the file into the buffer, unless the file ends on a boundary. */
  method ShowEnd(f: File, ofs: nat, ghost pos: nat) returns (res: FResult)
    requires MapOk(f.cltbl, f.chain)
    requires f.Base() && f.fs.Valid() && !f.dirty && f.fptr == f.objsize
    requires AtCluster(f.fs.geo, f.chain, pos, f.clust) && pos + ofs == f.objsize && 0 < ofs <= f.fs.geo.csize * 512
    modifies f`sect, f.buf
    ensures f.Held() && res == FR_OK && f.Bytes() == old(f.Bytes())
    ensures f.fs.Valid() && f.fs.Img() == old(f.fs.Img()) && f.fs.Fat() == old(f.fs.Fat())
  {
    hide *;
    FileFacts(f);
    Unfold(f);
    AtClusterRange(f.fs.geo, |f.fs.disk.sectors|, f.chain, pos, f.clust);
    InLastCluster(f.fs.geo, f.chain, pos, f.clust, ofs);
    res := FR_OK;
    if ofs % 512 != 0 {
      var sc := f.fs.geo.ClstSect(f.clust);
      if sc == 0 {
        res := FR_INT_ERR;
      } else {
        LbaIsOwn(f.fs.geo, f.chain, f.fptr / 512);
        LoadSector(f, sc + ofs / 512);
        InSectFrom(f.fs.geo, f.chain, f.fptr, f.sect);
      }
    } else {
      OnBoundary(f.fs.geo, f.chain, f.fptr, f.sect);
    }
    Unfold(f);
    UnfoldValid(f);
  }
}
