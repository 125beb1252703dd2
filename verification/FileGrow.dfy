/** Moving to the next cluster in write mode: along the chain, or by stretching it. */
module FileGrow {
  import opened Allocation
  import opened Bytes
  import opened ChainOps
  import opened Chains
  import opened FileLayout
  import opened FileRead
  import opened Files
  import opened Geometry
  import opened Numbers
  import opened Sectors
  import opened Volume

  /** The chain with one more cluster, when create_chain has taken it. */
  ghost function Grown(chain: seq<nat>, took: bool, ncl: nat): (longer: seq<nat>)
    ensures chain <= longer
  {
    if took then chain + [ncl] else chain
  }

  lemma EndOfChain(g: Geo, f: Table, sclust: nat, chain: seq<nat>, size: nat)
    requires WellFormed(f) && |f| == g.nFatent && ChainOk(g, f, sclust, chain, size)
    ensures var clst := if chain == [] then 0 else chain[|chain| - 1];
            && (chain != [] ==> InTable(f, clst) && f[clst] >= |f| && IsChain(f, chain) && chain[0] == sclust)
            && (chain != [] ==> InTable(f, sclust) && f[sclust] != 0 && IsHead(f, sclust))
            && (chain == [] <==> sclust == 0)
    ensures forall i :: 0 <= i < |chain| ==> InTable(f, chain[i]) && f[chain[i]] != 0
    ensures size <= MAX_DWORD && Covers(g, chain, size) && OwnClusters(g, chain)
  {
    if chain != [] { ChainNotFree(f, chain); }
  }

  lemma ChainOkFrom(g: Geo, f: Table, sclust: nat, chain: seq<nat>, size: nat)
    requires chain != [] && sclust != 0 && chain[0] == sclust && IsChain(f, chain) && IsHead(f, sclust)
    requires |f| == g.nFatent && size <= MAX_DWORD && Covers(g, chain, size)
    ensures ChainOk(g, f, sclust, chain, size)
  {
    ChainOwns(g, f, chain);
  }

  lemma CoversMore(g: Geo, chain: seq<nat>, longer: seq<nat>, size: nat)
    requires Covers(g, chain, size) && chain <= longer
    ensures Covers(g, longer, size)
  {
  }

  lemma StretchedEntries(f: Table, chain: seq<nat>, clst: nat, ncl: nat, e: nat)
    requires clst < |f| && ncl < |f| && (clst == 0 || clst in chain)
    ensures KeepsEntries(f, Stretched(f, clst, ncl, e), chain + [ncl])
  {
  }

  /** A free cluster taken at the end: the longer chain is in the new table, and only it changed. */
  lemma TakenChain(g: Geo, nsect: nat, f: Table, sclust: nat, chain: seq<nat>, size: nat, ncl: nat)
    requires g.Valid(nsect) && |f| == g.nFatent && WellFormed(f) && ChainOk(g, f, sclust, chain, size)
    requires InTable(f, ncl) && f[ncl] == 0
    ensures var clst := if chain == [] then 0 else chain[|chain| - 1];
            && clst < |f|
            && var f' := Stretched(f, clst, ncl, g.Eoc());
            && (clst == 0 || (InTable(f, clst) && f[clst] >= |f|))
            && ChainOk(g, f', if sclust == 0 then ncl else sclust, chain + [ncl], size)
            && KeepsEntries(f, f', chain + [ncl])
            && FreeCount(f') + 1 == FreeCount(f)
            && ncl !in chain
  {
    hide *;
    EocIsEnd(g, nsect);
    EndOfChain(g, f, sclust, chain, size);
    TableRange(f, ncl);
    var e := g.Eoc();
    var clst := if chain == [] then 0 else chain[|chain| - 1];
    TableRange(f, clst);
    var f' := Stretched(f, clst, ncl, e);
    StretchedKeeps(f, clst, ncl, e);
    StretchedEntries(f, chain, clst, ncl, e);
    CoversMore(g, chain, chain + [ncl], size);
    if chain == [] {
      NewChain(f, ncl, e);
    } else {
      StretchedChain(f, chain, ncl, e);
      StretchedHead(f, sclust, clst, ncl, e);
    }
    ChainOkFrom(g, f', if sclust == 0 then ncl else sclust, chain + [ncl], size);
  }

  lemma NewChain(f: Table, ncl: nat, e: nat)
    requires WellFormed(f) && InTable(f, ncl) && f[ncl] == 0 && e >= |f|
    ensures ncl >= 2 && IsChain(Stretched(f, 0, ncl, e), [ncl]) && IsHead(Stretched(f, 0, ncl, e), ncl)
    ensures [] + [ncl] == [ncl]
  {
    AllocateKeeps(f, ncl, e);
  }

  /** The head of a chain stays a head when a free cluster is put at the end. */
  lemma StretchedHead(f: Table, h: nat, clst: nat, ncl: nat, e: nat)
    requires WellFormed(f) && InTable(f, clst) && InTable(f, ncl) && f[ncl] == 0 && e >= |f|
    requires InTable(f, h) && f[h] != 0 && IsHead(f, h)
    ensures IsHead(Stretched(f, clst, ncl, e), h)
  {
    var f' := Stretched(f, clst, ncl, e);
    forall d | Links(f', d, h)
      ensures Links(f, d, h)
    {
    }
  }

  /** Where a position on a cluster boundary is in the chain. */
  lemma BoundaryInChain(g: Geo, f: Table, sclust: nat, chain: seq<nat>, size: nat, fptr: nat, clust: nat)
    requires IsClusterSize(g.csize) && |f| == g.nFatent && WellFormed(f) && ChainOk(g, f, sclust, chain, size)
    requires fptr % 512 == 0 && fptr / 512 % g.csize == 0 && AtPrev(g, chain, fptr, clust)
    requires 0 < fptr
    ensures var i := (fptr - 1) / 512 / g.csize;
            && i < |chain| && clust == chain[i] && fptr / 512 / g.csize == i + 1
            && InTable(f, clust) && f[clust] != 0
            && (i + 1 < |chain| ==> f[clust] == chain[i + 1] && 2 <= chain[i + 1] < |f|)
            && (i + 1 >= |chain| ==> f[clust] >= |f| && i + 1 == |chain| && fptr >= size)
  {
    NextMultiple(g.csize, fptr / 512);
    assert (fptr - 1) / 512 == fptr / 512 - 1;
    var i := (fptr - 1) / 512 / g.csize;
    ChainNotFree(f, chain);
    if i + 1 < |chain| {
      assert f[chain[i]] == chain[i + 1] && InTable(f, chain[i + 1]);
    } else if fptr < size {
      CoversByte(g, chain, size, fptr);
    }
  }

  lemma HasSectorIs(g: Geo, chain: seq<nat>, fptr: nat)
    requires g.csize > 0
    ensures HasSector(g, chain, fptr / 512) <==> fptr / 512 / g.csize < |chain|
    ensures forall c: nat :: fptr / 512 / g.csize < |chain| && c == chain[fptr / 512 / g.csize] ==>
            Here(g, chain, fptr, c)
    ensures forall c: nat :: fptr / 512 / g.csize == |chain| ==> Here(g, chain + [c], fptr, c)
  {
  }

  /** What create_chain does for a file at a cluster boundary. */
  lemma GrowCases(g: Geo, nsect: nat, f: Table, sclust: nat, chain: seq<nat>, size: nat, fptr: nat, clust: nat,
                  last: nat, free: nat)
    requires g.Valid(nsect) && |f| == g.nFatent && |f| >= 3 && Sound(f, free) && ChainOk(g, f, sclust, chain, size)
    requires IsClusterSize(g.csize) && g.csize > 0
    requires fptr % 512 == 0 && fptr / 512 % g.csize == 0 && AtPrev(g, chain, fptr, clust)
    requires fptr > 0 || sclust == 0
    ensures var arg := if fptr == 0 then 0 else clust;
            var ncl := Created(f, arg, last, free);
            var took := Allocates(f, arg, last, free);
            && (HasSector(g, chain, fptr / 512) ==> !took && ncl >= 2 && Here(g, chain, fptr, ncl) && sclust != 0)
            && (!HasSector(g, chain, fptr / 512) ==>
                fptr >= size && arg == (if chain == [] then 0 else chain[|chain| - 1]))
            && (!HasSector(g, chain, fptr / 512) && FreeCount(f) == 0 ==> !took && ncl == 0)
            && (!HasSector(g, chain, fptr / 512) && FreeCount(f) > 0 ==>
                  took && InTable(f, ncl) && f[ncl] == 0 && ncl >= 2 && Here(g, chain + [ncl], fptr, ncl))
  {
    hide *;
    SoundIs(f, free);
    EndOfChain(g, f, sclust, chain, size);
    HasSectorIs(g, chain, fptr);
    var arg := if fptr == 0 then 0 else clust;
    if fptr > 0 {
      BoundaryInChain(g, f, sclust, chain, size, fptr, clust);
    } else {
      NoSectorYet(g, chain, size);
    }
    CreatedForFile(f, arg, last, free);
  }

  lemma SoundIs(f: Table, free: nat)
    ensures Sound(f, free) <==> WellFormed(f) && |f| >= 3 && CountTracks(f, free)
  {
  }

  lemma NoSectorYet(g: Geo, chain: seq<nat>, size: nat)
    requires g.csize > 0 && chain == [] && Covers(g, chain, size)
    ensures size == 0 && 0 / 512 / g.csize == 0 && !HasSector(g, chain, 0 / 512)
  {
  }

  /** create_chain on a well-formed table: follow, take a free cluster, or report that none is left. */
  lemma CreatedForFile(f: Table, arg: nat, last: nat, free: nat)
    requires WellFormed(f) && |f| >= 3 && CountTracks(f, free)
    requires arg == 0 || (InTable(f, arg) && f[arg] != 0)
    ensures var ncl := Created(f, arg, last, free);
            var took := Allocates(f, arg, last, free);
            && (arg != 0 && f[arg] < |f| ==> !took && ncl == f[arg] && ncl >= 2)
            && ((arg == 0 || f[arg] >= |f|) && FreeCount(f) == 0 ==> !took && ncl == 0)
            && ((arg == 0 || f[arg] >= |f|) && FreeCount(f) > 0 ==> took && InTable(f, ncl) && f[ncl] == 0 && ncl >= 2)
  {
    CreatedOnWellFormed(f, arg, last, free);
    assert arg != 0 ==> f[arg] != 1;
  }

  // ----- the file around create_chain -----

  /** create_chain has run: the buffer and the bytes are as they were, on the longer chain as well. */
  lemma GrownBuffer(g: Geo, a: Snap, b: Snap, home: nat, chain: seq<nat>, took: bool, ncl: nat, trust: Trust,
                    sect: nat, dirty: bool, buf: seq<byte>, size: nat)
    requires g.Valid(|a.sectors|) && OwnClusters(g, chain) && FatWritten(g, a, b)
    requires a.winsect == home || g.InFat1(a.winsect)
    requires BufferOk(g, a.sectors, home, chain, trust, sect, dirty, buf) && |buf| == 512
    requires (dirty ==> sect < |a.sectors|) && Capped(trust, size)
    requires OwnClusters(g, Grown(chain, took, ncl)) && Covers(g, chain, size)
    requires took ==> !InCluster(g, ncl, home)
    ensures |b.sectors| == |a.sectors|
    ensures BufferOk(g, b.sectors, home, Grown(chain, took, ncl), trust, sect, dirty, buf)
    ensures Covers(g, Grown(chain, took, ncl), size)
    ensures Content(g, EffOf(b.sectors, sect, dirty, buf), Grown(chain, took, ncl), size) ==
            Content(g, EffOf(a.sectors, sect, dirty, buf), chain, size)
  {
    hide BufferOk, InCluster, EffOf, Content, FatWritten, OwnClusters, Covers, Capped;
    var longer := Grown(chain, took, ncl);
    BufferKept(g, a, b, home, chain, trust, sect, dirty, buf);
    var e0, e1 := EffOf(a.sectors, sect, dirty, buf), EffOf(b.sectors, sect, dirty, buf);
    SameContent(g, e0, e1, chain, size);
    ContentOfLonger(g, e1, chain, longer, size);
    CoversMore(g, chain, longer, size);
    if took {
      GrownBufferOk(g, b.sectors, home, chain, ncl, trust, sect, dirty, buf, size);
    }
  }

  /** A sector of a chain is in one of its clusters. */
  lemma OwnerOf(g: Geo, chain: seq<nat>, s: nat) returns (k: nat)
    requires OwnClusters(g, chain) && Owned(g, chain, s)
    ensures k < |chain| && InCluster(g, chain[k], s)
  {
    var j: nat :| HasSector(g, chain, j) && Lba(g, chain, j) == s;
    var q, r := DivModDef(g.csize, j);
    k := q;
  }

  lemma GrownBufferOk(g: Geo, d: Image, home: nat, chain: seq<nat>, ncl: nat, trust: Trust, sect: nat, dirty: bool,
                      buf: seq<byte>, size: nat)
    requires g.Valid(|d|) && OwnClusters(g, chain + [ncl]) && !InCluster(g, ncl, home)
    requires BufferOk(g, d, home, chain, trust, sect, dirty, buf) && Capped(trust, size) && Covers(g, chain, size)
    ensures BufferOk(g, d, home, chain + [ncl], trust, sect, dirty, buf)
  {
    if Owned(g, chain + [ncl], home) {
      var k := OwnerOf(g, chain + [ncl], home);
      if k < |chain| { InClusterIsOwned(g, chain, k, home); }
    }
    if dirty {
      var j: nat :| HasSector(g, chain, j) && Lba(g, chain, j) == sect;
      LbaOfPrefix(g, chain, chain + [ncl], j);
    }
    if Trusted(g, chain + [ncl], trust, sect) { TrustedBefore(g, chain, ncl, trust, sect, size); }
  }

  /** A new cluster carries none of the bytes there are. */
  lemma TrustedBefore(g: Geo, chain: seq<nat>, ncl: nat, trust: Trust, s: nat, size: nat)
    requires Trusted(g, chain + [ncl], trust, s) && Capped(trust, size) && Covers(g, chain, size) && g.csize > 0
    ensures Trusted(g, chain, trust, s)
  {
    if trust.UpTo? {
      var j: nat :| HasSector(g, chain + [ncl], j) && Lba(g, chain + [ncl], j) == s && 512 * j < trust.size;
      DivMonotone(g.csize, j, (size - 1) / 512);
      LbaOfPrefix(g, chain, chain + [ncl], j);
    }
  }

  lemma InClusterIsOwned(g: Geo, chain: seq<nat>, k: nat, s: nat)
    requires k < |chain| && InCluster(g, chain[k], s)
    ensures Owned(g, chain, s)
  {
    var r := s - g.ClstSect(chain[k]);
    var j := g.csize * k + r;
    DivModIs(g.csize, j, k, r);
    assert HasSector(g, chain, j) && Lba(g, chain, j) == s;
  }

  /** Nothing outside the FATs changes, so nothing of other files or directories does. */
  lemma FatWrittenKeeps(g: Geo, a: Snap, b: Snap, chain: seq<nat>)
    requires FatWritten(g, a, b)
    ensures KeepsOthers(g, a.img, b.img, chain)
  {
  }

  lemma SameEntries(f: Table, chain: seq<nat>)
    ensures KeepsEntries(f, f, chain)
  {
  }

  /** The start cluster of the file once create_chain has answered. */
  function NewStartOf(sclust: nat, clst: nat): nat {
    if sclust == 0 && clst >= 2 then clst else sclust
  }

  /** create_chain may be called for the file with arg: 0 if it has no clusters, or one of them. */
  ghost predicate MayStretch(f: Table, sclust: nat, chain: seq<nat>, arg: nat) {
    if arg == 0 then sclust == 0
    else chain != [] && InTable(f, arg) && f[arg] != 0 && (f[arg] >= |f| ==> arg == chain[|chain| - 1])
  }

  /** The parts of the file's invariant for given fields, and the bytes they stand for. */
  ghost predicate Stands(f: File, sclust: nat, chain: seq<nat>, bytes: seq<byte>)
    reads f`objsize, f`sect, f`dirty, f`stale, f`trust, f.buf
    reads f.fs`winsect, f.fs`wflag, f.fs`freeClst, f.fs`home, f.fs`mark, f.fs.disk, f.fs.win
  {
    && f.fs.Valid() && f.buf != f.fs.win
    && Sound(f.fs.Fat(), f.fs.freeClst)
    && ChainOk(f.fs.geo, f.fs.Fat(), sclust, chain, f.objsize)
    && BufferOk(f.fs.geo, f.fs.disk.sectors, f.fs.home, chain, f.trust, f.sect, f.dirty, f.buf[..])
    && Capped(f.trust, f.objsize) && Shown(f.fs.geo, chain, f.sect, f.stale)
    && Watched(f.fs.geo, f.fs.mark, f.fs.home, f.fs.Now())
    && (f.dirty ==> f.sect < |f.fs.disk.sectors|)
    && bytes == Content(f.fs.geo, EffOf(f.fs.disk.sectors, f.sect, f.dirty, f.buf[..]), chain, f.objsize)
  }

  lemma StandsIs(f: File, bytes: seq<byte>)
    ensures Stands(f, f.sclust, f.chain, bytes) <==> f.Base() && bytes == f.Bytes()
  {
    Unfold(f);
  }

  lemma StandsFrom(f: File, sclust: nat, chain: seq<nat>, bytes: seq<byte>)
    requires f.fs.Valid() && f.buf != f.fs.win && f.buf.Length == 512
    requires Sound(f.fs.Fat(), f.fs.freeClst)
    requires ChainOk(f.fs.geo, f.fs.Fat(), sclust, chain, f.objsize)
    requires BufferOk(f.fs.geo, f.fs.disk.sectors, f.fs.home, chain, f.trust, f.sect, f.dirty, f.buf[..])
    requires Capped(f.trust, f.objsize) && Shown(f.fs.geo, chain, f.sect, f.stale)
    requires f.fs.geo.Valid(|f.fs.Now().img|) && Watched(f.fs.geo, f.fs.mark, f.fs.home, f.fs.Now())
    requires f.dirty ==> f.sect < |f.fs.disk.sectors|
    requires f.fs.geo.Valid(|f.fs.disk.sectors|) && OwnClusters(f.fs.geo, chain) && Covers(f.fs.geo, chain, f.objsize)
    requires bytes == Content(f.fs.geo, EffOf(f.fs.disk.sectors, f.sect, f.dirty, f.buf[..]), chain, f.objsize)
    ensures Stands(f, sclust, chain, bytes)
  {
  }

  lemma ShownLonger(g: Geo, chain: seq<nat>, took: bool, ncl: nat, sect: nat, stale: bool)
    requires Shown(g, chain, sect, stale)
    ensures Shown(g, Grown(chain, took, ncl), sect, stale)
  {
    if Owned(g, chain, sect) {
      var j: nat :| HasSector(g, chain, j) && Lba(g, chain, j) == sect;
      LbaOfPrefix(g, chain, Grown(chain, took, ncl), j);
    }
  }

  /** create_chain takes a free cluster, which is not the home's, and frees none. */
  lemma HomeStays(g: Geo, f: Table, arg: nat, took: bool, ncl: nat, home: nat)
    requires InUse(g, f, home) && (took ==> 2 <= ncl < |f| && arg < |f| && f[ncl] == 0) && g.Eoc() > 0
    ensures took ==> !InCluster(g, ncl, home)
    ensures InUse(g, if took then Stretched(f, arg, ncl, g.Eoc()) else f, home)
  {
    hide InCluster;
  }

  /** create_chain for the file, before the object takes note of the outcome. */
  method CreateFor(f: File, arg: nat) returns (clst: nat, ghost took: bool)
    requires f.Base() && MayStretch(f.fs.Fat(), f.sclust, f.chain, arg)
    modifies f.fs`winsect, f.fs`wflag, f.fs.win, f.fs.disk, f.fs`lastClst, f.fs`freeClst, f.fs`fsiFlag
    ensures clst == Created(old(f.fs.Fat()), arg, old(f.fs.lastClst), old(f.fs.freeClst))
    ensures took == Allocates(old(f.fs.Fat()), arg, old(f.fs.lastClst), old(f.fs.freeClst))
    ensures f.fs.Valid() && f.fs.lastClst == if took then clst else old(f.fs.lastClst)
    ensures took ==> clst < |old(f.fs.Fat())| && old(f.fs.Fat())[clst] == 0
    ensures took ==> arg < |old(f.fs.Fat())| && f.fs.Fat() == Stretched(old(f.fs.Fat()), arg, clst, f.fs.geo.Eoc())
    ensures !took ==> f.fs.Fat() == old(f.fs.Fat())
    ensures Stands(f, NewStartOf(f.sclust, clst), Grown(f.chain, took, clst), old(f.Bytes()))
    ensures f.fs.Valid() && KeepsOthers(f.fs.geo, old(f.fs.Img()), f.fs.Img(), Grown(f.chain, took, clst))
    ensures KeepsOthers(f.fs.geo, old(f.fs.Img()), f.fs.Img(), [])
    ensures KeepsEntries(old(f.fs.Fat()), f.fs.Fat(), Grown(f.chain, took, clst))
    ensures |f.fs.Fat()| >= 2
            && |Grown(f.chain, took, clst)| + FreeCount(f.fs.Fat()) == |f.chain| + old(FreeCount(f.fs.Fat()))
  {
    hide *;
    Unfold(f);
    VolumeFacts(f.fs);
    ghost var s0, f0 := f.fs.Now(), f.fs.Fat();
    took := Allocates(f0, arg, f.fs.lastClst, f.fs.freeClst);
    StretchCases(f.fs.geo, |s0.img|, f0, f.sclust, f.chain, f.objsize, arg, f.fs.lastClst, f.fs.freeClst);
    WatchedFacts(f.fs.geo, f.fs.mark, f.fs.home, s0);
    clst := CreateChain(f.fs, arg);
    VolumeFacts(f.fs);
    LogEnds(f.fs);
    HomeStays(f.fs.geo, f0, arg, took, clst, f.fs.home);
    WatchedWritten(f.fs.geo, f.fs.mark, f.fs.home, s0, f.fs.Now());
    GrownBuffer(f.fs.geo, s0, f.fs.Now(), f.fs.home, f.chain, took, clst, f.trust, f.sect, f.dirty, f.buf[..],
                f.objsize);
    ShownLonger(f.fs.geo, f.chain, took, clst, f.sect, f.stale);
    FatWrittenKeeps(f.fs.geo, s0, f.fs.Now(), Grown(f.chain, took, clst));
    FatWrittenKeeps(f.fs.geo, s0, f.fs.Now(), []);
    SoundIs(f.fs.Fat(), f.fs.freeClst);
    StandsFrom(f, NewStartOf(f.sclust, clst), Grown(f.chain, took, clst), old(f.Bytes()));
  }

  /** create_chain on behalf of a file. What it took, if anything, joins the chain. */
  method StretchFile(f: File, arg: nat) returns (clst: nat, ghost took: bool)
    requires f.Base() && MayStretch(f.fs.Fat(), f.sclust, f.chain, arg)
    modifies f`sclust, f`chain
    modifies f.fs`winsect, f.fs`wflag, f.fs.win, f.fs.disk, f.fs`lastClst, f.fs`freeClst, f.fs`fsiFlag
    ensures f.Base() && f.Bytes() == old(f.Bytes())
    ensures clst == Created(old(f.fs.Fat()), arg, old(f.fs.lastClst), old(f.fs.freeClst))
    ensures took == Allocates(old(f.fs.Fat()), arg, old(f.fs.lastClst), old(f.fs.freeClst))
    ensures f.fs.Valid() && f.fs.lastClst == if took then clst else old(f.fs.lastClst)
    ensures took ==> clst < |old(f.fs.Fat())| && old(f.fs.Fat())[clst] == 0
    ensures took ==> arg < |old(f.fs.Fat())| && f.fs.Fat() == Stretched(old(f.fs.Fat()), arg, clst, f.fs.geo.Eoc())
    ensures !took ==> f.fs.Fat() == old(f.fs.Fat())
    ensures f.chain == Grown(old(f.chain), took, clst)
    ensures f.sclust == NewStartOf(old(f.sclust), clst)
    ensures KeepsOthers(f.fs.geo, old(f.fs.Img()), f.fs.Img(), [])
    ensures KeepsOthers(f.fs.geo, old(f.fs.Img()), f.fs.Img(), f.chain)
    ensures KeepsEntries(old(f.fs.Fat()), f.fs.Fat(), f.chain)
    ensures |f.chain| + FreeCount(f.fs.Fat()) == old(|f.chain| + FreeCount(f.fs.Fat()))
  {
    hide *;
    clst, took := CreateFor(f, arg);
    f.chain := Grown(f.chain, took, clst);
    f.sclust := NewStartOf(f.sclust, clst);
    StandsIs(f, old(f.Bytes()));
  }

  /** What create_chain leaves of the table and of the chain of the file. */
  lemma StretchCases(g: Geo, nsect: nat, f: Table, sclust: nat, chain: seq<nat>, size: nat, arg: nat, last: nat,
                     free: nat)
    requires g.Valid(nsect) && |f| == g.nFatent && |f| >= 3 && Sound(f, free) && ChainOk(g, f, sclust, chain, size)
    requires MayStretch(f, sclust, chain, arg)
    ensures var ncl := Created(f, arg, last, free);
            var took := Allocates(f, arg, last, free);
            && (took ==> 2 <= ncl < |f| && arg < |f| && f[ncl] == 0)
            && g.Eoc() > 0
            && var f' := if took then Stretched(f, arg, ncl, g.Eoc()) else f;
            && WellFormed(f) && CountTracks(f, free)
            && ChainOk(g, f', NewStartOf(sclust, ncl), Grown(chain, took, ncl), size)
            && OwnClusters(g, Grown(chain, took, ncl))
            && KeepsEntries(f, f', Grown(chain, took, ncl))
            && |Grown(chain, took, ncl)| + FreeCount(f') == |chain| + FreeCount(f)
  {
    hide *;
    var ncl := Created(f, arg, last, free);
    var took := Allocates(f, arg, last, free);
    SoundIs(f, free);
    EocIsEnd(g, nsect);
    EndOfChain(g, f, sclust, chain, size);
    MayStretchIs(f, sclust, chain, arg);
    CreatedForFile(f, arg, last, free);
    NewStartIs(sclust, ncl);
    GrownIs(chain, took, ncl);
    SameEntries(f, chain);
    if took {
      TakenChain(g, nsect, f, sclust, chain, size, ncl);
      ChainOkOwns(g, Stretched(f, arg, ncl, g.Eoc()), if sclust == 0 then ncl else sclust, chain + [ncl], size);
    }
  }

  lemma MayStretchIs(f: Table, sclust: nat, chain: seq<nat>, arg: nat)
    ensures MayStretch(f, sclust, chain, arg) <==>
            if arg == 0 then sclust == 0
            else chain != [] && InTable(f, arg) && f[arg] != 0 && (f[arg] >= |f| ==> arg == chain[|chain| - 1])
  {
  }

  lemma NewStartIs(sclust: nat, clst: nat)
    ensures NewStartOf(sclust, clst) == if sclust == 0 && clst >= 2 then clst else sclust
  {
  }

  lemma ChainOkOwns(g: Geo, f: Table, sclust: nat, chain: seq<nat>, size: nat)
    requires ChainOk(g, f, sclust, chain, size)
    ensures OwnClusters(g, chain)
  {
  }

  lemma GrownIs(chain: seq<nat>, took: bool, ncl: nat)
    ensures Grown(chain, took, ncl) == if took then chain + [ncl] else chain
  {
  }
}
