/** f_write: what it leaves of the file is the old bytes with the new ones spliced in, and it stops
    short only at the end of the room there is. */
module FileWrite {
  import opened Bytes
  import opened ChainOps
  import opened Chains
  import opened FileGrow
  import opened FileLayout
  import opened FileRead
  import opened Files
  import opened Geometry
  import opened LinkMap
  import opened Numbers
  import opened Results
  import opened Sectors
  import opened Volume

  /** Clusters the file has or could still get. */
  ghost function Room(f: Table, chain: seq<nat>): nat
    requires |f| >= 2
  {
    |chain| + FreeCount(f)
  }

  /** How a file operation may change the volume: the chain is stretched by clusters that were
      free; the entries of all other clusters, and everything outside the FATs and the chain, stay. */
  ghost predicate OnlyThisFile(g: Geo, f: Table, i: Image, chain: seq<nat>, f': Table, i': Image, chain': seq<nat>) {
    && |f| >= 2 && |f'| == |f|
    && chain <= chain'
    && (forall k :: |chain| <= k < |chain'| ==> chain'[k] < |f| && f[chain'[k]] == 0)
    && KeepsEntries(f, f', chain')
    && KeepsOthers(g, i, i', chain')
    && Room(f', chain') == Room(f, chain)
  }

  lemma RoomIs(t: Table, chain: seq<nat>)
    requires |t| >= 2
    ensures Room(t, chain) == |chain| + FreeCount(t)
  {
  }

  lemma OnlyThisFileRefl(g: Geo, f: Table, i: Image, chain: seq<nat>)
    requires |f| >= 2
    ensures OnlyThisFile(g, f, i, chain, f, i, chain)
  {
  }

  lemma OnlyThisFileTrans(g: Geo, f: Table, i: Image, c: seq<nat>, f1: Table, i1: Image, c1: seq<nat>, f2: Table,
                          i2: Image, c2: seq<nat>)
    requires OnlyThisFile(g, f, i, c, f1, i1, c1) && OnlyThisFile(g, f1, i1, c1, f2, i2, c2)
    requires forall k :: 0 <= k < |c1| ==> c1[k] < |f1| && f1[c1[k]] != 0
    requires OwnClusters(g, c2)
    ensures OnlyThisFile(g, f, i, c, f2, i2, c2)
  {
    KeepsOthersWider(g, i, i1, c1, c2);
    forall k | |c| <= k < |c2|
      ensures c2[k] < |f| && f[c2[k]] == 0
    {
      if k < |c1| {
        assert c2[k] == c1[k];
      } else {
        assert f1[c2[k]] == 0;
        assert c2[k] !in c1;
      }
    }
  }

  /** From the pieces one step gives. */
  lemma OnlyThisFileFrom(g: Geo, f: Table, i: Image, chain: seq<nat>, f': Table, i': Image, chain': seq<nat>,
                         took: bool, ncl: nat)
    requires |f| >= 2 && |f'| >= 2 && chain' == Grown(chain, took, ncl) && (took ==> ncl < |f| && f[ncl] == 0)
    requires KeepsEntries(f, f', chain') && KeepsOthers(g, i, i', chain')
    requires |chain'| + FreeCount(f') == |chain| + FreeCount(f)
    ensures OnlyThisFile(g, f, i, chain, f', i', chain')
  {
  }

  /** Facts of a file whose invariant holds, for the table and the chain. */
  lemma FileFacts(f: File)
    requires f.Base()
    ensures f.fs.Valid() && |f.fs.Fat()| == f.fs.geo.nFatent >= 3
    ensures Sound(f.fs.Fat(), f.fs.freeClst)
    ensures ChainOk(f.fs.geo, f.fs.Fat(), f.sclust, f.chain, f.objsize) && OwnClusters(f.fs.geo, f.chain)
    ensures f.sclust == 0 <==> f.chain == []
    ensures f.objsize <= MAX_DWORD
    ensures forall k :: 0 <= k < |f.chain| ==> f.chain[k] < |f.fs.Fat()| && f.fs.Fat()[f.chain[k]] != 0
    ensures IsClusterSize(f.fs.geo.csize) && f.fs.geo.csize > 0
    ensures f.fs.geo.Valid(|f.fs.disk.sectors|)
  {
    if f.chain != [] { ChainNotFree(f.fs.Fat(), f.chain); }
  }

  // ----- the cluster, in write mode -----

  lemma GrowArgument(g: Geo, f: Table, sclust: nat, chain: seq<nat>, size: nat, fptr: nat, clust: nat)
    requires IsClusterSize(g.csize) && g.csize > 0 && |f| == g.nFatent && WellFormed(f)
             && ChainOk(g, f, sclust, chain, size)
    requires fptr % 512 == 0 && fptr / 512 % g.csize == 0 && AtPrev(g, chain, fptr, clust)
    ensures fptr == 0 && sclust == 0 ==> MayStretch(f, sclust, chain, 0)
    ensures fptr == 0 && sclust != 0 ==> Here(g, chain, fptr, sclust)
    ensures fptr > 0 ==> clust != 0 && MayStretch(f, sclust, chain, clust)
  {
    hide *;
    EndOfChain(g, f, sclust, chain, size);
    if fptr > 0 {
      BoundaryInChain(g, f, sclust, chain, size, fptr, clust);
      var i := (fptr - 1) / 512 / g.csize;
      assert i + 1 < |chain| || clust == chain[|chain| - 1];
      TableRange(f, clust);
      MayStretchIs(f, sclust, chain, clust);
    } else {
      MayStretchIs(f, sclust, chain, 0);
      if sclust != 0 { HereAtStart(g, chain); }
    }
  }

  lemma HereAtStart(g: Geo, chain: seq<nat>)
    requires g.csize > 0 && chain != []
    ensures Here(g, chain, 0, chain[0])
  {
  }

  /** At the start of a cluster: the cluster of the position, if there is one or one can be had. */
  method GrowCluster(f: File) returns (ok: bool)
    requires f.Valid() && f.fptr % 512 == 0 && f.fptr / 512 % f.fs.geo.csize == 0
    modifies f`clust, f`sclust, f`chain
    modifies f.fs`winsect, f.fs`wflag, f.fs.win, f.fs.disk, f.fs`lastClst, f.fs`freeClst, f.fs`fsiFlag
    ensures f.Base() && f.Bytes() == old(f.Bytes())
    ensures OnlyThisFile(f.fs.geo, old(f.fs.Fat()), old(f.fs.Img()), old(f.chain), f.fs.Fat(), f.fs.Img(), f.chain)
    ensures ok ==> Here(f.fs.geo, f.chain, f.fptr, f.clust)
    ensures !ok ==> f.chain == old(f.chain) && f.clust == old(f.clust) && f.fptr == f.objsize
    ensures !ok ==> (FreeCount(f.fs.Fat()) == 0 || f.cltbl != []) && !HasSector(f.fs.geo, f.chain, f.fptr / 512)
    ensures f.cltbl != [] ==> f.chain == old(f.chain)
  {
    hide *;
    UnfoldValid(f);
    FileFacts(f);
    ghost var f0, i0, chain0 := f.fs.Fat(), f.fs.Img(), f.chain;
    SoundIs(f0, f.fs.freeClst);
    GrowArgument(f.fs.geo, f0, f.sclust, f.chain, f.objsize, f.fptr, f.clust);
    OnlyThisFileRefl(f.fs.geo, f0, i0, chain0);
    MapOkIs(f.cltbl, f.chain);
    var clst := f.sclust;
    if f.fptr != 0 || clst == 0 {
      if f.fptr != 0 && f.cltbl != [] {
        clst := ClmtClust(f.fs.geo, f.cltbl, f.fptr, f.chain);
        FromMap(f.fs.geo, f.fs.Fat(), f.sclust, f.chain, f.objsize, f.fptr, clst);
      } else {
        clst := StretchAt(f);
      }
    }
    ok := clst != 0;
    if ok {
      f.clust := clst;
    }
  }

  /** What the link map answers at a position up to the end. */
  lemma FromMap(g: Geo, f: Table, sclust: nat, chain: seq<nat>, size: nat, fptr: nat, clst: nat)
    requires IsClusterSize(g.csize) && g.csize > 0 && ChainOk(g, f, sclust, chain, size) && OwnClusters(g, chain)
    requires fptr <= size
    requires clst == if fptr / 512 / g.csize < |chain| then chain[fptr / 512 / g.csize] else 0
    ensures clst != 0 ==> Here(g, chain, fptr, clst)
    ensures clst == 0 ==> !HasSector(g, chain, fptr / 512) && fptr == size
  {
    if fptr < size { ClusterThere(g, chain, size, fptr); }
  }

  /** The call of create_chain in GrowCluster. */
  method StretchAt(f: File) returns (clst: nat)
    requires f.Valid() && f.fptr % 512 == 0 && f.fptr / 512 % f.fs.geo.csize == 0
    requires f.fptr != 0 || f.sclust == 0
    modifies f`sclust, f`chain
    modifies f.fs`winsect, f.fs`wflag, f.fs.win, f.fs.disk, f.fs`lastClst, f.fs`freeClst, f.fs`fsiFlag
    ensures f.Base() && f.Bytes() == old(f.Bytes())
    ensures OnlyThisFile(f.fs.geo, old(f.fs.Fat()), old(f.fs.Img()), old(f.chain), f.fs.Fat(), f.fs.Img(), f.chain)
    ensures clst != 0 ==> Here(f.fs.geo, f.chain, f.fptr, clst)
    ensures clst == 0 ==> f.chain == old(f.chain) && f.fptr == f.objsize
    ensures clst == 0 ==> FreeCount(f.fs.Fat()) == 0 && !HasSector(f.fs.geo, f.chain, f.fptr / 512)
  {
    hide *;
    UnfoldValid(f);
    FileFacts(f);
    ghost var f0, i0, chain0 := f.fs.Fat(), f.fs.Img(), f.chain;
    SoundIs(f0, f.fs.freeClst);
    GrowArgument(f.fs.geo, f0, f.sclust, f.chain, f.objsize, f.fptr, f.clust);
    GrowCases(f.fs.geo, |f.fs.disk.sectors|, f0, f.sclust, f.chain, f.objsize, f.fptr, f.clust, f.fs.lastClst,
              f.fs.freeClst);
    ghost var took;
    clst, took := StretchFile(f, if f.fptr == 0 then 0 else f.clust);
    FileFacts(f);
    GrownIs(chain0, took, clst);
    OnlyThisFileFrom(f.fs.geo, f0, i0, chain0, f.fs.Fat(), f.fs.Img(), f.chain, took, clst);
  }

  // ----- the sector -----

  function NewSize(size: nat, fptr: nat, n: nat): nat {
    if size < fptr + n then fptr + n else size
  }

  /** The buffer may take bytes for sector s at the position: it shows that sector, or it is clean
      and the sector starts at the end of the file, where nothing of it counts yet. */
  ghost predicate MayFill(fptr: nat, size: nat, sect: nat, dirty: bool, s: nat) {
    (dirty ==> sect == s) && (sect == s || (fptr == size && fptr % 512 == 0))
  }

  lemma CopyTakes(g: Geo, e: Image, chain: seq<nat>, size: nat, fptr: nat, buf: Sector, filled: Sector, d: seq<byte>)
    requires g.Valid(|e|) && OwnClusters(g, chain) && HasSector(g, chain, fptr / 512)
    requires fptr % 512 + |d| <= 512 && fptr <= size
    requires filled == buf[..fptr % 512] + d + buf[fptr % 512 + |d|..]
    requires Lba(g, chain, fptr / 512) < |e|
    requires buf == e[Lba(g, chain, fptr / 512)] || (fptr == size && fptr % 512 == 0)
    ensures SectorTakes(g, e, chain, size, fptr / 512, filled, fptr % 512, d)
  {
  }

  lemma CopyOk(g: Geo, d: Image, home: nat, chain: seq<nat>, size: nat, fptr: nat, trust: Trust, sect: nat, dirty: bool,
               buf: Sector, s: nat, part: seq<byte>, filled: Sector)
    requires g.Valid(|d|) && OwnClusters(g, chain) && Covers(g, chain, size) && fptr <= size
    requires trust == Resized(trust, size)
    requires BufferOk(g, d, home, chain, trust, sect, dirty, buf) && (dirty ==> sect < |d|)
    requires HasSector(g, chain, fptr / 512) && s == Lba(g, chain, fptr / 512) && MayFill(fptr, size, sect, dirty, s)
    requires fptr % 512 + |part| <= 512 && |part| > 0
    requires filled == buf[..fptr % 512] + part + buf[fptr % 512 + |part|..]
    ensures s < |d| && BufferOk(g, d, home, chain, Resized(trust, NewSize(size, fptr, |part|)), s, true, filled)
    ensures Covers(g, chain, NewSize(size, fptr, |part|))
    ensures Content(g, EffOf(d, s, true, filled), chain, NewSize(size, fptr, |part|)) ==
            Splice(Content(g, EffOf(d, sect, dirty, buf), chain, size), fptr, part)
  {
    hide *;
    LbaInDataArea(g, |d|, chain, fptr / 512);
    var e := EffOf(d, sect, dirty, buf);
    MayFillIs(fptr, size, sect, dirty, s);
    LbaIsOwn(g, chain, fptr / 512);
    if sect == s && !(fptr == size && fptr % 512 == 0) {
      TrustHere(g, chain, trust, size, fptr);
      BufferShows(g, d, home, chain, trust, sect, dirty, buf);
    }
    CopyTakes(g, e, chain, size, fptr, buf, filled, part);
    assert 512 * (fptr / 512) + fptr % 512 == fptr;
    OneSectorWritten(g, e, chain, size, fptr / 512, filled, fptr % 512, part);
    NewSizeIs(size, fptr, |part|);
    DirtyBuffer(g, d, home, chain, trust, sect, dirty, buf, s, Resized(trust, NewSize(size, fptr, |part|)), filled);
  }

  lemma MayFillIs(fptr: nat, size: nat, sect: nat, dirty: bool, s: nat)
    ensures MayFill(fptr, size, sect, dirty, s) <==>
            (dirty ==> sect == s) && (sect == s || (fptr == size && fptr % 512 == 0))
  {
  }

  lemma NewSizeIs(size: nat, fptr: nat, n: nat)
    ensures NewSize(size, fptr, n) == if size < fptr + n then fptr + n else size
  {
  }

  lemma LbaIsOwn(g: Geo, chain: seq<nat>, j: nat)
    requires HasSector(g, chain, j)
    ensures Owned(g, chain, Lba(g, chain, j))
  {
  }

  /** A buffer made dirty over an own sector. */
  lemma DirtyBuffer(g: Geo, d: Image, home: nat, chain: seq<nat>, trust: Trust, sect: nat, dirty: bool, buf: Sector,
                    s: nat, after: Trust, filled: Sector)
    requires g.Valid(|d|) && OwnClusters(g, chain) && Owned(g, chain, s) && s < |d|
    requires BufferOk(g, d, home, chain, trust, sect, dirty, buf) && (dirty ==> sect == s)
    ensures BufferOk(g, d, home, chain, after, s, true, filled)
    ensures EffOf(d, s, true, filled) == EffOf(d, sect, dirty, buf)[s := filled]
  {
    OwnedInDrive(g, |d|, chain, s);
  }

  /** The bytes of a file, had it the given size. */
  ghost predicate Holds(f: File, size: nat, bytes: seq<byte>)
    reads f`sclust, f`chain, f`sect, f`dirty, f`stale, f`trust, f.buf
    reads f.fs`winsect, f.fs`wflag, f.fs`freeClst, f.fs`home, f.fs`mark, f.fs.disk, f.fs.win
  {
    && f.fs.Valid() && f.buf != f.fs.win
    && Sound(f.fs.Fat(), f.fs.freeClst)
    && ChainOk(f.fs.geo, f.fs.Fat(), f.sclust, f.chain, size)
    && BufferOk(f.fs.geo, f.fs.disk.sectors, f.fs.home, f.chain, Resized(f.trust, size), f.sect, f.dirty, f.buf[..])
    && Shown(f.fs.geo, f.chain, f.sect, f.stale)
    && Watched(f.fs.geo, f.fs.mark, f.fs.home, f.fs.Now())
    && (f.dirty ==> f.sect < |f.fs.disk.sectors|)
    && bytes == Content(f.fs.geo, EffOf(f.fs.disk.sectors, f.sect, f.dirty, f.buf[..]), f.chain, size)
  }

  lemma HoldsIs(f: File, bytes: seq<byte>)
    requires f.trust == Resized(f.trust, f.objsize)
    ensures Holds(f, f.objsize, bytes) <==> f.Base() && bytes == f.Bytes()
  {
    Unfold(f);
  }

  lemma HoldsFrom(f: File, size0: nat, size: nat, bytes: seq<byte>)
    requires f.fs.Valid() && f.buf != f.fs.win && f.buf.Length == 512
    requires Sound(f.fs.Fat(), f.fs.freeClst)
    requires ChainOk(f.fs.geo, f.fs.Fat(), f.sclust, f.chain, size0) && size <= MAX_DWORD
    requires BufferOk(f.fs.geo, f.fs.disk.sectors, f.fs.home, f.chain, Resized(f.trust, size), f.sect, f.dirty,
                      f.buf[..])
    requires Shown(f.fs.geo, f.chain, f.sect, f.stale)
    requires f.fs.geo.Valid(|f.fs.Now().img|) && Watched(f.fs.geo, f.fs.mark, f.fs.home, f.fs.Now())
    requires f.dirty ==> f.sect < |f.fs.disk.sectors|
    requires f.fs.geo.Valid(|f.fs.disk.sectors|) && OwnClusters(f.fs.geo, f.chain) && Covers(f.fs.geo, f.chain, size)
    requires bytes == Content(f.fs.geo, EffOf(f.fs.disk.sectors, f.sect, f.dirty, f.buf[..]), f.chain, size)
    ensures Holds(f, size, bytes)
  {
  }

  lemma HoldsParts(f: File, size: nat, bytes: seq<byte>)
    requires Holds(f, size, bytes)
    ensures f.fs.Valid() && f.buf != f.fs.win && f.buf.Length == 512
    ensures Sound(f.fs.Fat(), f.fs.freeClst)
    ensures ChainOk(f.fs.geo, f.fs.Fat(), f.sclust, f.chain, size) && size <= MAX_DWORD
    ensures BufferOk(f.fs.geo, f.fs.disk.sectors, f.fs.home, f.chain, Resized(f.trust, size), f.sect, f.dirty,
                     f.buf[..])
    ensures Shown(f.fs.geo, f.chain, f.sect, f.stale)
    ensures f.fs.geo.Valid(|f.fs.Now().img|) && Watched(f.fs.geo, f.fs.mark, f.fs.home, f.fs.Now())
    ensures f.dirty ==> f.sect < |f.fs.disk.sectors|
    ensures f.fs.geo.Valid(|f.fs.disk.sectors|) && OwnClusters(f.fs.geo, f.chain) && Covers(f.fs.geo, f.chain, size)
    ensures bytes == Content(f.fs.geo, EffOf(f.fs.disk.sectors, f.sect, f.dirty, f.buf[..]), f.chain, size)
  {
  }

  method FillBuffer(buf: array<byte>, o: nat, data: seq<byte>)
    requires o + |data| <= buf.Length
    modifies buf
    ensures buf[..] == old(buf[..])[..o] + data + old(buf[..])[o + |data|..]
  {
    forall i | 0 <= i < |data| { buf[o + i] := data[i]; }
  }

  /** Copy into the buffer up to the end of its sector; it becomes dirty. */
  method CopyIn(f: File, s: nat, data: seq<byte>) returns (wcnt: nat)
    requires f.trust == Resized(f.trust, f.objsize)
    requires f.Base() && data != [] && f.fptr <= f.objsize && f.fptr + |data| <= MAX_DWORD
    requires HasSector(f.fs.geo, f.chain, f.fptr / 512) && s == Lba(f.fs.geo, f.chain, f.fptr / 512)
    requires MayFill(f.fptr, f.objsize, f.sect, f.dirty, s)
    modifies f`sect, f`dirty, f.buf
    ensures wcnt == if 512 - f.fptr % 512 < |data| then 512 - f.fptr % 512 else |data|
    ensures f.sect == s && f.dirty
    ensures Holds(f, NewSize(f.objsize, f.fptr, wcnt), Splice(old(f.Bytes()), f.fptr, data[..wcnt]))
  {
    hide *;
    wcnt := 512 - f.fptr % 512;
    if wcnt > |data| {
      wcnt := |data|;
    }
    CopyPart(f, s, data[..wcnt]);
  }

  method CopyPart(f: File, s: nat, part: seq<byte>)
    requires f.trust == Resized(f.trust, f.objsize)
    requires f.Base() && part != [] && f.fptr <= f.objsize && f.fptr + |part| <= MAX_DWORD
    requires HasSector(f.fs.geo, f.chain, f.fptr / 512) && s == Lba(f.fs.geo, f.chain, f.fptr / 512)
    requires MayFill(f.fptr, f.objsize, f.sect, f.dirty, s) && f.fptr % 512 + |part| <= 512
    modifies f`sect, f`dirty, f.buf
    ensures f.sect == s && f.dirty
    ensures Holds(f, NewSize(f.objsize, f.fptr, |part|), Splice(old(f.Bytes()), f.fptr, part))
  {
    hide *;
    Unfold(f);
    ghost var buf0 := f.buf[..];
    var o := f.fptr % 512;
    ghost var filled := buf0[..o] + part + buf0[o + |part|..];
    CopyOk(f.fs.geo, f.fs.disk.sectors, f.fs.home, f.chain, f.objsize, f.fptr, f.trust, f.sect, f.dirty, buf0, s,
           part, filled);
    NewSizeIs(f.objsize, f.fptr, |part|);
    FileFacts(f);
    FillBuffer(f.buf, o, part);
    f.sect := s;
    f.dirty := true;
    LbaIsOwn(f.fs.geo, f.chain, f.fptr / 512);
    ShownOwn(f.fs.geo, f.chain, s, f.stale);
    HoldsFrom(f, f.objsize, NewSize(f.objsize, f.fptr, |part|), Splice(old(f.Bytes()), f.fptr, part));
  }

  lemma DirectWriteOk(g: Geo, d: Image, i: Image, home: nat, chain: seq<nat>, size: nat, fptr: nat,
                      trust: Trust, sect: nat, buf: Sector, data: seq<byte>)
    requires trust == Resized(trust, size)
    requires g.Valid(|d|) && IsClusterSize(g.csize) && g.csize > 0
    requires |i| == |d| && OwnClusters(g, chain) && Covers(g, chain, size) && fptr <= size
    requires BufferOk(g, d, home, chain, trust, sect, false, buf) && sect <= MAX_DWORD
    requires fptr % 512 == 0 && HasSector(g, chain, fptr / 512)
    requires |data| % 512 == 0 && |data| > 0 && fptr / 512 % g.csize + |data| / 512 <= g.csize
    ensures var s := Lba(g, chain, fptr / 512);
            var n := |data| / 512;
            && g.database <= s && s + n <= |d| && s <= MAX_DWORD && !(s <= home < s + n)
            && var o := Sub32(sect, s);
            var d' := PutSectors(d, s, data);
            && (o < n ==> 512 * o + 512 <= |data|)
            && var buf' := if o < n then data[512 * o..512 * o + 512] else buf;
            && BufferOk(g, d', home, chain, Resized(trust, NewSize(size, fptr, |data|)), sect, false, buf')
            && Covers(g, chain, NewSize(size, fptr, |data|))
            && Content(g, EffOf(d', sect, false, buf'), chain, NewSize(size, fptr, |data|)) ==
               Splice(Content(g, EffOf(d, sect, false, buf), chain, size), fptr, data)
            && KeepsOthers(g, i, PutSectors(i, s, data), chain)
  {
    hide *;
    var s := Lba(g, chain, fptr / 512);
    DirectRange(g, d, i, chain, fptr / 512, data);
    DirectContent(g, d, chain, size, fptr, data);
    NewSizeIs(size, fptr, |data|);
    NewPartWritten(g, chain, size, fptr, |data| / 512, trust, sect, NewSize(size, fptr, |data|));
    BufferFollows(g, d, home, chain, trust, Resized(trust, NewSize(size, fptr, |data|)), sect, buf, s, data);
  }

  /** Where a direct write goes. */
  lemma DirectRange(g: Geo, d: Image, i: Image, chain: seq<nat>, j: nat, data: seq<byte>)
    requires g.Valid(|d|) && |i| == |d| && OwnClusters(g, chain) && HasSector(g, chain, j)
    requires |data| % 512 == 0 && |data| > 0 && j % g.csize + |data| / 512 <= g.csize
    ensures g.database <= Lba(g, chain, j) && Lba(g, chain, j) + |data| / 512 <= |d| && 0 < Lba(g, chain, j)
    ensures AllOwned(g, chain, Lba(g, chain, j), |data| / 512)
    ensures KeepsOthers(g, i, PutSectors(i, Lba(g, chain, j), data), chain)
  {
    hide *;
    LbaInDataArea(g, |d|, chain, j);
    RunIsOwn(g, |d|, chain, j, |data| / 512);
    OwnSectorsOnly(g, i, chain, Lba(g, chain, j), data);
  }

  /** The bytes after a direct write. */
  lemma DirectContent(g: Geo, d: Image, chain: seq<nat>, size: nat, fptr: nat, data: seq<byte>)
    requires g.Valid(|d|) && IsClusterSize(g.csize) && g.csize > 0
    requires OwnClusters(g, chain) && Covers(g, chain, size) && fptr <= size
    requires fptr % 512 == 0 && HasSector(g, chain, fptr / 512)
    requires |data| % 512 == 0 && |data| > 0 && fptr / 512 % g.csize + |data| / 512 <= g.csize
    requires Lba(g, chain, fptr / 512) + |data| / 512 <= |d|
    ensures Covers(g, chain, NewSize(size, fptr, |data|))
    ensures Content(g, PutSectors(d, Lba(g, chain, fptr / 512), data), chain, NewSize(size, fptr, |data|)) ==
            Splice(Content(g, d, chain, size), fptr, data)
  {
    hide *;
    assert 512 * (fptr / 512) == fptr;
    NewSizeIs(size, fptr, |data|);
    DirectWrite(g, d, chain, size, fptr / 512, data);
  }

  ghost predicate AllOwned(g: Geo, chain: seq<nat>, s: nat, n: nat) {
    forall t: nat :: s <= t < s + n ==> Owned(g, chain, t)
  }

  /** What comes to carry bytes of the file has just been written. */
  lemma NewPartWritten(g: Geo, chain: seq<nat>, size: nat, fptr: nat, n: nat, trust: Trust, sect: nat, after: nat)
    requires trust == Resized(trust, size) && fptr <= size && fptr % 512 == 0 && HasSector(g, chain, fptr / 512)
    requires IsClusterSize(g.csize) && fptr / 512 % g.csize + n <= g.csize
    requires after == if size < fptr + 512 * n then fptr + 512 * n else size
    ensures Trusted(g, chain, Resized(trust, after), sect) ==>
            Trusted(g, chain, trust, sect) || Lba(g, chain, fptr / 512) <= sect < Lba(g, chain, fptr / 512) + n
  {
    hide *;
    ResizedIs(trust, size);
    ResizedIs(trust, after);
    TrustedIs(g, chain, trust, sect);
    TrustedIs(g, chain, Resized(trust, after), sect);
    if trust.UpTo? && Carries(g, chain, after, sect) {
      var j := CarriedAt(g, chain, after, sect);
      if 512 * j >= size {
        NewSector(fptr, size, n, j, after);
        LbaContiguous(g, chain, fptr / 512, j - fptr / 512);
      } else {
        CarriesIs(g, chain, size, j);
      }
    }
  }

  lemma NewSector(fptr: nat, size: nat, n: nat, j: nat, after: nat)
    requires fptr <= size <= 512 * j < after && fptr % 512 == 0
    requires after == if size < fptr + 512 * n then fptr + 512 * n else size
    ensures fptr / 512 <= j < fptr / 512 + n
  {
  }

  lemma CarriedAt(g: Geo, chain: seq<nat>, n: nat, s: nat) returns (j: nat)
    requires Carries(g, chain, n, s)
    ensures HasSector(g, chain, j) && Lba(g, chain, j) == s && 512 * j < n
  {
    j :| HasSector(g, chain, j) && Lba(g, chain, j) == s && 512 * j < n;
  }

  lemma CarriesIs(g: Geo, chain: seq<nat>, n: nat, j: nat)
    requires HasSector(g, chain, j) && 512 * j < n
    ensures Carries(g, chain, n, Lba(g, chain, j))
  {
  }

  lemma TrustedIs(g: Geo, chain: seq<nat>, trust: Trust, s: nat)
    ensures Trusted(g, chain, trust, s) <==> trust.Whole? || Carries(g, chain, trust.size, s)
  {
  }

  lemma ResizedIs(trust: Trust, size: nat)
    ensures Resized(trust, size) == if trust.Whole? then Whole else UpTo(size)
  {
  }

  /** The clean buffer after sectors were written past it, refilled if it shows one of them. */
  lemma BufferFollows(g: Geo, d: Image, home: nat, chain: seq<nat>, trust: Trust, after: Trust, sect: nat, buf: Sector,
                      s: nat, data: seq<byte>)
    requires g.Valid(|d|) && BufferOk(g, d, home, chain, trust, sect, false, buf) && sect <= MAX_DWORD
    requires |data| % 512 == 0 && s + |data| / 512 <= |d| && g.database <= s && 0 < s
    requires AllOwned(g, chain, s, |data| / 512)
    requires Trusted(g, chain, after, sect) ==> Trusted(g, chain, trust, sect) || s <= sect < s + |data| / 512
    ensures s <= MAX_DWORD && !(s <= home < s + |data| / 512)
    ensures var o := Sub32(sect, s);
            var d' := PutSectors(d, s, data);
            && (o < |data| / 512 ==> 512 * o + 512 <= |data|)
            && var buf' := if o < |data| / 512 then data[512 * o..512 * o + 512] else buf;
            && BufferOk(g, d', home, chain, after, sect, false, buf')
            && EffOf(d', sect, false, buf') == d' && EffOf(d, sect, false, buf) == d
  {
    hide *;
    CleanParts(g, d, home, chain, trust, sect, buf);
    NotAmong(g, chain, s, |data| / 512, home);
    MaxDrive(g, |d|);
    Sub32InRange(sect, s, |data| / 512);
    var d' := PutSectors(d, s, data);
    if sect < |d| { PutSectorsAt(d, s, data, sect); }
    var o := Sub32(sect, s);
    CleanFrom(g, d', home, chain, after, sect, if o < |data| / 512 then data[512 * o..512 * o + 512] else buf);
  }

  lemma CleanParts(g: Geo, d: Image, home: nat, chain: seq<nat>, trust: Trust, sect: nat, buf: seq<byte>)
    requires BufferOk(g, d, home, chain, trust, sect, false, buf)
    ensures |buf| == 512 && (sect != 0 ==> g.database <= sect < |d| && sect != home) && !Owned(g, chain, home)
    ensures sect != 0 && Trusted(g, chain, trust, sect) ==> buf == d[sect]
    ensures EffOf(d, sect, false, buf) == d
  {
    hide Trusted, Owned;
  }

  lemma CleanFrom(g: Geo, d: Image, home: nat, chain: seq<nat>, trust: Trust, sect: nat, buf: seq<byte>)
    requires |buf| == 512 && (sect != 0 ==> g.database <= sect < |d| && sect != home) && !Owned(g, chain, home)
    requires sect != 0 && Trusted(g, chain, trust, sect) ==> buf == d[sect]
    ensures BufferOk(g, d, home, chain, trust, sect, false, buf) && EffOf(d, sect, false, buf) == d
  {
    hide Trusted, Owned;
  }

  lemma NotAmong(g: Geo, chain: seq<nat>, s: nat, n: nat, t: nat)
    requires AllOwned(g, chain, s, n) && !Owned(g, chain, t)
    ensures !(s <= t < s + n)
  {
  }

  lemma MaxDrive(g: Geo, nsect: nat)
    requires g.Valid(nsect)
    ensures nsect <= MAX_DWORD
  {
  }

  lemma RunIsOwn(g: Geo, nsect: nat, chain: seq<nat>, j: nat, n: nat)
    requires g.Valid(nsect) && OwnClusters(g, chain) && HasSector(g, chain, j)
    requires j % g.csize + n <= g.csize && n > 0
    ensures Lba(g, chain, j) + n <= nsect
    ensures AllOwned(g, chain, Lba(g, chain, j), n)
  {
    RunInCluster(g, nsect, chain, j, n);
    var s := Lba(g, chain, j);
    forall t: nat | s <= t < s + n
      ensures Owned(g, chain, t)
    {
      LbaContiguous(g, chain, j, t - s);
    }
  }

  lemma OwnSectorsOnly(g: Geo, i: Image, chain: seq<nat>, s: nat, data: seq<byte>)
    requires |data| % 512 == 0 && s + |data| / 512 <= |i|
    requires AllOwned(g, chain, s, |data| / 512)
    ensures KeepsOthers(g, i, PutSectors(i, s, data), chain)
  {
    forall t | 0 <= t < |i|
      ensures s <= t < s + |data| / 512 || PutSectors(i, s, data)[t] == i[t]
    {
      PutSectorsAt(i, s, data, t);
    }
  }

  method SetBuffer(buf: array<byte>, data: seq<byte>)
    requires buf.Length == |data|
    modifies buf
    ensures buf[..] == data
  {
    forall i | 0 <= i < |data| { buf[i] := data[i]; }
  }

  /** Whole sectors written straight to the drive; the clean buffer follows if it shows one of them. */
  method WriteDirect(f: File, s: nat, data: seq<byte>)
    requires f.trust == Resized(f.trust, f.objsize)
    requires f.Base() && !f.dirty && f.fptr <= f.objsize && f.fptr + |data| <= MAX_DWORD
    requires f.fptr % 512 == 0 && HasSector(f.fs.geo, f.chain, f.fptr / 512)
             && s == Lba(f.fs.geo, f.chain, f.fptr / 512)
    requires |data| % 512 == 0 && |data| > 0 && f.fptr / 512 % f.fs.geo.csize + |data| / 512 <= f.fs.geo.csize
    modifies f`dirty, f.buf, f.fs.disk
    ensures Holds(f, NewSize(f.objsize, f.fptr, |data|), Splice(old(f.Bytes()), f.fptr, data))
    ensures f.fs.Fat() == old(f.fs.Fat()) && !f.dirty
    ensures KeepsOthers(f.fs.geo, old(f.fs.Img()), f.fs.Img(), f.chain)
  {
    hide *;
    Unfold(f);
    FileFacts(f);
    NewSizeIs(f.objsize, f.fptr, |data|);
    VolumeFacts(f.fs);
    DirectWriteOk(f.fs.geo, f.fs.disk.sectors, f.fs.Img(), f.fs.home, f.chain, f.objsize, f.fptr, f.trust, f.sect,
                  f.buf[..], data);
    WriteOwn(f.fs, s, data);
    var o := Sub32(f.sect, s);
    if o < |data| / 512 {
      SetBuffer(f.buf, data[512 * o..512 * o + 512]);
      f.dirty := false;
    }
    HoldsFrom(f, f.objsize, NewSize(f.objsize, f.fptr, |data|), Splice(old(f.Bytes()), f.fptr, data));
  }

  // ----- one turn of the loop of f_write -----

  lemma OnlyThisFileData(g: Geo, f: Table, i: Image, c: seq<nat>, f1: Table, i1: Image, c1: seq<nat>, i2: Image)
    requires OnlyThisFile(g, f, i, c, f1, i1, c1) && KeepsOthers(g, i1, i2, c1)
    ensures OnlyThisFile(g, f, i, c, f1, i2, c1)
  {
    KeepsOthersTrans(g, i, i1, i2, c1);
  }

  /** Make the cached cluster the one of the position, stretching the chain if needed. */
  method ToClusterForWrite(f: File) returns (ok: bool)
    requires f.Valid() && f.fptr % 512 == 0
    modifies f`clust, f`sclust, f`chain
    modifies f.fs`winsect, f.fs`wflag, f.fs.win, f.fs.disk, f.fs`lastClst, f.fs`freeClst, f.fs`fsiFlag
    ensures f.Base() && f.Bytes() == old(f.Bytes())
    ensures OnlyThisFile(f.fs.geo, old(f.fs.Fat()), old(f.fs.Img()), old(f.chain), f.fs.Fat(), f.fs.Img(), f.chain)
    ensures ok ==> Here(f.fs.geo, f.chain, f.fptr, f.clust)
    ensures !ok ==> f.chain == old(f.chain) && f.clust == old(f.clust) && f.fptr == f.objsize
    ensures !ok ==> (FreeCount(f.fs.Fat()) == 0 || f.cltbl != []) && !HasSector(f.fs.geo, f.chain, f.fptr / 512)
    ensures f.cltbl != [] ==> f.chain == old(f.chain)
  {
    hide *;
    UnfoldValid(f);
    FileFacts(f);
    OnlyThisFileRefl(f.fs.geo, f.fs.Fat(), f.fs.Img(), f.chain);
    ok := true;
    if f.fptr / 512 % f.fs.geo.csize == 0 {
      ok := GrowCluster(f);
    } else {
      InsideCluster(f.fs.geo, f.chain, f.objsize, f.fptr, f.clust);
    }
  }

  /** On a sector boundary, with the cluster known: flush, then write whole sectors straight, or
      make the buffer ready (wcnt is 0). On the growing edge the buffer is not filled. */
  method WriteSector(f: File, data: seq<byte>) returns (wcnt: nat)
    requires f.trust == Resized(f.trust, f.objsize)
    requires f.Base() && f.fptr <= f.objsize && f.fptr % 512 == 0 && Here(f.fs.geo, f.chain, f.fptr, f.clust)
    requires data != [] && f.fptr + |data| <= MAX_DWORD
    modifies f`dirty, f`sect, f.buf, f.fs.disk
    ensures f.fs.Valid() && f.fs.Fat() == old(f.fs.Fat())
    ensures KeepsOthers(f.fs.geo, old(f.fs.Img()), f.fs.Img(), f.chain)
    ensures wcnt <= |data| && wcnt % 512 == 0
    ensures wcnt > 0 ==> f.fs.geo.csize > 0 && FitsCluster(f.fs.geo.csize, f.fptr, wcnt)
    ensures wcnt > 0 ==> Holds(f, NewSize(f.objsize, f.fptr, wcnt), Splice(old(f.Bytes()), f.fptr, data[..wcnt]))
    ensures wcnt == 0 ==> f.Base() && f.Bytes() == old(f.Bytes())
    ensures wcnt == 0 ==>
            HasSector(f.fs.geo, f.chain, f.fptr / 512)
            && MayFill(f.fptr, f.objsize, f.sect, f.dirty, Lba(f.fs.geo, f.chain, f.fptr / 512))
  {
    hide *;
    Unfold(f);
    ghost var i0 := f.fs.Img();
    Flush(f);
    Unfold(f);
    SectorHere(f.fs.geo, |f.fs.disk.sectors|, f.chain, f.fptr, f.clust);
    var csect := f.fptr / 512 % f.fs.geo.csize;
    var s := f.fs.geo.ClstSect(f.clust) + csect;
    var cc := |data| / 512;
    wcnt := 0;
    if cc > 0 {
      if csect + cc > f.fs.geo.csize {
        cc := f.fs.geo.csize - csect;
      }
      ClippedRun(f.fs.geo.csize, f.fptr, |data|, cc);
      wcnt := 512 * cc;
      ghost var i1 := f.fs.Img();
      WriteWhole(f, s, data, cc);
      KeepsOthersTrans(f.fs.geo, i0, i1, f.fs.Img(), f.chain);
    } else {
      ReadyBuffer(f, s);
    }
  }

  /** The first cc sectors of the data, straight. */
  method WriteWhole(f: File, s: nat, data: seq<byte>, cc: nat)
    requires f.trust == Resized(f.trust, f.objsize)
    requires f.Base() && !f.dirty && f.fptr <= f.objsize && f.fptr % 512 == 0 && f.fptr + |data| <= MAX_DWORD
    requires HasSector(f.fs.geo, f.chain, f.fptr / 512) && s == Lba(f.fs.geo, f.chain, f.fptr / 512)
    requires 0 < 512 * cc <= |data| && f.fs.geo.csize > 0 && f.fptr / 512 % f.fs.geo.csize + cc <= f.fs.geo.csize
    modifies f`dirty, f.buf, f.fs.disk
    ensures Holds(f, NewSize(f.objsize, f.fptr, 512 * cc), Splice(old(f.Bytes()), f.fptr, data[..512 * cc]))
    ensures f.fs.Valid() && f.fs.Fat() == old(f.fs.Fat())
    ensures KeepsOthers(f.fs.geo, old(f.fs.Img()), f.fs.Img(), f.chain)
  {
    hide *;
    var part := data[..512 * cc];
    WholeSectors(|part|, cc);
    WriteDirect(f, s, part);
    HoldsValid(f, NewSize(f.objsize, f.fptr, |part|), Splice(old(f.Bytes()), f.fptr, part));
  }

  lemma WholeSectors(n: nat, cc: nat)
    requires n == 512 * cc
    ensures n % 512 == 0 && n / 512 == cc
  {
  }

  /** The buffer for the sector of the position: loaded, unless nothing of the file is in it yet. */
  method ReadyBuffer(f: File, s: nat)
    requires f.Base() && !f.dirty && f.fptr <= f.objsize && f.fptr % 512 == 0 && Owned(f.fs.geo, f.chain, s)
    modifies f`sect, f.buf
    ensures f.Base() && f.fs.Valid() && f.Bytes() == old(f.Bytes())
    ensures f.fs.Fat() == old(f.fs.Fat()) && f.fs.Img() == old(f.fs.Img())
    ensures MayFill(f.fptr, f.objsize, f.sect, f.dirty, s)
  {
    hide *;
    Unfold(f);
    if f.sect != s && f.fptr < f.objsize {
      LoadSector(f, s);
      Unfold(f);
    }
    MayFillIs(f.fptr, f.objsize, f.sect, f.dirty, s);
  }

  lemma HoldsValid(f: File, size: nat, bytes: seq<byte>)
    requires Holds(f, size, bytes)
    ensures f.fs.Valid()
  {
  }

  /** Copy through the buffer, from the position to the end of the sector at most. */
  method WriteRest(f: File, data: seq<byte>) returns (wcnt: nat)
    requires f.trust == Resized(f.trust, f.objsize)
    requires f.Base() && f.fptr <= f.objsize && Here(f.fs.geo, f.chain, f.fptr, f.clust)
    requires data != [] && f.fptr + |data| <= MAX_DWORD
    requires HasSector(f.fs.geo, f.chain, f.fptr / 512)
             && MayFill(f.fptr, f.objsize, f.sect, f.dirty, Lba(f.fs.geo, f.chain, f.fptr / 512))
    modifies f`dirty, f`sect, f.buf
    ensures 0 < wcnt <= |data|
    ensures Holds(f, NewSize(f.objsize, f.fptr, wcnt), Splice(old(f.Bytes()), f.fptr, data[..wcnt]))
    ensures AtPrev(f.fs.geo, f.chain, f.fptr + wcnt, f.clust) && InSect(f.fs.geo, f.chain, f.fptr + wcnt, f.sect)
  {
    hide *;
    Unfold(f);
    SectorHere(f.fs.geo, |f.fs.disk.sectors|, f.chain, f.fptr, f.clust);
    var s := f.fs.geo.ClstSect(f.clust) + f.fptr / 512 % f.fs.geo.csize;
    wcnt := CopyIn(f, s, data);
    WithinCluster(f.fs.geo.csize, f.fptr, wcnt);
    AdvanceInSector(f.fs.geo, f.chain, f.fptr, f.sect, wcnt);
    Advance(f.fs.geo, f.chain, f.fptr, f.clust, wcnt);
  }

  /** The sector part of a turn that starts on a sector boundary. */
  method WriteFromBoundary(f: File, data: seq<byte>) returns (wcnt: nat)
    requires f.trust == Resized(f.trust, f.objsize)
    requires f.Base() && f.fptr <= f.objsize && f.fptr % 512 == 0 && Here(f.fs.geo, f.chain, f.fptr, f.clust)
    requires data != [] && f.fptr + |data| <= MAX_DWORD
    modifies f`dirty, f`sect, f.buf, f.fs.disk
    ensures f.fs.Valid() && f.fs.Fat() == old(f.fs.Fat())
    ensures KeepsOthers(f.fs.geo, old(f.fs.Img()), f.fs.Img(), f.chain)
    ensures 0 < wcnt <= |data|
    ensures Holds(f, NewSize(f.objsize, f.fptr, wcnt), Splice(old(f.Bytes()), f.fptr, data[..wcnt]))
    ensures AtPrev(f.fs.geo, f.chain, f.fptr + wcnt, f.clust) && InSect(f.fs.geo, f.chain, f.fptr + wcnt, f.sect)
  {
    hide *;
    Unfold(f);
    wcnt := WriteSector(f, data);
    if wcnt == 0 {
      wcnt := WriteRest(f, data);
    } else {
      Advance(f.fs.geo, f.chain, f.fptr, f.clust, wcnt);
      OnBoundary(f.fs.geo, f.chain, f.fptr + wcnt, f.sect);
    }
  }

  /** The bytes of one turn, before the position and the size take note of them; none are written
      only if the chain is at its end and no cluster is free. */
  method WritePart(f: File, data: seq<byte>) returns (wcnt: nat)
    requires f.Valid() && data != [] && f.fptr + |data| <= MAX_DWORD
    modifies f`clust, f`sclust, f`chain, f`dirty, f`sect, f.buf
    modifies f.fs`winsect, f.fs`wflag, f.fs.win, f.fs.disk, f.fs`lastClst, f.fs`freeClst, f.fs`fsiFlag
    ensures f.fs.Valid() && wcnt <= |data|
    ensures OnlyThisFile(f.fs.geo, old(f.fs.Fat()), old(f.fs.Img()), old(f.chain), f.fs.Fat(), f.fs.Img(), f.chain)
    ensures wcnt == 0 ==> f.Valid() && f.Bytes() == old(f.Bytes())
    ensures wcnt == 0 ==>
            (FreeCount(f.fs.Fat()) == 0 || f.cltbl != []) && !HasSector(f.fs.geo, f.chain, f.fptr / 512)
            && f.fptr == f.objsize
    ensures f.cltbl != [] ==> f.chain == old(f.chain)
    ensures MapOk(f.cltbl, f.chain)
    ensures wcnt > 0 ==> Holds(f, NewSize(f.objsize, f.fptr, wcnt), Splice(old(f.Bytes()), f.fptr, data[..wcnt]))
    ensures wcnt > 0 ==>
            AtPrev(f.fs.geo, f.chain, f.fptr + wcnt, f.clust) && InSect(f.fs.geo, f.chain, f.fptr + wcnt, f.sect)
  {
    hide *;
    UnfoldValid(f);
    MapOkIs(f.cltbl, f.chain);
    Unfold(f);
    FileFacts(f);
    ghost var f0, i0, chain0 := f.fs.Fat(), f.fs.Img(), f.chain;
    OnlyThisFileRefl(f.fs.geo, f0, i0, chain0);
    wcnt := 0;
    if f.fptr % 512 == 0 {
      var ok := ToClusterForWrite(f);
      MapOkIs(f.cltbl, f.chain);
      OnBoundary(f.fs.geo, f.chain, f.fptr, f.sect);
      UnfoldValid(f);
      FileFacts(f);
      if ok {
        ghost var i1 := f.fs.Img();
        wcnt := WriteFromBoundary(f, data);
        OnlyThisFileData(f.fs.geo, f0, i0, chain0, f.fs.Fat(), i1, f.chain, f.fs.Img());
      }
    } else {
      InsideCluster(f.fs.geo, f.chain, f.objsize, f.fptr, f.clust);
      InSectFacts(f.fs.geo, f.chain, f.fptr, f.sect);
      MayFillIs(f.fptr, f.objsize, f.sect, f.dirty, f.sect);
      wcnt := WriteRest(f, data);
      HoldsValid(f, NewSize(f.objsize, f.fptr, wcnt), Splice(old(f.Bytes()), f.fptr, data[..wcnt]));
    }
  }

  /** The position and the size take note of the bytes written. */
  method NoteWritten(f: File, wcnt: nat, ghost bytes: seq<byte>)
    requires Holds(f, NewSize(f.objsize, f.fptr, wcnt), bytes) && f.fptr <= f.objsize
    requires AtPrev(f.fs.geo, f.chain, f.fptr + wcnt, f.clust) && InSect(f.fs.geo, f.chain, f.fptr + wcnt, f.sect)
    requires MapOk(f.cltbl, f.chain)
    modifies f`fptr, f`objsize, f`trust
    ensures f.Valid() && f.fptr == old(f.fptr) + wcnt && f.Bytes() == bytes
    ensures old(f.trust).Whole? ==> f.trust.Whole?
  {
    hide *;
    NewSizeIs(f.objsize, f.fptr, wcnt);
    ResizedTwice(f.trust, NewSize(f.objsize, f.fptr, wcnt));
    HoldsParts(f, NewSize(f.objsize, f.fptr, wcnt), bytes);
    f.objsize := NewSize(f.objsize, f.fptr, wcnt);
    f.fptr := f.fptr + wcnt;
    f.trust := Resized(f.trust, f.objsize);
    HoldsFrom(f, f.objsize, f.objsize, bytes);
    HoldsIs(f, bytes);
    UnfoldValid(f);
  }

  /** One turn of the loop of f_write. */
  method WriteTurn(f: File, data: seq<byte>) returns (wcnt: nat)
    requires f.Valid() && data != [] && f.fptr + |data| <= MAX_DWORD
    modifies f`fptr, f`objsize, f`clust, f`sclust, f`chain, f`dirty, f`trust, f`sect, f.buf
    modifies f.fs`winsect, f.fs`wflag, f.fs.win, f.fs.disk, f.fs`lastClst, f.fs`freeClst, f.fs`fsiFlag
    ensures old(f.trust).Whole? ==> f.trust.Whole?
    ensures f.Valid() && wcnt <= |data| && f.fptr == old(f.fptr) + wcnt
    ensures OnlyThisFile(f.fs.geo, old(f.fs.Fat()), old(f.fs.Img()), old(f.chain), f.fs.Fat(), f.fs.Img(), f.chain)
    ensures f.Bytes() == Splice(old(f.Bytes()), old(f.fptr), data[..wcnt])
    ensures wcnt == 0 ==>
            (FreeCount(f.fs.Fat()) == 0 || f.cltbl != []) && !HasSector(f.fs.geo, f.chain, f.fptr / 512)
            && f.fptr == f.objsize
    ensures f.cltbl != [] ==> f.chain == old(f.chain)
    ensures MapOk(f.cltbl, f.chain)
  {
    hide *;
    UnfoldValid(f);
    SpliceNothing(f.Bytes(), f.fptr, data);
    wcnt := WritePart(f, data);
    if wcnt > 0 {
      NoteWritten(f, wcnt, Splice(old(f.Bytes()), f.fptr, data[..wcnt]));
    }
  }

  lemma ResizedTwice(trust: Trust, size: nat)
    ensures Resized(Resized(trust, size), size) == Resized(trust, size)
    ensures trust.Whole? ==> Resized(trust, size).Whole?
    ensures Capped(Resized(trust, size), size)
  {
  }

  lemma SpliceNothing(c: seq<byte>, p: nat, d: seq<byte>)
    requires p <= |c|
    ensures Splice(c, p, d[..0]) == c
  {
  }

  // ----- the whole of f_write -----

  /** Bytes the file can grow to: 2^32 - 1, or the clusters it has and those that are free. */
  ghost function Capacity(g: Geo, f: Table, chain: seq<nat>): nat
    requires |f| >= 2
  {
    var room := Room(f, chain) * (g.csize * 512);
    if room < MAX_DWORD then room else MAX_DWORD
  }

  lemma CoversIs(d: nat, n: nat, size: nat)
    requires d > 0
    ensures size > 0 ==> ((size - 1) / 512 / d < n <==> size <= n * (d * 512))
    ensures size / 512 / d >= n ==> size >= n * (d * 512)
  {
    ClusterOfByte(d, size);
    Below(d * 512, n, size);
    if size > 0 {
      ClusterOfByte(d, size - 1);
      Below(d * 512, n, size - 1);
    }
  }

  lemma Below(b: nat, n: nat, x: nat)
    requires b > 0
    ensures x / b < n <==> x < n * b
  {
    var q, r := DivModDef(b, x);
    if q < n {
      MulStep(b, q, n);
    } else {
      MulMono(b, n, q);
    }
  }

  lemma MoreRoom(d: nat, n: nat, m: nat)
    requires n <= m
    ensures n * (d * 512) <= m * (d * 512)
  {
  }

  /** A file never exceeds its capacity; at the end of its chain with nothing free it is at it. */
  lemma WithinCapacity(f: File)
    requires f.Base()
    ensures f.objsize <= Capacity(f.fs.geo, f.fs.Fat(), f.chain)
    ensures FreeCount(f.fs.Fat()) == 0 && !HasSector(f.fs.geo, f.chain, f.objsize / 512)
            ==> f.objsize == Capacity(f.fs.geo, f.fs.Fat(), f.chain)
  {
    hide *;
    FileFacts(f);
    CoversIs(f.fs.geo.csize, |f.chain|, f.objsize);
    CapacityIs(f.fs.geo, f.fs.Fat(), f.chain);
    MoreRoom(f.fs.geo.csize, |f.chain|, Room(f.fs.Fat(), f.chain));
    SizeInChain(f.fs.geo, f.chain, f.objsize, f.fs.Fat(), f.sclust);
  }

  lemma SizeInChain(g: Geo, chain: seq<nat>, size: nat, f: Table, sclust: nat)
    requires g.csize > 0 && ChainOk(g, f, sclust, chain, size)
    ensures size > 0 ==> (size - 1) / 512 / g.csize < |chain|
    ensures !HasSector(g, chain, size / 512) <==> size / 512 / g.csize >= |chain|
  {
  }

  lemma CapacityIs(g: Geo, f: Table, chain: seq<nat>)
    requires |f| >= 2
    ensures var room := Room(f, chain) * (g.csize * 512);
            Capacity(g, f, chain) == if room < MAX_DWORD then room else MAX_DWORD
    ensures |chain| <= Room(f, chain)
    ensures FreeCount(f) == 0 ==> Room(f, chain) == |chain|
    ensures 0 <= |chain| * (g.csize * 512)
  {
  }

  /** Bytes the file can grow to as it is open: with a link map, only the clusters it has. */
  ghost function Allotted(g: Geo, f: Table, chain: seq<nat>, mapped: bool): nat
    requires |f| >= 2
  {
    var held := |chain| * (g.csize * 512);
    if !mapped then Capacity(g, f, chain) else if held < MAX_DWORD then held else MAX_DWORD
  }

  lemma AllottedIs(g: Geo, f: Table, chain: seq<nat>, mapped: bool)
    requires |f| >= 2
    ensures !mapped ==> Allotted(g, f, chain, mapped) == Capacity(g, f, chain)
    ensures mapped ==> var held := |chain| * (g.csize * 512);
                       Allotted(g, f, chain, mapped) == if held < MAX_DWORD then held else MAX_DWORD
    ensures Allotted(g, f, chain, mapped) <= MAX_DWORD
  {
  }

  lemma WithinAllotted(f: File, mapped: bool)
    requires f.Base()
    ensures f.objsize <= Allotted(f.fs.geo, f.fs.Fat(), f.chain, mapped)
    ensures (FreeCount(f.fs.Fat()) == 0 || mapped) && !HasSector(f.fs.geo, f.chain, f.objsize / 512)
            ==> f.objsize == Allotted(f.fs.geo, f.fs.Fat(), f.chain, mapped)
  {
    hide *;
    FileFacts(f);
    WithinCapacity(f);
    AllottedIs(f.fs.geo, f.fs.Fat(), f.chain, mapped);
    CoversIs(f.fs.geo.csize, |f.chain|, f.objsize);
    CapacityIs(f.fs.geo, f.fs.Fat(), f.chain);
    SizeInChain(f.fs.geo, f.chain, f.objsize, f.fs.Fat(), f.sclust);
  }

  lemma SameAllotted(g: Geo, f: Table, i: Image, c: seq<nat>, f1: Table, i1: Image, c1: seq<nat>, mapped: bool)
    requires OnlyThisFile(g, f, i, c, f1, i1, c1) && (mapped ==> c1 == c)
    ensures Allotted(g, f1, c1, mapped) == Allotted(g, f, c, mapped)
  {
    hide Capacity;
    SameCapacity(g, f, i, c, f1, i1, c1);
  }

  lemma SameCapacity(g: Geo, f: Table, i: Image, c: seq<nat>, f1: Table, i1: Image, c1: seq<nat>)
    requires OnlyThisFile(g, f, i, c, f1, i1, c1)
    ensures Capacity(g, f1, c1) == Capacity(g, f, c)
  {
  }

  /** What a turn of the loop adds to what went before. */
  lemma TurnDone(f: File, f0: Table, i0: Image, c0: seq<nat>, f1: Table, i1: Image, c1: seq<nat>, mapped: bool)
    requires f.Base() && f.fs.Valid() && (mapped ==> f.chain == c0)
    requires OnlyThisFile(f.fs.geo, f0, i0, c0, f1, i1, c1)
    requires OnlyThisFile(f.fs.geo, f1, i1, c1, f.fs.Fat(), f.fs.Img(), f.chain)
    requires forall k :: 0 <= k < |c1| ==> c1[k] < |f1| && f1[c1[k]] != 0
    ensures OnlyThisFile(f.fs.geo, f0, i0, c0, f.fs.Fat(), f.fs.Img(), f.chain)
    ensures |f0| >= 2 && f.objsize <= Allotted(f.fs.geo, f0, c0, mapped)
    ensures (FreeCount(f.fs.Fat()) == 0 || mapped) && !HasSector(f.fs.geo, f.chain, f.objsize / 512)
            ==> f.objsize == Allotted(f.fs.geo, f0, c0, mapped)
  {
    hide *;
    FileFacts(f);
    OnlyThisFileTrans(f.fs.geo, f0, i0, c0, f1, i1, c1, f.fs.Fat(), f.fs.Img(), f.chain);
    WithinAllotted(f, mapped);
    LongEnough(f.fs.geo, f0, i0, c0, f.fs.Fat(), f.fs.Img(), f.chain);
    SameAllotted(f.fs.geo, f0, i0, c0, f.fs.Fat(), f.fs.Img(), f.chain, mapped);
  }

  lemma LongEnough(g: Geo, f: Table, i: Image, c: seq<nat>, f1: Table, i1: Image, c1: seq<nat>)
    requires OnlyThisFile(g, f, i, c, f1, i1, c1)
    ensures |f| >= 2 && |f1| == |f|
  {
  }

  lemma JoinSplices(c: seq<byte>, p: nat, d: seq<byte>, k: nat, m: nat, n: nat)
    requires p <= |c| && k + n <= m <= |d|
    ensures p + k <= |Splice(c, p, d[..k])|
    ensures Splice(Splice(c, p, d[..k]), p + k, d[k..m][..n]) == Splice(c, p, d[..k + n])
  {
    SpliceTwice(c, p, d[..k], d[k..m][..n]);
    SliceOfTail(d, k, n, m);
  }

  lemma SliceOfTail(d: seq<byte>, k: nat, n: nat, m: nat)
    requires k + n <= m <= |d|
    ensures d[..k] + d[k..m][..n] == d[..k + n]
  {
  }

  /** f_write: the content is the old one with the bytes written spliced in at the position. All
      of them are written unless the capacity is reached, and then exactly up to it. */
  method Write(f: File, data: seq<byte>) returns (res: FResult, bw: nat)
    requires f.Valid() && |data| <= MAX_DWORD
    modifies f`fptr, f`objsize, f`clust, f`sclust, f`chain, f`dirty, f`trust, f`sect, f`modified, f.buf
    modifies f.fs`winsect, f.fs`wflag, f.fs.win, f.fs.disk, f.fs`lastClst, f.fs`freeClst, f.fs`fsiFlag
    ensures !f.canWrite ==>
            f.objsize == old(f.objsize) && f.chain == old(f.chain) && f.sclust == old(f.sclust)
              && f.dirty == old(f.dirty)
    ensures f.modified <==> old(f.modified) || f.canWrite
    ensures old(f.trust).Whole? ==> f.trust.Whole?
    ensures f.Valid()
    ensures OnlyThisFile(f.fs.geo, old(f.fs.Fat()), old(f.fs.Img()), old(f.chain), f.fs.Fat(), f.fs.Img(), f.chain)
    ensures res == if f.canWrite then FR_OK else FR_DENIED
    ensures bw <= |data| && f.fptr == old(f.fptr) + bw
    ensures f.cltbl != [] ==> f.chain == old(f.chain)
    ensures f.Bytes() == Splice(old(f.Bytes()), old(f.fptr), data[..bw])
    ensures var cap := old(Allotted(f.fs.geo, f.fs.Fat(), f.chain, f.cltbl != []));
            bw == if !f.canWrite then 0 else if old(f.fptr) + |data| <= cap then |data| else cap - old(f.fptr)
  {
    hide *;
    UnfoldValid(f);
    FileFacts(f);
    WithinAllotted(f, f.cltbl != []);
    OnlyThisFileRefl(f.fs.geo, f.fs.Fat(), f.fs.Img(), f.chain);
    SpliceNothing(f.Bytes(), f.fptr, data);
    res, bw := FR_DENIED, 0;
    if f.canWrite {
      res := FR_OK;
      bw := WriteAll(f, data);
      f.modified := true;
    }
  }

  /** The loop of f_write, in a file that may be written. */
  method WriteAll(f: File, data: seq<byte>) returns (bw: nat)
    requires f.Valid() && |data| <= MAX_DWORD
    modifies f`fptr, f`objsize, f`clust, f`sclust, f`chain, f`dirty, f`trust, f`sect, f.buf
    modifies f.fs`winsect, f.fs`wflag, f.fs.win, f.fs.disk, f.fs`lastClst, f.fs`freeClst, f.fs`fsiFlag
    ensures old(f.trust).Whole? ==> f.trust.Whole?
    ensures f.Valid() && (f.cltbl != [] ==> f.chain == old(f.chain))
    ensures OnlyThisFile(f.fs.geo, old(f.fs.Fat()), old(f.fs.Img()), old(f.chain), f.fs.Fat(), f.fs.Img(), f.chain)
    ensures bw <= |data| && f.fptr == old(f.fptr) + bw
    ensures f.Bytes() == Splice(old(f.Bytes()), old(f.fptr), data[..bw])
    ensures var cap := old(Allotted(f.fs.geo, f.fs.Fat(), f.chain, f.cltbl != []));
            bw == if old(f.fptr) + |data| <= cap then |data| else cap - old(f.fptr)
  {
    hide *;
    UnfoldValid(f);
    FileFacts(f);
    WithinAllotted(f, f.cltbl != []);
    ghost var g, f0, i0, chain0, bytes, p0 := f.fs.geo, f.fs.Fat(), f.fs.Img(), f.chain, f.Bytes(), f.fptr;
    ghost var mapped := f.cltbl != [];
    ghost var cap := Allotted(g, f0, chain0, mapped);
    OnlyThisFileRefl(g, f0, i0, chain0);
    SpliceNothing(bytes, p0, data);
    bw := 0;
    var btw := |data|;
    WrapTest(f.fptr, btw);
    if (f.fptr + btw) % 0x1_0000_0000 < f.fptr {
      btw := MAX_DWORD - f.fptr;
    }
    AllottedIs(g, f0, chain0, mapped);
    while bw < btw
      invariant f.Valid() && f.Base() && f.fs.Valid() && |f.fs.Fat()| >= 2
      invariant old(f.trust).Whole? ==> f.trust.Whole?
      invariant OnlyThisFile(g, f0, i0, chain0, f.fs.Fat(), f.fs.Img(), f.chain)
      invariant bw <= btw && f.fptr == p0 + bw <= f.objsize
      invariant f.Bytes() == Splice(bytes, p0, data[..bw])
      invariant f.objsize <= cap && (mapped ==> f.chain == chain0)
    {
      ghost var f1, i1, chain1, k := f.fs.Fat(), f.fs.Img(), f.chain, bw;
      FileFacts(f);
      SliceLength(data, bw, btw);
      var wcnt := WriteTurn(f, data[bw..btw]);
      UnfoldValid(f);
      FileFacts(f);
      TurnDone(f, f0, i0, chain0, f1, i1, chain1, mapped);
      JoinSplices(bytes, p0, data, k, btw, wcnt);
      bw := bw + wcnt;
      if wcnt == 0 {
        break;
      }
    }
  }

  /** The test for a position that would wrap, on DWORD values. */
  lemma WrapTest(p: nat, n: nat)
    requires p <= MAX_DWORD && n <= MAX_DWORD
    ensures (p + n) % 0x1_0000_0000 < p <==> p + n > MAX_DWORD
  {
  }

  lemma SliceLength(d: seq<byte>, a: nat, b: nat)
    requires a < b <= |d|
    ensures |d[a..b]| == b - a && d[a..b] != [] && |d[..a]| == a
  {
  }
}
