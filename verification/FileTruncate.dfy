/** f_truncate: the file ends at the position, and the clusters after it are free. */
module FileTruncate {
  import opened Allocation
  import opened Bytes
  import opened Chains
  import opened ChainOps
  import opened FatAccess
  import opened FileGrow
  import opened FileLayout
  import opened FileRead
  import opened Files
  import opened FileWrite
  import opened Geometry
  import opened LinkMap
  import opened Results
  import opened Sectors
  import opened Volume

  /** How truncation may change the volume: clusters at the end of the chain become free; entries
      of other clusters, and everything outside the FATs and the old chain, stay. */
  ghost predicate OnlyShrinks(g: Geo, f: Table, i: Image, chain: seq<nat>, f': Table, i': Image, chain': seq<nat>) {
    && |f| >= 2 && |f'| == |f|
    && chain' <= chain
    && (forall k :: |chain'| <= k < |chain| ==> chain[k] < |f| && f'[chain[k]] == 0)
    && KeepsEntries(f, f', chain)
    && KeepsOthers(g, i, i', chain)
    && Room(f', chain') == Room(f, chain)
  }

  lemma OnlyShrinksRefl(g: Geo, f: Table, i: Image, chain: seq<nat>)
    requires |f| >= 2
    ensures OnlyShrinks(g, f, i, chain, f, i, chain)
  {
  }

  /** The table after the clusters of the chain from n on have been removed. */
  ghost function Shortened(f: Table, chain: seq<nat>, n: nat, eoc: nat): (r: Table)
    requires n <= |chain|
    ensures |r| == |f|
  {
    Freed(if n == 0 || n == |chain| || chain[n - 1] >= |f| then f else f[chain[n - 1] := eoc], chain[n..])
  }

  /** Removing the clusters from n on leaves the first n as the chain and frees the rest. */
  lemma ShortenedChain(f: Table, chain: seq<nat>, n: nat, eoc: nat)
    requires WellFormed(f) && IsChain(f, chain) && IsHead(f, chain[0]) && n < |chain| && eoc >= |f|
    ensures var f' := Shortened(f, chain, n, eoc);
            var pclst := if n == 0 then 0 else chain[n - 1];
            && Removed(CutFirst(f, pclst, eoc), chain[n]) == Removal(f', FR_OK)
            && RemovesChain(f, chain[n], pclst)
            && (n > 0 ==> IsChain(f', chain[..n]) && IsHead(f', chain[0]))
            && FreeCount(f') == FreeCount(f) + |chain| - n
            && KeepsEntries(f, f', chain)
            && (forall k :: n <= k < |chain| ==> f'[chain[k]] == 0)
  {
    hide *;
    InChain(f, chain);
    var tail := chain[n..];
    var pclst := if n == 0 then 0 else chain[n - 1];
    CutFirstIs(f, pclst, eoc);
    var f1 := CutFirst(f, pclst, eoc);
    if n > 0 {
      CutTail(f, chain, n, eoc);
      FreeCountUpdate(f, pclst, eoc);
    } else {
      assert tail == chain;
    }
    RemovedIsFreed(f1, tail);
    ShortenedIs(f, chain, n, eoc);
    ShortenedEntries(f, chain, n, eoc);
    RemovesChainIs(f, chain[n], pclst);
    if n > 0 {
      HeadPart(f, f1, chain, n, eoc);
    }
  }

  lemma InChain(f: Table, chain: seq<nat>)
    requires IsChain(f, chain)
    ensures forall k :: 0 <= k < |chain| ==> InTable(f, chain[k]) && 2 <= chain[k] < |f| && f[chain[k]] != 0
    ensures |f| >= 3
  {
    ChainNotFree(f, chain);
  }

  lemma CutFirstIs(f: Table, pclst: nat, eoc: nat)
    ensures CutFirst(f, pclst, eoc) == if 0 < pclst < |f| then f[pclst := eoc] else f
  {
  }

  lemma RemovesChainIs(f: Table, clst: nat, pclst: nat)
    ensures RemovesChain(f, clst, pclst) <==>
            && WellFormed(f) && InTable(f, clst) && f[clst] != 0
            && (if pclst == 0 then IsHead(f, clst) else Links(f, pclst, clst))
  {
  }

  lemma ShortenedIs(f: Table, chain: seq<nat>, n: nat, eoc: nat)
    requires n < |chain| && (n > 0 ==> chain[n - 1] < |f|)
    ensures Shortened(f, chain, n, eoc) == Freed(if n == 0 then f else f[chain[n - 1] := eoc], chain[n..])
  {
  }

  lemma ShortenedEntries(f: Table, chain: seq<nat>, n: nat, eoc: nat)
    requires n <= |chain| && forall k :: 0 <= k < |chain| ==> chain[k] < |f|
    ensures KeepsEntries(f, Shortened(f, chain, n, eoc), chain)
    ensures forall k :: n <= k < |chain| ==> Shortened(f, chain, n, eoc)[chain[k]] == 0
  {
    var tail := chain[n..];
    forall k | n <= k < |chain|
      ensures chain[k] in tail
    {
      assert chain[k] == tail[k - n];
    }
  }

  lemma CutTail(f: Table, chain: seq<nat>, n: nat, eoc: nat)
    requires IsChain(f, chain) && 0 < n < |chain| && eoc >= |f|
    ensures Links(f, chain[n - 1], chain[n])
    ensures var f1 := f[chain[n - 1] := eoc]; IsChain(f1, chain[n..]) && IsChain(f1, chain[..n])
  {
    var f1 := f[chain[n - 1] := eoc];
    assert f[chain[n - 1]] == chain[n - 1 + 1];
    ChainTail(f, chain, n);
    var tail := chain[n..];
    forall k | 0 <= k < |tail|
      ensures tail[k] != chain[n - 1]
    {
      if chain[n + k] == chain[n - 1] { ChainDistinct(f, chain, n + k, n - 1); }
    }
    ChainKept(f, f1, tail);
    CutChain(f, chain, chain[n - 1], eoc);
    assert chain[..n - 1 + 1] == chain[..n];
  }

  lemma HeadPart(f: Table, f1: Table, chain: seq<nat>, n: nat, eoc: nat)
    requires IsChain(f, chain) && IsHead(f, chain[0]) && 0 < n < |chain| && eoc >= |f|
    requires f1 == f[chain[n - 1] := eoc] && IsChain(f1, chain[..n])
    ensures IsChain(Freed(f1, chain[n..]), chain[..n]) && IsHead(Freed(f1, chain[n..]), chain[0])
  {
    var head, tail := chain[..n], chain[n..];
    var f' := Freed(f1, tail);
    forall k | 0 <= k < |head|
      ensures head[k] !in tail
    {
      if head[k] in tail {
        var m :| 0 <= m < |tail| && tail[m] == head[k];
        ChainDistinct(f, chain, k, n + m);
      }
    }
    ChainKept(f1, f', head);
    forall d | Links(f', d, chain[0])
      ensures Links(f, d, chain[0])
    {
    }
  }

  /** A shorter chain and size keep the buffer, once it is clean, and the bytes that remain. */
  lemma ShrunkFile(g: Geo, d: Image, home: nat, f: Table, sclust: nat, chain: seq<nat>, size: nat, fptr: nat,
                   clust: nat, n: nat, trust: Trust, sect: nat, buf: Sector)
    requires g.csize > 0
    requires g.Valid(|d|) && OwnClusters(g, chain) && Covers(g, chain, size) && size <= MAX_DWORD && fptr < size
    requires BufferOk(g, d, home, chain, trust, sect, false, buf) && trust == Resized(trust, size)
    requires AtPrev(g, chain, fptr, clust) && InSect(g, chain, fptr, sect)
    requires n == if fptr == 0 then 0 else (fptr - 1) / 512 / g.csize + 1
    requires n <= |chain| && |f| == g.nFatent
    requires n > 0 ==> IsChain(f, chain[..n]) && IsHead(f, chain[0]) && sclust == chain[0]
    requires n == 0 ==> sclust == 0
    ensures ChainOk(g, f, sclust, chain[..n], fptr)
    ensures BufferOk(g, d, home, chain[..n], Resized(trust, fptr), sect, false, buf)
    ensures Content(g, d, chain[..n], fptr) == Content(g, d, chain, size)[..fptr]
    ensures AtPrev(g, chain[..n], fptr, clust) && InSect(g, chain[..n], fptr, sect)
  {
    hide *;
    ShorterChain(g, f, sclust, chain, fptr, n);
    ShorterBytes(g, d, chain, size, fptr, n);
    ShorterBuffer(g, d, home, chain[..n], chain, size, fptr, trust, sect, buf);
    ShorterPosition(g, chain, fptr, clust, n, sect);
  }

  lemma ShorterChain(g: Geo, f: Table, sclust: nat, chain: seq<nat>, fptr: nat, n: nat)
    requires g.csize > 0 && OwnClusters(g, chain) && n <= |chain| && fptr <= MAX_DWORD
    requires n == if fptr == 0 then 0 else (fptr - 1) / 512 / g.csize + 1
    requires n > 0 ==> IsChain(f, chain[..n]) && IsHead(f, chain[0]) && sclust == chain[0]
    requires n == 0 ==> sclust == 0
    ensures ChainOk(g, f, sclust, chain[..n], fptr) && OwnClusters(g, chain[..n]) && Covers(g, chain[..n], fptr)
  {
    hide IsHead, IsChain;
    if n > 0 { HeadNotZero(f, chain[..n]); }
  }

  lemma HeadNotZero(f: Table, s: seq<nat>)
    requires IsChain(f, s)
    ensures s != [] && s[0] != 0
  {
  }

  lemma ShorterBytes(g: Geo, d: Image, chain: seq<nat>, size: nat, fptr: nat, n: nat)
    requires g.Valid(|d|) && OwnClusters(g, chain) && Covers(g, chain, size) && fptr < size && n <= |chain|
    requires OwnClusters(g, chain[..n]) && Covers(g, chain[..n], fptr)
    ensures Content(g, d, chain[..n], fptr) == Content(g, d, chain, size)[..fptr]
  {
    ContentOfShorter(g, d, chain, size, fptr);
    ContentOfLonger(g, d, chain[..n], chain, fptr);
  }

  lemma ShorterPosition(g: Geo, chain: seq<nat>, fptr: nat, clust: nat, n: nat, sect: nat)
    requires g.csize > 0 && n <= |chain| && n == if fptr == 0 then 0 else (fptr - 1) / 512 / g.csize + 1
    requires AtPrev(g, chain, fptr, clust) && InSect(g, chain, fptr, sect)
    ensures AtPrev(g, chain[..n], fptr, clust) && InSect(g, chain[..n], fptr, sect)
  {
    if fptr % 512 != 0 {
      assert fptr / 512 == (fptr - 1) / 512;
      LbaOfPrefix(g, chain[..n], chain, fptr / 512);
    }
  }

  lemma ShorterOwns(g: Geo, short: seq<nat>, chain: seq<nat>, s: nat)
    requires short <= chain && !Owned(g, chain, s)
    ensures !Owned(g, short, s)
  {
    if Owned(g, short, s) {
      var j: nat :| HasSector(g, short, j) && Lba(g, short, j) == s;
      LbaOfPrefix(g, short, chain, j);
    }
  }

  lemma ShorterBuffer(g: Geo, d: Image, home: nat, short: seq<nat>, chain: seq<nat>, size: nat, fptr: nat, trust: Trust,
                      sect: nat, buf: Sector)
    requires BufferOk(g, d, home, chain, trust, sect, false, buf) && trust == Resized(trust, size) && fptr <= size
    requires short <= chain
    ensures BufferOk(g, d, home, short, Resized(trust, fptr), sect, false, buf)
  {
    hide *;
    CleanParts(g, d, home, chain, trust, sect, buf);
    ShorterOwns(g, short, chain, home);
    ResizedIs(trust, size);
    ResizedIs(trust, fptr);
    TrustedIs(g, chain, trust, sect);
    TrustedIs(g, short, Resized(trust, fptr), sect);
    if trust.UpTo? && Carries(g, short, fptr, sect) {
      var j := CarriedAt(g, short, fptr, sect);
      LbaOfPrefix(g, short, chain, j);
      CarriesIs(g, chain, size, j);
    }
    CleanFrom(g, d, home, short, Resized(trust, fptr), sect, buf);
  }

  /** The table when all but n clusters of the chain are to go. */
  ghost function TailGone(f: Table, chain: seq<nat>, n: nat, eoc: nat): (r: Table)
    requires n <= |chain|
    ensures |r| == |f|
  {
    if n < |chain| then Shortened(f, chain, n, eoc) else f
  }

  /** What f_truncate looks up before it removes anything, and what the removal then does. */
  lemma TailCases(g: Geo, nsect: nat, f: Table, free: nat, sclust: nat, chain: seq<nat>, size: nat, fptr: nat,
                  clust: nat)
    requires g.Valid(nsect) && |f| == g.nFatent && Sound(f, free) && ChainOk(g, f, sclust, chain, size)
    requires g.csize > 0 && fptr < size && AtPrev(g, chain, fptr, clust)
    ensures var n := Needed(g, fptr);
            && n <= |chain| && |f| >= 3
            && var f' := TailGone(f, chain, n, g.Eoc());
            && (n > 0 ==> IsChain(f', chain[..n]) && IsHead(f', chain[0]) && sclust == chain[0])
            && FreeCount(f') == FreeCount(f) + |chain| - n
            && KeepsEntries(f, f', chain)
            && (forall k :: n <= k < |chain| ==> chain[k] < |f| && f'[chain[k]] == 0)
            && (fptr == 0 ==> n == 0 < |chain| && sclust == chain[0])
            && (fptr > 0 ==> n > 0 && g.IsCluster(clust) && clust == chain[n - 1] && InTable(f, clust) && f[clust] != 0)
            && (fptr > 0 && n < |chain| ==> f[clust] == chain[n])
            && (fptr > 0 && n == |chain| ==> f[clust] >= |f|)
            && (n < |chain| ==>
                  var pclst := if n == 0 then 0 else clust;
                  && InTable(f, chain[n]) && (pclst != 0 ==> InTable(f, pclst) && f[pclst] != 0)
                  && RemovesChain(f, chain[n], pclst)
                  && Removed(CutFirst(f, pclst, g.Eoc()), chain[n]) == Removal(f', FR_OK))
  {
    hide *;
    EocIsEnd(g, nsect);
    SoundIs(f, free);
    TailPosition(g, nsect, f, sclust, chain, size, fptr, clust);
    var n := Needed(g, fptr);
    TailGoneIs(f, chain, n, g.Eoc());
    TableRange(f, clust);
    ClusterRange(g, clust);
    SameEntries(f, chain);
    if n < |chain| {
      ShortenedChain(f, chain, n, g.Eoc());
    } else {
      WholeSlice(chain);
    }
  }

  lemma TailPosition(g: Geo, nsect: nat, f: Table, sclust: nat, chain: seq<nat>, size: nat, fptr: nat, clust: nat)
    requires g.Valid(nsect) && |f| == g.nFatent && ChainOk(g, f, sclust, chain, size)
    requires g.csize > 0 && fptr < size && AtPrev(g, chain, fptr, clust)
    ensures var n := Needed(g, fptr);
            && n <= |chain| && |chain| > 0 && (n == 0 <==> fptr == 0)
            && IsChain(f, chain) && IsHead(f, chain[0]) && sclust == chain[0]
            && (forall k :: 0 <= k < |chain| ==> InTable(f, chain[k]) && chain[k] < |f|)
            && (n > 0 ==> clust == chain[n - 1] && clust >= 2 && clust < |f| && f[clust] != 0)
            && (n > 0 && n < |chain| ==> f[clust] == chain[n])
            && (n > 0 && n == |chain| ==> f[clust] >= |f|)
  {
    CoversByte(g, chain, size, fptr);
    ChainNotFree(f, chain);
    var n := Needed(g, fptr);
    if 0 < n < |chain| {
      assert f[chain[n - 1]] == chain[n - 1 + 1];
    }
  }

  /** The home sector is in no cluster of the file, so it stays in use. */
  lemma HomeNotCut(g: Geo, d: Image, f: Table, f': Table, home: nat, chain: seq<nat>, trust: Trust, sect: nat,
                   dirty: bool, buf: seq<byte>)
    requires InUse(g, f, home) && BufferOk(g, d, home, chain, trust, sect, dirty, buf) && KeepsEntries(f, f', chain)
    ensures InUse(g, f', home)
  {
    hide InCluster;
    forall c: nat | InCluster(g, c, home) && c < |f'|
      ensures f'[c] != 0
    {
      if c in chain {
        var k :| 0 <= k < |chain| && chain[k] == c;
        InClusterIsOwned(g, chain, k, home);
      }
    }
  }

  /** The volume and the buffer after the tail has gone, for an object that has not taken note. */
  ghost predicate TailRemoved(f: File, fat: Table, bytes: seq<byte>)
    reads f`objsize, f`chain, f`sect, f`dirty, f`trust, f.buf
    reads f.fs`winsect, f.fs`wflag, f.fs`freeClst, f.fs`home, f.fs`mark, f.fs.disk, f.fs.win
  {
    && f.fs.Valid() && f.buf != f.fs.win && f.buf.Length == 512
    && f.fs.Fat() == fat && Sound(fat, f.fs.freeClst)
    && OwnClusters(f.fs.geo, f.chain) && Covers(f.fs.geo, f.chain, f.objsize)
    && BufferOk(f.fs.geo, f.fs.disk.sectors, f.fs.home, f.chain, f.trust, f.sect, f.dirty, f.buf[..])
    && Watched(f.fs.geo, f.fs.mark, f.fs.home, f.fs.Now())
    && (f.dirty ==> f.sect < |f.fs.disk.sectors|)
    && bytes == Content(f.fs.geo, EffOf(f.fs.disk.sectors, f.sect, f.dirty, f.buf[..]), f.chain, f.objsize)
  }

  lemma TailRemovedIs(f: File, fat: Table, bytes: seq<byte>)
    requires OwnClusters(f.fs.geo, f.chain) && Covers(f.fs.geo, f.chain, f.objsize) && f.fs.geo.csize > 0
    ensures TailRemoved(f, fat, bytes) <==>
      && f.fs.Valid() && f.buf != f.fs.win && f.buf.Length == 512
      && f.fs.Fat() == fat && Sound(fat, f.fs.freeClst)
      && BufferOk(f.fs.geo, f.fs.disk.sectors, f.fs.home, f.chain, f.trust, f.sect, f.dirty, f.buf[..])
      && f.fs.geo.Valid(|f.fs.Now().img|) && Watched(f.fs.geo, f.fs.mark, f.fs.home, f.fs.Now())
      && (f.dirty ==> f.sect < |f.fs.disk.sectors|)
      && f.fs.geo.Valid(|f.fs.disk.sectors|)
      && bytes == Content(f.fs.geo, EffOf(f.fs.disk.sectors, f.sect, f.dirty, f.buf[..]), f.chain, f.objsize)
  {
  }

  /** After remove_chain: the volume is sound and watched, the buffer and the bytes are as they were. */
  lemma RemovedForFile(f: File, s0: Snap, e0: Image, f1: Table)
    requires f.fs.Valid() && f.buf != f.fs.win && f.buf.Length == 512 && f.fs.geo.Valid(|s0.img|)
             && f.fs.geo.Valid(|s0.sectors|)
    requires FatWritten(f.fs.geo, s0, f.fs.Now()) && f.fs.Fat() == f1 && Sound(f1, f.fs.freeClst)
    requires f.fs.geo.fsType != FAT12 ==> LoggedWellFormed(f.fs.geo, |s0.log|, f.fs.disk.log)
    requires KeepsEntries(FatView(f.fs.geo, s0.img), f1, f.chain)
    requires OwnClusters(f.fs.geo, f.chain) && Covers(f.fs.geo, f.chain, f.objsize) && f.fs.geo.csize > 0
    requires f.dirty ==> f.sect < |s0.sectors|
    requires BufferOk(f.fs.geo, s0.sectors, f.fs.home, f.chain, f.trust, f.sect, f.dirty, f.buf[..])
    requires Watched(f.fs.geo, f.fs.mark, f.fs.home, s0) && e0 == EffOf(s0.sectors, f.sect, f.dirty, f.buf[..])
    ensures TailRemoved(f, f1, Content(f.fs.geo, e0, f.chain, f.objsize))
            && KeepsOthers(f.fs.geo, s0.img, f.fs.Img(), f.chain)
  {
    hide *;
    var g := f.fs.geo;
    VolumeFacts(f.fs);
    LogEnds(f.fs);
    VolumeFacts(f.fs);
    WatchedFacts(g, f.fs.mark, f.fs.home, s0);
    HomeNotCut(g, s0.sectors, FatView(g, s0.img), f1, f.fs.home, f.chain, f.trust, f.sect, f.dirty, f.buf[..]);
    WatchedWritten(g, f.fs.mark, f.fs.home, s0, f.fs.Now());
    BufferKept(g, s0, f.fs.Now(), f.fs.home, f.chain, f.trust, f.sect, f.dirty, f.buf[..]);
    SameContent(g, e0, EffOf(f.fs.disk.sectors, f.sect, f.dirty, f.buf[..]), f.chain, f.objsize);
    FatWrittenKeeps(g, s0, f.fs.Now(), f.chain);
    TailRemovedIs(f, f1, Content(g, e0, f.chain, f.objsize));
  }

  /** Remove what follows the position; ncl is the first cluster of it, or an end mark. */
  method DropTail(f: File, ncl: nat) returns (res: FResult)
    requires f.Base() && f.fptr < f.objsize && AtPrev(f.fs.geo, f.chain, f.fptr, f.clust)
    requires f.fs.Valid() && ncl == if f.fptr == 0 then f.sclust
             else if f.fs.geo.IsCluster(f.clust) then f.fs.Fat()[f.clust] else 1
    modifies f.fs`winsect, f.fs`wflag, f.fs.win, f.fs.disk, f.fs`freeClst, f.fs`fsiFlag
    ensures res == FR_OK && f.fs.geo.csize > 0 && Needed(f.fs.geo, f.fptr) <= |f.chain| && f.fs.Valid()
    ensures TailRemoved(f, TailGone(old(f.fs.Fat()), f.chain, Needed(f.fs.geo, f.fptr), f.fs.geo.Eoc()), old(f.Bytes()))
    ensures KeepsOthers(f.fs.geo, old(f.fs.Img()), f.fs.Img(), f.chain)
  {
    hide *;
    Unfold(f);
    VolumeFacts(f.fs);
    ghost var s0, e0, f0, n := f.fs.Now(), f.Eff(), f.fs.Fat(), Needed(f.fs.geo, f.fptr);
    TailCases(f.fs.geo, |s0.img|, f0, f.fs.freeClst, f.sclust, f.chain, f.objsize, f.fptr, f.clust);
    TailGoneIs(f0, f.chain, n, f.fs.geo.Eoc());
    SoundIs(f0, f.fs.freeClst);
    TableRange(f0, 0);
    FatWrittenRefl(f.fs.geo, s0);
    NothingBroken(f.fs.geo, s0.log);
    res := FR_OK;
    if ncl < f.fs.geo.nFatent {
      res := RemoveChain(f.fs, ncl, if f.fptr == 0 then 0 else f.clust);
    }
    VolumeFacts(f.fs);
    SoundIs(f.fs.Fat(), f.fs.freeClst);
    RemovedForFile(f, s0, e0, f.fs.Fat());
  }

  /** Remove the clusters after the position. The file object still has its old size and chain;
      its bytes are as they were. */
  method RemoveTail(f: File) returns (res: FResult)
    requires f.Valid() && f.fptr < f.objsize
    modifies f.fs`winsect, f.fs`wflag, f.fs.win, f.fs.disk, f.fs`freeClst, f.fs`fsiFlag
    ensures res == FR_OK && f.fs.geo.csize > 0 && Needed(f.fs.geo, f.fptr) <= |f.chain| && f.fs.Valid()
    ensures TailRemoved(f, TailGone(old(f.fs.Fat()), f.chain, Needed(f.fs.geo, f.fptr), f.fs.geo.Eoc()), old(f.Bytes()))
    ensures KeepsOthers(f.fs.geo, old(f.fs.Img()), f.fs.Img(), f.chain)
  {
    hide *;
    UnfoldValid(f);
    Unfold(f);
    var ncl := f.sclust;
    if f.fptr > 0 {
      ncl := NextLink(f, f.clust);
    }
    res := DropTail(f, ncl);
  }

  lemma TailGoneIs(f: Table, chain: seq<nat>, n: nat, eoc: nat)
    requires n <= |chain|
    ensures TailGone(f, chain, n, eoc) == if n < |chain| then Shortened(f, chain, n, eoc) else f
  {
  }

  /** Write the dirty buffer back, to a sector that may by now be free. */
  method FlushTail(f: File, ghost fat: Table, ghost bytes: seq<byte>)
    requires TailRemoved(f, fat, bytes) && f.fs.Valid()
    requires OwnClusters(f.fs.geo, f.chain) && Covers(f.fs.geo, f.chain, f.objsize) && f.fs.geo.csize > 0
    modifies f`dirty, f.fs.disk
    ensures TailRemoved(f, fat, bytes) && !f.dirty && f.fs.Valid()
    ensures KeepsOthers(f.fs.geo, old(f.fs.Img()), f.fs.Img(), f.chain)
  {
    hide *;
    TailRemovedIs(f, fat, bytes);
    KeepsOthersRefl(f.fs.geo, f.fs.Img(), f.chain);
    if f.dirty {
      ghost var d0, i0 := f.fs.disk.sectors, f.fs.Img();
      var data := f.buf[..];
      VolumeFacts(f.fs);
      DirtyIsOwn(f.fs.geo, d0, f.fs.home, f.chain, f.trust, f.sect, data);
      FlushDone(f.fs.geo, d0, i0, f.fs.home, f.chain, f.trust, f.sect, data);
      WriteOwn(f.fs, f.sect, data);
      f.dirty := false;
      VolumeFacts(f.fs);
    }
    TailRemovedIs(f, fat, bytes);
  }

  lemma EffOfIs(d: Image, sect: nat, dirty: bool, buf: seq<byte>)
    requires |buf| == 512 && (dirty ==> sect < |d|)
    ensures EffOf(d, sect, dirty, buf) == if dirty then d[sect := buf] else d
  {
  }

  lemma TruncatedFrame(g: Geo, f: Table, i: Image, chain: seq<nat>, i1: Image, i2: Image, n: nat)
    requires |f| >= 2 && n <= |chain| && |TailGone(f, chain, n, g.Eoc())| == |f|
    requires KeepsOthers(g, i, i1, chain) && KeepsOthers(g, i1, i2, chain)
    requires var f' := TailGone(f, chain, n, g.Eoc());
             && KeepsEntries(f, f', chain)
             && (forall k :: n <= k < |chain| ==> chain[k] < |f| && f'[chain[k]] == 0)
             && FreeCount(f') == FreeCount(f) + |chain| - n
    ensures OnlyShrinks(g, f, i, chain, TailGone(f, chain, n, g.Eoc()), i2, chain[..n])
  {
    KeepsOthersTrans(g, i, i1, i2, chain);
  }

  /** The object takes note: the chain up to the position, and the position as its size. */
  method NoteSize(f: File, ghost n: nat)
    requires f.cltbl == []
    requires f.fs.Valid() && f.fs.geo.Valid(|f.fs.Now().img|) && Watched(f.fs.geo, f.fs.mark, f.fs.home, f.fs.Now())
    requires f.buf != f.fs.win && f.buf.Length == 512 && !f.dirty && n <= |f.chain|
    requires f.fs.geo.Valid(|f.fs.disk.sectors|) && Sound(f.fs.Fat(), f.fs.freeClst)
    requires OwnClusters(f.fs.geo, f.chain) && Covers(f.fs.geo, f.chain, f.objsize)
    requires var sclust := if f.fptr == 0 then 0 else f.sclust;
             && ChainOk(f.fs.geo, f.fs.Fat(), sclust, f.chain[..n], f.fptr)
             && BufferOk(f.fs.geo, f.fs.disk.sectors, f.fs.home, f.chain[..n], Resized(f.trust, f.fptr), f.sect,
                         false, f.buf[..])
             && AtPrev(f.fs.geo, f.chain[..n], f.fptr, f.clust) && InSect(f.fs.geo, f.chain[..n], f.fptr, f.sect)
             && OwnClusters(f.fs.geo, f.chain[..n]) && Covers(f.fs.geo, f.chain[..n], f.fptr)
    modifies f`sclust, f`chain, f`objsize, f`modified, f`stale, f`trust
    ensures f.modified
    ensures old(f.trust).Whole? ==> f.trust.Whole?
    ensures f.Valid() && f.chain == old(f.chain)[..n] && f.objsize == f.fptr
    ensures f.Bytes() == Content(f.fs.geo, f.fs.disk.sectors, f.chain, f.fptr)
    ensures f.stale <==> old(f.stale) || (f.sect != 0 && !Owned(f.fs.geo, f.chain, f.sect))
  {
    hide *;
    if f.fptr == 0 {
      f.sclust := 0;
    }
    f.chain := f.chain[..n];
    f.objsize := f.fptr;
    f.trust := Resized(f.trust, f.fptr);
    f.modified := true;
    f.stale := f.stale || !(f.sect != 0 ==> Owned(f.fs.geo, f.chain, f.sect));
    ShownExactly(f.fs.geo, f.chain, f.sect, f.stale);
    ResizedTwice(old(f.trust), f.fptr);
    EffOfIs(f.fs.disk.sectors, f.sect, f.dirty, f.buf[..]);
    MapOkIs(f.cltbl, f.chain);
    Unfold(f);
    UnfoldValid(f);
  }

  lemma ShownExactly(g: Geo, chain: seq<nat>, sect: nat, stale: bool)
    requires !(sect != 0 ==> Owned(g, chain, sect)) ==> stale
    ensures Shown(g, chain, sect, stale)
  {
  }

  lemma ChainOkParts(g: Geo, f: Table, sclust: nat, chain: seq<nat>, size: nat)
    requires ChainOk(g, f, sclust, chain, size)
    ensures OwnClusters(g, chain) && Covers(g, chain, size) && size <= MAX_DWORD
  {
  }

  /** The first n clusters of the chain. */
  function Shorter(chain: seq<nat>, n: nat): (short: seq<nat>) {
    if n <= |chain| then chain[..n] else chain
  }

  lemma ShorterIs(chain: seq<nat>, n: nat)
    requires n <= |chain|
    ensures Shorter(chain, n) == chain[..n]
  {
  }

  /** f_truncate at a position before the end. */
  method CutFile(f: File) returns (res: FResult)
    requires f.cltbl == []
    requires f.Valid() && f.fptr < f.objsize
    modifies f`objsize, f`sclust, f`chain, f`dirty, f`modified, f`stale, f`trust
    modifies f.fs`winsect, f.fs`wflag, f.fs.win, f.fs.disk, f.fs`freeClst, f.fs`fsiFlag
    ensures f.modified && f.objsize == f.fptr
    ensures f.Valid() && res == FR_OK && !f.dirty && (old(f.trust).Whole? ==> f.trust.Whole?)
    ensures f.fs.geo.Valid(|f.fs.disk.sectors|)
    ensures Content(f.fs.geo, f.fs.disk.sectors, old(f.chain), old(f.objsize)) == old(f.Bytes())
    ensures f.fs.geo.csize > 0 && f.chain == Shorter(old(f.chain), Needed(f.fs.geo, f.fptr))
    ensures OnlyShrinks(f.fs.geo, old(f.fs.Fat()), old(f.fs.Img()), old(f.chain), f.fs.Fat(), f.fs.Img(), f.chain)
    ensures f.Bytes() == old(f.Bytes())[..f.fptr]
    ensures f.stale <==> old(f.stale) || (f.sect != 0 && !Owned(f.fs.geo, f.chain, f.sect))
  {
    hide *;
    UnfoldValid(f);
    Unfold(f);
    FileFacts(f);
    ghost var g, f0, i0, free, n := f.fs.geo, f.fs.Fat(), f.fs.Img(), f.fs.freeClst, Needed(f.fs.geo, f.fptr);
    res := RemoveTail(f);
    ghost var i1, fat := f.fs.Img(), TailGone(f0, f.chain, n, g.Eoc());
    FlushTail(f, fat, old(f.Bytes()));
    TailRemovedIs(f, fat, old(f.Bytes()));
    EffOfIs(f.fs.disk.sectors, f.sect, f.dirty, f.buf[..]);
    CutFacts(g, f.fs.disk.sectors, f0, free, f.fs.home, i0, i1, f.fs.Img(), f.sclust, f.chain, f.objsize, f.fptr,
             f.clust, n, f.trust, f.sect, f.buf[..]);
    ShorterIs(f.chain, n);
    NoteSize(f, n);
  }

  /** The shorter chain and size, on values: what the object takes note of, and the frame. */
  lemma CutFacts(g: Geo, d: Image, f: Table, free: nat, home: nat, i: Image, i1: Image, i2: Image, sclust: nat,
                 chain: seq<nat>, size: nat, fptr: nat, clust: nat, n: nat, trust: Trust, sect: nat, buf: Sector)
    requires g.Valid(|d|) && |f| == g.nFatent && Sound(f, free) && ChainOk(g, f, sclust, chain, size)
    requires OwnClusters(g, chain) && Covers(g, chain, size)
    requires g.csize > 0 && fptr < size && AtPrev(g, chain, fptr, clust) && InSect(g, chain, fptr, sect)
    requires BufferOk(g, d, home, chain, trust, sect, false, buf) && trust == Resized(trust, size)
    requires n == Needed(g, fptr) && n <= |chain|
    requires KeepsOthers(g, i, i1, chain) && KeepsOthers(g, i1, i2, chain)
    ensures ChainOk(g, TailGone(f, chain, n, g.Eoc()), if fptr == 0 then 0 else sclust, chain[..n], fptr)
    ensures BufferOk(g, d, home, chain[..n], Resized(trust, fptr), sect, false, buf)
    ensures AtPrev(g, chain[..n], fptr, clust) && InSect(g, chain[..n], fptr, sect)
    ensures OwnClusters(g, chain[..n]) && Covers(g, chain[..n], fptr)
    ensures Content(g, d, chain[..n], fptr) == Content(g, d, chain, size)[..fptr]
    ensures OnlyShrinks(g, f, i, chain, TailGone(f, chain, n, g.Eoc()), i2, chain[..n])
  {
    hide *;
    var fat, sclust' := TailGone(f, chain, n, g.Eoc()), if fptr == 0 then 0 else sclust;
    TailCases(g, |d|, f, free, sclust, chain, size, fptr, clust);
    NeededIs(g, fptr);
    ChainOkParts(g, f, sclust, chain, size);
    ShrunkFile(g, d, home, fat, sclust', chain, size, fptr, clust, n, trust, sect, buf);
    ChainOkParts(g, fat, sclust', chain[..n], fptr);
    TruncatedFrame(g, f, i, chain, i1, i2, n);
  }

  /** f_truncate: the bytes up to the position remain; the clusters that held only later ones are
      free, and those of other files are untouched. */
  method Truncate(f: File) returns (res: FResult)
    requires f.cltbl == []
    requires f.Valid()
    modifies f`objsize, f`sclust, f`chain, f`dirty, f`modified, f`stale, f`trust
    modifies f.fs`winsect, f.fs`wflag, f.fs.win, f.fs.disk, f.fs`freeClst, f.fs`fsiFlag
    ensures f.modified <==> old(f.modified) || f.objsize != old(f.objsize)
    ensures f.objsize == if f.canWrite then f.fptr else old(f.objsize)
    ensures f.objsize == old(f.objsize) ==>
            f.chain == old(f.chain) && f.sclust == old(f.sclust) && f.dirty == old(f.dirty)
    ensures old(f.trust).Whole? ==> f.trust.Whole?
    ensures f.canWrite && f.fptr < old(f.objsize) ==>
            !f.dirty && f.fs.geo.Valid(|f.fs.disk.sectors|)
            && Content(f.fs.geo, f.fs.disk.sectors, old(f.chain), old(f.objsize)) == old(f.Bytes())
            && f.fs.geo.csize > 0 && f.chain == Shorter(old(f.chain), Needed(f.fs.geo, f.fptr))
    ensures f.Valid() && res == if f.canWrite then FR_OK else FR_DENIED
    ensures OnlyShrinks(f.fs.geo, old(f.fs.Fat()), old(f.fs.Img()), old(f.chain), f.fs.Fat(), f.fs.Img(), f.chain)
    ensures f.Bytes() == if f.canWrite then old(f.Bytes())[..f.fptr] else old(f.Bytes())
    ensures f.stale ==> old(f.stale) || (f.sect != 0 && !Owned(f.fs.geo, f.chain, f.sect))
    ensures old(f.stale) ==> f.stale
  {
    hide *;
    UnfoldValid(f);
    FileFacts(f);
    OnlyShrinksRefl(f.fs.geo, f.fs.Fat(), f.fs.Img(), f.chain);
    WholeSlice(f.Bytes());
    res := FR_DENIED;
    if f.canWrite {
      res := FR_OK;
      if f.fptr < f.objsize {
        res := CutFile(f);
      }
    }
  }
}
