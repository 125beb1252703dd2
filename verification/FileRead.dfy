/** f_read: the buffer, the direct transfers and the cluster cache give the bytes of the file. */
module FileRead {
  import opened Bytes
  import opened Chains
  import opened FatAccess
  import opened FileLayout
  import opened Files
  import opened Geometry
  import opened LinkMap
  import opened Numbers
  import opened Results
  import opened Sectors
  import opened Volume

  /** The invariant, taken apart and put together. */
  lemma Unfold(f: File)
    ensures f.Base() <==>
      && f.fs.Valid() && f.buf != f.fs.win
      && Sound(f.fs.Fat(), f.fs.freeClst)
      && ChainOk(f.fs.geo, f.fs.Fat(), f.sclust, f.chain, f.objsize)
      && BufferOk(f.fs.geo, f.fs.disk.sectors, f.fs.home, f.chain, f.trust, f.sect, f.dirty, f.buf[..])
      && Capped(f.trust, f.objsize) && Shown(f.fs.geo, f.chain, f.sect, f.stale)
      && f.fs.geo.Valid(|f.fs.Now().img|) && Watched(f.fs.geo, f.fs.mark, f.fs.home, f.fs.Now())
    ensures f.Base() ==>
      && f.buf.Length == 512 && (f.dirty ==> f.sect < |f.fs.disk.sectors|) && f.sect <= MAX_DWORD
      && f.fs.geo.Valid(|f.fs.disk.sectors|) && f.fs.geo.FatEnd() <= f.fs.geo.database
      && IsClusterSize(f.fs.geo.csize) && f.fs.geo.csize > 0
      && OwnClusters(f.fs.geo, f.chain) && Covers(f.fs.geo, f.chain, f.objsize)
      && f.Eff() == EffOf(f.fs.disk.sectors, f.sect, f.dirty, f.buf[..])
      && f.Bytes() == Content(f.fs.geo, f.Eff(), f.chain, f.objsize)
      && f.fs.Now() == Snap(f.fs.Img(), f.fs.disk.sectors, f.fs.disk.log, f.fs.winsect)
      && f.fs.Fat() == FatView(f.fs.geo, f.fs.Img())
      && WellFormed(f.fs.Fat())
  {
  }

  /** What a volume's log ends with. */
  lemma LogEnds(fs: FatFs)
    requires fs.Valid()
    ensures fs.disk.log != [] && fs.disk.log[|fs.disk.log| - 1] == fs.disk.sectors
  {
  }

  // ----- the buffer -----

  lemma DirtyIsOwn(g: Geo, d: Image, home: nat, chain: seq<nat>, trust: Trust, sect: nat, buf: seq<byte>)
    requires g.Valid(|d|) && OwnClusters(g, chain) && BufferOk(g, d, home, chain, trust, sect, true, buf)
    ensures g.database <= sect < |d| && sect != home && |buf| == 512 && |buf| / 512 == 1
    ensures !(sect <= home < sect + |buf| / 512)
  {
  }

  lemma FlushDone(g: Geo, d: Image, i: Image, home: nat, chain: seq<nat>, trust: Trust, sect: nat, buf: Sector)
    requires g.Valid(|d|) && |i| == |d| && sect < |d|
    requires BufferOk(g, d, home, chain, trust, sect, true, buf)
    ensures BufferOk(g, PutSectors(d, sect, buf), home, chain, trust, sect, false, buf)
    ensures EffOf(PutSectors(d, sect, buf), sect, false, buf) == EffOf(d, sect, true, buf)
    ensures KeepsOthers(g, i, PutSectors(i, sect, buf), chain)
  {
    PutSectorsStep(d, sect, buf);
    PutSectorsStep(i, sect, buf);
  }

  lemma KeepsOthersRefl(g: Geo, i: Image, chain: seq<nat>)
    ensures KeepsOthers(g, i, i, chain)
  {
  }

  /** Write data sectors away from the home sector, keeping watch. */
  method WriteOwn(fs: FatFs, s: nat, data: seq<byte>)
    requires fs.Valid() && |data| % 512 == 0 && fs.geo.Valid(|fs.Now().img|)
    requires fs.geo.database <= s && s + |data| / 512 <= |fs.disk.sectors| && !(s <= fs.home < s + |data| / 512)
    requires Watched(fs.geo, fs.mark, fs.home, fs.Now())
    modifies fs.disk
    ensures fs.Valid() && fs.Fat() == old(fs.Fat()) && fs.geo.Valid(|fs.Now().img|)
    ensures fs.disk.sectors == PutSectors(old(fs.disk.sectors), s, data)
    ensures fs.Img() == PutSectors(old(fs.Img()), s, data)
    ensures Watched(fs.geo, fs.mark, fs.home, fs.Now())
  {
    hide *;
    ghost var s0 := fs.Now();
    VolumeFacts(fs);
    LogEnds(fs);
    WatchedFacts(fs.geo, fs.mark, fs.home, s0);
    VolumeFacts(fs);
    WindowElsewhere(fs.geo, |fs.disk.sectors|, fs.home, fs.winsect, s, |data| / 512);
    WriteData(fs, s, data);
    VolumeFacts(fs);
    LogEnds(fs);
    WatchedData(fs.geo, fs.mark, fs.home, s0, fs.Now());
  }

  /** Write the buffer back if it is dirty. */
  method Flush(f: File)
    requires f.Base()
    modifies f`dirty, f.fs.disk
    ensures f.Base() && !f.dirty
    ensures f.Eff() == old(f.Eff()) && f.Bytes() == old(f.Bytes())
    ensures f.fs.Fat() == old(f.fs.Fat())
    ensures KeepsOthers(f.fs.geo, old(f.fs.Img()), f.fs.Img(), f.chain)
  {
    hide *;
    Unfold(f);
    KeepsOthersRefl(f.fs.geo, f.fs.Img(), f.chain);
    if f.dirty {
      ghost var d0, i0 := f.fs.disk.sectors, f.fs.Img();
      var data := f.buf[..];
      DirtyIsOwn(f.fs.geo, d0, f.fs.home, f.chain, f.trust, f.sect, data);
      FlushDone(f.fs.geo, d0, i0, f.fs.home, f.chain, f.trust, f.sect, data);
      WriteOwn(f.fs, f.sect, data);
      f.dirty := false;
      Unfold(f);
    }
  }

  lemma LoadOk(g: Geo, d: Image, home: nat, chain: seq<nat>, trust: Trust, sect: nat, buf: seq<byte>, s: nat)
    requires g.Valid(|d|) && OwnClusters(g, chain) && Owned(g, chain, s)
    requires BufferOk(g, d, home, chain, trust, sect, false, buf)
    ensures s < |d| && BufferOk(g, d, home, chain, trust, s, false, d[s])
    ensures EffOf(d, s, false, d[s]) == d && |buf| == 512 && EffOf(d, sect, false, buf) == d
  {
    OwnedInDrive(g, |d|, chain, s);
  }

  /** Fill the clean buffer with one of the file's sectors. */
  method LoadSector(f: File, s: nat)
    requires f.Base() && !f.dirty && Owned(f.fs.geo, f.chain, s)
    modifies f`sect, f.buf
    ensures f.Base() && !f.dirty && f.sect == s < |f.Eff()| && f.buf[..] == f.Eff()[s]
    ensures f.Eff() == old(f.Eff()) && f.Bytes() == old(f.Bytes())
  {
    hide *;
    Unfold(f);
    LoadOk(f.fs.geo, f.fs.disk.sectors, f.fs.home, f.chain, f.trust, f.sect, f.buf[..], s);
    var data := f.fs.disk.ReadSector(s);
    forall i | 0 <= i < 512 { f.buf[i] := data[i]; }
    f.sect := s;
    ShownOwn(f.fs.geo, f.chain, s, f.stale);
    assert f.buf[..] == data;
    Unfold(f);
  }

  // ----- the cluster -----

  /** The window has moved: the file's sectors and its buffer are as they were. */
  lemma BufferKept(g: Geo, a: Snap, b: Snap, home: nat, chain: seq<nat>, trust: Trust, sect: nat, dirty: bool,
                   buf: seq<byte>)
    requires g.Valid(|a.sectors|) && OwnClusters(g, chain) && FatWritten(g, a, b)
    requires a.winsect == home || g.InFat1(a.winsect)
    requires BufferOk(g, a.sectors, home, chain, trust, sect, dirty, buf) && |buf| == 512
             && (dirty ==> sect < |a.sectors|)
    ensures |b.sectors| == |a.sectors|
    ensures BufferOk(g, b.sectors, home, chain, trust, sect, dirty, buf)
    ensures SameOn(g, EffOf(a.sectors, sect, dirty, buf), EffOf(b.sectors, sect, dirty, buf), chain)
  {
    forall s: nat | Owned(g, chain, s)
      ensures g.database <= s < |a.sectors| && s != a.winsect && a.sectors[s] == b.sectors[s]
    {
      OwnedInDrive(g, |a.sectors|, chain, s);
    }
    forall j: nat | HasSector(g, chain, j)
      ensures Owned(g, chain, Lba(g, chain, j))
    {
    }
  }

  /** The cluster after the cached one is the cluster of the position. */
  lemma NextOfChain(g: Geo, f: Table, sclust: nat, chain: seq<nat>, size: nat, fptr: nat, clust: nat)
    requires IsClusterSize(g.csize) && ChainOk(g, f, sclust, chain, size) && |f| == g.nFatent
    requires fptr < size && fptr % 512 == 0 && fptr / 512 % g.csize == 0 && AtPrev(g, chain, fptr, clust)
    ensures fptr == 0 ==> Here(g, chain, fptr, sclust) && sclust >= 2
    ensures fptr > 0 ==> g.IsCluster(clust) && f[clust] >= 2 && Here(g, chain, fptr, f[clust])
  {
    CoversByte(g, chain, size, fptr);
    if fptr > 0 {
      NextMultiple(g.csize, fptr / 512);
      assert (fptr - 1) / 512 == fptr / 512 - 1;
      var i := (fptr - 1) / 512 / g.csize;
      assert chain[i] == clust && f[chain[i]] == chain[i + 1];
    }
  }

  /** After get_fat the file is as it was. */
  lemma LookedBase(f: File, s0: Snap, e0: Image)
    requires f.fs.Valid() && f.buf != f.fs.win && f.fs.geo.Valid(|s0.img|) && Looked(f.fs.geo, s0, f.fs.Now())
    requires f.fs.Img() == s0.img && Sound(FatView(f.fs.geo, s0.img), f.fs.freeClst)
    requires ChainOk(f.fs.geo, FatView(f.fs.geo, s0.img), f.sclust, f.chain, f.objsize) && f.buf.Length == 512
    requires f.fs.geo.Valid(|s0.sectors|) && OwnClusters(f.fs.geo, f.chain) && Covers(f.fs.geo, f.chain, f.objsize)
    requires f.dirty ==> f.sect < |s0.sectors|
    requires BufferOk(f.fs.geo, s0.sectors, f.fs.home, f.chain, f.trust, f.sect, f.dirty, f.buf[..])
    requires Capped(f.trust, f.objsize)
    requires Shown(f.fs.geo, f.chain, f.sect, f.stale) && Watched(f.fs.geo, f.fs.mark, f.fs.home, s0)
    requires e0 == EffOf(s0.sectors, f.sect, f.dirty, f.buf[..])
    ensures f.Base() && f.Bytes() == Content(f.fs.geo, e0, f.chain, f.objsize)
    ensures f.fs.Fat() == FatView(f.fs.geo, s0.img)
  {
    hide *;
    var g := f.fs.geo;
    SoundTable(FatView(g, s0.img), f.fs.freeClst);
    LookedFacts(g, s0, f.fs.Now());
    VolumeFacts(f.fs);
    LogEnds(f.fs);
    WatchedFacts(g, f.fs.mark, f.fs.home, s0);
    WatchedLooked(g, f.fs.mark, f.fs.home, s0, f.fs.Now());
    BufferKept(g, s0, f.fs.Now(), f.fs.home, f.chain, f.trust, f.sect, f.dirty, f.buf[..]);
    SameContent(g, e0, EffOf(f.fs.disk.sectors, f.sect, f.dirty, f.buf[..]), f.chain, f.objsize);
    Unfold(f);
  }

  lemma SoundTable(f: Table, free: nat)
    requires Sound(f, free)
    ensures WellFormed(f)
  {
  }

  /** get_fat on behalf of a file, which it does not disturb. */
  method NextLink(f: File, clst: nat) returns (val: nat)
    requires f.Base()
    modifies f.fs`winsect, f.fs`wflag, f.fs.win, f.fs.disk
    ensures f.Base() && f.Bytes() == old(f.Bytes())
    ensures f.fs.Valid() && f.fs.Img() == old(f.fs.Img()) && f.fs.Fat() == old(f.fs.Fat())
    ensures val == if f.fs.geo.IsCluster(clst) then f.fs.Fat()[clst] else 1
  {
    hide *;
    Unfold(f);
    VolumeFacts(f.fs);
    ghost var s0, e0 := f.fs.Now(), f.Eff();
    val := GetFat(f.fs, clst);
    LookedBase(f, s0, e0);
    Unfold(f);
  }

  /** A map of the file's own chain leads f_read and f_write, at a cluster boundary inside the
      file, to the cluster get_fat would lead them to. */
  lemma MapServesTransfers(g: Geo, f: Table, sclust: nat, chain: seq<nat>, size: nat, fptr: nat, clust: nat, clst: nat)
    requires IsClusterSize(g.csize) && ChainOk(g, f, sclust, chain, size) && |f| == g.nFatent
    requires fptr < size && fptr % 512 == 0 && fptr / 512 % g.csize == 0 && AtPrev(g, chain, fptr, clust)
    requires clst == if fptr / 512 / g.csize < |chain| then chain[fptr / 512 / g.csize] else 0
    ensures fptr == 0 ==> clst == sclust
    ensures fptr > 0 ==> g.IsCluster(clust) && clst == f[clust]
    ensures Here(g, chain, fptr, clst)
  {
    NextOfChain(g, f, sclust, chain, size, fptr, clust);
  }

  lemma ClusterThere(g: Geo, chain: seq<nat>, size: nat, fptr: nat)
    requires IsClusterSize(g.csize) && Covers(g, chain, size) && fptr < size
    ensures g.csize > 0 && fptr / 512 / g.csize < |chain|
  {
    CoversByte(g, chain, size, fptr);
  }

  /** At the start of a cluster, find which cluster it is: from the link map, or from the FAT. */
  method FollowCluster(f: File) returns (res: FResult)
    requires f.Base() && f.fptr < f.objsize && AtPrev(f.fs.geo, f.chain, f.fptr, f.clust)
    requires f.fptr % 512 == 0 && f.fptr / 512 % f.fs.geo.csize == 0 && MapOk(f.cltbl, f.chain)
    modifies f`clust, f.fs`winsect, f.fs`wflag, f.fs.win, f.fs.disk
    ensures f.Base() && res == FR_OK && Here(f.fs.geo, f.chain, f.fptr, f.clust)
    ensures f.Bytes() == old(f.Bytes())
    ensures f.fs.Img() == old(f.fs.Img())
  {
    hide *;
    Unfold(f);
    VolumeFacts(f.fs);
    NextOfChain(f.fs.geo, f.fs.Fat(), f.sclust, f.chain, f.objsize, f.fptr, f.clust);
    var clst := f.sclust;
    if f.fptr != 0 {
      if f.cltbl != [] {
        MapOkIs(f.cltbl, f.chain);
        ClusterThere(f.fs.geo, f.chain, f.objsize, f.fptr);
        clst := ClmtClust(f.fs.geo, f.cltbl, f.fptr, f.chain);
        MapServesTransfers(f.fs.geo, f.fs.Fat(), f.sclust, f.chain, f.objsize, f.fptr, f.clust, clst);
      } else {
        clst := NextLink(f, f.clust);
      }
    }
    res := FR_INT_ERR;
    if clst >= 2 {
      f.clust := clst;
      res := FR_OK;
      Unfold(f);
    }
  }

  // ----- one turn of the loop of f_read -----

  /** Facts about the sector of the position, for the direct transfer and for the buffer. */
  lemma SectorHere(g: Geo, nsect: nat, chain: seq<nat>, fptr: nat, clust: nat)
    requires g.Valid(nsect) && OwnClusters(g, chain) && Here(g, chain, fptr, clust)
    ensures HasSector(g, chain, fptr / 512)
    ensures g.ClstSect(clust) != 0
    ensures g.ClstSect(clust) + fptr / 512 % g.csize == Lba(g, chain, fptr / 512)
    ensures Owned(g, chain, Lba(g, chain, fptr / 512))
    ensures g.database <= Lba(g, chain, fptr / 512) < nsect
  {
    LbaInDataArea(g, nsect, chain, fptr / 512);
    ClusterInDataArea(g, nsect, clust);
  }

  lemma DirectReadOk(g: Geo, d: Image, chain: seq<nat>, size: nat, j: nat, cc: nat, sect: nat, dirty: bool, buf: Sector)
    requires g.Valid(|d|) && OwnClusters(g, chain) && Covers(g, chain, size) && HasSector(g, chain, j)
    requires j % g.csize + cc <= g.csize && 512 * (j + cc) <= size && cc > 0
    requires (dirty ==> sect < |d|) && sect <= MAX_DWORD
    ensures var s := Lba(g, chain, j);
            && s + cc <= |d| && s <= MAX_DWORD
            && var run := GetSectors(d, s, cc);
            var o := Sub32(sect, s);
            && (dirty && o < cc ==> 512 * o + 512 <= |run|)
            && Content(g, EffOf(d, sect, dirty, buf), chain, size)[512 * j..512 * (j + cc)] ==
               if dirty && o < cc then run[..512 * o] + buf + run[512 * o + 512..] else run
  {
    var s := Lba(g, chain, j);
    RunInCluster(g, |d|, chain, j, cc);
    Sub32InRange(sect, s, cc);
    DirectRead(g, EffOf(d, sect, dirty, buf), chain, size, j, cc);
    if dirty {
      PatchedRead(d, s, cc, sect, buf);
    }
  }

  /** Sectors read straight into the caller's buffer, with a dirty one taken from the file's. */
  method ReadDirect(f: File, sect: nat, cc: nat) returns (data: seq<byte>)
    requires f.Base()
    requires f.fptr % 512 == 0 && HasSector(f.fs.geo, f.chain, f.fptr / 512)
             && sect == Lba(f.fs.geo, f.chain, f.fptr / 512)
    requires f.fptr / 512 % f.fs.geo.csize + cc <= f.fs.geo.csize && f.fptr + 512 * cc <= f.objsize && cc > 0
    ensures data == f.Bytes()[f.fptr..f.fptr + 512 * cc]
  {
    hide *;
    Unfold(f);
    DirectReadOk(f.fs.geo, f.fs.disk.sectors, f.chain, f.objsize, f.fptr / 512, cc, f.sect, f.dirty, f.buf[..]);
    data := f.fs.disk.ReadSectors(sect, cc);
    if f.dirty && Sub32(f.sect, sect) < cc {
      var o := 512 * Sub32(f.sect, sect);
      data := data[..o] + f.buf[..] + data[o + 512..];
    }
    assert 512 * (f.fptr / 512) == f.fptr;
  }

  lemma BufferIsContent(g: Geo, e: Image, chain: seq<nat>, size: nat, fptr: nat, k: nat, buf: Sector)
    requires g.Valid(|e|) && IsClusterSize(g.csize) && OwnClusters(g, chain) && Covers(g, chain, size)
    requires fptr % 512 + k <= 512 && fptr + k <= size && k > 0
    requires HasSector(g, chain, fptr / 512) && Lba(g, chain, fptr / 512) < |e| && buf == e[Lba(g, chain, fptr / 512)]
    ensures buf[fptr % 512..fptr % 512 + k] == Content(g, e, chain, size)[fptr..fptr + k]
  {
    hide *;
    var c := Content(g, e, chain, size)[fptr..fptr + k];
    forall i | 0 <= i < k
      ensures buf[fptr % 512 + i] == c[i]
    {
      ContentAt(g, e, chain, size, fptr + i);
      assert (fptr + i) / 512 == fptr / 512 && (fptr + i) % 512 == fptr % 512 + i;
    }
  }

  /** k bytes from the position do not leave its cluster. */
  ghost predicate FitsCluster(d: nat, fptr: nat, k: nat)
    requires d > 0
  {
    fptr / 512 % d * 512 + fptr % 512 + k <= 512 * d
  }

  /** Where the position stands after k bytes that do not leave the cluster. */
  lemma Advance(g: Geo, chain: seq<nat>, fptr: nat, clust: nat, k: nat)
    requires IsClusterSize(g.csize) && Here(g, chain, fptr, clust)
    requires k > 0 && FitsCluster(g.csize, fptr, k)
    ensures AtPrev(g, chain, fptr + k, clust)
  {
    var i := (fptr % 512 + k - 1) / 512;
    assert (fptr + k - 1) / 512 == fptr / 512 + i;
    SameMultiple(g.csize, fptr / 512, i);
  }

  lemma AdvanceInSector(g: Geo, chain: seq<nat>, fptr: nat, sect: nat, k: nat)
    requires HasSector(g, chain, fptr / 512) && sect == Lba(g, chain, fptr / 512)
    requires fptr % 512 + k <= 512
    ensures InSect(g, chain, fptr + k, sect)
  {
    if fptr % 512 + k < 512 {
      assert (fptr + k) / 512 == fptr / 512;
    }
  }

  /** Away from a cluster boundary the cached cluster is the one of the position. */
  lemma InsideCluster(g: Geo, chain: seq<nat>, size: nat, fptr: nat, clust: nat)
    requires IsClusterSize(g.csize) && AtPrev(g, chain, fptr, clust)
    requires fptr % 512 != 0 || fptr / 512 % g.csize != 0
    ensures Here(g, chain, fptr, clust)
  {
    if fptr % 512 != 0 {
      assert (fptr - 1) / 512 == fptr / 512;
    } else {
      assert (fptr - 1) / 512 == fptr / 512 - 1;
      InsideMultiple(g.csize, fptr / 512);
    }
  }

  lemma UnfoldValid(f: File)
    ensures f.Held() <==>
      && f.Base() && f.fptr <= f.objsize
      && AtPrev(f.fs.geo, f.chain, f.fptr, f.clust)
      && InSect(f.fs.geo, f.chain, f.fptr, f.sect)
      && MapOk(f.cltbl, f.chain)
    ensures f.Valid() <==> f.Held() && f.trust == Resized(f.trust, f.objsize)
  {
  }

  /** Make the cached cluster the one of the position. */
  method ToCluster(f: File) returns (res: FResult)
    requires f.Held() && f.fptr < f.objsize
    modifies f`clust, f.fs`winsect, f.fs`wflag, f.fs.win, f.fs.disk
    ensures f.Base() && res == FR_OK && Here(f.fs.geo, f.chain, f.fptr, f.clust)
    ensures f.Bytes() == old(f.Bytes())
    ensures f.fs.Img() == old(f.fs.Img())
  {
    hide *;
    UnfoldValid(f);
    Unfold(f);
    if f.fptr % 512 != 0 || f.fptr / 512 % f.fs.geo.csize != 0 {
      InsideCluster(f.fs.geo, f.chain, f.objsize, f.fptr, f.clust);
    }
    res := FR_OK;
    if f.fptr % 512 == 0 && f.fptr / 512 % f.fs.geo.csize == 0 {
      res := FollowCluster(f);
    }
  }

  lemma InSectFacts(g: Geo, chain: seq<nat>, fptr: nat, sect: nat)
    requires InSect(g, chain, fptr, sect) && fptr % 512 != 0
    ensures HasSector(g, chain, fptr / 512) && sect == Lba(g, chain, fptr / 512)
  {
  }

  /** What the buffer shows, dirty or not, is the file's sector. */
  lemma BufferShows(g: Geo, d: Image, home: nat, chain: seq<nat>, trust: Trust, sect: nat, dirty: bool, buf: seq<byte>)
    requires g.Valid(|d|) && OwnClusters(g, chain) && BufferOk(g, d, home, chain, trust, sect, dirty, buf)
             && Owned(g, chain, sect) && (dirty || Trusted(g, chain, trust, sect))
    ensures |buf| == 512 && sect < |d| && EffOf(d, sect, dirty, buf)[sect] == buf
  {
    OwnedInDrive(g, |d|, chain, sect);
  }

  /** The buffer of the file is as given. */
  ghost predicate Stays(f: File, sect: nat, dirty: bool, buf: seq<byte>)
    reads f`sect, f`dirty, f.buf
  {
    f.sect == sect && f.dirty == dirty && f.buf[..] == buf
  }

  lemma StaysIs(f: File, sect: nat, dirty: bool, buf: seq<byte>)
    ensures Stays(f, sect, dirty, buf) <==> f.sect == sect && f.dirty == dirty && f.buf[..] == buf
  {
  }

  /** Make the buffer show the sector of the position, writing back what it held. It stays if it stands
      there already, whatever it shows. */
  method ToSector(f: File, sect: nat)
    requires f.Base() && HasSector(f.fs.geo, f.chain, f.fptr / 512) && sect == Lba(f.fs.geo, f.chain, f.fptr / 512)
    requires Owned(f.fs.geo, f.chain, sect)
    modifies f`dirty, f`sect, f.buf, f.fs.disk
    ensures f.dirty ==> old(f.dirty)
    ensures f.Base() && f.sect == sect
    ensures f.Bytes() == old(f.Bytes())
    ensures f.fs.Fat() == old(f.fs.Fat())
    ensures KeepsOthers(f.fs.geo, old(f.fs.Img()), f.fs.Img(), f.chain)
    ensures old(f.sect) == sect ==>
            Stays(f, sect, old(f.dirty), old(f.buf[..])) && f.fs.disk.sectors == old(f.fs.disk.sectors)
    ensures old(f.sect) != sect ==> !f.dirty && sect < |f.fs.disk.sectors| && f.buf[..] == f.fs.disk.sectors[sect]
  {
    hide *;
    Unfold(f);
    KeepsOthersRefl(f.fs.geo, f.fs.Img(), f.chain);
    StaysIs(f, f.sect, f.dirty, f.buf[..]);
    if f.sect != sect {
      Flush(f);
      LoadSector(f, sect);
      Unfold(f);
      CleanEff(f.fs.disk.sectors, f.sect, f.buf[..]);
    }
  }

  lemma CleanEff(d: Image, sect: nat, buf: seq<byte>)
    requires |buf| == 512
    ensures EffOf(d, sect, false, buf) == d
  {
  }

  /** At the position, before the end or inside a sector, the buffer's sector carries bytes of the file. */
  lemma TrustHere(g: Geo, chain: seq<nat>, trust: Trust, size: nat, fptr: nat)
    requires trust == Resized(trust, size) && HasSector(g, chain, fptr / 512)
    requires fptr < size || (fptr == size && fptr % 512 != 0)
    ensures Trusted(g, chain, trust, Lba(g, chain, fptr / 512))
  {
  }

  /** Outside the FATs and away from its home, the drive shows the image. */
  lemma ImageShows(fs: FatFs, s: nat)
    requires fs.Valid() && fs.geo.database <= s < |fs.disk.sectors| && s != fs.home
    requires fs.winsect == fs.home || fs.geo.InFat1(fs.winsect)
    ensures |fs.Img()| == |fs.disk.sectors| && fs.Img()[s] == fs.disk.sectors[s]
  {
  }

  /** A clean buffer that stands on bytes of the file shows what is on the drive. */
  ghost predicate ShowsDrive(g: Geo, d: Image, chain: seq<nat>, size: nat, sect: nat, dirty: bool, buf: seq<byte>) {
    !dirty && 0 < sect < |d| && Carries(g, chain, size, sect) ==> buf == d[sect]
  }

  /** The trust that the buffer deserves now. */
  ghost method Reassess(f: File)
    requires f.Held()
    modifies f`trust
    ensures f.Held() && f.Base() && f.Bytes() == old(f.Bytes()) && (old(f.trust).Whole? ==> f.trust.Whole?)
    ensures f.Valid() <==>
            ShowsDrive(f.fs.geo, f.fs.disk.sectors, f.chain, f.objsize, f.sect, f.dirty, f.buf[..])
  {
    hide *;
    UnfoldValid(f);
    Unfold(f);
    ghost var t := f.trust;
    DeservedTrust(f.fs.geo, f.fs.disk.sectors, f.fs.home, f.chain, t, f.objsize, f.sect, f.dirty, f.buf[..]);
    if ShowsDrive(f.fs.geo, f.fs.disk.sectors, f.chain, f.objsize, f.sect, f.dirty, f.buf[..]) {
      f.trust := Resized(t, f.objsize);
    }
    Unfold(f);
    UnfoldValid(f);
  }

  lemma DeservedTrust(g: Geo, d: Image, home: nat, chain: seq<nat>, trust: Trust, size: nat, sect: nat, dirty: bool,
                      buf: seq<byte>)
    requires BufferOk(g, d, home, chain, trust, sect, dirty, buf)
    ensures ShowsDrive(g, d, chain, size, sect, dirty, buf) ==>
            BufferOk(g, d, home, chain, Resized(trust, size), sect, dirty, buf)
    ensures trust == Resized(trust, size) ==> ShowsDrive(g, d, chain, size, sect, dirty, buf)
    ensures Capped(Resized(trust, size), size) && Resized(Resized(trust, size), size) == Resized(trust, size)
    ensures trust.Whole? ==> Resized(trust, size) == trust
  {
    hide Owned, Carries;
  }

  /** Copy from the buffer up to the end of its sector. */
  method ReadBuffer(f: File, btr: nat) returns (data: seq<byte>)
    requires f.Base() && btr > 0 && f.fptr + btr <= f.objsize && f.buf.Length == 512
    requires HasSector(f.fs.geo, f.chain, f.fptr / 512) && f.sect == Lba(f.fs.geo, f.chain, f.fptr / 512)
    requires Owned(f.fs.geo, f.chain, f.sect)
    ensures |data| == (if 512 - f.fptr % 512 < btr then 512 - f.fptr % 512 else btr)
    ensures data == f.buf[..][f.fptr % 512..f.fptr % 512 + |data|]
    ensures f.trust == Resized(f.trust, f.objsize) ==> data == f.Bytes()[f.fptr..f.fptr + |data|]
  {
    hide *;
    Unfold(f);
    var rcnt := 512 - f.fptr % 512;
    if rcnt > btr {
      rcnt := btr;
    }
    if f.trust == Resized(f.trust, f.objsize) {
      TrustHere(f.fs.geo, f.chain, f.trust, f.objsize, f.fptr);
      BufferShows(f.fs.geo, f.fs.disk.sectors, f.fs.home, f.chain, f.trust, f.sect, f.dirty, f.buf[..]);
      BufferIsContent(f.fs.geo, f.Eff(), f.chain, f.objsize, f.fptr, rcnt, f.buf[..]);
    }
    data := f.buf[f.fptr % 512..f.fptr % 512 + rcnt];
    assert data == f.buf[..][f.fptr % 512..f.fptr % 512 + rcnt];
  }

  /** A transfer clipped at the end of the cluster. */
  lemma ClippedRun(d: nat, fptr: nat, btr: nat, cc: nat)
    requires d > 0 && fptr % 512 == 0 && btr / 512 > 0
    requires cc == if fptr / 512 % d + btr / 512 > d then d - fptr / 512 % d else btr / 512
    ensures 0 < cc && 512 * cc <= btr && fptr / 512 % d + cc <= d
    ensures FitsCluster(d, fptr, 512 * cc)
    ensures (fptr + 512 * cc) % 512 == 0
  {
  }

  lemma WithinCluster(d: nat, fptr: nat, k: nat)
    requires d > 0 && fptr % 512 + k <= 512
    ensures FitsCluster(d, fptr, k)
  {
  }

  /** On a sector boundary: find the sector, and read straight from the drive if whole sectors
      are wanted. Nothing is returned if the buffer is to be used. */
  method ReadBoundary(f: File, btr: nat) returns (data: seq<byte>)
    requires f.Held() && btr > 0 && f.fptr + btr <= f.objsize && f.fptr % 512 == 0
    modifies f`clust, f`dirty, f`sect, f.buf, f.fs`winsect, f.fs`wflag, f.fs.win, f.fs.disk
    ensures f.dirty ==> old(f.dirty)
    ensures f.Base() && Here(f.fs.geo, f.chain, f.fptr, f.clust)
    ensures f.Bytes() == old(f.Bytes()) && f.fs.Fat() == old(f.fs.Fat())
    ensures KeepsOthers(f.fs.geo, old(f.fs.Img()), f.fs.Img(), f.chain)
    ensures f.fs.geo.csize > 0 && (data != [] ==> |data| <= btr && FitsCluster(f.fs.geo.csize, f.fptr, |data|))
    ensures data != [] ==> (f.fptr + |data|) % 512 == 0
    ensures data == f.Bytes()[f.fptr..f.fptr + |data|]
    ensures data == [] ==> HasSector(f.fs.geo, f.chain, f.fptr / 512) && f.sect == Lba(f.fs.geo, f.chain, f.fptr / 512)
  {
    hide *;
    UnfoldValid(f);
    Unfold(f);
    KeepsOthersRefl(f.fs.geo, f.fs.Img(), f.chain);
    var res := ToCluster(f);
    Unfold(f);
    SectorHere(f.fs.geo, |f.fs.disk.sectors|, f.chain, f.fptr, f.clust);
    var csect := f.fptr / 512 % f.fs.geo.csize;
    var sect := f.fs.geo.ClstSect(f.clust) + csect;
    var cc := btr / 512;
    if cc > 0 {
      if csect + cc > f.fs.geo.csize {
        cc := f.fs.geo.csize - csect;
      }
      ClippedRun(f.fs.geo.csize, f.fptr, btr, cc);
      data := ReadDirect(f, sect, cc);
    } else {
      ToSector(f, sect);
      data := [];
    }
  }

  /** What the buffer holds from the position on, up to n bytes. */
  function FromBuffer(buf: seq<byte>, fptr: nat, n: nat): (part: seq<byte>)
    requires |buf| == 512
  {
    buf[fptr % 512..fptr % 512 + if 512 - fptr % 512 < n then 512 - fptr % 512 else n]
  }

  lemma FromBufferIs(buf: seq<byte>, fptr: nat, n: nat, data: seq<byte>)
    requires |buf| == 512 && |data| == (if 512 - fptr % 512 < n then 512 - fptr % 512 else n)
    requires data == buf[fptr % 512..fptr % 512 + |data|]
    ensures data == FromBuffer(buf, fptr, n) && |data| <= n && fptr % 512 + |data| <= 512 && (n > 0 ==> |data| > 0)
  {
  }

  /** The part of a turn that goes through the buffer. */
  method ReadRest(f: File, btr: nat) returns (data: seq<byte>)
    requires f.Base() && btr > 0 && f.fptr + btr <= f.objsize && Here(f.fs.geo, f.chain, f.fptr, f.clust)
    requires HasSector(f.fs.geo, f.chain, f.fptr / 512) && f.sect == Lba(f.fs.geo, f.chain, f.fptr / 512)
    ensures f.buf.Length == 512 && data == FromBuffer(f.buf[..], f.fptr, btr) && 0 < |data| <= btr
    ensures f.trust == Resized(f.trust, f.objsize) ==> data == f.Bytes()[f.fptr..f.fptr + |data|]
    ensures AtPrev(f.fs.geo, f.chain, f.fptr + |data|, f.clust) && InSect(f.fs.geo, f.chain, f.fptr + |data|, f.sect)
  {
    hide *;
    Unfold(f);
    SectorHere(f.fs.geo, |f.fs.disk.sectors|, f.chain, f.fptr, f.clust);
    data := ReadBuffer(f, btr);
    FromBufferIs(f.buf[..], f.fptr, btr, data);
    WithinCluster(f.fs.geo.csize, f.fptr, |data|);
    AdvanceInSector(f.fs.geo, f.chain, f.fptr, f.sect, |data|);
    Advance(f.fs.geo, f.chain, f.fptr, f.clust, |data|);
  }

  /** The bytes of one turn, before the position moves past them. Inside a sector they are the
      buffer's, and the buffer stays. */
  method ReadPart(f: File, btr: nat) returns (data: seq<byte>)
    requires f.Held() && btr > 0 && f.fptr + btr <= f.objsize && f.buf.Length == 512
    modifies f`clust, f`dirty, f`sect, f.buf, f.fs`winsect, f.fs`wflag, f.fs.win, f.fs.disk
    ensures f.dirty ==> old(f.dirty)
    ensures f.Base() && f.Bytes() == old(f.Bytes()) && f.fs.Fat() == old(f.fs.Fat())
    ensures KeepsOthers(f.fs.geo, old(f.fs.Img()), f.fs.Img(), f.chain)
    ensures 0 < |data| <= btr
    ensures f.trust == Resized(f.trust, f.objsize) ==> data == f.Bytes()[f.fptr..f.fptr + |data|]
    ensures f.fptr % 512 != 0 ==> Stays(f, old(f.sect), old(f.dirty), old(f.buf[..]))
    ensures f.fptr % 512 != 0 ==> data == FromBuffer(old(f.buf[..]), f.fptr, btr)
    ensures AtPrev(f.fs.geo, f.chain, f.fptr + |data|, f.clust) && InSect(f.fs.geo, f.chain, f.fptr + |data|, f.sect)
  {
    hide *;
    UnfoldValid(f);
    Unfold(f);
    KeepsOthersRefl(f.fs.geo, f.fs.Img(), f.chain);
    StaysIs(f, f.sect, f.dirty, f.buf[..]);
    data := [];
    if f.fptr % 512 == 0 {
      data := ReadBoundary(f, btr);
    } else {
      InsideCluster(f.fs.geo, f.chain, f.objsize, f.fptr, f.clust);
      InSectFacts(f.fs.geo, f.chain, f.fptr, f.sect);
    }
    if data == [] {
      data := ReadRest(f, btr);
    } else {
      Unfold(f);
      OnBoundary(f.fs.geo, f.chain, f.fptr + |data|, f.sect);
      Advance(f.fs.geo, f.chain, f.fptr, f.clust, |data|);
    }
  }

  /** One turn of the loop of f_read. */
  method ReadTurn(f: File, btr: nat) returns (data: seq<byte>)
    requires f.Held() && btr > 0 && f.fptr + btr <= f.objsize && f.buf.Length == 512
    modifies f`fptr, f`clust, f`dirty, f`sect, f.buf, f.fs`winsect, f.fs`wflag, f.fs.win, f.fs.disk
    ensures f.dirty ==> old(f.dirty)
    ensures f.Held() && f.Base() && f.Bytes() == old(f.Bytes()) && f.fs.Fat() == old(f.fs.Fat())
    ensures KeepsOthers(f.fs.geo, old(f.fs.Img()), f.fs.Img(), f.chain)
    ensures 0 < |data| <= btr && f.fptr == old(f.fptr) + |data|
    ensures f.trust == Resized(f.trust, f.objsize) ==> data == old(f.Bytes())[old(f.fptr)..f.fptr]
    ensures old(f.fptr) % 512 != 0 ==> Stays(f, old(f.sect), old(f.dirty), old(f.buf[..]))
    ensures old(f.fptr) % 512 != 0 ==> data == FromBuffer(old(f.buf[..]), old(f.fptr), btr)
  {
    hide *;
    UnfoldValid(f);
    data := ReadPart(f, btr);
    StaysIs(f, old(f.sect), old(f.dirty), old(f.buf[..]));
    f.fptr := f.fptr + |data|;
    UnfoldValid(f);
    StaysIs(f, old(f.sect), old(f.dirty), old(f.buf[..]));
  }

  lemma OnBoundary(g: Geo, chain: seq<nat>, fptr: nat, sect: nat)
    requires fptr % 512 == 0
    ensures InSect(g, chain, fptr, sect)
  {
  }

  lemma AppendRead(c: seq<byte>, a: nat, b: nat, d: nat)
    requires a <= b <= d <= |c|
    ensures c[a..b] + c[b..d] == c[a..d]
  {
  }

  /** f_read: the bytes of the file from the position on, as many as wanted or as there are. What is
      read inside one sector is what the buffer holds, and the buffer stays. */
  method Read(f: File, btr: nat) returns (res: FResult, data: seq<byte>)
    requires f.Held()
    modifies f`fptr, f`clust, f`dirty, f`sect, f.buf, f.fs`winsect, f.fs`wflag, f.fs.win, f.fs.disk
    ensures f.dirty ==> old(f.dirty)
    ensures f.Held() && f.Base() && f.Bytes() == old(f.Bytes()) && f.fs.Fat() == old(f.fs.Fat())
    ensures KeepsOthers(f.fs.geo, old(f.fs.Img()), f.fs.Img(), f.chain)
    ensures res == if f.canRead then FR_OK else FR_DENIED
    ensures f.fptr == if !f.canRead then old(f.fptr) else if old(f.fptr) + btr <= f.objsize then old(f.fptr) + btr
            else f.objsize
    ensures |data| == f.fptr - old(f.fptr)
    ensures old(f.Valid()) ==> f.Valid() && data == f.Bytes()[old(f.fptr)..f.fptr]
    ensures f.canRead && InsideOne(old(f.fptr), btr, f.objsize) ==>
            Stays(f, old(f.sect), old(f.dirty), old(f.buf[..])) && data == FromBuffer(old(f.buf[..]), old(f.fptr), btr)
  {
    hide *;
    UnfoldValid(f);
    Unfold(f);
    KeepsOthersRefl(f.fs.geo, f.fs.Img(), f.chain);
    InsideOneIs(f.fptr, btr, f.objsize, f.buf[..]);
    StaysIs(f, f.sect, f.dirty, f.buf[..]);
    res, data := FR_DENIED, [];
    if f.canRead {
      res := FR_OK;
      var left := f.objsize - f.fptr;
      if left > btr {
        left := btr;
      }
      ghost var bytes, p0, image, table := f.Bytes(), f.fptr, f.fs.Img(), f.fs.Fat();
      ghost var full, inside := f.trust == Resized(f.trust, f.objsize), InsideOne(f.fptr, btr, f.objsize);
      ghost var sect0, dirty0, buf0 := f.sect, f.dirty, f.buf[..];
      while left > 0
        invariant f.Held() && f.Base() && f.fs.Valid() && f.Bytes() == bytes && f.fs.Fat() == table
        invariant f.fptr <= f.objsize == |bytes| && 0 <= left && f.buf.Length == 512
        invariant KeepsOthers(f.fs.geo, image, f.fs.Img(), f.chain)
        invariant p0 <= f.fptr && f.fptr + left == if p0 + btr <= f.objsize then p0 + btr else f.objsize
        invariant |data| == f.fptr - p0 && (full ==> data == bytes[p0..f.fptr])
        invariant f.dirty ==> dirty0
        invariant inside ==> Stays(f, sect0, dirty0, buf0)
        invariant inside && left == 0 ==> data == FromBuffer(buf0, p0, btr)
        invariant inside && left > 0 ==> f.fptr == p0 && left == btr
      {
        ghost var i1, p1 := f.fs.Img(), f.fptr;
        StaysIs(f, sect0, dirty0, buf0);
        var part := ReadTurn(f, left);
        UnfoldValid(f);
        Unfold(f);
        KeepsOthersTrans(f.fs.geo, image, i1, f.fs.Img(), f.chain);
        AppendRead(bytes, p0, p1, f.fptr);
        data := data + part;
        left := left - |part|;
      }
      UnfoldValid(f);
    }
  }

  /** The n bytes from p on are in the file and in the sector p is inside of. */
  predicate InsideOne(p: nat, n: nat, size: nat) {
    p % 512 != 0 && 0 < n && p % 512 + n <= 512 && p + n <= size
  }

  lemma InsideOneIs(p: nat, n: nat, size: nat, buf: seq<byte>)
    requires |buf| == 512
    ensures InsideOne(p, n, size) <==> p % 512 != 0 && 0 < n && p % 512 + n <= 512 && p + n <= size
    ensures InsideOne(p, n, size) ==> |FromBuffer(buf, p, n)| == n
  {
  }
}
