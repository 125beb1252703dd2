/** Two files open on one volume: what is done to one leaves the other as it is. */
module Pairs {
  import opened Bytes
  import opened ChainOps
  import opened Chains
  import opened FileLayout
  import opened FileRead
  import opened FileSeek
  import opened FileTruncate
  import opened FileWrite
  import opened Files
  import opened Geometry
  import opened LinkMap
  import opened Numbers
  import opened Sectors
  import opened Session
  import opened Volume

  /** Two objects for two files: they share the volume and no cluster. */
  ghost predicate Apart(f: File, h: File)
    reads f`chain, h`chain
  {
    && f != h && f.buf != h.buf && f.fs == h.fs
    && forall c :: c in f.chain ==> c !in h.chain
  }

  /** Files that start at different clusters share none. */
  lemma DifferentStarts(f: File, h: File)
    requires f.Valid() && h.Valid() && f.fs == h.fs && f != h && f.buf != h.buf
    requires f.sclust == 0 || f.sclust != h.sclust
    ensures Apart(f, h)
  {
    hide *;
    UnfoldValid(f);
    UnfoldValid(h);
    FileFacts(f);
    FileFacts(h);
    ApartFrom(f, h);
    if f.chain != [] && h.chain != [] {
      ChainsApart(f.fs.geo, f.fs.Fat(), f.sclust, f.chain, f.objsize, h.sclust, h.chain, h.objsize, f.fs.freeClst);
    }
  }

  lemma ApartFrom(f: File, h: File)
    ensures Apart(f, h) <==> f != h && f.buf != h.buf && f.fs == h.fs && forall c :: c in f.chain ==> c !in h.chain
  {
  }

  lemma ChainsApart(g: Geo, t: Table, a: nat, s: seq<nat>, m: nat, b: nat, u: seq<nat>, n: nat, free: nat)
    requires Sound(t, free) && ChainOk(g, t, a, s, m) && ChainOk(g, t, b, u, n) && s != [] && u != [] && a != b
    ensures forall c :: c in s ==> c !in u
  {
    hide IsHead, IsChain, WellFormed;
    OnePredecessorOf(t, free);
    ChainsDisjoint(t, s, u);
  }

  lemma OnePredecessorOf(t: Table, free: nat)
    requires Sound(t, free)
    ensures OnePredecessor(t)
  {
  }

  // ----- the other file's parts -----

  /** Its chain is a chain still: what changed links to clusters of the acting file, or to none. */
  lemma ChainStays(g: Geo, f: Table, i: Image, c: seq<nat>, f1: Table, i1: Image, c1: seq<nat>, a: nat, m: nat,
                   b: nat, u: seq<nat>, n: nat)
    requires VolumeKept(g, f, i, c, f1, i1, c1) && ChainOk(g, f1, a, c1, m)
    requires ChainOk(g, f, b, u, n) && forall x :: x in c ==> x !in u
    ensures ChainOk(g, f1, b, u, n)
    ensures forall x :: x in c1 ==> x !in u
  {
    if u != [] {
      ChainNotFree(f, u);
      ChainKept(f, f1, u);
      HeadStays(g, f, i, c, f1, i1, c1, b);
    }
  }

  lemma HeadStays(g: Geo, f: Table, i: Image, c: seq<nat>, f1: Table, i1: Image, c1: seq<nat>, b: nat)
    requires VolumeKept(g, f, i, c, f1, i1, c1) && (c1 != [] ==> IsChain(f1, c1))
    requires IsHead(f, b) && b !in c1
    ensures IsHead(f1, b)
  {
    hide IsChain;
    forall d
      ensures !Links(f1, d, b)
    {
      if d in c1 {
        LinksStayInside(f1, c1, d, b);
      } else {
        assert Links(f1, d, b) ==> Links(f, d, b);
      }
    }
  }

  lemma LinksStayInside(f: Table, c: seq<nat>, d: int, b: nat)
    requires IsChain(f, c) && d in c && b !in c
    ensures !Links(f, d, b)
  {
    var k :| 0 <= k < |c| && c[k] == d;
    assert c[k] == c[|c| - 1] || f[c[k]] == c[k + 1];
  }

  /** The drive shows the image, but under the window and in the FATs. */
  lemma DriveShows(fs: FatFs, chain: seq<nat>)
    requires fs.Valid() && OwnClusters(fs.geo, chain) && !Owned(fs.geo, chain, fs.home)
    requires fs.winsect == fs.home || fs.geo.InFat1(fs.winsect)
    ensures |fs.Img()| == |fs.disk.sectors|
    ensures forall s :: 0 <= s < |fs.Img()| && Owned(fs.geo, chain, s) ==> fs.Img()[s] == fs.disk.sectors[s]
  {
    forall s | 0 <= s < |fs.Img()| && Owned(fs.geo, chain, s)
      ensures s >= fs.geo.FatEnd() && s != fs.winsect
    {
      OwnedInDrive(fs.geo, |fs.disk.sectors|, chain, s);
    }
  }

  /** The sectors of the other file are foreign to the acting one. */
  lemma SectorsStay(g: Geo, f: Table, i: Image, c: seq<nat>, f1: Table, i1: Image, c1: seq<nat>, u: seq<nat>, s: nat)
    requires g.Valid(|i|) && |f| == g.nFatent && VolumeKept(g, f, i, c, f1, i1, c1)
    requires u != [] ==> IsChain(f, u)
    requires OwnClusters(g, u) && (forall x :: x in c ==> x !in u) && Owned(g, u, s)
    ensures s < |i| && |i1| == |i| && i1[s] == i[s]
  {
    hide IsChain, VolumeKept, Foreign, Lba, HasSector;
    var j: nat :| HasSector(g, u, j) && Lba(g, u, j) == s;
    SomeCluster(g, u, j);
    LbaInDataArea(g, |i|, u, j);
    ChainNotFree(f, u);
    OtherSectorForeign(g, |i|, f, c, u, j);
    ForeignSame(g, f, i, c, f1, i1, c1, s);
  }

  lemma SomeCluster(g: Geo, u: seq<nat>, j: nat)
    requires HasSector(g, u, j)
    ensures u != []
  {
  }

  lemma ForeignSame(g: Geo, f: Table, i: Image, c: seq<nat>, f1: Table, i1: Image, c1: seq<nat>, s: nat)
    requires VolumeKept(g, f, i, c, f1, i1, c1) && Foreign(g, f, c, s) && s < |i|
    ensures |i1| == |i| && i1[s] == i[s]
  {
  }

  /** The other file's buffer and bytes, given that its sectors on the drive are the same. A buffer over
      a sector the file has lost is no longer trusted there. */
  lemma BufferStays(g: Geo, d: Image, d1: Image, home: nat, u: seq<nat>, size: nat, trust: Trust, sect: nat,
                    dirty: bool, buf: seq<byte>)
    requires g.Valid(|d|) && |d1| == |d| && OwnClusters(g, u) && Covers(g, u, size) && trust == Resized(trust, size)
    requires BufferOk(g, d, home, u, trust, sect, dirty, buf) && (dirty ==> sect < |d|)
    requires forall s :: 0 <= s < |d| && Owned(g, u, s) ==> d1[s] == d[s]
    ensures BufferOk(g, d1, home, u, UpTo(size), sect, dirty, buf)
    ensures sect == 0 || Owned(g, u, sect) ==> BufferOk(g, d1, home, u, trust, sect, dirty, buf)
    ensures Content(g, EffOf(d1, sect, dirty, buf), u, size) == Content(g, EffOf(d, sect, dirty, buf), u, size)
  {
    var e, e1 := EffOf(d, sect, dirty, buf), EffOf(d1, sect, dirty, buf);
    forall j: nat | HasSector(g, u, j) && Lba(g, u, j) < |e|
      ensures e1[Lba(g, u, j)] == e[Lba(g, u, j)]
    {
      LbaIsOwn(g, u, j);
    }
    if Carries(g, u, size, sect) { CarriedIsOwn(g, u, size, sect); }
    hide Content, EffOf, Owned, Carries;
    SameContent(g, e, e1, u, size);
  }

  lemma CarriedIsOwn(g: Geo, u: seq<nat>, size: nat, s: nat)
    requires Carries(g, u, size, s)
    ensures Owned(g, u, s)
  {
  }

  // ----- one operation -----

  /** What an operation on f needs to know of h, on values. */
  lemma OtherStays(g: Geo, f: Table, i: Image, d: Image, c: seq<nat>, f1: Table, i1: Image, d1: Image, c1: seq<nat>,
                   a: nat, m: nat, home: nat, b: nat, u: seq<nat>, size: nat, trust: Trust, sect: nat, dirty: bool,
                   buf: seq<byte>)
    requires g.Valid(|d|) && |i| == |d| && |i1| == |d1| && |f| == g.nFatent && trust == Resized(trust, size)
    requires VolumeKept(g, f, i, c, f1, i1, c1) && ChainOk(g, f1, a, c1, m)
    requires ChainOk(g, f, b, u, size) && OwnClusters(g, u) && Covers(g, u, size) && forall x :: x in c ==> x !in u
    requires BufferOk(g, d, home, u, trust, sect, dirty, buf) && (dirty ==> sect < |d|)
    requires forall s :: 0 <= s < |i| && Owned(g, u, s) ==> i[s] == d[s]
    requires forall s :: 0 <= s < |i1| && Owned(g, u, s) ==> i1[s] == d1[s]
    ensures ChainOk(g, f1, b, u, size) && |d1| == |d|
    ensures forall x :: x in c1 ==> x !in u
    ensures BufferOk(g, d1, home, u, UpTo(size), sect, dirty, buf)
    ensures sect == 0 || Owned(g, u, sect) ==> BufferOk(g, d1, home, u, trust, sect, dirty, buf)
    ensures dirty ==> sect < |d1|
    ensures Content(g, EffOf(d1, sect, dirty, buf), u, size) == Content(g, EffOf(d, sect, dirty, buf), u, size)
  {
    hide *;
    ChainStays(g, f, i, c, f1, i1, c1, a, m, b, u, size);
    ChainOfOk(g, f, b, u, size);
    KeptSize(g, f, i, c, f1, i1, c1);
    forall s | 0 <= s < |d| && Owned(g, u, s)
      ensures d1[s] == d[s]
    {
      SectorsStay(g, f, i, c, f1, i1, c1, u, s);
    }
    BufferStays(g, d, d1, home, u, size, trust, sect, dirty, buf);
  }

  lemma ChainOfOk(g: Geo, f: Table, b: nat, u: seq<nat>, size: nat)
    requires ChainOk(g, f, b, u, size)
    ensures u != [] ==> IsChain(f, u)
  {
  }

  lemma KeptSize(g: Geo, f: Table, i: Image, c: seq<nat>, f1: Table, i1: Image, c1: seq<nat>)
    requires VolumeKept(g, f, i, c, f1, i1, c1)
    ensures |i1| == |i| && |f1| == |f| >= 2 && Room(f1, c1) == Room(f, c)
  {
  }

  /** The invariant of an open file, for the proof below. */
  lemma Parts(f: File)
    requires f.Held()
    ensures f.fs.Valid() && f.Base() && f.buf != f.fs.win && f.buf.Length == 512 && Sound(f.fs.Fat(), f.fs.freeClst)
    ensures ChainOk(f.fs.geo, f.fs.Fat(), f.sclust, f.chain, f.objsize)
    ensures BufferOk(f.fs.geo, f.fs.disk.sectors, f.fs.home, f.chain, f.trust, f.sect, f.dirty, f.buf[..])
    ensures Shown(f.fs.geo, f.chain, f.sect, f.stale) && (!f.stale && f.sect != 0 ==> Owned(f.fs.geo, f.chain, f.sect))
    ensures f.fs.geo.Valid(|f.fs.Now().img|) && Watched(f.fs.geo, f.fs.mark, f.fs.home, f.fs.Now())
    ensures f.fs.winsect == f.fs.home || f.fs.geo.InFat1(f.fs.winsect)
    ensures !Owned(f.fs.geo, f.chain, f.fs.home)
    ensures OwnClusters(f.fs.geo, f.chain) && Covers(f.fs.geo, f.chain, f.objsize)
    ensures f.fs.geo.Valid(|f.fs.disk.sectors|) && |f.fs.Img()| == |f.fs.disk.sectors|
            && |f.fs.Fat()| == f.fs.geo.nFatent
    ensures f.dirty ==> f.sect < |f.fs.disk.sectors|
    ensures f.fptr <= f.objsize && AtPrev(f.fs.geo, f.chain, f.fptr, f.clust)
            && InSect(f.fs.geo, f.chain, f.fptr, f.sect)
    ensures f.Bytes() ==
            Content(f.fs.geo, EffOf(f.fs.disk.sectors, f.sect, f.dirty, f.buf[..]), f.chain, f.objsize)
    ensures Abs(f) == ByteArray(f.Bytes(), f.fptr)
    ensures f.Valid() <==> f.trust == Resized(f.trust, f.objsize)
    ensures MapOk(f.cltbl, f.chain)
  {
    hide *;
    UnfoldValid(f);
    Unfold(f);
    AbsIs(f);
    FileFacts(f);
    VolumeFacts(f.fs);
    BufferAway(f.fs.geo, f.fs.disk.sectors, f.fs.home, f.chain, f.trust, f.sect, f.dirty, f.buf[..], f.stale);
    WatchedFacts(f.fs.geo, f.fs.mark, f.fs.home, f.fs.Now());
  }

  lemma BufferAway(g: Geo, d: Image, home: nat, u: seq<nat>, trust: Trust, sect: nat, dirty: bool, buf: seq<byte>,
                   stale: bool)
    requires BufferOk(g, d, home, u, trust, sect, dirty, buf) && Shown(g, u, sect, stale)
    ensures !Owned(g, u, home) && (!stale && sect != 0 ==> Owned(g, u, sect))
  {
  }

  /** An operation on f, with h open beside it: it is a step of f's byte array. h keeps its bytes and its
      position and stays valid. f stays valid if and only if its buffer is not caught. */
  method PerformBeside(f: File, h: File, op: Op) returns (o: Outcome)
    requires f.Valid() && h.Valid() && Apart(f, h) && Callable(op) && Allowed(f.cltbl != [], op)
    modifies f`fptr, f`objsize, f`clust, f`sclust, f`chain, f`dirty, f`sect, f`modified, f`stale, f`trust, f.buf
    modifies f.fs`winsect, f.fs`wflag, f.fs.win, f.fs.disk, f.fs`lastClst, f.fs`freeClst, f.fs`fsiFlag, h`trust
    ensures f.Held() && f.Base() && Step(LimitsOf(f), old(Abs(f)), op, o, Abs(f)) && LimitsOf(f) == old(LimitsOf(f))
    ensures f.Valid() <==> !OpCaught(f.fs.geo, old(MomentOf(f)), op)
    ensures f.Valid() <==>
            ShowsDrive(f.fs.geo, f.fs.disk.sectors, f.chain, f.objsize, f.sect, f.dirty, f.buf[..])
    ensures Apart(f, h) && |f.fs.Fat()| >= 2 && Room(f.fs.Fat(), f.chain) == old(Room(f.fs.Fat(), f.chain))
    ensures |f.fs.disk.sectors| == old(|f.fs.disk.sectors|)
    ensures h.Valid() && Abs(h) == old(Abs(h))
    ensures old(f.trust).Whole? ==> f.trust.Whole? && f.Valid()
    ensures !h.stale && old(h.trust).Whole? ==> h.trust.Whole?
    ensures !op.OpTruncate? ==> f.stale == old(f.stale)
    ensures f.stale && !old(f.stale) ==> f.fptr % 512 == 0
    ensures old(f.stale) ==> f.stale
    ensures Noted(LimitsOf(f), op, old(Abs(f)), Abs(f), old(f.modified), f.modified, old(NotesOf(f)), NotesOf(f))
    ensures LeavesBuffer(f, op, old(f.sect)) ==> f.sect == old(f.sect) && f.buf[..] == old(f.buf[..])
    ensures op.OpTruncate? && f.canWrite && f.fptr < old(f.objsize) ==>
            !f.dirty && f.fs.geo.Valid(|f.fs.disk.sectors|)
            && Content(f.fs.geo, f.fs.disk.sectors, old(f.chain), old(f.objsize)) == old(f.Bytes())
            && f.fs.geo.csize > 0 && f.chain == Shorter(old(f.chain), Needed(f.fs.geo, f.fptr))
  {
    hide *;
    BesideBefore(f, h);
    ghost var f0, i0, d0, c0, bytes := f.fs.Fat(), f.fs.Img(), f.fs.disk.sectors, f.chain, h.Bytes();
    o := Perform(f, op);
    AbsIs(f);
    SizesKept(f, f0, i0, c0);
    StayBeside(f, h, f0, i0, d0, c0, bytes);
    ApartFrom(f, h);
    AbsOf(h);
  }

  lemma AbsOf(h: File)
    requires h.Valid()
    ensures h.Held() && h.Base() && Abs(h) == ByteArray(h.Bytes(), h.fptr)
  {
    hide *;
    UnfoldValid(h);
    AbsIs(h);
  }

  lemma SizesKept(f: File, f0: Table, i0: Image, c0: seq<nat>)
    requires f.Held() && f.fs.Valid() && VolumeKept(f.fs.geo, f0, i0, c0, f.fs.Fat(), f.fs.Img(), f.chain)
    ensures |f0| >= 2 && |f.fs.Fat()| >= 2 && Room(f.fs.Fat(), f.chain) == Room(f0, c0) && |f.fs.disk.sectors| == |i0|
  {
    hide *;
    VolumeFacts(f.fs);
    KeptSize(f.fs.geo, f0, i0, c0, f.fs.Fat(), f.fs.Img(), f.chain);
  }

  /** Two open files, before an operation on the first. */
  lemma BesideBefore(f: File, h: File)
    requires f.Valid() && h.Valid() && Apart(f, h)
    ensures f.Held() && f.Base() && f.fs.Valid() && h.Base() && f.fs == h.fs && f != h && f.buf != h.buf
    ensures h.buf != f.fs.win && |f.fs.Fat()| >= 2 && |f.fs.Img()| == |f.fs.disk.sectors|
    ensures Beside(f.fs.geo, f.fs.Fat(), f.fs.Img(), f.fs.disk.sectors, f.chain, f.fs.home, h, h.Bytes())
    ensures Abs(h) == ByteArray(h.Bytes(), h.fptr)
  {
    hide *;
    ApartFrom(f, h);
    UnfoldValid(f);
    UnfoldValid(h);
    Parts(f);
    Parts(h);
    FileFacts(f);
    DriveShows(f.fs, h.chain);
    BesideIs(f.fs.geo, f.fs.Fat(), f.fs.Img(), f.fs.disk.sectors, f.chain, f.fs.home, h, h.Bytes());
  }

  /** What is known of h before an operation on f, whose clusters are c, with the volume's values. */
  ghost predicate Beside(g: Geo, f: Table, i: Image, d: Image, c: seq<nat>, home: nat, h: File, bytes: seq<byte>)
    reads h`sclust, h`chain, h`objsize, h`trust, h`sect, h`dirty, h`stale, h`fptr, h`clust, h`cltbl, h.buf
  {
    && g.Valid(|d|) && |i| == |d| && |f| == g.nFatent && h.buf.Length == 512
    && ChainOk(g, f, h.sclust, h.chain, h.objsize) && (forall x :: x in c ==> x !in h.chain)
    && BufferOk(g, d, home, h.chain, h.trust, h.sect, h.dirty, h.buf[..]) && (h.dirty ==> h.sect < |d|)
    && h.trust == Resized(h.trust, h.objsize) && Shown(g, h.chain, h.sect, h.stale)
    && (forall s :: 0 <= s < |i| && Owned(g, h.chain, s) ==> i[s] == d[s])
    && h.fptr <= h.objsize && AtPrev(g, h.chain, h.fptr, h.clust) && InSect(g, h.chain, h.fptr, h.sect)
    && MapOk(h.cltbl, h.chain)
    && bytes == Content(g, EffOf(d, h.sect, h.dirty, h.buf[..]), h.chain, h.objsize)
  }

  lemma BesideIs(g: Geo, f: Table, i: Image, d: Image, c: seq<nat>, home: nat, h: File, bytes: seq<byte>)
    requires OwnClusters(g, h.chain) && Covers(g, h.chain, h.objsize) && g.Valid(|d|) && h.buf.Length == 512
    requires h.dirty ==> h.sect < |d|
    ensures Beside(g, f, i, d, c, home, h, bytes) <==>
      && |i| == |d| && |f| == g.nFatent
      && ChainOk(g, f, h.sclust, h.chain, h.objsize) && (forall x :: x in c ==> x !in h.chain)
      && BufferOk(g, d, home, h.chain, h.trust, h.sect, h.dirty, h.buf[..])
      && h.trust == Resized(h.trust, h.objsize) && Shown(g, h.chain, h.sect, h.stale)
      && (forall s :: 0 <= s < |i| && Owned(g, h.chain, s) ==> i[s] == d[s])
      && h.fptr <= h.objsize && AtPrev(g, h.chain, h.fptr, h.clust) && InSect(g, h.chain, h.fptr, h.sect)
      && MapOk(h.cltbl, h.chain)
      && bytes == Content(g, EffOf(d, h.sect, h.dirty, h.buf[..]), h.chain, h.objsize)
  {
    hide ChainOk, BufferOk, Shown, Owned, AtPrev, InSect, Content, EffOf, OwnClusters, Covers, MapOk;
  }

  lemma BesideParts(g: Geo, f: Table, i: Image, d: Image, c: seq<nat>, home: nat, h: File, bytes: seq<byte>)
    requires Beside(g, f, i, d, c, home, h, bytes)
    ensures OwnClusters(g, h.chain) && Covers(g, h.chain, h.objsize) && g.Valid(|d|) && h.buf.Length == 512
    ensures h.dirty ==> h.sect < |d|
    ensures !Owned(g, h.chain, home) && (!h.stale ==> h.sect == 0 || Owned(g, h.chain, h.sect))
  {
    hide Owned, AtPrev, InSect, Content, EffOf, OwnClusters, Covers, Trusted, MapOk;
  }

  /** After the operation h is valid still. It trusts its buffer no further than its bytes if the buffer
      may stand on a sector it has lost. */
  ghost method StayBeside(f: File, h: File, f0: Table, i0: Image, d0: Image, c0: seq<nat>, bytes: seq<byte>)
    requires f.Held() && f.fs.Valid() && f.fs == h.fs && h.buf != f.fs.win && f != h
    requires Beside(f.fs.geo, f0, i0, d0, c0, f.fs.home, h, bytes)
    requires VolumeKept(f.fs.geo, f0, i0, c0, f.fs.Fat(), f.fs.Img(), f.chain)
    modifies h`trust
    ensures h.Valid() && h.Base() && h.Bytes() == bytes && (forall x :: x in f.chain ==> x !in h.chain)
    ensures !h.stale && old(h.trust).Whole? ==> h.trust.Whole?
  {
    hide *;
    ghost var g := f.fs.geo;
    BesideParts(g, f0, i0, d0, c0, f.fs.home, h, bytes);
    BesideIs(g, f0, i0, d0, c0, f.fs.home, h, bytes);
    Parts(f);
    DriveShows(f.fs, h.chain);
    OtherStays(g, f0, i0, d0, c0, f.fs.Fat(), f.fs.Img(), f.fs.disk.sectors, f.chain, f.sclust, f.objsize,
               f.fs.home, h.sclust, h.chain, h.objsize, h.trust, h.sect, h.dirty, h.buf[..]);
    UpToSize(h.trust, h.objsize);
    if h.stale { h.trust := UpTo(h.objsize); }
    Unfold(h);
    UnfoldValid(h);
  }

  lemma UpToSize(trust: Trust, size: nat)
    ensures Capped(UpTo(size), size) && Resized(UpTo(size), size) == UpTo(size)
    ensures trust == Resized(trust, size) ==> Capped(trust, size)
  {
  }

  // ----- runs -----

  /** An operation on the first or on the second file. */
  datatype Turn = Turn(first: bool, op: Op)

  /** Two byte arrays, each with the number of clusters it holds. */
  datatype Pair = Pair(f: ByteArray, h: ByteArray, nf: nat, nh: nat)

  /** What the modes allow, which file uses a link map, the clusters the two files hold or could get, and
      the bytes of a cluster. */
  datatype Common = Common(readF: bool, writeF: bool, mapF: bool, readH: bool, writeH: bool, mapH: bool, room: nat,
                           cluster: nat)

  /** How far one array can grow while the other holds so many clusters; with a link map, only over its
      own. */
  ghost function Left(c: Common, own: nat, others: nat, mapped: bool): (n: nat)
    requires others <= c.room
  {
    var left := (if mapped then own else c.room - others) * c.cluster;
    if left < MAX_DWORD then left else MAX_DWORD
  }

  ghost predicate Fits(c: Common, p: Pair) {
    && p.f.pos <= |p.f.bytes| <= p.nf * c.cluster
    && p.h.pos <= |p.h.bytes| <= p.nh * c.cluster
    && p.nf + p.nh <= c.room
  }

  /** One array takes the step within the room the other leaves it; the other stays. */
  ghost predicate TurnStep(c: Common, t: Turn, o: Outcome, p: Pair, q: Pair) {
    && Fits(c, p) && Fits(c, q)
    && if t.first then
         Step(Limits(c.readF, c.writeF, Left(c, p.nf, p.nh, c.mapF), c.mapF), p.f, t.op, o, q.f) && q.h == p.h
           && q.nh == p.nh
       else
         Step(Limits(c.readH, c.writeH, Left(c, p.nh, p.nf, c.mapH), c.mapH), p.h, t.op, o, q.h) && q.f == p.f
           && q.nf == p.nf
  }

  /** Both files through the first n turns. */
  ghost predicate RunBoth(c: Common, turns: seq<Turn>, n: nat, outs: seq<Outcome>, states: seq<Pair>) {
    && n <= |turns| && |outs| == n && |states| == n + 1
    && forall i :: 0 <= i < n ==> TurnStep(c, turns[i], outs[i], states[i], states[i + 1])
  }

  lemma RunBothMore(c: Common, turns: seq<Turn>, n: nat, outs: seq<Outcome>, states: seq<Pair>, o: Outcome, p: Pair)
    requires RunBoth(c, turns, n, outs, states) && n < |turns| && TurnStep(c, turns[n], o, states[n], p)
    ensures RunBoth(c, turns, n + 1, outs + [o], states + [p])
  {
    hide TurnStep;
  }

  ghost function PairOf(f: File, h: File): Pair
    requires f.Base() && h.Base()
    reads f`sclust, f`objsize, f`chain, f`sect, f`dirty, f`stale, f`trust, f`fptr, f.buf
    reads h`sclust, h`objsize, h`chain, h`sect, h`dirty, h`stale, h`trust, h`fptr, h.buf
    reads f.fs`winsect, f.fs`wflag, f.fs`freeClst, f.fs`home, f.fs`mark, f.fs.disk, f.fs.win
    reads h.fs`winsect, h.fs`wflag, h.fs`freeClst, h.fs`home, h.fs`mark, h.fs.disk, h.fs.win
  {
    Pair(Abs(f), Abs(h), |f.chain|, |h.chain|)
  }

  ghost function CommonOf(f: File, h: File): Common
    requires f.fs.Valid()
    reads f`chain, f`cltbl, h`chain, h`cltbl, f.fs`winsect, f.fs`wflag, f.fs.disk, f.fs.win
  {
    Common(f.canRead, f.canWrite, f.cltbl != [], h.canRead, h.canWrite, h.cltbl != [],
           Room(f.fs.Fat(), f.chain) + |h.chain|, f.fs.geo.csize * 512)
  }

  /** What the pair of two open files is. */
  lemma PairIs(f: File, h: File)
    requires f.Held() && h.Held() && f.fs == h.fs
    ensures f.Base() && h.Base() && f.fs.Valid() && |f.fs.Fat()| >= 2
    ensures PairOf(f, h) == Pair(Abs(f), Abs(h), |f.chain|, |h.chain|)
    ensures CommonOf(f, h) == Common(f.canRead, f.canWrite, f.cltbl != [], h.canRead, h.canWrite, h.cltbl != [],
           Room(f.fs.Fat(), f.chain) + |h.chain|, f.fs.geo.csize * 512)
    ensures Room(f.fs.Fat(), f.chain) + |h.chain| == Room(f.fs.Fat(), h.chain) + |f.chain|
    ensures Fits(CommonOf(f, h), PairOf(f, h))
  {
    hide *;
    AbsIs(f);
    AbsIs(h);
    PairUnfold(f, h);
    ClustersHold(f);
    ClustersHold(h);
    RoomIs(f.fs.Fat(), f.chain);
    RoomIs(f.fs.Fat(), h.chain);
    FitsFrom(CommonOf(f, h), PairOf(f, h));
  }

  lemma PairUnfold(f: File, h: File)
    requires f.Base() && h.Base() && f.fs.Valid() && |f.fs.Fat()| >= 2
    ensures PairOf(f, h) == Pair(Abs(f), Abs(h), |f.chain|, |h.chain|)
    ensures CommonOf(f, h) == Common(f.canRead, f.canWrite, f.cltbl != [], h.canRead, h.canWrite, h.cltbl != [],
           Room(f.fs.Fat(), f.chain) + |h.chain|, f.fs.geo.csize * 512)
  {
    hide File.Base, FatFs.Valid, FatFs.Fat, Room, Abs;
  }

  /** The bytes of a file are no more than its clusters hold. */
  lemma ClustersHold(f: File)
    requires f.Held()
    ensures f.objsize <= |f.chain| * (f.fs.geo.csize * 512)
  {
    hide *;
    UnfoldValid(f);
    Unfold(f);
    CoversIs(f.fs.geo.csize, |f.chain|, f.objsize);
    SizeInChain(f.fs.geo, f.chain, f.objsize, f.fs.Fat(), f.sclust);
    NoNegative(|f.chain|, f.fs.geo.csize * 512);
  }

  lemma NoNegative(a: nat, b: nat)
    ensures 0 <= a * b
  {
  }

  lemma FitsFrom(c: Common, p: Pair)
    requires p.f.pos <= |p.f.bytes| <= p.nf * c.cluster && p.h.pos <= |p.h.bytes| <= p.nh * c.cluster
    requires p.nf + p.nh <= c.room
    ensures Fits(c, p)
  {
  }

  lemma LeftIs(g: Geo, t: Table, chain: seq<nat>, c: Common, others: nat, mapped: bool)
    requires |t| >= 2 && c.room == Room(t, chain) + others && c.cluster == g.csize * 512
    ensures Left(c, |chain|, others, mapped) == Allotted(g, t, chain, mapped)
  {
    hide Room;
  }

  lemma TurnFrom(c: Common, t: Turn, o: Outcome, p: Pair, q: Pair, l: Limits)
    requires Fits(c, p) && Fits(c, q)
    requires t.first ==>
             l == Limits(c.readF, c.writeF, Left(c, p.nf, p.nh, c.mapF), c.mapF) && q.h == p.h && q.nh == p.nh
    requires t.first ==> p.f.pos <= |p.f.bytes| && Step(l, p.f, t.op, o, q.f)
    requires !t.first ==>
             l == Limits(c.readH, c.writeH, Left(c, p.nh, p.nf, c.mapH), c.mapH) && q.f == p.f && q.nf == p.nf
    requires !t.first ==> p.h.pos <= |p.h.bytes| && Step(l, p.h, t.op, o, q.h)
    ensures TurnStep(c, t, o, p, q)
  {
    hide Step, Left;
  }

  /** The turn touches the first or the second file. */
  ghost predicate PairTouches(c: Common, first: bool, t: Turn, p: Pair, q: Pair) {
    && t.first == first
    && if first then (t.op.OpWrite? && c.writeF) || |q.f.bytes| != |p.f.bytes|
       else (t.op.OpWrite? && c.writeH) || |q.h.bytes| != |p.h.bytes|
  }

  lemma PairTouchesIs(c: Common, t: Turn, p: Pair, q: Pair)
    ensures PairTouches(c, true, t, p, q) <==>
            t.first && ((t.op.OpWrite? && c.writeF) || |q.f.bytes| != |p.f.bytes|)
    ensures PairTouches(c, false, t, p, q) <==>
            !t.first && ((t.op.OpWrite? && c.writeH) || |q.h.bytes| != |p.h.bytes|)
  {
  }

  /** What a turn does to what the object of the first or second file says. */
  ghost predicate Acted(c: Common, first: bool, t: Turn, p: Pair, q: Pair, was: bool, now: bool, a: Notes, b: Notes) {
    && (now <==> was || PairTouches(c, first, t, p, q))
    && (!PairTouches(c, first, t, p, q) ==> SameNotes(a, b))
  }

  lemma ActedFrom(c: Common, first: bool, t: Turn, p: Pair, q: Pair, l: Limits, was: bool, now: bool, a: Notes,
                  b: Notes)
    requires t.first == first && l.canWrite == if first then c.writeF else c.writeH
    requires Noted(l, t.op, if first then p.f else p.h, if first then q.f else q.h, was, now, a, b)
    ensures Acted(c, first, t, p, q, was, now, a, b)
  {
  }

  /** Of the other file nothing changes. */
  lemma NotActed(c: Common, first: bool, t: Turn, p: Pair, q: Pair, was: bool, a: Notes)
    requires t.first != first
    ensures Acted(c, first, t, p, q, was, was, a, a)
  {
  }

  /** After n turns: the object has been marked as modified exactly if it was or a turn touched its file;
      if it is not marked, it says what it said and its file has the bytes it had. */
  ghost predicate Accounts(c: Common, first: bool, turns: seq<Turn>, n: nat, states: seq<Pair>, was: bool, now: bool,
                           a: Notes, b: Notes) {
    && n <= |turns| && n < |states|
    && (now <==> was || AnyTurn(c, first, turns, states, n))
    && (!now ==> SameNotes(a, b) && BytesOf(first, states[n]) == BytesOf(first, states[0]))
  }

  ghost function BytesOf(first: bool, p: Pair): seq<byte> {
    if first then p.f.bytes else p.h.bytes
  }

  lemma AccountsStart(c: Common, first: bool, turns: seq<Turn>, p: Pair, was: bool, a: Notes)
    ensures Accounts(c, first, turns, 0, [p], was, was, a, a)
  {
    NoTurn(c, turns, p);
  }

  lemma AccountsMore(c: Common, first: bool, turns: seq<Turn>, n: nat, states: seq<Pair>, was: bool, mid: bool,
                     now: bool, a: Notes, b: Notes, d: Notes, o: Outcome, q: Pair)
    requires Accounts(c, first, turns, n, states, was, mid, a, b) && n < |turns| && |states| == n + 1
    requires TurnStep(c, turns[n], o, states[n], q) && Acted(c, first, turns[n], states[n], q, mid, now, b, d)
    ensures Accounts(c, first, turns, n + 1, states + [q], was, now, a, d)
  {
    AnyTurnMore(c, first, turns, states, n, q);
    TurnUntouched(c, turns[n], o, states[n], q);
    SameNotesTrans(a, b, d);
    hide AnyTurn, PairTouches, SameNotes, TurnStep;
  }

  lemma AccountsAre(c: Common, first: bool, turns: seq<Turn>, n: nat, states: seq<Pair>, was: bool, now: bool, a: Notes,
                    b: Notes)
    requires Accounts(c, first, turns, n, states, was, now, a, b)
    ensures n <= |turns| && n < |states| && (now <==> was || AnyTurn(c, first, turns, states, n))
    ensures !now ==> SameNotes(a, b)
    ensures !now && first ==> states[n].f.bytes == states[0].f.bytes
    ensures !now && !first ==> states[n].h.bytes == states[0].h.bytes
  {
    hide AnyTurn, SameNotes;
  }

  /** A file that is not touched keeps its bytes. */
  lemma TurnUntouched(c: Common, t: Turn, o: Outcome, p: Pair, q: Pair)
    requires TurnStep(c, t, o, p, q)
    ensures !PairTouches(c, true, t, p, q) ==> q.f.bytes == p.f.bytes
    ensures !PairTouches(c, false, t, p, q) ==> q.h.bytes == p.h.bytes
  {
    var lf := Limits(c.readF, c.writeF, Left(c, p.nf, p.nh, c.mapF), c.mapF);
    var lh := Limits(c.readH, c.writeH, Left(c, p.nh, p.nf, c.mapH), c.mapH);
    PairTouchesIs(c, t, p, q);
    if t.first && !PairTouches(c, true, t, p, q) { Untouched(lf, p.f, t.op, o, q.f); }
    if !t.first && !PairTouches(c, false, t, p, q) { Untouched(lh, p.h, t.op, o, q.h); }
    hide Step, Left;
  }

  /** One of the first n turns touches the file. */
  ghost predicate AnyTurn(c: Common, first: bool, turns: seq<Turn>, states: seq<Pair>, n: nat)
    requires n <= |turns| && n < |states|
  {
    exists i :: 0 <= i < n && PairTouches(c, first, turns[i], states[i], states[i + 1])
  }

  lemma AnyTurnMore(c: Common, first: bool, turns: seq<Turn>, states: seq<Pair>, n: nat, p: Pair)
    requires n < |turns| && |states| == n + 1
    ensures AnyTurn(c, first, turns, states + [p], n + 1) <==>
            AnyTurn(c, first, turns, states, n) || PairTouches(c, first, turns[n], states[n], p)
  {
    hide PairTouches;
    var more := states + [p];
    if AnyTurn(c, first, turns, states, n) {
      var i :| 0 <= i < n && PairTouches(c, first, turns[i], states[i], states[i + 1]);
      assert PairTouches(c, first, turns[i], more[i], more[i + 1]);
    }
    if PairTouches(c, first, turns[n], states[n], p) {
      assert PairTouches(c, first, turns[n], more[n], more[n + 1]);
    }
  }

  lemma NoTurn(c: Common, turns: seq<Turn>, p: Pair)
    ensures !AnyTurn(c, true, turns, [p], 0) && !AnyTurn(c, false, turns, [p], 0)
  {
  }

  lemma ApartBoth(f: File, h: File)
    ensures Apart(f, h) <==> Apart(h, f)
  {
  }

  /** Inside a sector the buffer is not stale, and shows the drive. */
  ghost method Refresh(f: File)
    requires f.Valid() && f.fptr % 512 != 0
    modifies f`stale, f`trust
    ensures f.Valid() && f.Held() && f.Base() && !f.stale && f.trust.Whole? && Abs(f) == old(Abs(f))
  {
    hide *;
    UnfoldValid(f);
    Parts(f);
    InsideIsOwn(f);
    InSectFacts(f.fs.geo, f.chain, f.fptr, f.sect);
    TrustHere(f.fs.geo, f.chain, f.trust, f.objsize, f.fptr);
    SureOf(f.fs.geo, f.fs.disk.sectors, f.fs.home, f.chain, f.trust, f.objsize, f.sect, f.dirty, f.buf[..]);
    f.stale := false;
    f.trust := Whole;
    NotStale(f.fs.geo, f.chain, f.sect);
    Unfold(f);
    UnfoldValid(f);
    AbsIs(f);
  }

  lemma SureOf(g: Geo, d: Image, home: nat, chain: seq<nat>, trust: Trust, size: nat, sect: nat, dirty: bool,
               buf: seq<byte>)
    requires BufferOk(g, d, home, chain, trust, sect, dirty, buf) && Trusted(g, chain, trust, sect)
    ensures BufferOk(g, d, home, chain, Whole, sect, dirty, buf)
    ensures Capped(Whole, size) && Resized(Whole, size) == Whole
  {
    hide Owned, Carries;
  }

  lemma NotStale(g: Geo, chain: seq<nat>, sect: nat)
    requires sect != 0 ==> Owned(g, chain, sect)
    ensures Shown(g, chain, sect, false)
  {
  }

  /** A buffer that stands on a sector of the file is right. */
  ghost predicate Sure(f: File)
    reads f`stale, f`trust
  {
    !f.stale ==> f.trust.Whole?
  }

  lemma SureIs(f: File)
    ensures Sure(f) <==> (!f.stale ==> f.trust.Whole?)
  {
  }

  /** PerformBeside, and the buffer is sure again if the operation ends inside a sector. */
  method Act(f: File, h: File, op: Op) returns (o: Outcome)
    requires f.Valid() && h.Valid() && Apart(f, h) && Callable(op) && Sure(f) && Sure(h)
    requires Allowed(f.cltbl != [], op)
    modifies f`fptr, f`objsize, f`clust, f`sclust, f`chain, f`dirty, f`sect, f`modified, f`stale, f`trust, f.buf
    modifies f.fs`winsect, f.fs`wflag, f.fs.win, f.fs.disk, f.fs`lastClst, f.fs`freeClst, f.fs`fsiFlag, h`trust
    ensures f.Held() && f.Base() && Step(LimitsOf(f), old(Abs(f)), op, o, Abs(f)) && LimitsOf(f) == old(LimitsOf(f))
    ensures f.Valid() <==> !OpCaught(f.fs.geo, old(MomentOf(f)), op)
    ensures f.Valid() <==>
            ShowsDrive(f.fs.geo, f.fs.disk.sectors, f.chain, f.objsize, f.sect, f.dirty, f.buf[..])
    ensures Apart(f, h) && |f.fs.Fat()| >= 2 && Room(f.fs.Fat(), f.chain) == old(Room(f.fs.Fat(), f.chain))
    ensures h.Valid() && Abs(h) == old(Abs(h)) && Sure(f) && Sure(h)
    ensures !old(f.stale) ==> f.Valid()
    ensures f.stale && f.Valid() ==> f.fptr % 512 == 0 && (op.OpTruncate? || old(f.stale))
    ensures Noted(LimitsOf(f), op, old(Abs(f)), Abs(f), old(f.modified), f.modified, old(NotesOf(f)), NotesOf(f))
  {
    hide *;
    SureIs(f);
    SureIs(h);
    o := PerformBeside(f, h, op);
    if f.Valid() && f.fptr % 512 != 0 { Refresh(f); }
    SureIs(f);
    SureIs(h);
    ApartFrom(f, h);
  }

  /** A turn of the first file. */
  method FirstActs(f: File, h: File, t: Turn) returns (o: Outcome)
    requires t.first == true
    requires f.Valid() && h.Valid() && Apart(f, h) && Callable(t.op) && Sure(f) && Sure(h)
    requires Allowed(f.cltbl != [], t.op)
    modifies f`fptr, f`objsize, f`clust, f`sclust, f`chain, f`dirty, f`sect, f`modified, f`stale, f`trust, f.buf
    modifies f.fs`winsect, f.fs`wflag, f.fs.win, f.fs.disk, f.fs`lastClst, f.fs`freeClst, f.fs`fsiFlag, h`trust
    ensures f.Held() && h.Held() && Apart(f, h) && CommonOf(f, h) == old(CommonOf(f, h)) && Sure(f) && Sure(h)
    ensures TurnStep(CommonOf(f, h), t, o, old(PairOf(f, h)), PairOf(f, h))
    ensures h.Valid() && (f.Valid() <==> !OpCaught(f.fs.geo, old(MomentOf(f)), t.op))
    ensures f.Valid() <==>
            ShowsDrive(f.fs.geo, f.fs.disk.sectors, f.chain, f.objsize, f.sect, f.dirty, f.buf[..])
    ensures !old(f.stale) ==> f.Valid()
    ensures f.stale && f.Valid() ==> f.fptr % 512 == 0 && (t.op.OpTruncate? || old(f.stale))
    ensures Acted(CommonOf(f, h), true, t, old(PairOf(f, h)), PairOf(f, h), old(f.modified), f.modified,
                  old(NotesOf(f)), NotesOf(f))
  {
    hide *;
    ghost var notes, was := NotesOf(f), f.modified;
    ApartFrom(f, h);
    UnfoldValid(f);
    UnfoldValid(h);
    AbsIs(f);
    AbsIs(h);
    PairIs(f, h);
    ghost var l, c, p := LimitsOf(f), CommonOf(f, h), PairOf(f, h);
    LeftIs(f.fs.geo, f.fs.Fat(), f.chain, c, |h.chain|, f.cltbl != []);
    o := Act(f, h, t.op);
    ApartFrom(f, h);
    UnfoldValid(f);
    UnfoldValid(h);
    PairIs(f, h);
    TurnFrom(c, t, o, p, PairOf(f, h), l);
    ActedFrom(c, true, t, p, PairOf(f, h), l, was, f.modified, notes, NotesOf(f));
  }

  /** A turn of the second. */
  method SecondActs(f: File, h: File, t: Turn) returns (o: Outcome)
    requires t.first == false
    requires f.Valid() && h.Valid() && Apart(f, h) && Callable(t.op) && Sure(f) && Sure(h)
    requires Allowed(h.cltbl != [], t.op)
    modifies h`fptr, h`objsize, h`clust, h`sclust, h`chain, h`dirty, h`sect, h`modified, h`stale, h`trust, h.buf
    modifies f.fs`winsect, f.fs`wflag, f.fs.win, f.fs.disk, f.fs`lastClst, f.fs`freeClst, f.fs`fsiFlag, f`trust
    ensures f.Held() && h.Held() && Apart(f, h) && CommonOf(f, h) == old(CommonOf(f, h)) && Sure(f) && Sure(h)
    ensures TurnStep(CommonOf(f, h), t, o, old(PairOf(f, h)), PairOf(f, h))
    ensures f.Valid() && (h.Valid() <==> !OpCaught(f.fs.geo, old(MomentOf(h)), t.op))
    ensures h.Valid() <==>
            ShowsDrive(f.fs.geo, f.fs.disk.sectors, h.chain, h.objsize, h.sect, h.dirty, h.buf[..])
    ensures !old(h.stale) ==> h.Valid()
    ensures h.stale && h.Valid() ==> h.fptr % 512 == 0 && (t.op.OpTruncate? || old(h.stale))
    ensures Acted(CommonOf(f, h), false, t, old(PairOf(f, h)), PairOf(f, h), old(h.modified), h.modified,
                  old(NotesOf(h)), NotesOf(h))
  {
    hide *;
    ghost var notes, was := NotesOf(h), h.modified;
    ApartBoth(f, h);
    ApartFrom(f, h);
    UnfoldValid(f);
    UnfoldValid(h);
    AbsIs(f);
    AbsIs(h);
    PairIs(f, h);
    ghost var l, c, p := LimitsOf(h), CommonOf(f, h), PairOf(f, h);
    LeftIs(f.fs.geo, f.fs.Fat(), h.chain, c, |f.chain|, h.cltbl != []);
    o := Act(h, f, t.op);
    ApartFrom(f, h);
    ApartBoth(f, h);
    UnfoldValid(f);
    UnfoldValid(h);
    PairIs(f, h);
    TurnFrom(c, t, o, p, PairOf(f, h), l);
    ActedFrom(c, false, t, p, PairOf(f, h), l, was, h.modified, notes, NotesOf(h));
  }

  /** One turn. It leaves both files valid if and only if the buffer of the one that acts is not caught. */
  method PerformTurn(f: File, h: File, t: Turn) returns (o: Outcome)
    requires f.Valid() && h.Valid() && Apart(f, h) && Callable(t.op) && Sure(f) && Sure(h)
    requires Allowed((if t.first then f.cltbl else h.cltbl) != [], t.op)
    modifies f`fptr, f`objsize, f`clust, f`sclust, f`chain, f`dirty, f`sect, f`modified, f`stale, f`trust, f.buf
    modifies h`fptr, h`objsize, h`clust, h`sclust, h`chain, h`dirty, h`sect, h`modified, h`stale, h`trust, h.buf
    modifies f.fs`winsect, f.fs`wflag, f.fs.win, f.fs.disk, f.fs`lastClst, f.fs`freeClst, f.fs`fsiFlag
    ensures f.Held() && h.Held() && Apart(f, h) && CommonOf(f, h) == old(CommonOf(f, h)) && Sure(f) && Sure(h)
    ensures TurnStep(CommonOf(f, h), t, o, old(PairOf(f, h)), PairOf(f, h))
    ensures t.first ==> h.Valid() && (f.Valid() <==> !OpCaught(f.fs.geo, old(MomentOf(f)), t.op))
    ensures !t.first ==> f.Valid() && (h.Valid() <==> !OpCaught(f.fs.geo, old(MomentOf(h)), t.op))
    ensures t.first ==>
            (f.Valid() <==> ShowsDrive(f.fs.geo, f.fs.disk.sectors, f.chain, f.objsize, f.sect, f.dirty, f.buf[..]))
    ensures !t.first ==>
            (h.Valid() <==> ShowsDrive(f.fs.geo, f.fs.disk.sectors, h.chain, h.objsize, h.sect, h.dirty, h.buf[..]))
    ensures t.first && !old(f.stale) ==> f.Valid()
    ensures !t.first && !old(h.stale) ==> h.Valid()
    ensures t.first ==> h.stale == old(h.stale)
    ensures t.first ==> f.stale && f.Valid() ==> f.fptr % 512 == 0 && (t.op.OpTruncate? || old(f.stale))
    ensures !t.first ==> f.stale == old(f.stale)
    ensures !t.first ==> h.stale && h.Valid() ==> h.fptr % 512 == 0 && (t.op.OpTruncate? || old(h.stale))
    ensures Acted(CommonOf(f, h), true, t, old(PairOf(f, h)), PairOf(f, h), old(f.modified), f.modified,
                  old(NotesOf(f)), NotesOf(f))
    ensures Acted(CommonOf(f, h), false, t, old(PairOf(f, h)), PairOf(f, h), old(h.modified), h.modified,
                  old(NotesOf(h)), NotesOf(h))
  {
    hide *;
    ApartFrom(f, h);
    UnfoldValid(f);
    UnfoldValid(h);
    PairIs(f, h);
    ghost var p := PairOf(f, h);
    NotesIs(f);
    NotesIs(h);
    if t.first {
      o := FirstActs(f, h, t);
    } else {
      o := SecondActs(f, h, t);
    }
    PairIs(f, h);
    NotesIs(f);
    NotesIs(h);
    NotActed(CommonOf(f, h), !t.first, t, p, PairOf(f, h), if t.first then h.modified else f.modified,
             if t.first then NotesOf(h) else NotesOf(f));
  }

  // ----- when a buffer can be stale -----

  /** The position of the first or of the second file. */
  ghost function PosOf(first: bool, p: Pair): nat {
    if first then p.f.pos else p.h.pos
  }

  /** After n turns this file has been truncated at a sector boundary, and none of its operations since
      has ended inside a sector: its buffer may still show a sector it lost. */
  ghost predicate Loose(first: bool, turns: seq<Turn>, states: seq<Pair>, n: nat)
    requires n <= |turns| && n < |states|
  {
    && n > 0
    && if turns[n - 1].first != first then
         Loose(first, turns, states, n - 1)
       else
         PosOf(first, states[n]) % 512 == 0 && (turns[n - 1].op.OpTruncate? || Loose(first, turns, states, n - 1))
  }

  lemma {:induction false} LooseStays(first: bool, turns: seq<Turn>, states: seq<Pair>, p: Pair, n: nat)
    requires n <= |turns| && n < |states|
    ensures Loose(first, turns, states + [p], n) == Loose(first, turns, states, n)
  {
    if n > 0 { LooseStays(first, turns, states, p, n - 1); }
  }

  lemma LooseMore(first: bool, turns: seq<Turn>, states: seq<Pair>, p: Pair, n: nat)
    requires n < |turns| && |states| == n + 1
    ensures Loose(first, turns, states + [p], n + 1) <==>
      if turns[n].first != first then Loose(first, turns, states, n)
      else PosOf(first, p) % 512 == 0 && (turns[n].op.OpTruncate? || Loose(first, turns, states, n))
  {
    LooseStays(first, turns, states, p, n);
  }

  lemma PosIs(p: Pair)
    ensures PosOf(true, p) == p.f.pos && PosOf(false, p) == p.h.pos
  {
  }

  /** Without truncations no buffer is ever stale. */
  lemma {:induction false} NeverLoose(first: bool, turns: seq<Turn>, states: seq<Pair>, n: nat)
    requires n <= |turns| && n < |states|
    requires forall i :: 0 <= i < n ==> turns[i].first == first ==> !turns[i].op.OpTruncate?
    ensures !Loose(first, turns, states, n)
  {
    if n > 0 { NeverLoose(first, turns, states, n - 1); }
  }

  // ----- finding out -----

  /** Links to follow from cluster c to cluster x, if there are fewer than n of them; otherwise n. */
  function StepsTo(t: seq<nat>, c: nat, x: nat, n: nat): (k: nat)
    ensures k <= n
    decreases n
  {
    if n == 0 || c == x then 0
    else if c < |t| then 1 + StepsTo(t, t[c], x, n - 1)
    else n
  }

  /** Along a chain that is the index of the cluster. */
  lemma {:induction false} StepsInChain(t: Table, s: seq<nat>, i: nat, x: nat, n: nat)
    requires IsChain(t, s) && i < |s| && i + n <= |s|
    ensures var k := StepsTo(t, s[i], x, n);
            && (k < n ==> s[i + k] == x)
            && (k == n ==> forall m :: i <= m < i + n ==> s[m] != x)
    decreases n
  {
    if n > 0 && s[i] != x && i + 1 < |s| {
      assert t[s[i]] == s[i + 1];
      StepsInChain(t, s, i + 1, x, n - 1);
    }
  }

  /** Whether a read of some byte of the file would give what the buffer holds and not what is on the
      drive: the buffer is clean, stands on bytes of the file and is unlike the drive. */
  predicate Misread(g: Geo, d: Image, t: seq<nat>, sclust: nat, size: nat, sect: nat, dirty: bool, buf: seq<byte>) {
    && !dirty && 0 < sect < |d| && buf != d[sect] && g.csize > 0 && g.database <= sect
    && var n := Needed(g, size);
       var at := sect - g.database;
       var k := StepsTo(t, sclust, at / g.csize + 2, n);
       k < n && 512 * (k * g.csize + at % g.csize) < size
  }

  /** The steps find the sector exactly if the file has it below its size. */
  lemma CarriedBySteps(g: Geo, nsect: nat, t: Table, sclust: nat, chain: seq<nat>, size: nat, sect: nat)
    requires g.Valid(nsect) && ChainOk(g, t, sclust, chain, size) && OwnClusters(g, chain) && Covers(g, chain, size)
    requires g.csize > 0 && g.database <= sect
    ensures var n := Needed(g, size);
            var at := sect - g.database;
            var k := StepsTo(t, sclust, at / g.csize + 2, n);
            Carries(g, chain, size, sect) <==> k < n && 512 * (k * g.csize + at % g.csize) < size
  {
    hide *;
    var n, at := Needed(g, size), sect - g.database;
    var x := at / g.csize + 2;
    CoversNeeded(g, chain, size);
    NeededIs(g, size);
    if size > 0 {
      ChainStart(g, t, sclust, chain, size);
      StepsInChain(t, chain, 0, x, n);
      var k := StepsTo(t, sclust, x, n);
      if k < n {
        SectorAt(g, nsect, chain, k, sect);
        if 512 * (k * g.csize + at % g.csize) < size { CarriesIs(g, chain, size, k * g.csize + at % g.csize); }
      }
      if Carries(g, chain, size, sect) {
        var j := CarriedAt(g, chain, size, sect);
        ClusterAt(g, nsect, chain, j, size);
        assert chain[j / g.csize] == x;
        if k < n { OnlyIndex(g, chain, k, j / g.csize); }
      }
    } else if Carries(g, chain, size, sect) {
      var j := CarriedAt(g, chain, size, sect);
    }
  }

  lemma ChainStart(g: Geo, t: Table, sclust: nat, chain: seq<nat>, size: nat)
    requires ChainOk(g, t, sclust, chain, size) && g.csize > 0 && size > 0
    ensures chain != [] && IsChain(t, chain) && chain[0] == sclust && Needed(g, size) <= |chain|
  {
  }

  lemma OnlyIndex(g: Geo, chain: seq<nat>, a: nat, b: nat)
    requires OwnClusters(g, chain) && a < |chain| && b < |chain| && chain[a] == chain[b]
    ensures a == b
  {
  }

  /** The sector of the drive in cluster k of the chain. */
  lemma SectorAt(g: Geo, nsect: nat, chain: seq<nat>, k: nat, sect: nat)
    requires g.Valid(nsect) && g.csize > 0 && OwnClusters(g, chain) && k < |chain| && g.database <= sect
    requires chain[k] == (sect - g.database) / g.csize + 2
    ensures var j := k * g.csize + (sect - g.database) % g.csize; HasSector(g, chain, j) && Lba(g, chain, j) == sect
  {
    var at := sect - g.database;
    var q, r := DivModDef(g.csize, at);
    DivModIs(g.csize, k * g.csize + at % g.csize, k, at % g.csize);
  }

  /** The cluster and the offset of a file's sector. */
  lemma ClusterAt(g: Geo, nsect: nat, chain: seq<nat>, j: nat, size: nat)
    requires g.Valid(nsect) && g.csize > 0 && OwnClusters(g, chain) && HasSector(g, chain, j) && 512 * j < size
    ensures var at := Lba(g, chain, j) - g.database;
            && at >= 0 && j / g.csize < Needed(g, size) && j / g.csize < |chain|
            && chain[j / g.csize] == at / g.csize + 2 && j == j / g.csize * g.csize + at % g.csize
  {
    var q, r := DivModDef(g.csize, j);
    var c := chain[j / g.csize];
    DivModIs(g.csize, Lba(g, chain, j) - g.database, c - 2, j % g.csize);
    DivMonotone(g.csize, j, (size - 1) / 512);
  }

  lemma MisreadIs(f: File)
    requires f.Held()
    ensures f.fs.Valid()
    ensures Misread(f.fs.geo, f.fs.disk.sectors, f.fs.Fat(), f.sclust, f.objsize, f.sect, f.dirty, f.buf[..]) <==>
            !ShowsDrive(f.fs.geo, f.fs.disk.sectors, f.chain, f.objsize, f.sect, f.dirty, f.buf[..])
  {
    hide *;
    Parts(f);
    FileFacts(f);
    BufferSector(f.fs.geo, f.fs.disk.sectors, f.fs.home, f.chain, f.trust, f.sect, f.dirty, f.buf[..]);
    if f.sect != 0 {
      CarriedBySteps(f.fs.geo, |f.fs.disk.sectors|, f.fs.Fat(), f.sclust, f.chain, f.objsize, f.sect);
    }
    MisreadUnfold(f.fs.geo, f.fs.disk.sectors, f.fs.Fat(), f.sclust, f.chain, f.objsize, f.sect, f.dirty, f.buf[..]);
  }

  lemma MisreadUnfold(g: Geo, d: Image, t: Table, sclust: nat, chain: seq<nat>, size: nat, sect: nat, dirty: bool,
                      buf: seq<byte>)
    requires g.csize > 0 && (sect != 0 ==> g.database <= sect)
    requires sect != 0 ==>
             var n := Needed(g, size);
             var at := sect - g.database;
             var k := StepsTo(t, sclust, at / g.csize + 2, n);
             Carries(g, chain, size, sect) <==> k < n && 512 * (k * g.csize + at % g.csize) < size
    ensures Misread(g, d, t, sclust, size, sect, dirty, buf) <==> !ShowsDrive(g, d, chain, size, sect, dirty, buf)
  {
    hide StepsTo, Needed, Carries;
  }

  // ----- runs of the two files -----

  /** What a turn finds: the file that acts as it was before. */
  ghost predicate TurnFinds(c: Common, p: Pair, t: Turn, m: Moment) {
    && m.size == (if t.first then |p.f.bytes| else |p.h.bytes|)
    && |m.chain| == (if t.first then p.nf else p.nh)
    && m.canWrite == (if t.first then c.writeF else c.writeH)
    && m.mapped == (if t.first then c.mapF else c.mapH)
  }

  /** The turn is a seek past the size of its file. */
  ghost predicate PastSize(p: Pair, t: Turn) {
    t.op.OpSeek? && t.op.ofs > if t.first then |p.f.bytes| else |p.h.bytes|
  }

  lemma TurnFound(c: Common, p: Pair, t: Turn, m: Moment)
    ensures TurnFinds(c, p, t, m) <==>
      && m.size == (if t.first then |p.f.bytes| else |p.h.bytes|)
      && |m.chain| == (if t.first then p.nf else p.nh)
      && m.canWrite == (if t.first then c.writeF else c.writeH)
      && m.mapped == (if t.first then c.mapF else c.mapH)
    ensures PastSize(p, t) <==> t.op.OpSeek? && t.op.ofs > if t.first then |p.f.bytes| else |p.h.bytes|
  {
  }

  /** One turn, and whether the file that acted is right after it. */
  method CheckedTurn(f: File, h: File, t: Turn) returns (o: Outcome, right: bool, ghost m: Moment)
    requires f.Valid() && h.Valid() && Apart(f, h) && Callable(t.op) && Sure(f) && Sure(h)
    requires Allowed((if t.first then f.cltbl else h.cltbl) != [], t.op)
    modifies f`fptr, f`objsize, f`clust, f`sclust, f`chain, f`dirty, f`sect, f`modified, f`stale, f`trust, f.buf
    modifies h`fptr, h`objsize, h`clust, h`sclust, h`chain, h`dirty, h`sect, h`modified, h`stale, h`trust, h.buf
    modifies f.fs`winsect, f.fs`wflag, f.fs.win, f.fs.disk, f.fs`lastClst, f.fs`freeClst, f.fs`fsiFlag
    ensures f.Held() && h.Held() && Apart(f, h) && CommonOf(f, h) == old(CommonOf(f, h)) && Sure(f) && Sure(h)
    ensures TurnStep(CommonOf(f, h), t, o, old(PairOf(f, h)), PairOf(f, h))
    ensures m == if t.first then old(MomentOf(f)) else old(MomentOf(h))
    ensures TurnFinds(CommonOf(f, h), old(PairOf(f, h)), t, m) && (right <==> !OpCaught(f.fs.geo, m, t.op))
    ensures right ==> f.Valid() && h.Valid()
    ensures !right ==> if t.first then h.Valid() && !f.Valid() else f.Valid() && !h.Valid()
    ensures !right ==> PastSize(old(PairOf(f, h)), t) && if t.first then old(f.stale) else old(h.stale)
    ensures t.first ==> h.stale == old(h.stale)
    ensures t.first && right ==> f.stale ==> f.fptr % 512 == 0 && (t.op.OpTruncate? || old(f.stale))
    ensures !t.first ==> f.stale == old(f.stale)
    ensures !t.first && right ==> h.stale ==> h.fptr % 512 == 0 && (t.op.OpTruncate? || old(h.stale))
    ensures Acted(CommonOf(f, h), true, t, old(PairOf(f, h)), PairOf(f, h), old(f.modified), f.modified,
                  old(NotesOf(f)), NotesOf(f))
    ensures Acted(CommonOf(f, h), false, t, old(PairOf(f, h)), PairOf(f, h), old(h.modified), h.modified,
                  old(NotesOf(h)), NotesOf(h))
  {
    hide *;
    ApartFrom(f, h);
    UnfoldValid(f);
    UnfoldValid(h);
    AbsIs(f);
    AbsIs(h);
    PairIs(f, h);
    MomentIs(f);
    MomentIs(h);
    m := if t.first then MomentOf(f) else MomentOf(h);
    TurnFound(CommonOf(f, h), PairOf(f, h), t, m);
    if t.first && OpCaught(f.fs.geo, m, t.op) { OpCaughtMeans(f, t.op); }
    if !t.first && OpCaught(f.fs.geo, m, t.op) { OpCaughtMeans(h, t.op); }
    o := PerformTurn(f, h, t);
    ApartFrom(f, h);
    if t.first {
      MisreadIs(f);
      right := !Misread(f.fs.geo, f.fs.disk.sectors, f.fs.Fat(), f.sclust, f.objsize, f.sect, f.dirty, f.buf[..]);
    } else {
      MisreadIs(h);
      right := !Misread(h.fs.geo, h.fs.disk.sectors, h.fs.Fat(), h.sclust, h.objsize, h.sect, h.dirty, h.buf[..]);
    }
  }

  /** What n turns have done: a run of two byte arrays. At most the last of them was caught, and then it
      seeks past the size of its file; if neither buffer was stale at first, that file was truncated at a
      sector boundary in the run and has not been inside a sector since. */
  ghost predicate Record(g: Geo, c: Common, turns: seq<Turn>, n: nat, sure: bool, right: bool, outs: seq<Outcome>,
                         states: seq<Pair>, ms: seq<Moment>) {
    && RunBoth(c, turns, n, outs, states) && |ms| == n
    && (forall i :: 0 <= i < n ==> TurnFinds(c, states[i], turns[i], ms[i]))
    && (forall i :: 0 <= i < n ==> (OpCaught(g, ms[i], turns[i].op) <==> !right && i == n - 1))
    && (!right ==> n > 0 && PastSize(states[n - 1], turns[n - 1]))
    && (!right && sure ==> Loose(turns[n - 1].first, turns, states, n - 1))
  }

  lemma RecordStart(g: Geo, c: Common, turns: seq<Turn>, sure: bool, p: Pair)
    ensures Record(g, c, turns, 0, sure, true, [], [p], [])
  {
  }

  lemma RecordMore(g: Geo, c: Common, turns: seq<Turn>, n: nat, sure: bool, outs: seq<Outcome>, states: seq<Pair>,
                   ms: seq<Moment>, o: Outcome, right: bool, m: Moment, p: Pair)
    requires Record(g, c, turns, n, sure, true, outs, states, ms) && n < |turns| && |states| == n + 1
    requires TurnStep(c, turns[n], o, states[n], p) && TurnFinds(c, states[n], turns[n], m)
    requires right <==> !OpCaught(g, m, turns[n].op)
    requires !right ==> PastSize(states[n], turns[n]) && (sure ==> Loose(turns[n].first, turns, states, n))
    ensures Record(g, c, turns, n + 1, sure, right, outs + [o], states + [p], ms + [m])
  {
    RunBothMore(c, turns, n, outs, states, o, p);
    LooseStays(turns[n].first, turns, states, p, n);
    hide OpCaught, TurnFinds, PastSize, Loose, TurnStep, RunBoth;
  }

  /** When a file can be stale after the next turn. */
  lemma LooseNext(turns: seq<Turn>, states: seq<Pair>, p: Pair, n: nat, first: bool, was: bool, now: bool, pos: nat)
    requires n < |turns| && |states| == n + 1 && (was ==> Loose(first, turns, states, n))
    requires pos == PosOf(first, p)
    requires if turns[n].first != first then now == was
             else now ==> pos % 512 == 0 && (turns[n].op.OpTruncate? || was)
    ensures now ==> Loose(first, turns, states + [p], n + 1)
  {
    LooseMore(first, turns, states, p, n);
  }

  /** The next turn, on record. */
  method NextTurn(f: File, h: File, turns: seq<Turn>, n: nat, ghost sure: bool, ghost c: Common,
                  ghost outs: seq<Outcome>, ghost states: seq<Pair>, ghost ms: seq<Moment>, ghost wasF: bool,
                    ghost wasH: bool,
                  ghost notesF: Notes, ghost notesH: Notes)
    returns (o: Outcome, right: bool, ghost m: Moment)
    requires f.Valid() && h.Valid() && Apart(f, h) && Sure(f) && Sure(h) && n < |turns| && Callable(turns[n].op)
    requires Allowed((if turns[n].first then f.cltbl else h.cltbl) != [], turns[n].op)
    requires CommonOf(f, h) == c && Record(f.fs.geo, c, turns, n, sure, true, outs, states, ms)
    requires |states| == n + 1 && states[n] == PairOf(f, h)
    requires sure ==> (f.stale ==> Loose(true, turns, states, n)) && (h.stale ==> Loose(false, turns, states, n))
    requires Accounts(c, true, turns, n, states, wasF, f.modified, notesF, NotesOf(f))
    requires Accounts(c, false, turns, n, states, wasH, h.modified, notesH, NotesOf(h))
    modifies f`fptr, f`objsize, f`clust, f`sclust, f`chain, f`dirty, f`sect, f`modified, f`stale, f`trust, f.buf
    modifies h`fptr, h`objsize, h`clust, h`sclust, h`chain, h`dirty, h`sect, h`modified, h`stale, h`trust, h.buf
    modifies f.fs`winsect, f.fs`wflag, f.fs.win, f.fs.disk, f.fs`lastClst, f.fs`freeClst, f.fs`fsiFlag
    ensures f.Held() && h.Held() && f.Base() && h.Base() && f.fs.Valid() && Apart(f, h) && f.fs == h.fs
    ensures CommonOf(f, h) == c
    ensures Record(f.fs.geo, c, turns, n + 1, sure, right, outs + [o], states + [PairOf(f, h)], ms + [m])
    ensures m == if turns[n].first then old(MomentOf(f)) else old(MomentOf(h))
    ensures right ==> f.Valid() && h.Valid() && Sure(f) && Sure(h)
    ensures right && sure && f.stale ==> Loose(true, turns, states + [PairOf(f, h)], n + 1)
    ensures right && sure && h.stale ==> Loose(false, turns, states + [PairOf(f, h)], n + 1)
    ensures !right ==> if turns[n].first then h.Valid() && !f.Valid() else f.Valid() && !h.Valid()
    ensures Accounts(c, true, turns, n + 1, states + [PairOf(f, h)], wasF, f.modified, notesF, NotesOf(f))
    ensures Accounts(c, false, turns, n + 1, states + [PairOf(f, h)], wasH, h.modified, notesH, NotesOf(h))
  {
    hide *;
    ghost var sf, sh, modF, modH, midF, midH := f.stale, h.stale, f.modified, h.modified, NotesOf(f), NotesOf(h);
    o, right, m := CheckedTurn(f, h, turns[n]);
    ApartFrom(f, h);
    PairIs(f, h);
    ghost var p := PairOf(f, h);
    AbsIs(f);
    AbsIs(h);
    PosIs(p);
    if right && sure {
      LooseNext(turns, states, p, n, true, sf, f.stale, f.fptr);
      LooseNext(turns, states, p, n, false, sh, h.stale, h.fptr);
    }
    AccountsMore(c, true, turns, n, states, wasF, modF, f.modified, notesF, midF, NotesOf(f), o, p);
    AccountsMore(c, false, turns, n, states, wasH, modH, h.modified, notesH, midH, NotesOf(h), o, p);
    RecordMore(f.fs.geo, c, turns, n, sure, outs, states, ms, o, right, m, p);
  }

  /** What is on the drive of files whose buffers are not dirty. */
  lemma StartsClean(f: File, h: File)
    requires f.Held() && h.Held() && f.fs == h.fs
    ensures f.Base() && h.Base()
    ensures !f.dirty ==> OnDrive(f) == PairOf(f, h).f.bytes
    ensures !h.dirty ==> OnDrive(h) == PairOf(f, h).h.bytes
    ensures NotesOf(f).dirty == f.dirty && NotesOf(h).dirty == h.dirty
  {
    hide *;
    PairIs(f, h);
    AbsIs(f);
    AbsIs(h);
    OnDriveIs(f);
    OnDriveIs(h);
    NotesIs(f);
    NotesIs(h);
  }

  /** It is the same for a file that has not been marked as modified. */
  lemma EndsClean(f: File, h: File, c: Common, turns: seq<Turn>, n: nat, states: seq<Pair>, wasF: bool, wasH: bool,
                  notesF: Notes, notesH: Notes, driveF: seq<byte>, driveH: seq<byte>)
    requires f.Held() && h.Held() && f.fs == h.fs && f.Base() && h.Base()
    requires Accounts(c, true, turns, n, states, wasF, f.modified, notesF, NotesOf(f))
    requires Accounts(c, false, turns, n, states, wasH, h.modified, notesH, NotesOf(h))
    requires n < |states| && states[n] == PairOf(f, h)
    requires !notesF.dirty ==> driveF == states[0].f.bytes
    requires !notesH.dirty ==> driveH == states[0].h.bytes
    ensures !f.modified && !notesF.dirty ==> OnDrive(f) == driveF
    ensures !h.modified && !notesH.dirty ==> OnDrive(h) == driveH
  {
    hide *;
    StartsClean(f, h);
    AccountsAre(c, true, turns, n, states, wasF, f.modified, notesF, NotesOf(f));
    AccountsAre(c, false, turns, n, states, wasH, h.modified, notesH, NotesOf(h));
    SameNotesIs(notesF, NotesOf(f));
    SameNotesIs(notesH, NotesOf(h));
  }

  /** Any sequence of operations on the two files, in any order, is a run of two byte arrays that share
      their room: each operation moves one and leaves the other. Both files stay right to the end if and
      only if no seek catches a buffer; the run stops after the first that does. */
  method PerformTurns(f: File, h: File, turns: seq<Turn>)
    returns (n: nat, right: bool, outs: seq<Outcome>, ghost states: seq<Pair>, ghost ms: seq<Moment>)
    requires f.Valid() && h.Valid() && Apart(f, h) && Sure(f) && Sure(h)
    requires forall i :: 0 <= i < |turns| ==>
               Callable(turns[i].op) && Allowed((if turns[i].first then f.cltbl else h.cltbl) != [], turns[i].op)
    modifies f`fptr, f`objsize, f`clust, f`sclust, f`chain, f`dirty, f`sect, f`modified, f`stale, f`trust, f.buf
    modifies h`fptr, h`objsize, h`clust, h`sclust, h`chain, h`dirty, h`sect, h`modified, h`stale, h`trust, h.buf
    modifies f.fs`winsect, f.fs`wflag, f.fs.win, f.fs.disk, f.fs`lastClst, f.fs`freeClst, f.fs`fsiFlag
    ensures f.Held() && h.Held() && Apart(f, h) && CommonOf(f, h) == old(CommonOf(f, h))
    ensures Record(f.fs.geo, CommonOf(f, h), turns, n, old(!f.stale && !h.stale), right, outs, states, ms)
    ensures n <= |turns| && |states| == n + 1 && |ms| == n
    ensures states[0] == old(PairOf(f, h)) && states[n] == PairOf(f, h)
    ensures n > 0 ==> ms[0] == if turns[0].first then old(MomentOf(f)) else old(MomentOf(h))
    ensures right ==> n == |turns| && f.Valid() && h.Valid()
    ensures !right ==> n > 0 && (if turns[n - 1].first then h.Valid() && !f.Valid() else f.Valid() && !h.Valid())
    ensures Accounts(CommonOf(f, h), true, turns, n, states, old(f.modified), f.modified, old(NotesOf(f)), NotesOf(f))
    ensures Accounts(CommonOf(f, h), false, turns, n, states, old(h.modified), h.modified, old(NotesOf(h)), NotesOf(h))
    ensures f.Base() && h.Base()
    ensures !f.modified && !old(f.dirty) ==> OnDrive(f) == old(OnDrive(f))
    ensures !h.modified && !old(h.dirty) ==> OnDrive(h) == old(OnDrive(h))
    ensures f.fs.geo.fsType != FAT12 ==> LoggedWellFormed(f.fs.geo, f.fs.mark, f.fs.disk.log)
  {
    hide *;
    ApartFrom(f, h);
    UnfoldValid(f);
    UnfoldValid(h);
    PairIs(f, h);
    ghost var c, sure := CommonOf(f, h), !f.stale && !h.stale;
    StartsClean(f, h);
    ghost var notesF, notesH, driveF, driveH := NotesOf(f), NotesOf(h), OnDrive(f), OnDrive(h);
    AccountsStart(c, true, turns, PairOf(f, h), f.modified, notesF);
    AccountsStart(c, false, turns, PairOf(f, h), h.modified, notesH);
    NotesIs(f);
    NotesIs(h);
    n, right, outs, states, ms := 0, true, [], [PairOf(f, h)], [];
    RecordStart(f.fs.geo, c, turns, sure, PairOf(f, h));
    while right && n < |turns|
      invariant f.Held() && h.Held() && f.Base() && h.Base() && f.fs.Valid() && Apart(f, h) && f.fs == h.fs
      invariant CommonOf(f, h) == c && Record(f.fs.geo, c, turns, n, sure, right, outs, states, ms)
      invariant n <= |turns| && |states| == n + 1 && |ms| == n
      invariant states[0] == old(PairOf(f, h)) && states[n] == PairOf(f, h)
      invariant Accounts(c, true, turns, n, states, old(f.modified), f.modified, notesF, NotesOf(f))
      invariant Accounts(c, false, turns, n, states, old(h.modified), h.modified, notesH, NotesOf(h))
      invariant n == 0 ==> MomentOf(f) == old(MomentOf(f)) && MomentOf(h) == old(MomentOf(h))
      invariant n > 0 ==> ms[0] == if turns[0].first then old(MomentOf(f)) else old(MomentOf(h))
      invariant right ==> f.Valid() && h.Valid() && Sure(f) && Sure(h)
      invariant right && sure ==>
                (f.stale ==> Loose(true, turns, states, n)) && (h.stale ==> Loose(false, turns, states, n))
      invariant !right ==> n > 0 && (if turns[n - 1].first then h.Valid() && !f.Valid() else f.Valid() && !h.Valid())
    {
      var o;
      ghost var m;
      o, right, m := NextTurn(f, h, turns, n, sure, c, outs, states, ms, old(f.modified), old(h.modified), notesF,
                              notesH);
      PairIs(f, h);
      outs, states, ms, n := outs + [o], states + [PairOf(f, h)], ms + [m], n + 1;
    }
    DriveStates(f);
    EndsClean(f, h, c, turns, n, states, old(f.modified), old(h.modified), notesF, notesH, driveF, driveH);
  }
}
