/** A run of two files that goes wrong: a file cut to nothing keeps its buffer, the other writes to the
    cluster and gives it back, and the first gets it again by a seek past its end. It then reads its old
    bytes until the buffer has been elsewhere, and the other file's afterwards. */
module LostSector {
  import opened Bytes
  import opened Chains
  import opened FileLayout
  import opened FileRead
  import opened Files
  import opened FileSeek
  import opened FileTruncate
  import opened FileWrite
  import opened FormatFat
  import opened Geometry
  import opened Mount
  import opened Pairs
  import opened Sectors
  import opened Session
  import opened Volume

  // ----- a small volume -----

  /** FAT12 with a boot sector, one FAT, 16 root entries and two clusters of one sector. */
  const TINY: Geo := Geo(FAT12, 1, 16, 1, 4, 1, 0, 1, 2, 3)

  /** It is the layout of a boot sector that mounts. */
  lemma TinyMounts()
    ensures var b := Bpb(512, 1, 1, 1, 16, 5, 1, 0, 0, 0, 0); Accepted(b) && Mount.Layout(b, 0) == TINY
    ensures TINY.Valid(5)
  {
  }

  /** The drive when all is free. */
  function TinyDrive(): (d: Image)
    ensures |d| == 5
  {
    [ZeroPadded([]), ZeroPadded(FatHead(FAT12)), ZeroPadded([]), ZeroPadded([]), ZeroPadded([])]
  }

  lemma TinyIsFree()
    ensures TINY.Valid(|TinyDrive()|)
    ensures WellFormed(FatView(TINY, TinyDrive())) && FreeCount(FatView(TINY, TinyDrive())) == 2
  {
    hide FatHead, ZeroPadded;
    WrittenIsCleared(TINY, TinyDrive());
    ClearedIsWellFormed(FAT12, FatView(TINY, TinyDrive()));
  }

  /** The volume, watched. */
  method TinyVolume() returns (v: FatFs)
    ensures fresh(v) && fresh(v.win) && fresh(v.disk) && v.geo == TINY && |v.disk.sectors| == 5
    ensures Open(v) && v.Valid() && FreeCount(v.Fat()) == 2
  {
    hide *;
    TinyIsFree();
    var d := new Disk(TinyDrive());
    v := new FatFs(d, TINY);
    CleanVolume(v);
    OutsideData(TINY, 5, v.Fat(), v.winsect);
    Watch(v);
    OpenIs(v);
  }

  lemma CleanVolume(v: FatFs)
    requires v.Valid() && !v.wflag && v.winsect == MAX_DWORD && v.freeClst == MAX_DWORD && v.geo == TINY
    requires v.disk.sectors == TinyDrive() && WellFormed(FatView(TINY, TinyDrive()))
    ensures v.Fat() == FatView(TINY, TinyDrive()) && Sound(v.Fat(), v.freeClst)
    ensures TINY.Valid(5) && !(TINY.database <= v.winsect < 5) && TINY.fsType == FAT12
  {
    hide WellFormed, FatView, TinyDrive;
  }

  /** An empty file's chain. */
  lemma EmptyChain(t: Table, home: nat)
    ensures ChainOk(TINY, t, 0, [], 0) && !Owned(TINY, [], home)
  {
  }

  /** Two empty files. */
  method TwoFiles() returns (f: File, h: File)
    ensures fresh(f) && fresh(f.buf) && fresh(h) && fresh(h.buf) && fresh(f.fs) && fresh(f.fs.win) && fresh(f.fs.disk)
    ensures f.Valid() && h.Valid() && Apart(f, h) && Sure(f) && Sure(h) && f.fs.geo == TINY
    ensures f.canRead && f.canWrite && h.canRead && h.canWrite && f.cltbl == [] && h.cltbl == []
    ensures f.fptr == 0 && h.fptr == 0 && f.chain == [] && h.chain == [] && f.objsize == 0 && h.objsize == 0
    ensures f.fs.Valid() && |f.fs.Fat()| >= 2 && FreeCount(f.fs.Fat()) == 2 && |f.fs.disk.sectors| == 5
  {
    hide *;
    var v := TinyVolume();
    OpenIs(v);
    EmptyChain(v.Fat(), v.home);
    f := NewFile(v, true, true, 0, 0, []);
    h := NewFile(v, true, true, 0, 0, []);
    SureIs(f);
    SureIs(h);
    DifferentStarts(f, h);
    VolumeFacts(v);
    Opened(f);
  }

  lemma Opened(f: File)
    requires f.Valid()
    ensures f.Held() && f.fs.Valid() && |f.Bytes()| == f.objsize && Abs(f) == ByteArray(f.Bytes(), f.fptr)
    ensures f.buf != f.fs.win && f.buf.Length == 512
  {
    hide *;
    UnfoldValid(f);
    Unfold(f);
    AbsIs(f);
  }

  // ----- steps of the script -----

  lemma WriteStep(l: Limits, a: ByteArray, d: seq<byte>, o: Outcome, b: ByteArray)
    requires a == ByteArray([], 0) && Step(l, a, OpWrite(d), o, b) && l.canWrite && |d| <= l.capacity
    ensures b == ByteArray(d, |d|)
  {
    WholeSlice(d);
  }

  lemma CutStep(l: Limits, a: ByteArray, o: Outcome, b: ByteArray)
    requires a.pos == 0 && Step(l, a, OpTruncate, o, b) && l.canWrite
    ensures b == ByteArray([], 0)
  {
  }

  /** A file of a volume whose two clusters it has or can get. */
  lemma TinyCapacity(t: Table, chain: seq<nat>)
    requires |t| >= 2 && Room(t, chain) == 2
    ensures Capacity(TINY, t, chain) == 1024
  {
  }

  lemma NotSeek(g: Geo, m: Moment, op: Op)
    requires !op.OpSeek?
    ensures !OpCaught(g, m, op)
  {
  }

  lemma StartOf(f: File, bytes: seq<byte>)
    requires f.Held()
    ensures f.Base() && f.fs.Valid() && |f.Bytes()| == f.objsize && |f.fs.Fat()| == f.fs.geo.nFatent >= 3
    ensures f.fs.geo.csize > 0 && f.buf.Length == 512
    ensures Abs(f) == ByteArray(bytes, 0) <==> f.Bytes() == bytes && f.fptr == 0
    ensures f.cltbl == [] ==>
            LimitsOf(f) == Limits(f.canRead, f.canWrite, Capacity(f.fs.geo, f.fs.Fat(), f.chain), false)
    ensures f.objsize <= Capacity(f.fs.geo, f.fs.Fat(), f.chain)
    ensures Abs(f) == ByteArray(f.Bytes(), f.fptr)
  {
    hide *;
    AbsIs(f);
    WithinCapacity(f);
    AllottedIs(f.fs.geo, f.fs.Fat(), f.chain, false);
    UnfoldValid(f);
    Unfold(f);
  }

  /** Inside a sector the buffer has the byte before the position. */
  lemma BufferHas(f: File)
    requires f.Valid() && f.fptr % 512 != 0
    ensures f.Base() && f.buf.Length == 512 && 0 < f.fptr <= |f.Bytes()| && f.sect != 0
    ensures f.buf[..][f.fptr % 512 - 1] == f.Bytes()[f.fptr - 1]
  {
    hide *;
    UnfoldValid(f);
    Unfold(f);
    AbsIs(f);
    InSectFacts(f.fs.geo, f.chain, f.fptr, f.sect);
    LbaInDataArea(f.fs.geo, |f.fs.disk.sectors|, f.chain, f.fptr / 512);
    LbaIsOwn(f.fs.geo, f.chain, f.fptr / 512);
    TrustHere(f.fs.geo, f.chain, f.trust, f.objsize, f.fptr);
    BufferShows(f.fs.geo, f.fs.disk.sectors, f.fs.home, f.chain, f.trust, f.sect, f.dirty, f.buf[..]);
    BufferIsContent(f.fs.geo, f.Eff(), f.chain, f.objsize, f.fptr - 1, 1, f.buf[..]);
    LastByte(f.buf[..], f.Bytes(), f.fptr);
  }

  lemma LastByte(buf: seq<byte>, bytes: seq<byte>, p: nat)
    requires |buf| == 512 && 0 < p <= |bytes| && p % 512 != 0
    requires buf[(p - 1) % 512..(p - 1) % 512 + 1] == bytes[p - 1..p]
    ensures buf[p % 512 - 1] == bytes[p - 1]
  {
    assert (p - 1) % 512 == p % 512 - 1;
    assert buf[(p - 1) % 512] == buf[(p - 1) % 512..(p - 1) % 512 + 1][0] == bytes[p - 1..p][0];
  }

  /** h is written and cut to nothing again. Its buffer stays on the sector, which is free now. */
  method CutAway(h: File, f: File)
    requires h.cltbl == []
    requires f.Valid() && h.Valid() && Apart(h, f) && h.fs.geo == TINY && h.canWrite
    requires h.objsize == 0 && h.fptr == 0 && h.fs.Valid() && |h.fs.Fat()| >= 2 && Room(h.fs.Fat(), h.chain) == 2
    modifies h`fptr, h`objsize, h`clust, h`sclust, h`chain, h`dirty, h`sect, h`modified, h`stale, h`trust, h.buf
    modifies h.fs`winsect, h.fs`wflag, h.fs.win, h.fs.disk, h.fs`lastClst, h.fs`freeClst, h.fs`fsiFlag, f`trust
    ensures f.Valid() && h.Valid() && Apart(h, f) && Abs(f) == old(Abs(f))
    ensures |h.fs.disk.sectors| == old(|h.fs.disk.sectors|)
    ensures h.objsize == 0 && h.fptr == 0 && h.chain == [] && !h.dirty
    ensures h.sect != 0 && h.buf.Length == 512 && h.buf[..][1] == 0x41
    ensures h.fs.Valid() && |h.fs.Fat()| >= 2 && Room(h.fs.Fat(), h.chain) == 2
  {
    hide *;
    UnfoldValid(h);
    StartOf(h, []);
    TinyCapacity(h.fs.Fat(), h.chain);
    ghost var l, a0, m := LimitsOf(h), Abs(h), MomentOf(h);
    var d := [0x41, 0x41];
    MaxWrite(d);
    NotSeek(TINY, m, OpWrite(d));
    var o := PerformBeside(h, f, OpWrite(d));
    StartOf(h, []);
    WriteStep(l, a0, d, o, Abs(h));
    BufferHas(h);
    ToStart(h, f);
    Cut(h, f);
  }

  lemma MaxWrite(d: seq<byte>)
    requires |d| <= 1024
    ensures Callable(OpWrite(d)) && Allowed(false, OpWrite(d))
  {
  }

  lemma MaxSeek(ofs: nat)
    requires ofs <= 1024
    ensures Callable(OpSeek(ofs)) && Callable(OpTruncate)
    ensures Allowed(false, OpSeek(ofs)) && Allowed(false, OpTruncate)
  {
  }

  /** Back to the start: only the position changes, and the buffer stays. */
  method ToStart(h: File, f: File)
    requires h.cltbl == []
    requires f.Valid() && h.Valid() && Apart(h, f) && h.fs.Valid() && |h.fs.Fat()| >= 2
    modifies h`fptr, h`objsize, h`clust, h`sclust, h`chain, h`dirty, h`sect, h`modified, h`stale, h`trust, h.buf
    modifies h.fs`winsect, h.fs`wflag, h.fs.win, h.fs.disk, h.fs`lastClst, h.fs`freeClst, h.fs`fsiFlag, f`trust
    ensures f.Valid() && h.Valid() && Apart(h, f) && Abs(f) == old(Abs(f))
    ensures |h.fs.disk.sectors| == old(|h.fs.disk.sectors|)
    ensures h.fptr == 0 && h.Base() && h.Bytes() == old(h.Bytes()) && h.objsize == old(h.objsize)
    ensures h.sect == old(h.sect) && h.buf[..] == old(h.buf[..])
    ensures h.fs.Valid() && |h.fs.Fat()| >= 2 && Room(h.fs.Fat(), h.chain) == old(Room(h.fs.Fat(), h.chain))
  {
    hide *;
    UnfoldValid(h);
    StartOf(h, h.Bytes());
    MaxSeek(0);
    ghost var l, a0, bytes, sect0 := LimitsOf(h), Abs(h), h.Bytes(), h.sect;
    if OpCaught(h.fs.geo, MomentOf(h), OpSeek(0)) { OpCaughtMeans(h, OpSeek(0)); }
    var o := PerformBeside(h, f, OpSeek(0));
    SeekInside(l, a0, 0, o, Abs(h));
    StartOf(h, bytes);
    NotMovedIs(h.fs.geo, h.chain, h.fptr, sect0);
    LeavesBufferIs(h, OpSeek(0), sect0);
  }

  /** Cut to nothing at the start: the bytes are on the drive still, and the buffer stays. */
  method Cut(h: File, f: File)
    requires h.cltbl == []
    requires f.Valid() && h.Valid() && Apart(h, f) && h.fs.Valid() && |h.fs.Fat()| >= 2
    requires h.canWrite && h.fptr == 0 && h.objsize > 0
    modifies h`fptr, h`objsize, h`clust, h`sclust, h`chain, h`dirty, h`sect, h`modified, h`stale, h`trust, h.buf
    modifies h.fs`winsect, h.fs`wflag, h.fs.win, h.fs.disk, h.fs`lastClst, h.fs`freeClst, h.fs`fsiFlag, f`trust
    ensures f.Valid() && h.Valid() && Apart(h, f) && Abs(f) == old(Abs(f))
    ensures |h.fs.disk.sectors| == old(|h.fs.disk.sectors|)
    ensures h.fptr == 0 && h.objsize == 0 && h.chain == [] && !h.dirty
    ensures h.fs.geo.Valid(|h.fs.disk.sectors|)
    ensures Content(h.fs.geo, h.fs.disk.sectors, old(h.chain), old(h.objsize)) == old(h.Bytes())
    ensures h.sect == old(h.sect) && h.buf[..] == old(h.buf[..])
    ensures h.fs.Valid() && |h.fs.Fat()| >= 2 && Room(h.fs.Fat(), h.chain) == old(Room(h.fs.Fat(), h.chain))
  {
    hide *;
    UnfoldValid(h);
    StartOf(h, h.Bytes());
    MaxSeek(0);
    ghost var l, a0, sect0, chain0 := LimitsOf(h), Abs(h), h.sect, h.chain;
    NotSeek(h.fs.geo, MomentOf(h), OpTruncate);
    var o := PerformBeside(h, f, OpTruncate);
    CutStep(l, a0, o, Abs(h));
    StartOf(h, []);
    LeavesBufferIs(h, OpTruncate, sect0);
    NeededIs(h.fs.geo, 0);
    ShorterIs(chain0, 0);
  }

  /** A file of 1024 bytes has both clusters. */
  lemma BothClusters(f: File)
    requires f.Held() && f.fs.geo == TINY && f.fs.Valid() && |f.fs.Fat()| >= 2 && Room(f.fs.Fat(), f.chain) == 2
    requires f.objsize == 1024
    ensures |f.chain| == 2 && OwnClusters(TINY, f.chain) && Covers(TINY, f.chain, 1024) && TINY.csize > 0
    ensures f.fs.geo.Valid(|f.fs.disk.sectors|)
  {
    hide *;
    Parts(f);
    FileFacts(f);
    CoversNeeded(TINY, f.chain, 1024);
    TwoNeeded();
    RoomIs(f.fs.Fat(), f.chain);
  }

  lemma TwoNeeded()
    ensures TINY.csize == 1 && Needed(TINY, 1024) == 2 && TINY.database == 3
    ensures forall p: nat :: p <= 1024 ==> Needed(TINY, p) <= 2
  {
  }

  /** Every data sector is one of the two. */
  lemma FindSector(chain: seq<nat>, s: nat) returns (j: nat)
    requires OwnClusters(TINY, chain) && |chain| == 2 && 3 <= s < 5
    ensures j < 2 && HasSector(TINY, chain, j) && Lba(TINY, chain, j) == s
  {
    j := if chain[0] == s - 1 then 0 else 1;
    assert TINY.IsCluster(chain[0]) && TINY.IsCluster(chain[1]) && chain[0] != chain[1];
  }

  /** What is on the drive under a file of 1024 equal bytes. */
  lemma DriveHolds(d: Image, chain: seq<nat>, s: nat)
    requires |d| == 5 && TINY.Valid(|d|) && OwnClusters(TINY, chain) && |chain| == 2 && Covers(TINY, chain, 1024)
    requires Content(TINY, d, chain, 1024) == Message() && 3 <= s < 5
    ensures d[s][1] == 0x42
  {
    hide *;
    var j := FindSector(chain, s);
    MessageAt(512 * j + 1);
    TinyUnits();
    ContentAt(TINY, d, chain, 1024, 512 * j + 1);
    SectorByte(j);
  }

  lemma TinyUnits()
    ensures IsClusterSize(TINY.csize)
  {
  }

  lemma SectorByte(j: nat)
    ensures (512 * j + 1) / 512 == j && (512 * j + 1) % 512 == 1
  {
  }

  function Message(): (d: seq<byte>) { seq(1024, _ => 0x42) }

  lemma MessageAt(i: nat)
    requires i < 1024
    ensures |Message()| == 1024 && Message()[i] == 0x42
  {
  }

  /** f takes both clusters, writes them and gives them back. */
  method Overwrite(f: File, h: File)
    requires f.cltbl == []
    requires f.Valid() && h.Valid() && Apart(f, h) && f.fs.geo == TINY && f.canWrite && |f.fs.disk.sectors| == 5
    requires f.objsize == 0 && f.fptr == 0 && f.fs.Valid() && |f.fs.Fat()| >= 2 && Room(f.fs.Fat(), f.chain) == 2
    modifies f`fptr, f`objsize, f`clust, f`sclust, f`chain, f`dirty, f`sect, f`modified, f`stale, f`trust, f.buf
    modifies f.fs`winsect, f.fs`wflag, f.fs.win, f.fs.disk, f.fs`lastClst, f.fs`freeClst, f.fs`fsiFlag, h`trust
    ensures f.Valid() && h.Valid() && Apart(f, h) && Abs(h) == old(Abs(h)) && f.chain == []
    ensures |f.fs.disk.sectors| == 5 && f.fs.disk.sectors[3][1] == f.fs.disk.sectors[4][1] == 0x42
    ensures f.fs.Valid() && |f.fs.Fat()| >= 2 && Room(f.fs.Fat(), f.chain) == 2
  {
    hide *;
    UnfoldValid(f);
    StartOf(f, []);
    TinyCapacity(f.fs.Fat(), f.chain);
    ghost var l, a0, m := LimitsOf(f), Abs(f), MomentOf(f);
    var d := Message();
    MessageAt(0);
    MaxWrite(d);
    NotSeek(TINY, m, OpWrite(d));
    var o := PerformBeside(f, h, OpWrite(d));
    StartOf(f, []);
    WriteStep(l, a0, d, o, Abs(f));
    ToStart(f, h);
    UnfoldValid(f);
    BothClusters(f);
    ghost var chain := f.chain;
    Cut(f, h);
    DriveHolds(f.fs.disk.sectors, chain, 3);
    DriveHolds(f.fs.disk.sectors, chain, 4);
  }

  // ----- the seek past the end -----

  lemma SameRoom(g: Geo, f: Table, i: Image, c: seq<nat>, f': Table, i': Image, c': seq<nat>)
    requires OnlyThisFile(g, f, i, c, f', i', c')
    ensures |f| >= 2 && |f'| == |f| && Room(f', c') == Room(f, c)
  {
  }

  lemma WrongBuffer(d: Image, chain: seq<nat>, sect: nat, buf: seq<byte>)
    requires |d| == 5 && OwnClusters(TINY, chain) && |chain| == 2 && 3 <= sect < 5 && |buf| == 512
    requires buf[1] == 0x41 && d[sect][1] == 0x42
    ensures !ShowsDrive(TINY, d, chain, 1024, sect, false, buf)
  {
    var j := FindSector(chain, sect);
    CarriesIs(TINY, chain, 1024, j);
    hide Carries, OwnClusters;
  }

  /** h wants 1024 bytes and gets both clusters. Its buffer is on one of them still, and is not what is
      on the drive. */
  method Regain(h: File)
    requires h.cltbl == []
    requires h.Valid() && h.fs.geo == TINY && h.canWrite && |h.fs.disk.sectors| == 5
    requires h.objsize == 0 && !h.dirty && h.sect != 0 && h.buf.Length == 512 && h.buf[..][1] == 0x41
    requires h.fs.disk.sectors[3][1] == h.fs.disk.sectors[4][1] == 0x42
    requires h.fs.Valid() && |h.fs.Fat()| >= 2 && Room(h.fs.Fat(), h.chain) == 2
    modifies h`fptr, h`objsize, h`clust, h`sclust, h`chain, h`dirty, h`sect, h`modified, h`trust, h.buf
    modifies h.fs`winsect, h.fs`wflag, h.fs.win, h.fs.disk, h.fs`lastClst, h.fs`freeClst, h.fs`fsiFlag
    ensures h.Held() && !h.Valid() && h.objsize == 1024 && !h.dirty && |h.chain| == 2
    ensures 3 <= h.sect < 5 == |h.fs.disk.sectors| && h.buf[..][1] == 0x41 && h.fs.disk.sectors[h.sect][1] == 0x42
  {
    hide *;
    UnfoldValid(h);
    StartOf(h, []);
    BufferRanges(h);
    TinyArea(h.sect);
    TinyCapacity(h.fs.Fat(), h.chain);
    ghost var f0, i0, c0, sect0, dirty0, buf0 := h.fs.Fat(), h.fs.Img(), h.chain, h.sect, h.dirty, h.buf[..];
    TargetIs(true, 0, 1024);
    LeastIs(1024, 1024);
    MaxSeek(1024);
    CallableSeek(1024);
    var res := Seek(h, 1024);
    LeastIs(1024, 0);
    StartOf(h, []);
    NotMovedIs(TINY, h.chain, 1024, sect0);
    StaysIs(h, sect0, dirty0, buf0);
    SameRoom(TINY, f0, i0, c0, h.fs.Fat(), h.fs.Img(), h.chain);
    BothClusters(h);
    WrongBuffer(h.fs.disk.sectors, h.chain, h.sect, h.buf[..]);
  }

  lemma TinyArea(s: nat)
    ensures TINY.FatEnd() == 2 && TINY.database == 3
  {
  }

  // ----- reading it -----

  lemma CaughtNeeds(g: Geo, d: Image, f: Table, chain: seq<nat>, last: nat, size: nat, sect: nat, dirty: bool,
                    buf: seq<byte>, target: nat)
    requires |f| >= 3 && g.csize > 0 && Caught(g, d, f, chain, last, size, sect, dirty, buf, target)
    ensures NotMoved(g, Asked(g, f, chain, last, Needed(g, target)), Least(target, Capacity(g, f, chain)), sect)
  {
    hide Asked, NotMoved, Needed, Least, Capacity, Carries;
  }

  /** A seek within the size: only the position and the buffer change. */
  method SeekIn(h: File, p: nat)
    requires h.cltbl == []
    requires h.Held() && h.fs.geo == TINY && h.objsize == 1024 && |h.chain| == 2 && p <= 1024
    requires h.Base() && |h.fs.disk.sectors| == 5
    modifies h`fptr, h`objsize, h`clust, h`sclust, h`chain, h`dirty, h`sect, h`modified, h`trust, h.buf
    modifies h.fs`winsect, h.fs`wflag, h.fs.win, h.fs.disk, h.fs`lastClst, h.fs`freeClst, h.fs`fsiFlag
    ensures h.Held() && h.Base() && h.fptr == p && h.objsize == 1024 && h.chain == old(h.chain)
    ensures h.Bytes() == old(h.Bytes()) && |h.fs.disk.sectors| == 5
    ensures NotMoved(TINY, h.chain, p, old(h.sect)) ==>
            h.sect == old(h.sect) && h.dirty == old(h.dirty) && h.buf[..] == old(h.buf[..])
    ensures !NotMoved(TINY, h.chain, p, old(h.sect)) ==> h.Valid()
    ensures old(h.Valid()) ==> h.Valid()
  {
    hide *;
    StartOf(h, []);
    VolumeFacts(h.fs);
    ghost var f0, i0, c0, last0, d0 := h.fs.Fat(), h.fs.Img(), h.chain, h.fs.lastClst, h.fs.disk.sectors;
    ghost var sect0, dirty0, buf0, bytes, was := h.sect, h.dirty, h.buf[..], h.Bytes(), h.Valid();
    TargetIs(h.canWrite, 1024, p);
    LeastIs(p, Capacity(TINY, f0, c0));
    LeastIs(p, 1024);
    TwoNeeded();
    AskedEnough(TINY, f0, c0, last0, Needed(TINY, p));
    MaxSeek(p);
    CallableSeek(p);
    if was { InsideNeverCaught(h, p); }
    ghost var caught := Caught(TINY, d0, f0, c0, last0, 1024, sect0, dirty0, buf0, p);
    if caught { CaughtNeeds(TINY, d0, f0, c0, last0, 1024, sect0, dirty0, buf0, p); }
    var res := Seek(h, p);
    StartOf(h, []);
    VolumeFacts(h.fs);
    StaysIs(h, sect0, dirty0, buf0);
    SameImageSize(TINY, f0, i0, c0, h.fs.Fat(), h.fs.Img(), h.chain);
    WholeSlice(h.Bytes());
  }

  lemma SameImageSize(g: Geo, f: Table, i: Image, c: seq<nat>, f': Table, i': Image, c': seq<nat>)
    requires OnlyThisFile(g, f, i, c, f', i', c')
    ensures |i'| == |i|
  {
  }

  /** A seek of a valid file within its size catches nothing. */
  lemma InsideNeverCaught(f: File, ofs: nat)
    requires f.Valid() && f.fs.Valid() && ofs <= f.objsize && |f.fs.Fat()| >= 3 && f.fs.geo.csize > 0 && f.cltbl == []
    ensures !Caught(f.fs.geo, f.fs.disk.sectors, f.fs.Fat(), f.chain, f.fs.lastClst, f.objsize, f.sect, f.dirty,
                    f.buf[..], TargetOf(f.canWrite, f.objsize, ofs))
  {
    hide *;
    MomentIs(f);
    OpCaughtIs(f.fs.geo, MomentOf(f), OpSeek(ofs));
    if OpCaught(f.fs.geo, MomentOf(f), OpSeek(ofs)) { OpCaughtMeans(f, OpSeek(ofs)); }
  }

  /** f_read of one byte inside a sector. */
  method ReadOne(h: File) returns (data: seq<byte>)
    requires h.Held() && h.Base() && h.fs.geo == TINY && h.canRead && h.fptr < h.objsize == 1024 && h.fptr % 512 == 1
    requires |h.fs.disk.sectors| == 5 && h.buf.Length == 512
    modifies h`fptr, h`clust, h`dirty, h`sect, h.buf, h.fs`winsect, h.fs`wflag, h.fs.win, h.fs.disk
    ensures h.Held() && h.Base() && h.Bytes() == old(h.Bytes()) && |h.Bytes()| == 1024 && |h.fs.disk.sectors| == 5
    ensures h.sect == old(h.sect) && data == [old(h.buf[..])[1]]
    ensures old(h.Valid()) ==> h.Valid() && data == [h.Bytes()[old(h.fptr)]]
  {
    hide *;
    StartOf(h, []);
    VolumeFacts(h.fs);
    ghost var p, sect0, dirty0, buf0, i0 := h.fptr, h.sect, h.dirty, h.buf[..], h.fs.Img();
    InsideOneIs(p, 1, 1024, buf0);
    OneByte(p, buf0);
    var res;
    res, data := Read(h, 1);
    StaysIs(h, sect0, dirty0, buf0);
    StartOf(h, []);
    VolumeFacts(h.fs);
    SameSize(TINY, i0, h.fs.Img(), h.chain);
    OneOf(h.Bytes(), p);
  }

  lemma OneByte(p: nat, buf: seq<byte>)
    requires |buf| == 512 && p % 512 == 1
    ensures FromBuffer(buf, p, 1) == [buf[1]]
  {
  }

  lemma OneOf(bytes: seq<byte>, p: nat)
    requires p < |bytes|
    ensures bytes[p..p + 1] == [bytes[p]]
  {
  }

  lemma SameSize(g: Geo, i: Image, i': Image, c: seq<nat>)
    requires KeepsOthers(g, i, i', c)
    ensures |i'| == |i|
  {
  }

  /** The sector the buffer stands on is sector j of the file, and the drive has other bytes there. */
  lemma WhereItStands(h: File, j: nat)
    requires h.Held() && h.fs.geo == TINY && h.objsize == 1024 && !h.dirty && |h.chain| == 2
    requires 3 <= h.sect < 5 == |h.fs.disk.sectors| && h.fs.disk.sectors[h.sect][1] == 0x42
    requires j == if TINY.ClstSect(h.sclust) == h.sect then 0 else 1
    ensures j < 2 && NotMoved(TINY, h.chain, 512 * j + 1, h.sect)
    ensures !NotMoved(TINY, h.chain, 512 * (1 - j) + 1, h.sect)
    ensures h.Base() && |h.Bytes()| == 1024 && h.Bytes()[512 * j + 1] == 0x42
  {
    hide *;
    Parts(h);
    StartOf(h, []);
    HeadOf(h.fs.Fat(), h.sclust, h.chain, h.objsize);
    StandsAt(h.chain, h.sect, j);
    CleanEff(h.fs.disk.sectors, h.sect, h.buf[..]);
    EffOfIs(h.fs.disk.sectors, h.sect, h.dirty, h.buf[..]);
    TinyUnits();
    SectorByte(j);
    SectorByte(1 - j);
    ContentAt(TINY, h.fs.disk.sectors, h.chain, 1024, 512 * j + 1);
    NotMovedIs(TINY, h.chain, 512 * j + 1, h.sect);
    NotMovedIs(TINY, h.chain, 512 * (1 - j) + 1, h.sect);
  }

  lemma HeadOf(t: Table, sclust: nat, chain: seq<nat>, size: nat)
    requires ChainOk(TINY, t, sclust, chain, size) && chain != []
    ensures chain[0] == sclust
  {
  }

  lemma StandsAt(chain: seq<nat>, sect: nat, j: nat)
    requires OwnClusters(TINY, chain) && |chain| == 2 && 3 <= sect < 5
    requires j == if TINY.ClstSect(chain[0]) == sect then 0 else 1
    ensures HasSector(TINY, chain, j) && Lba(TINY, chain, j) == sect
    ensures HasSector(TINY, chain, 1 - j) && Lba(TINY, chain, 1 - j) != sect
  {
    assert TINY.IsCluster(chain[0]) && TINY.IsCluster(chain[1]) && chain[0] != chain[1];
  }

  /** The same byte is read twice, with no write to h between: first the buffer's, then the drive's. */
  method ReadTwice(h: File) returns (first: seq<byte>, again: seq<byte>)
    requires h.cltbl == []
    requires h.Held() && h.fs.geo == TINY && h.canRead && h.objsize == 1024 && !h.dirty && |h.chain| == 2
    requires 3 <= h.sect < 5 == |h.fs.disk.sectors| && h.buf.Length == 512 && h.buf[..][1] == 0x41
    requires h.fs.disk.sectors[h.sect][1] == 0x42
    modifies h`fptr, h`objsize, h`clust, h`sclust, h`chain, h`dirty, h`sect, h`modified, h`trust, h.buf
    modifies h.fs`winsect, h.fs`wflag, h.fs.win, h.fs.disk, h.fs`lastClst, h.fs`freeClst, h.fs`fsiFlag
    ensures h.Valid() && first == [0x41] && again == [0x42]
  {
    hide *;
    StartOf(h, []);
    var j := if h.fs.geo.ClstSect(h.sclust) == h.sect then 0 else 1;
    WhereItStands(h, j);
    SectorByte(j);
    SectorByte(1 - j);
    SeekIn(h, 512 * j + 1);
    first := ReadOne(h);
    SeekIn(h, 512 * (1 - j) + 1);
    SeekIn(h, 512 * j + 1);
    again := ReadOne(h);
  }

  /** The whole run. */
  method LostAndFound() returns (first: seq<byte>, again: seq<byte>)
    ensures first == [0x41] && again == [0x42]
  {
    hide *;
    var f, h := TwoFiles();
    ApartBoth(f, h);
    ApartFrom(f, h);
    EmptyRoom(f.fs.Fat(), f.chain);
    CutAway(h, f);
    ApartBoth(f, h);
    Opened(f);
    Opened(h);
    EmptyRoom(f.fs.Fat(), h.chain);
    Overwrite(f, h);
    Opened(h);
    EmptyRoom(f.fs.Fat(), f.chain);
    Regain(h);
    first, again := ReadTwice(h);
  }

  lemma EmptyRoom(t: Table, chain: seq<nat>)
    requires |t| >= 2 && chain == []
    ensures Room(t, chain) == FreeCount(t)
  {
  }
}
