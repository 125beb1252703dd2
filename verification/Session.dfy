/** Whole runs of file operations: an open file is a byte array with a position and a capacity, and
    the rest of the volume does not notice. */
module Session {
  import opened Bytes
  import opened Chains
  import opened ChainOps
  import opened FileGrow
  import opened FastSeek
  import opened FileLayout
  import opened FileRead
  import opened Files
  import opened FileSeek
  import opened FileTruncate
  import opened FileWrite
  import opened Geometry
  import opened LinkMap
  import opened Results
  import opened Sectors
  import opened Volume

  // ----- the byte array -----

  datatype Op = OpRead(n: nat) | OpWrite(data: seq<byte>) | OpSeek(ofs: nat) | OpTruncate

  datatype Outcome = Outcome(res: FResult, data: seq<byte>, count: nat)

  datatype ByteArray = ByteArray(bytes: seq<byte>, pos: nat)

  /** What the mode of the open file allows, how far the array can grow, and whether a link map is in
      use, with which no seek stretches it. */
  datatype Limits = Limits(canRead: bool, canWrite: bool, capacity: nat, mapped: bool)

  ghost predicate Step(l: Limits, a: ByteArray, op: Op, o: Outcome, b: ByteArray)
    requires a.pos <= |a.bytes|
  {
    match op
    case OpRead(n) =>
      var end := if !l.canRead then a.pos else if a.pos + n <= |a.bytes| then a.pos + n else |a.bytes|;
      && o == Outcome(if l.canRead then FR_OK else FR_DENIED, a.bytes[a.pos..end], end - a.pos)
      && b == ByteArray(a.bytes, end)
    case OpWrite(d) =>
      var n := if !l.canWrite then 0 else if a.pos + |d| <= l.capacity then |d| else l.capacity - a.pos;
      && 0 <= n <= |d|
      && o == Outcome(if l.canWrite then FR_OK else FR_DENIED, [], n)
      && b == ByteArray(Splice(a.bytes, a.pos, d[..n]), a.pos + n)
    case OpSeek(ofs) =>
      var target := if ofs > |a.bytes| && (!l.canWrite || l.mapped) then |a.bytes| else ofs;
      && o == Outcome(FR_OK, [], 0)
      && b.pos == (if target <= l.capacity then target else l.capacity)
      && |b.bytes| == (if b.pos > |a.bytes| then b.pos else |a.bytes|)
      && a.bytes <= b.bytes
    case OpTruncate =>
      && o == Outcome(if l.canWrite then FR_OK else FR_DENIED, [], 0)
      && b == (if l.canWrite then ByteArray(a.bytes[..a.pos], a.pos) else a)
  }

  /** A run: each operation takes one state to the next. */
  ghost predicate Run(l: Limits, ops: seq<Op>, outs: seq<Outcome>, states: seq<ByteArray>) {
    && |states| == |ops| + 1 && |outs| == |ops|
    && forall i :: 0 <= i < |ops| ==>
         states[i].pos <= |states[i].bytes| && Step(l, states[i], ops[i], outs[i], states[i + 1])
  }

  /** Within the file a seek is only a move: the run has no freedom there. */
  lemma SeekInside(l: Limits, a: ByteArray, ofs: nat, o: Outcome, b: ByteArray)
    requires a.pos <= |a.bytes| <= l.capacity && ofs <= |a.bytes| && Step(l, a, OpSeek(ofs), o, b)
    ensures b == ByteArray(a.bytes, ofs)
  {
  }

  /** Operations that stay within the file. */
  predicate Inside(a: ByteArray, op: Op) {
    match op
    case OpRead(n) => true
    case OpWrite(d) => a.pos + |d| <= |a.bytes|
    case OpSeek(ofs) => ofs <= |a.bytes|
    case OpTruncate => false
  }

  /** Within the file a link map makes no difference. */
  lemma SameWithMap(l: Limits, held: nat, a: ByteArray, op: Op, o: Outcome, b: ByteArray)
    requires a.pos <= |a.bytes| <= l.capacity && |a.bytes| <= held && Inside(a, op)
    ensures Step(l, a, op, o, b) <==> Step(Limits(l.canRead, l.canWrite, held, !l.mapped), a, op, o, b)
  {
    match op
    case OpRead(n) =>
    case OpWrite(d) =>
    case OpSeek(ofs) =>
  }

  /** The operation writes to the file or changes its size, which its directory entry does not say yet. */
  ghost predicate Touches(l: Limits, op: Op, a: ByteArray, b: ByteArray) {
    (op.OpWrite? && l.canWrite) || |b.bytes| != |a.bytes|
  }

  lemma TouchesIs(l: Limits, op: Op, a: ByteArray, b: ByteArray)
    ensures Touches(l, op, a, b) <==> (op.OpWrite? && l.canWrite) || |b.bytes| != |a.bytes|
  {
  }

  /** One of the first n operations of a run does. */
  ghost predicate AnyTouches(l: Limits, ops: seq<Op>, states: seq<ByteArray>, n: nat)
    requires n <= |ops| && n < |states|
  {
    exists i :: 0 <= i < n && Touches(l, ops[i], states[i], states[i + 1])
  }

  lemma AnyTouchesMore(l: Limits, ops: seq<Op>, states: seq<ByteArray>, n: nat, b: ByteArray)
    requires n < |ops| && |states| == n + 1
    ensures AnyTouches(l, ops, states + [b], n + 1) <==>
            AnyTouches(l, ops, states, n) || Touches(l, ops[n], states[n], b)
  {
    hide Touches;
    var more := states + [b];
    if AnyTouches(l, ops, states, n) {
      var i :| 0 <= i < n && Touches(l, ops[i], states[i], states[i + 1]);
      assert Touches(l, ops[i], more[i], more[i + 1]);
    }
    if Touches(l, ops[n], states[n], b) {
      assert Touches(l, ops[n], more[n], more[n + 1]);
    }
  }

  lemma NothingTouched(l: Limits, ops: seq<Op>, a: ByteArray)
    ensures !AnyTouches(l, ops, [a], 0)
  {
  }

  /** Otherwise the bytes are the same. */
  lemma Untouched(l: Limits, a: ByteArray, op: Op, o: Outcome, b: ByteArray)
    requires a.pos <= |a.bytes| && Step(l, a, op, o, b) && !Touches(l, op, a, b)
    ensures b.bytes == a.bytes
  {
    match op
    case OpRead(n) =>
    case OpWrite(d) => SpliceNothing(a.bytes, a.pos, d);
    case OpSeek(ofs) =>
    case OpTruncate => WholeSlice(a.bytes);
  }

  // ----- the rest of the volume -----

  /** Sector s is outside the FATs and in no cluster that is the file's or free. */
  ghost predicate Foreign(g: Geo, f: Table, chain: seq<nat>, s: nat) {
    && !(g.fatbase <= s < g.FatEnd())
    && forall c: nat :: InCluster(g, c, s) && c < |f| ==> c !in chain && f[c] != 0
  }

  /** Entries of clusters in use by others, and all foreign sectors, are as they were; what is not
      in the file's chain afterwards is free or unchanged. The clusters free or in the chain stay as many. */
  ghost predicate VolumeKept(g: Geo, f: Table, i: Image, chain: seq<nat>, f': Table, i': Image, chain': seq<nat>) {
    && |f'| == |f| >= 2 && |i'| == |i| && Room(f', chain') == Room(f, chain)
    && (forall c :: 0 <= c < |f| && c !in chain && f[c] != 0 ==> c !in chain' && f'[c] == f[c])
    && (forall c :: 0 <= c < |f| && c !in chain' ==> f'[c] == 0 || (c !in chain && f'[c] == f[c]))
    && (forall s :: 0 <= s < |i| && Foreign(g, f, chain, s) ==> i'[s] == i[s])
  }

  lemma ForeignStays(g: Geo, f: Table, i: Image, chain: seq<nat>, f': Table, i': Image, chain': seq<nat>, s: nat)
    requires VolumeKept(g, f, i, chain, f', i', chain') && Foreign(g, f, chain, s)
    ensures Foreign(g, f', chain', s)
  {
  }

  lemma VolumeKeptRefl(g: Geo, f: Table, i: Image, chain: seq<nat>)
    requires |f| >= 2
    ensures VolumeKept(g, f, i, chain, f, i, chain)
  {
  }

  lemma VolumeKeptTrans(g: Geo, f: Table, i: Image, c: seq<nat>, f1: Table, i1: Image, c1: seq<nat>, f2: Table,
                        i2: Image, c2: seq<nat>)
    requires VolumeKept(g, f, i, c, f1, i1, c1) && VolumeKept(g, f1, i1, c1, f2, i2, c2)
    ensures VolumeKept(g, f, i, c, f2, i2, c2)
  {
    forall s | 0 <= s < |i| && Foreign(g, f, c, s)
      ensures i2[s] == i[s]
    {
      ForeignStays(g, f, i, c, f1, i1, c1, s);
    }
  }

  /** A foreign sector is not one of a chain whose clusters are the file's or were free. */
  lemma ForeignNotOwned(g: Geo, f: Table, chain: seq<nat>, wider: seq<nat>, s: nat)
    requires g.csize > 0 && |f| == g.nFatent && OwnClusters(g, wider) && Foreign(g, f, chain, s)
    requires forall k :: 0 <= k < |wider| ==> wider[k] in chain || f[wider[k]] == 0
    ensures !Owned(g, wider, s)
  {
    if Owned(g, wider, s) {
      var k := OwnerOf(g, wider, s);
    }
  }

  lemma KeptByOthers(g: Geo, f: Table, i: Image, chain: seq<nat>, i': Image, wider: seq<nat>)
    requires g.csize > 0 && |f| == g.nFatent && OwnClusters(g, wider) && KeepsOthers(g, i, i', wider)
    requires forall k :: 0 <= k < |wider| ==> wider[k] in chain || f[wider[k]] == 0
    ensures |i'| == |i| && forall s :: 0 <= s < |i| && Foreign(g, f, chain, s) ==> i'[s] == i[s]
  {
    forall s | 0 <= s < |i| && Foreign(g, f, chain, s)
      ensures i'[s] == i[s]
    {
      ForeignNotOwned(g, f, chain, wider, s);
    }
  }

  lemma GrowthKeepsVolume(g: Geo, f: Table, i: Image, chain: seq<nat>, f': Table, i': Image, chain': seq<nat>)
    requires g.csize > 0 && |f| == g.nFatent && OwnClusters(g, chain')
    requires OnlyThisFile(g, f, i, chain, f', i', chain')
    ensures VolumeKept(g, f, i, chain, f', i', chain')
  {
    forall k | 0 <= k < |chain'|
      ensures chain'[k] in chain || (chain'[k] < |f| && f[chain'[k]] == 0)
    {
      if k < |chain| { assert chain'[k] == chain[k]; }
    }
    KeptByOthers(g, f, i, chain, i', chain');
  }

  lemma ShrinkKeepsVolume(g: Geo, f: Table, i: Image, chain: seq<nat>, f': Table, i': Image, chain': seq<nat>)
    requires g.csize > 0 && |f| == g.nFatent && OwnClusters(g, chain)
    requires OnlyShrinks(g, f, i, chain, f', i', chain')
    ensures VolumeKept(g, f, i, chain, f', i', chain')
  {
    KeptByOthers(g, f, i, chain, i', chain);
    assert forall c :: c in chain' ==> c in chain;
  }

  lemma ReadKeepsVolume(g: Geo, f: Table, i: Image, chain: seq<nat>, i': Image)
    requires g.csize > 0 && |f| == g.nFatent >= 2 && OwnClusters(g, chain) && KeepsOthers(g, i, i', chain)
    ensures VolumeKept(g, f, i, chain, f, i', chain)
  {
    KeptByOthers(g, f, i, chain, i', chain);
  }

  /** Any other file or directory on the volume keeps its clusters and its bytes. */
  lemma OtherFileKept(g: Geo, f: Table, i: Image, chain: seq<nat>, f': Table, i': Image, chain': seq<nat>,
                      other: seq<nat>, size: nat)
    requires g.Valid(|i|) && |f| == g.nFatent && VolumeKept(g, f, i, chain, f', i', chain')
    requires IsChain(f, other) && OwnClusters(g, other) && Covers(g, other, size)
    requires forall k :: 0 <= k < |other| ==> other[k] !in chain
    ensures IsChain(f', other)
    ensures Content(g, i', other, size) == Content(g, i, other, size)
  {
    ChainNotFree(f, other);
    ChainKept(f, f', other);
    forall j: nat | HasSector(g, other, j) && Lba(g, other, j) < |i|
      ensures i'[Lba(g, other, j)] == i[Lba(g, other, j)]
    {
      OtherSectorForeign(g, |i|, f, chain, other, j);
    }
    SameContent(g, i, i', other, size);
  }

  lemma OtherSectorForeign(g: Geo, nsect: nat, f: Table, chain: seq<nat>, other: seq<nat>, j: nat)
    requires g.Valid(nsect) && |f| == g.nFatent && OwnClusters(g, other) && HasSector(g, other, j)
    requires forall k :: 0 <= k < |other| ==> other[k] !in chain && f[other[k]] != 0
    ensures Foreign(g, f, chain, Lba(g, other, j))
  {
    LbaInDataArea(g, nsect, other, j);
    var c, k := other[j / g.csize], j % g.csize;
    forall d: nat | InCluster(g, d, Lba(g, other, j))
      ensures d == c
    {
      SectorIsInOneCluster(g, d, Lba(g, other, j) - g.ClstSect(d), c, k);
    }
  }

  // ----- opening -----

  lemma FreshParts(g: Geo, d: Image, home: nat, chain: seq<nat>, clust: nat, buf: seq<byte>, size: nat)
    requires |buf| == 512 && !Owned(g, chain, home)
    ensures BufferOk(g, d, home, chain, Whole, 0, false, buf) && EffOf(d, 0, false, buf) == d
    ensures AtPrev(g, chain, 0, clust) && InSect(g, chain, 0, 0) && Shown(g, chain, 0, false)
    ensures Capped(Whole, size) && Resized(Whole, size) == Whole
  {
  }

  /** A sound volume, watched. */
  ghost predicate Open(v: FatFs)
    reads v`winsect, v`wflag, v`freeClst, v`home, v`mark, v.disk, v.win
  {
    v.Valid() && Sound(v.Fat(), v.freeClst) && Watched(v.geo, v.mark, v.home, v.Now())
  }

  lemma OpenIs(v: FatFs)
    ensures Open(v) <==>
      v.Valid() && Sound(v.Fat(), v.freeClst) && v.geo.Valid(|v.Now().img|) && Watched(v.geo, v.mark, v.home, v.Now())
  {
  }

  /** The watch can begin on any sound volume whose window is on no free cluster, if on FAT16 and FAT32
      the drive itself shows a well-formed FAT too. */
  ghost method Watch(v: FatFs)
    requires v.Valid() && Sound(v.Fat(), v.freeClst) && InUse(v.geo, v.Fat(), v.winsect)
    requires v.geo.fsType != FAT12 ==> WellFormed(FatView(v.geo, v.disk.sectors))
    modifies v`home, v`mark
    ensures Open(v)
  {
    hide *;
    LogEnds(v);
    VolumeFacts(v);
    VolumeFacts(v);
    WatchStart(v.geo, v.Now());
    v.home := v.winsect;
    v.mark := |v.disk.log| - 1;
    OpenIs(v);
  }

  lemma WatchStart(g: Geo, s: Snap)
    requires g.Valid(|s.img|) && g.Valid(|s.sectors|) && s.log != [] && s.log[|s.log| - 1] == s.sectors
    requires InUse(g, FatView(g, s.img), s.winsect)
    requires g.fsType != FAT12 ==> WellFormed(FatView(g, s.sectors))
    ensures Watched(g, |s.log| - 1, s.winsect, s)
  {
    hide FatView, WellFormed, InUse;
  }

  /** So it is after mounting: the window shows the boot sector or FSINFO, or nothing. */
  lemma OutsideData(g: Geo, nsect: nat, f: Table, s: nat)
    requires g.Valid(nsect) && !(g.database <= s < nsect)
    ensures InUse(g, f, s)
  {
    forall c: nat
      ensures !InCluster(g, c, s)
    {
      if g.IsCluster(c) { ClusterInDataArea(g, nsect, c); }
    }
  }

  /** The end of f_open: an object for a file whose clusters form a chain of a sound volume is
      valid, has the bytes on the drive, and stands at the file's start, or at its end to append. */
  method OpenFile(v: FatFs, read: bool, write: bool, append: bool, start: nat, size: nat, ghost clusters: seq<nat>)
    returns (f: File)
    requires Open(v) && ChainOk(v.geo, v.Fat(), start, clusters, size) && !Owned(v.geo, clusters, v.home)
    modifies v`winsect, v`wflag, v.win, v.disk
    ensures fresh(f) && fresh(f.buf) && f.fs == v && f.canRead == read && f.canWrite == write && f.chain == clusters
    ensures !f.dirty && f.sclust == start && !f.stale && f.trust == Whole && f.cltbl == []
    ensures v.Valid() && v.Img() == old(v.Img())
    ensures f.Valid() && Abs(f) ==
            ByteArray(Content(v.geo, old(v.disk.sectors), clusters, size), if append then size else 0)
  {
    hide *;
    f := NewFile(v, read, write, start, size, clusters);
    if append {
      var res := SeekEnd(f);
      UnfoldValid(f);
      AbsIs(f);
    }
  }

  method NewFile(v: FatFs, read: bool, write: bool, start: nat, size: nat, ghost clusters: seq<nat>) returns (f: File)
    requires Open(v) && ChainOk(v.geo, v.Fat(), start, clusters, size) && !Owned(v.geo, clusters, v.home)
    ensures fresh(f) && fresh(f.buf) && f.fs == v && f.canRead == read && f.canWrite == write && f.chain == clusters
    ensures f.sect == 0 && !f.dirty && f.sclust == start && !f.stale && f.trust == Whole && f.cltbl == [] && f.fptr == 0
            && f.objsize == size
    ensures v.Valid() && f.Valid() && Abs(f) == ByteArray(Content(v.geo, v.disk.sectors, clusters, size), 0)
    ensures f.Bytes() == Content(v.geo, v.disk.sectors, clusters, size)
  {
    hide *;
    OpenIs(v);
    f := new File(v, read, write, start, size, clusters);
    FreshParts(v.geo, v.disk.sectors, v.home, clusters, f.clust, f.buf[..], size);
    Unfold(f);
    MapOkIs(f.cltbl, f.chain);
    UnfoldValid(f);
    AbsIs(f);
  }

  // ----- runs -----

  /** The abstract state of an open file. */
  ghost function Abs(f: File): (a: ByteArray)
    requires f.Base()
    reads f`sclust, f`objsize, f`chain, f`sect, f`dirty, f`stale, f`trust, f`fptr, f.buf
    reads f.fs`winsect, f.fs`wflag, f.fs`freeClst, f.fs`home, f.fs`mark, f.fs.disk, f.fs.win
  {
    ByteArray(f.Bytes(), f.fptr)
  }

  /** What the object says of its file. */
  datatype Notes = Notes(sclust: nat, chain: seq<nat>, size: nat, dirty: bool)

  ghost function NotesOf(f: File): Notes
    reads f`sclust, f`chain, f`objsize, f`dirty
  {
    Notes(f.sclust, f.chain, f.objsize, f.dirty)
  }

  /** It is the same, and the buffer has not become dirty. */
  ghost predicate SameNotes(was: Notes, now: Notes) {
    now.sclust == was.sclust && now.chain == was.chain && now.size == was.size && (now.dirty ==> was.dirty)
  }

  /** What an operation does to it: it is the same if the file is not touched, and the object has been
      marked as modified exactly if it was or the file is touched. */
  ghost predicate Noted(l: Limits, op: Op, a: ByteArray, b: ByteArray, was: bool, now: bool, before: Notes,
                        after: Notes) {
    && (now <==> was || Touches(l, op, a, b))
    && (!Touches(l, op, a, b) ==> SameNotes(before, after))
  }

  lemma NotedIs(l: Limits, op: Op, a: ByteArray, b: ByteArray, was: bool, now: bool, before: Notes, after: Notes)
    ensures Noted(l, op, a, b, was, now, before, after) <==>
            (now <==> was || Touches(l, op, a, b)) && (!Touches(l, op, a, b) ==> SameNotes(before, after))
  {
  }

  lemma NotesIs(f: File)
    ensures NotesOf(f) == Notes(f.sclust, f.chain, f.objsize, f.dirty)
  {
  }

  lemma SameNotesIs(was: Notes, now: Notes)
    ensures SameNotes(was, now) <==>
            now.sclust == was.sclust && now.chain == was.chain && now.size == was.size && (now.dirty ==> was.dirty)
  {
  }

  lemma SameNotesTrans(a: Notes, b: Notes, c: Notes)
    ensures SameNotes(a, a)
    ensures SameNotes(a, b) && SameNotes(b, c) ==> SameNotes(a, c)
  {
  }

  /** The bytes of the file as they are on the drive. */
  ghost function OnDrive(f: File): (c: seq<byte>)
    requires f.Base()
    reads f`sclust, f`objsize, f`chain, f`sect, f`dirty, f`stale, f`trust, f.buf
    reads f.fs`winsect, f.fs`wflag, f.fs`freeClst, f.fs`home, f.fs`mark, f.fs.disk, f.fs.win
  {
    Content(f.fs.geo, f.fs.disk.sectors, f.chain, f.objsize)
  }

  /** They are the file's if its buffer is not dirty. */
  lemma OnDriveIs(f: File)
    requires f.Base()
    ensures !f.dirty ==> OnDrive(f) == f.Bytes()
  {
    hide *;
    Unfold(f);
    CleanEff(f.fs.disk.sectors, f.sect, f.buf[..]);
    OnDriveUnfold(f);
    EffOfIs(f.fs.disk.sectors, f.sect, f.dirty, f.buf[..]);
  }

  lemma OnDriveUnfold(f: File)
    requires f.Base()
    ensures f.fs.geo.Valid(|f.fs.disk.sectors|) && OwnClusters(f.fs.geo, f.chain)
            && Covers(f.fs.geo, f.chain, f.objsize)
    ensures OnDrive(f) == Content(f.fs.geo, f.fs.disk.sectors, f.chain, f.objsize)
  {
  }

  ghost function LimitsOf(f: File): Limits
    requires f.fs.Valid()
    reads f`chain, f`cltbl, f.fs`winsect, f.fs`wflag, f.fs.disk, f.fs.win
  {
    Limits(f.canRead, f.canWrite, Allotted(f.fs.geo, f.fs.Fat(), f.chain, f.cltbl != []), f.cltbl != [])
  }

  /** Operations with arguments that fit their C types. */
  predicate Callable(op: Op) {
    match op
    case OpRead(n) => n <= MAX_DWORD
    case OpWrite(d) => |d| <= MAX_DWORD
    case OpSeek(ofs) => ofs <= MAX_DWORD
    case OpTruncate => true
  }

  /** With a link map in use the file must not be cut, and the largest offset means something else. */
  predicate Allowed(mapped: bool, op: Op) {
    mapped ==> !op.OpTruncate? && (op.OpSeek? ==> op.ofs != MAX_DWORD)
  }

  lemma AllowedIs(mapped: bool, op: Op)
    ensures Allowed(mapped, op) <==> (mapped ==> !op.OpTruncate? && (op.OpSeek? ==> op.ofs != MAX_DWORD))
    ensures Allowed(false, op)
  {
  }

  lemma AbsIs(f: File)
    requires f.Held()
    ensures f.Base() && f.fs.Valid() && f.fptr <= |f.Bytes()| == f.objsize
    ensures Abs(f) == ByteArray(f.Bytes(), f.fptr)
    ensures LimitsOf(f) ==
            Limits(f.canRead, f.canWrite, Allotted(f.fs.geo, f.fs.Fat(), f.chain, f.cltbl != []), f.cltbl != [])
    ensures f.objsize <= Allotted(f.fs.geo, f.fs.Fat(), f.chain, f.cltbl != [])
    ensures |f.fs.Fat()| == f.fs.geo.nFatent >= 3 && f.fs.geo.csize > 0 && OwnClusters(f.fs.geo, f.chain)
  {
    WithinAllotted(f, f.cltbl != []);
    FileFacts(f);
  }

  lemma StepRead(l: Limits, a: ByteArray, n: nat, data: seq<byte>, end: nat)
    requires a.pos <= |a.bytes|
    requires end == if !l.canRead then a.pos else if a.pos + n <= |a.bytes| then a.pos + n else |a.bytes|
    requires data == a.bytes[a.pos..end]
    ensures Step(l, a, OpRead(n), Outcome(if l.canRead then FR_OK else FR_DENIED, data, |data|),
                 ByteArray(a.bytes, end))
  {
  }

  lemma StepWrite(l: Limits, a: ByteArray, d: seq<byte>, n: nat)
    requires a.pos <= |a.bytes| && n <= |d|
    requires n == if !l.canWrite then 0 else if a.pos + |d| <= l.capacity then |d| else l.capacity - a.pos
    ensures Step(l, a, OpWrite(d), Outcome(if l.canWrite then FR_OK else FR_DENIED, [], n),
                 ByteArray(Splice(a.bytes, a.pos, d[..n]), a.pos + n))
  {
  }

  lemma StepSeek(l: Limits, a: ByteArray, ofs: nat, b: ByteArray)
    requires a.pos <= |a.bytes|
    requires var target := if ofs > |a.bytes| && (!l.canWrite || l.mapped) then |a.bytes| else ofs;
             b.pos == (if target <= l.capacity then target else l.capacity)
    requires |b.bytes| == (if b.pos > |a.bytes| then b.pos else |a.bytes|) && b.bytes[..|a.bytes|] == a.bytes
    ensures Step(l, a, OpSeek(ofs), Outcome(FR_OK, [], 0), b)
  {
  }

  lemma StepTruncate(l: Limits, a: ByteArray)
    requires a.pos <= |a.bytes|
    ensures Step(l, a, OpTruncate, Outcome(if l.canWrite then FR_OK else FR_DENIED, [], 0),
                 if l.canWrite then ByteArray(a.bytes[..a.pos], a.pos) else a)
  {
  }

  /** An open file between operations, with the drive and the FAT it is on. */
  datatype Moment = Moment(drive: Image, table: Table, last: nat, chain: seq<nat>, size: nat, canWrite: bool, sect: nat,
                           dirty: bool, buf: seq<byte>, mapped: bool)

  ghost function MomentOf(f: File): Moment
    requires f.fs.Valid()
    reads f`chain, f`objsize, f`sect, f`dirty, f`cltbl, f.buf, f.fs`winsect, f.fs`wflag, f.fs`lastClst, f.fs.disk,
          f.fs.win
  {
    Moment(f.fs.disk.sectors, f.fs.Fat(), f.fs.lastClst, f.chain, f.objsize, f.canWrite, f.sect, f.dirty, f.buf[..],
           f.cltbl != [])
  }

  lemma MomentIs(f: File)
    requires f.fs.Valid()
    ensures MomentOf(f) ==
            Moment(f.fs.disk.sectors, f.fs.Fat(), f.fs.lastClst, f.chain, f.objsize, f.canWrite, f.sect, f.dirty,
                   f.buf[..], f.cltbl != [])
  {
    hide FatFs.Valid, FatFs.Fat;
  }

  /** The operation is a seek that catches the buffer. */
  ghost predicate OpCaught(g: Geo, m: Moment, op: Op) {
    && op.OpSeek? && !m.mapped && |m.table| >= 3 && g.csize > 0
    && Caught(g, m.drive, m.table, m.chain, m.last, m.size, m.sect, m.dirty, m.buf,
              TargetOf(m.canWrite, m.size, op.ofs))
  }

  lemma OpCaughtIs(g: Geo, m: Moment, op: Op)
    requires |m.table| >= 3 && g.csize > 0
    ensures op.OpSeek? && !m.mapped ==>
            (OpCaught(g, m, op) <==> Caught(g, m.drive, m.table, m.chain, m.last, m.size, m.sect, m.dirty, m.buf,
                                           TargetOf(m.canWrite, m.size, op.ofs)))
    ensures !op.OpSeek? || m.mapped ==> !OpCaught(g, m, op)
  {
    hide Caught;
  }

  /** A valid file is caught only by a seek past its size, with the buffer on a sector that holds none of
      its bytes. */
  lemma OpCaughtMeans(f: File, op: Op)
    requires f.Valid() && f.fs.Valid() && OpCaught(f.fs.geo, MomentOf(f), op)
    ensures op.OpSeek? && op.ofs > f.objsize && f.canWrite && !Carries(f.fs.geo, f.chain, f.objsize, f.sect)
  {
    hide *;
    UnfoldValid(f);
    FileFacts(f);
    ValidShows(f);
    MomentIs(f);
    OpCaughtIs(f.fs.geo, MomentOf(f), op);
    if op.OpSeek? && f.cltbl == [] {
      var target := TargetOf(f.canWrite, f.objsize, op.ofs);
      TargetIs(f.canWrite, f.objsize, op.ofs);
      CaughtMeans(f.fs.geo, f.fs.disk.sectors, f.fs.Fat(), f.sclust, f.chain, f.fs.lastClst, f.objsize, f.sect, f.dirty,
                  f.buf[..], target);
    }
  }

  /** The operation does not need the buffer for another sector: it is a truncation, or a seek to a
      sector boundary or inside the sector the buffer stands on. */
  ghost predicate LeavesBuffer(f: File, op: Op, sect: nat)
    reads f`chain, f`fptr
  {
    op.OpTruncate? || (op.OpSeek? && NotMoved(f.fs.geo, f.chain, f.fptr, sect))
  }

  lemma LeavesBufferIs(f: File, op: Op, sect: nat)
    ensures LeavesBuffer(f, op, sect) <==>
            op.OpTruncate? || (op.OpSeek? && NotMoved(f.fs.geo, f.chain, f.fptr, sect))
  {
    hide NotMoved;
  }

  /** One operation, whichever it is. The buffer is right afterwards if and only if it was not caught. */
  method Perform(f: File, op: Op) returns (o: Outcome)
    requires f.Valid() && Callable(op) && Allowed(f.cltbl != [], op)
    modifies f`fptr, f`objsize, f`clust, f`sclust, f`chain, f`dirty, f`sect, f`modified, f`stale, f`trust, f.buf
    modifies f.fs`winsect, f.fs`wflag, f.fs.win, f.fs.disk, f.fs`lastClst, f.fs`freeClst, f.fs`fsiFlag
    ensures f.Held() && f.Base() && LimitsOf(f) == old(LimitsOf(f))
    ensures f.Valid() <==> !OpCaught(f.fs.geo, old(MomentOf(f)), op)
    ensures f.Valid() <==>
            ShowsDrive(f.fs.geo, f.fs.disk.sectors, f.chain, f.objsize, f.sect, f.dirty, f.buf[..])
    ensures old(f.trust).Whole? ==> f.trust.Whole? && f.Valid()
    ensures LeavesBuffer(f, op, old(f.sect)) ==> f.sect == old(f.sect) && f.buf[..] == old(f.buf[..])
    ensures LeavesBuffer(f, op, old(f.sect)) && op.OpSeek? ==> f.dirty == old(f.dirty)
    ensures op.OpTruncate? && f.canWrite && f.fptr < old(f.objsize) ==>
            !f.dirty && f.fs.geo.Valid(|f.fs.disk.sectors|)
            && Content(f.fs.geo, f.fs.disk.sectors, old(f.chain), old(f.objsize)) == old(f.Bytes())
            && f.fs.geo.csize > 0 && f.chain == Shorter(old(f.chain), Needed(f.fs.geo, f.fptr))
    ensures !op.OpTruncate? ==> f.stale == old(f.stale)
    ensures f.stale && !old(f.stale) ==> f.fptr % 512 == 0
    ensures old(f.stale) ==> f.stale
    ensures Noted(LimitsOf(f), op, old(Abs(f)), Abs(f), old(f.modified), f.modified, old(NotesOf(f)), NotesOf(f))
    ensures Step(LimitsOf(f), old(Abs(f)), op, o, Abs(f))
    ensures VolumeKept(f.fs.geo, old(f.fs.Fat()), old(f.fs.Img()), old(f.chain), f.fs.Fat(), f.fs.Img(), f.chain)
  {
    hide *;
    NotesIs(f);
    UnfoldValid(f);
    AbsIs(f);
    MomentIs(f);
    OpCaughtIs(f.fs.geo, MomentOf(f), op);
    AllowedIs(f.cltbl != [], op);
    ghost var sect0, a0, l0 := f.sect, Abs(f), LimitsOf(f);
    match op {
      case OpRead(n) => o := PerformRead(f, n);
      case OpWrite(d) => CallableWrite(d); o := PerformWrite(f, d);
      case OpSeek(ofs) => CallableSeek(ofs); o := PerformSeek(f, ofs);
      case OpTruncate => o := PerformTruncate(f);
    }
    LeavesBufferIs(f, op, sect0);
    UnfoldValid(f);
    AbsIs(f);
    TouchesIs(l0, op, a0, Abs(f));
    NotedIs(l0, op, a0, Abs(f), old(f.modified), f.modified, old(NotesOf(f)), NotesOf(f));
    NotesIs(f);
    SameNotesIs(old(NotesOf(f)), NotesOf(f));
    if f.Valid() { ValidShows(f); }
    WholeIsResized(f.trust, f.objsize);
  }

  lemma ValidShows(f: File)
    requires f.Valid()
    ensures ShowsDrive(f.fs.geo, f.fs.disk.sectors, f.chain, f.objsize, f.sect, f.dirty, f.buf[..])
  {
    hide *;
    UnfoldValid(f);
    Unfold(f);
    DeservedTrust(f.fs.geo, f.fs.disk.sectors, f.fs.home, f.chain, f.trust, f.objsize, f.sect, f.dirty, f.buf[..]);
  }

  lemma WholeIsResized(trust: Trust, size: nat)
    ensures trust.Whole? ==> trust == Resized(trust, size)
  {
  }

  lemma CallableWrite(d: seq<byte>)
    requires Callable(OpWrite(d))
    ensures |d| <= MAX_DWORD
  {
  }

  lemma CallableSeek(ofs: nat)
    requires Callable(OpSeek(ofs))
    ensures ofs <= MAX_DWORD
  {
  }

  method PerformRead(f: File, n: nat) returns (o: Outcome)
    requires f.Valid()
    modifies f`fptr, f`clust, f`dirty, f`sect, f.buf, f.fs`winsect, f.fs`wflag, f.fs.win, f.fs.disk
    ensures f.dirty ==> old(f.dirty)
    ensures f.Valid() && LimitsOf(f) == old(LimitsOf(f))
    ensures Step(LimitsOf(f), old(Abs(f)), OpRead(n), o, Abs(f))
    ensures VolumeKept(f.fs.geo, old(f.fs.Fat()), old(f.fs.Img()), old(f.chain), f.fs.Fat(), f.fs.Img(), f.chain)
  {
    hide *;
    UnfoldValid(f);
    AbsIs(f);
    ghost var f0, i0 := f.fs.Fat(), f.fs.Img();
    var res, data := Read(f, n);
    AbsIs(f);
    StepRead(LimitsOf(f), old(Abs(f)), n, data, f.fptr);
    ReadKeepsVolume(f.fs.geo, f0, i0, f.chain, f.fs.Img());
    o := Outcome(res, data, |data|);
  }

  method PerformWrite(f: File, d: seq<byte>) returns (o: Outcome)
    requires f.Valid() && |d| <= MAX_DWORD
    modifies f`fptr, f`objsize, f`clust, f`sclust, f`chain, f`dirty, f`sect, f`modified, f`trust, f.buf
    modifies f.fs`winsect, f.fs`wflag, f.fs.win, f.fs.disk, f.fs`lastClst, f.fs`freeClst, f.fs`fsiFlag
    ensures f.modified <==> old(f.modified) || f.canWrite
    ensures !f.canWrite ==> SameNotes(old(NotesOf(f)), NotesOf(f))
    ensures old(f.trust).Whole? ==> f.trust.Whole?
    ensures f.Valid() && LimitsOf(f) == old(LimitsOf(f))
    ensures Step(LimitsOf(f), old(Abs(f)), OpWrite(d), o, Abs(f))
    ensures VolumeKept(f.fs.geo, old(f.fs.Fat()), old(f.fs.Img()), old(f.chain), f.fs.Fat(), f.fs.Img(), f.chain)
  {
    hide *;
    NotesIs(f);
    UnfoldValid(f);
    AbsIs(f);
    ghost var f0, i0, c0 := f.fs.Fat(), f.fs.Img(), f.chain;
    var res, bw := Write(f, d);
    UnfoldValid(f);
    AbsIs(f);
    SameAllotted(f.fs.geo, f0, i0, c0, f.fs.Fat(), f.fs.Img(), f.chain, f.cltbl != []);
    StepWrite(LimitsOf(f), old(Abs(f)), d, bw);
    GrowthKeepsVolume(f.fs.geo, f0, i0, c0, f.fs.Fat(), f.fs.Img(), f.chain);
    o := Outcome(res, [], bw);
    NotesIs(f);
    SameNotesIs(old(NotesOf(f)), NotesOf(f));
  }

  method PerformSeek(f: File, ofs: nat) returns (o: Outcome)
    requires f.Valid() && ofs <= MAX_DWORD
    modifies f`fptr, f`objsize, f`clust, f`sclust, f`chain, f`dirty, f`sect, f`modified, f`trust, f.buf
    modifies f.fs`winsect, f.fs`wflag, f.fs.win, f.fs.disk, f.fs`lastClst, f.fs`freeClst, f.fs`fsiFlag
    ensures f.modified <==> old(f.modified) || f.objsize != old(f.objsize)
    ensures f.objsize == old(f.objsize) ==> SameNotes(old(NotesOf(f)), NotesOf(f))
    ensures f.Held() && f.Base() && LimitsOf(f) == old(LimitsOf(f)) && f.fs.geo.csize > 0
    ensures f.Valid() <==>
            !(f.cltbl == [] && Caught(f.fs.geo, old(f.fs.disk.sectors), old(f.fs.Fat()), old(f.chain),
                                      old(f.fs.lastClst), old(f.objsize),
                    old(f.sect), old(f.dirty), old(f.buf[..]), TargetOf(f.canWrite, old(f.objsize), ofs)))
    ensures f.Valid() <==>
            ShowsDrive(f.fs.geo, f.fs.disk.sectors, f.chain, f.objsize, f.sect, f.dirty, f.buf[..])
    ensures old(f.trust).Whole? ==> f.trust.Whole?
    ensures NotMoved(f.fs.geo, f.chain, f.fptr, old(f.sect)) ==>
            f.sect == old(f.sect) && f.dirty == old(f.dirty) && f.buf[..] == old(f.buf[..])
    ensures Step(LimitsOf(f), old(Abs(f)), OpSeek(ofs), o, Abs(f))
    ensures VolumeKept(f.fs.geo, old(f.fs.Fat()), old(f.fs.Img()), old(f.chain), f.fs.Fat(), f.fs.Img(), f.chain)
  {
    hide *;
    NotesIs(f);
    if f.cltbl != [] {
      o := PerformFast(f, ofs);
      ValidShows(f);
    } else {
      o := PerformStretch(f, ofs);
    }
    NotesIs(f);
    SameNotesIs(old(NotesOf(f)), NotesOf(f));
  }

  /** A seek with a link map in use. */
  method PerformFast(f: File, ofs: nat) returns (o: Outcome)
    requires f.Valid() && ofs <= MAX_DWORD && f.cltbl != []
    modifies f`fptr, f`clust, f`dirty, f`sect, f.buf, f.fs.disk
    ensures f.dirty ==> old(f.dirty)
    ensures f.Valid() && f.Held() && f.Base() && LimitsOf(f) == old(LimitsOf(f)) && f.fs.geo.csize > 0
    ensures NotMoved(f.fs.geo, f.chain, f.fptr, old(f.sect)) ==>
            f.sect == old(f.sect) && f.dirty == old(f.dirty) && f.buf[..] == old(f.buf[..])
    ensures Step(LimitsOf(f), old(Abs(f)), OpSeek(ofs), o, Abs(f))
    ensures VolumeKept(f.fs.geo, old(f.fs.Fat()), old(f.fs.Img()), old(f.chain), f.fs.Fat(), f.fs.Img(), f.chain)
  {
    hide *;
    UnfoldValid(f);
    AbsIs(f);
    ghost var f0, i0 := f.fs.Fat(), f.fs.Img();
    StaysIs(f, f.sect, f.dirty, f.buf[..]);
    ghost var sect0, dirty0, buf0 := f.sect, f.dirty, f.buf[..];
    var res := SeekFast(f, ofs);
    UnfoldValid(f);
    AbsIs(f);
    StaysIs(f, sect0, dirty0, buf0);
    WholeSlice(f.Bytes());
    StepSeek(LimitsOf(f), old(Abs(f)), ofs, Abs(f));
    ReadKeepsVolume(f.fs.geo, f0, i0, f.chain, f.fs.Img());
    o := Outcome(res, [], 0);
  }

  /** A seek without one. */
  method PerformStretch(f: File, ofs: nat) returns (o: Outcome)
    requires f.Valid() && ofs <= MAX_DWORD && f.cltbl == []
    modifies f`fptr, f`objsize, f`clust, f`sclust, f`chain, f`dirty, f`sect, f`modified, f`trust, f.buf
    modifies f.fs`winsect, f.fs`wflag, f.fs.win, f.fs.disk, f.fs`lastClst, f.fs`freeClst, f.fs`fsiFlag
    ensures f.modified <==> old(f.modified) || f.objsize != old(f.objsize)
    ensures f.objsize == old(f.objsize) ==> SameNotes(old(NotesOf(f)), NotesOf(f))
    ensures f.Held() && f.Base() && LimitsOf(f) == old(LimitsOf(f)) && f.fs.geo.csize > 0
    ensures f.Valid() <==>
            !Caught(f.fs.geo, old(f.fs.disk.sectors), old(f.fs.Fat()), old(f.chain), old(f.fs.lastClst), old(f.objsize),
                    old(f.sect), old(f.dirty), old(f.buf[..]), TargetOf(f.canWrite, old(f.objsize), ofs))
    ensures f.Valid() <==>
            ShowsDrive(f.fs.geo, f.fs.disk.sectors, f.chain, f.objsize, f.sect, f.dirty, f.buf[..])
    ensures old(f.trust).Whole? ==> f.trust.Whole?
    ensures NotMoved(f.fs.geo, f.chain, f.fptr, old(f.sect)) ==>
            f.sect == old(f.sect) && f.dirty == old(f.dirty) && f.buf[..] == old(f.buf[..])
    ensures Step(LimitsOf(f), old(Abs(f)), OpSeek(ofs), o, Abs(f))
    ensures VolumeKept(f.fs.geo, old(f.fs.Fat()), old(f.fs.Img()), old(f.chain), f.fs.Fat(), f.fs.Img(), f.chain)
  {
    hide *;
    NotesIs(f);
    UnfoldValid(f);
    AbsIs(f);
    ghost var f0, i0, c0 := f.fs.Fat(), f.fs.Img(), f.chain;
    ghost var sect0, dirty0, buf0 := f.sect, f.dirty, f.buf[..];
    TargetIs(f.canWrite, f.objsize, ofs);
    LeastIs(TargetOf(f.canWrite, f.objsize, ofs), Capacity(f.fs.geo, f0, c0));
    ghost var size0 := f.objsize;
    var res := Seek(f, ofs);
    AbsIs(f);
    LeastIs(f.fptr, size0);
    StaysIs(f, sect0, dirty0, buf0);
    SameAllotted(f.fs.geo, f0, i0, c0, f.fs.Fat(), f.fs.Img(), f.chain, false);
    AllottedIs(f.fs.geo, f0, c0, false);
    StepSeek(LimitsOf(f), old(Abs(f)), ofs, Abs(f));
    GrowthKeepsVolume(f.fs.geo, f0, i0, c0, f.fs.Fat(), f.fs.Img(), f.chain);
    o := Outcome(res, [], 0);
    NotesIs(f);
    SameNotesIs(old(NotesOf(f)), NotesOf(f));
  }

  method PerformTruncate(f: File) returns (o: Outcome)
    requires f.Valid() && f.cltbl == []
    modifies f`objsize, f`sclust, f`chain, f`dirty, f`modified, f`stale, f`trust
    modifies f.fs`winsect, f.fs`wflag, f.fs.win, f.fs.disk, f.fs`freeClst, f.fs`fsiFlag
    ensures f.modified <==> old(f.modified) || f.objsize != old(f.objsize)
    ensures f.objsize == old(f.objsize) ==> SameNotes(old(NotesOf(f)), NotesOf(f))
    ensures old(f.trust).Whole? ==> f.trust.Whole?
    ensures f.canWrite && f.fptr < old(f.objsize) ==>
            !f.dirty && f.fs.geo.Valid(|f.fs.disk.sectors|)
            && Content(f.fs.geo, f.fs.disk.sectors, old(f.chain), old(f.objsize)) == old(f.Bytes())
            && f.fs.geo.csize > 0 && f.chain == Shorter(old(f.chain), Needed(f.fs.geo, f.fptr))
    ensures f.Valid() && LimitsOf(f) == old(LimitsOf(f))
    ensures Step(LimitsOf(f), old(Abs(f)), OpTruncate, o, Abs(f))
    ensures f.stale && !old(f.stale) ==> f.fptr % 512 == 0
    ensures old(f.stale) ==> f.stale
    ensures VolumeKept(f.fs.geo, old(f.fs.Fat()), old(f.fs.Img()), old(f.chain), f.fs.Fat(), f.fs.Img(), f.chain)
  {
    hide *;
    NotesIs(f);
    UnfoldValid(f);
    AbsIs(f);
    ghost var f0, i0, c0 := f.fs.Fat(), f.fs.Img(), f.chain;
    var res := Truncate(f);
    UnfoldValid(f);
    AbsIs(f);
    if f.fptr % 512 != 0 { InsideIsOwn(f); }
    ShrinkCapacity(f.fs.geo, f0, i0, c0, f.fs.Fat(), f.fs.Img(), f.chain);
    StepTruncate(LimitsOf(f), old(Abs(f)));
    ShrinkKeepsVolume(f.fs.geo, f0, i0, c0, f.fs.Fat(), f.fs.Img(), f.chain);
    o := Outcome(res, [], 0);
    NotesIs(f);
    SameNotesIs(old(NotesOf(f)), NotesOf(f));
  }

  /** Inside a sector the buffer shows a sector of the file, also just after a truncation. */
  lemma InsideIsOwn(f: File)
    requires f.Valid() && f.fptr % 512 != 0
    ensures f.sect != 0 ==> Owned(f.fs.geo, f.chain, f.sect)
  {
    hide *;
    UnfoldValid(f);
    InSectFacts(f.fs.geo, f.chain, f.fptr, f.sect);
    LbaIsOwn(f.fs.geo, f.chain, f.fptr / 512);
  }

  lemma ShrinkCapacity(g: Geo, f: Table, i: Image, c: seq<nat>, f1: Table, i1: Image, c1: seq<nat>)
    requires OnlyShrinks(g, f, i, c, f1, i1, c1)
    ensures |f1| >= 2 && |f| >= 2 && Allotted(g, f1, c1, false) == Allotted(g, f, c, false)
  {
  }

  lemma RunMore(l: Limits, ops: seq<Op>, n: nat, outs: seq<Outcome>, states: seq<ByteArray>, o: Outcome, b: ByteArray)
    requires n < |ops| && Run(l, ops[..n], outs, states)
    requires states[n].pos <= |states[n].bytes| && Step(l, states[n], ops[n], o, b)
    ensures Run(l, ops[..n + 1], outs + [o], states + [b])
  {
  }

  lemma RunNothing(l: Limits, ops: seq<Op>, a: ByteArray)
    ensures Run(l, ops[..0], [], [a])
  {
  }

  /** Any sequence of reads, writes, seeks and truncations of an open file is a run of the byte
      array with the same capacity throughout; the rest of the volume does not change. */
  method PerformAll(f: File, ops: seq<Op>) returns (outs: seq<Outcome>, ghost states: seq<ByteArray>)
    requires f.Valid() && f.trust.Whole?
    requires forall i :: 0 <= i < |ops| ==> Callable(ops[i]) && Allowed(f.cltbl != [], ops[i])
    modifies f`fptr, f`objsize, f`clust, f`sclust, f`chain, f`dirty, f`sect, f`modified, f`stale, f`trust, f.buf
    modifies f.fs`winsect, f.fs`wflag, f.fs.win, f.fs.disk, f.fs`lastClst, f.fs`freeClst, f.fs`fsiFlag
    ensures f.Valid() && f.trust.Whole? && LimitsOf(f) == old(LimitsOf(f))
    ensures f.fs.geo.fsType != FAT12 ==> LoggedWellFormed(f.fs.geo, f.fs.mark, f.fs.disk.log)
    ensures |states| == |ops| + 1 && states[0] == old(Abs(f)) && states[|ops|] == Abs(f)
    ensures Run(LimitsOf(f), ops, outs, states)
    ensures f.modified <==>
            old(f.modified) || AnyTouches(LimitsOf(f), ops, states, |ops|)
    ensures !f.modified ==>
            SameNotes(old(NotesOf(f)), NotesOf(f)) && f.Bytes() == old(f.Bytes())
    ensures !f.modified && !old(f.dirty) ==> OnDrive(f) == old(OnDrive(f))
    ensures VolumeKept(f.fs.geo, old(f.fs.Fat()), old(f.fs.Img()), old(f.chain), f.fs.Fat(), f.fs.Img(), f.chain)
  {
    hide *;
    UnfoldValid(f);
    AbsIs(f);
    OnDriveIs(f);
    ghost var notes0, bytes0 := NotesOf(f), f.Bytes();
    SameNotesTrans(notes0, notes0, notes0);
    NotesIs(f);
    ghost var g, l, f0, i0, c0 := f.fs.geo, LimitsOf(f), f.fs.Fat(), f.fs.Img(), f.chain;
    outs, states := [], [Abs(f)];
    RunNothing(l, ops, Abs(f));
    NothingTouched(l, ops, Abs(f));
    VolumeKeptRefl(g, f0, i0, c0);
    var n := 0;
    while n < |ops|
      invariant 0 <= n <= |ops| == |ops[..n]| + |ops| - n && |states| == n + 1 && |outs| == n
      invariant f.Valid() && f.trust.Whole? && f.Base() && f.fs.Valid() && LimitsOf(f) == l
      invariant states[0] == old(Abs(f)) && states[n] == Abs(f)
      invariant Run(l, ops[..n], outs, states)
      invariant f.modified <==>
                old(f.modified) || AnyTouches(l, ops, states, n)
      invariant !f.modified ==> SameNotes(notes0, NotesOf(f)) && f.Bytes() == bytes0
      invariant VolumeKept(g, f0, i0, c0, f.fs.Fat(), f.fs.Img(), f.chain)
    {
      UnfoldValid(f);
      AbsIs(f);
      ghost var f1, i1, c1, a1 := f.fs.Fat(), f.fs.Img(), f.chain, Abs(f);
      ghost var notes1, mod1 := NotesOf(f), f.modified;
      var o := Perform(f, ops[n]);
      UnfoldValid(f);
      AbsIs(f);
      VolumeKeptTrans(g, f0, i0, c0, f1, i1, c1, f.fs.Fat(), f.fs.Img(), f.chain);
      SameNotesTrans(notes0, notes1, NotesOf(f));
      NotedIs(l, ops[n], a1, Abs(f), mod1, f.modified, notes1, NotesOf(f));
      if !Touches(l, ops[n], a1, Abs(f)) { Untouched(l, a1, ops[n], o, Abs(f)); }
      AnyTouchesMore(l, ops, states, n, Abs(f));
      RunMore(l, ops, n, outs, states, o, Abs(f));
      outs, states := outs + [o], states + [Abs(f)];
      n := n + 1;
    }
    assert ops[..n] == ops;
    UnfoldValid(f);
    NotesIs(f);
    SameNotesIs(notes0, NotesOf(f));
    OnDriveIs(f);
    DriveStates(f);
  }

  /** On FAT16 and FAT32 every state the drive has been in since the watch began has a well-formed FAT. */
  lemma DriveStates(f: File)
    requires f.Held()
    ensures f.fs.mark < |f.fs.disk.log| && f.fs.disk.log[|f.fs.disk.log| - 1] == f.fs.disk.sectors
    ensures f.fs.geo.fsType != FAT12 ==> LoggedWellFormed(f.fs.geo, f.fs.mark, f.fs.disk.log)
  {
    hide *;
    UnfoldValid(f);
    Unfold(f);
    LogEnds(f.fs);
    WatchedFacts(f.fs.geo, f.fs.mark, f.fs.home, f.fs.Now());
  }
}
