/** The file object, its private sector buffer, and the state it must keep. */
module Files {
  import opened Allocation
  import opened Bytes
  import opened Chains
  import opened ChainOps
  import opened FileLayout
  import opened Geometry
  import opened LinkMap
  import opened Sectors
  import opened Volume

  /** The sector s of the drive belongs to the chain. */
  ghost predicate Owned(g: Geo, chain: seq<nat>, s: nat) {
    exists j: nat :: HasSector(g, chain, j) && Lba(g, chain, j) == s
  }

  /** The free clusters are counted right or not at all, and the FAT is well formed. */
  ghost predicate Sound(f: Table, free: nat) {
    WellFormed(f) && CountTracks(f, free)
  }

  /** The chain is in the FAT, starts where the object says and has room for the size. */
  ghost predicate ChainOk(g: Geo, f: Table, sclust: nat, chain: seq<nat>, size: nat) {
    && (sclust == 0 <==> chain == [])
    && (chain != [] ==> chain[0] == sclust && IsChain(f, chain) && IsHead(f, sclust))
    && OwnClusters(g, chain)
    && size <= MAX_DWORD
    && Covers(g, chain, size)
  }

  /** The sector s of the drive holds some of the first size bytes of the file. */
  ghost predicate Carries(g: Geo, chain: seq<nat>, size: nat, s: nat) {
    exists j: nat :: HasSector(g, chain, j) && Lba(g, chain, j) == s && 512 * j < size
  }

  /** How far a clean buffer is known to agree with the drive: wherever it stands, or where it stands
      on a sector with some of the first size bytes of the file. A sector the file has lost can change
      under the buffer. */
  datatype Trust = Whole | UpTo(size: nat)

  ghost predicate Trusted(g: Geo, chain: seq<nat>, trust: Trust, s: nat) {
    trust.Whole? || Carries(g, chain, trust.size, s)
  }

  /** The same trust, for another size. */
  function Resized(trust: Trust, size: nat): Trust {
    if trust.Whole? then Whole else UpTo(size)
  }

  /** The trust does not go past the size. */
  predicate Capped(trust: Trust, size: nat) {
    trust.Whole? || trust.size <= size
  }

  /** The buffer stands on a data sector of the drive; if it is dirty, on one of the file's own; if it
      is clean and trusted there, it shows that sector. The access window's home sector is elsewhere. */
  ghost predicate BufferOk(g: Geo, d: Image, home: nat, chain: seq<nat>, trust: Trust, sect: nat, dirty: bool,
                           buf: seq<byte>) {
    && |buf| == 512
    && (sect != 0 ==> g.database <= sect < |d| && sect != home)
    && (dirty ==> sect != 0 && Owned(g, chain, sect))
    && (!dirty && sect != 0 && Trusted(g, chain, trust, sect) ==> buf == d[sect])
    && !Owned(g, chain, home)
  }

  /** Unless it is stale, the buffer shows a sector of the file, or nothing. */
  ghost predicate Shown(g: Geo, chain: seq<nat>, sect: nat, stale: bool) {
    !stale && sect != 0 ==> Owned(g, chain, sect)
  }

  lemma ShownOwn(g: Geo, chain: seq<nat>, sect: nat, stale: bool)
    requires Owned(g, chain, sect)
    ensures Shown(g, chain, sect, stale)
  {
  }

  // ----- the volume under open files -----

  ghost predicate InCluster(g: Geo, c: nat, s: nat) {
    g.IsCluster(c) && g.ClstSect(c) <= s < g.ClstSect(c) + g.csize
  }

  /** The sector is in no free cluster. */
  ghost predicate InUse(g: Geo, f: Table, s: nat) {
    forall c: nat :: InCluster(g, c, s) && c < |f| ==> f[c] != 0
  }

  /** The window shows its home or a sector of the FAT, and its home is in no free cluster. On FAT16
      and FAT32 every state of the drive since the mark has a well-formed FAT. */
  ghost predicate Watched(g: Geo, mark: nat, home: nat, s: Snap)
    requires g.Valid(|s.img|)
  {
    && mark < |s.log| && s.log[|s.log| - 1] == s.sectors
    && (g.fsType != FAT12 ==> LoggedWellFormed(g, mark, s.log))
    && (s.winsect == home || g.InFat1(s.winsect))
    && InUse(g, FatView(g, s.img), home)
  }

  lemma WatchedFacts(g: Geo, mark: nat, home: nat, s: Snap)
    requires g.Valid(|s.img|) && Watched(g, mark, home, s)
    ensures s.winsect == home || g.InFat1(s.winsect)
    ensures mark < |s.log| && (g.fsType != FAT12 ==> LoggedWellFormed(g, mark, s.log))
    ensures InUse(g, FatView(g, s.img), home)
  {
  }

  /** Reading the FAT keeps watch. */
  lemma WatchedLooked(g: Geo, mark: nat, home: nat, a: Snap, b: Snap)
    requires g.Valid(|a.img|) && Watched(g, mark, home, a) && Looked(g, a, b)
    requires WellFormed(FatView(g, a.img)) && b.log != [] && b.log[|b.log| - 1] == b.sectors
    ensures b.img == a.img && Watched(g, mark, home, b)
  {
    hide FatView, WellFormed, InUse;
  }

  /** Writing the FAT keeps watch if the drive never shows a broken one and the home stays in use. */
  lemma WatchedWritten(g: Geo, mark: nat, home: nat, a: Snap, b: Snap)
    requires g.Valid(|a.img|) && Watched(g, mark, home, a) && FatWritten(g, a, b)
    requires g.fsType != FAT12 ==> LoggedWellFormed(g, |a.log|, b.log)
    requires b.log != [] && b.log[|b.log| - 1] == b.sectors
    requires g.Valid(|b.img|) && InUse(g, FatView(g, b.img), home)
    ensures Watched(g, mark, home, b)
  {
    hide FatView, WellFormed, InUse;
  }

  /** Writing data sectors keeps watch. */
  lemma WatchedData(g: Geo, mark: nat, home: nat, a: Snap, b: Snap)
    requires g.Valid(|a.img|) && g.Valid(|b.img|) && g.Valid(|a.sectors|) && Watched(g, mark, home, a)
    requires FatView(g, b.img) == FatView(g, a.img) && b.winsect == a.winsect
    requires LogGrew(a.log, b.log) && LoggedFat(g, |a.log|, b.log, FatView(g, a.sectors))
    requires b.log != [] && b.log[|b.log| - 1] == b.sectors
    ensures Watched(g, mark, home, b)
  {
    hide FatView, WellFormed, InUse;
    assert a.log[|a.log| - 1] == a.sectors;
  }

  /** Data sectors away from the home are away from the window. */
  lemma WindowElsewhere(g: Geo, nsect: nat, home: nat, winsect: nat, s: nat, n: nat)
    requires g.Valid(nsect) && g.database <= s && !(s <= home < s + n)
    requires winsect == home || g.InFat1(winsect)
    ensures !(s <= winsect < s + n)
  {
  }

  /** The drive with the dirty buffer laid over it: what the file really holds. */
  ghost function EffOf(d: Image, sect: nat, dirty: bool, buf: seq<byte>): (e: Image)
    requires |buf| == 512 && (dirty ==> sect < |d|)
    ensures |e| == |d|
  {
    if dirty then d[sect := buf] else d
  }

  /** FIL: an open file with its one-sector buffer. The ghost field lists its clusters in order. */
  class File {
    const fs: FatFs
    const canRead: bool
    const canWrite: bool
    const buf: array<byte>
    var sclust: nat
    var objsize: nat
    var fptr: nat
    var clust: nat
    var sect: nat
    var dirty: bool
    var modified: bool
    /** The link map in use; empty if there is none. */
    var cltbl: seq<nat>
    ghost var chain: seq<nat>
    /** The clean buffer stands on a sector that a truncation has taken from the file. */
    ghost var stale: bool
    /** How far the clean buffer agrees with the drive. */
    ghost var trust: Trust

    /** The end of f_open, for a file whose clusters are given. */
    constructor (v: FatFs, read: bool, write: bool, start: nat, size: nat, ghost clusters: seq<nat>)
      ensures fs == v && canRead == read && canWrite == write && fresh(buf) && buf.Length == 512
      ensures sclust == start && objsize == size && chain == clusters
      ensures fptr == 0 && sect == 0 && !dirty && !modified && !stale && trust == Whole && cltbl == []
    {
      fs, canRead, canWrite := v, read, write;
      buf := new byte[512](_ => 0);
      sclust, objsize, fptr, clust, sect := start, size, 0, 0, 0;
      dirty, modified, cltbl := false, false, [];
      chain, stale, trust := clusters, false, Whole;
    }

    /** What every step of a file operation keeps. */
    ghost predicate Base()
      reads `sclust, `objsize, `chain, `sect, `dirty, `stale, `trust, buf
      reads fs`winsect, fs`wflag, fs`freeClst, fs`home, fs`mark, fs.disk, fs.win
    {
      && fs.Valid() && buf != fs.win
      && Sound(fs.Fat(), fs.freeClst)
      && ChainOk(fs.geo, fs.Fat(), sclust, chain, objsize)
      && BufferOk(fs.geo, fs.disk.sectors, fs.home, chain, trust, sect, dirty, buf[..]) && Capped(trust, objsize)
      && Shown(fs.geo, chain, sect, stale)
      && Watched(fs.geo, fs.mark, fs.home, fs.Now())
    }

    ghost function Eff(): (e: Image)
      requires Base()
      reads `sclust, `objsize, `chain, `sect, `dirty, `stale, `trust, buf
      reads fs`winsect, fs`wflag, fs`freeClst, fs`home, fs`mark, fs.disk, fs.win
    {
      EffOf(fs.disk.sectors, sect, dirty, buf[..])
    }

    /** The bytes of the file. */
    ghost function Bytes(): (c: seq<byte>)
      requires Base()
      reads `sclust, `objsize, `chain, `sect, `dirty, `stale, `trust, buf
      reads fs`winsect, fs`wflag, fs`freeClst, fs`home, fs`mark, fs.disk, fs.win
      ensures |c| == objsize
    {
      Content(fs.geo, Eff(), chain, objsize)
    }

    /** Between operations, whatever a clean buffer shows. */
    ghost predicate Held()
      reads `sclust, `objsize, `chain, `sect, `dirty, `stale, `trust, `fptr, `clust, `cltbl, buf
      reads fs`winsect, fs`wflag, fs`freeClst, fs`home, fs`mark, fs.disk, fs.win
    {
      && Base() && fptr <= objsize
      && AtPrev(fs.geo, chain, fptr, clust)
      && InSect(fs.geo, chain, fptr, sect)
      && MapOk(cltbl, chain)
    }

    /** And a clean buffer shows the drive where it stands on bytes of the file. */
    ghost predicate Valid()
      reads `sclust, `objsize, `chain, `sect, `dirty, `stale, `trust, `fptr, `clust, `cltbl, buf
      reads fs`winsect, fs`wflag, fs`freeClst, fs`home, fs`mark, fs.disk, fs.win
    {
      Held() && trust == Resized(trust, objsize)
    }
  }

  /** The cached cluster is the one the position is inside of or has just reached the end of. */
  ghost predicate AtPrev(g: Geo, chain: seq<nat>, fptr: nat, clust: nat) {
    fptr > 0 ==> HasSector(g, chain, (fptr - 1) / 512) && clust == chain[(fptr - 1) / 512 / g.csize]
  }

  /** The cached cluster is the one of the byte at the position. */
  ghost predicate Here(g: Geo, chain: seq<nat>, fptr: nat, clust: nat) {
    HasSector(g, chain, fptr / 512) && clust == chain[fptr / 512 / g.csize]
  }

  /** Inside a sector, the buffer shows that sector. */
  ghost predicate InSect(g: Geo, chain: seq<nat>, fptr: nat, sect: nat) {
    fptr % 512 != 0 ==> HasSector(g, chain, fptr / 512) && sect == Lba(g, chain, fptr / 512)
  }

  lemma InSectFrom(g: Geo, chain: seq<nat>, fptr: nat, sect: nat)
    requires HasSector(g, chain, fptr / 512) && sect == Lba(g, chain, fptr / 512)
    ensures InSect(g, chain, fptr, sect)
  {
  }

  lemma OwnedInDrive(g: Geo, nsect: nat, chain: seq<nat>, s: nat)
    requires g.Valid(nsect) && OwnClusters(g, chain) && Owned(g, chain, s)
    ensures g.database <= s < nsect && s != 0
  {
    var j: nat :| HasSector(g, chain, j) && Lba(g, chain, j) == s;
    LbaInDataArea(g, nsect, chain, j);
  }

  /** Outside the FATs, only sectors of the chain differ. */
  ghost predicate KeepsOthers(g: Geo, a: Image, b: Image, chain: seq<nat>) {
    && |a| == |b|
    && forall s :: 0 <= s < |a| && !(g.fatbase <= s < g.FatEnd()) && !Owned(g, chain, s) ==> a[s] == b[s]
  }

  lemma KeepsOthersTrans(g: Geo, a: Image, b: Image, c: Image, chain: seq<nat>)
    requires KeepsOthers(g, a, b, chain) && KeepsOthers(g, b, c, chain)
    ensures KeepsOthers(g, a, c, chain)
  {
  }

  lemma KeepsOthersWider(g: Geo, a: Image, b: Image, chain: seq<nat>, longer: seq<nat>)
    requires KeepsOthers(g, a, b, chain) && chain <= longer
    ensures KeepsOthers(g, a, b, longer)
  {
    forall s | 0 <= s < |a| && Owned(g, chain, s)
      ensures Owned(g, longer, s)
    {
      var j: nat :| HasSector(g, chain, j) && Lba(g, chain, j) == s;
      LbaOfPrefix(g, chain, longer, j);
    }
  }

  /** Outside the chain, the FAT entries are as they were. */
  ghost predicate KeepsEntries(f: Table, f': Table, chain: seq<nat>) {
    |f'| == |f| && forall c :: 0 <= c < |f| && c !in chain ==> f'[c] == f[c]
  }

  // ----- writing data sectors -----

  /** disk_write to the data area, beside the window: the image takes the same sectors, and the
      FAT, in the image and on the drive, is untouched. */
  method WriteData(fs: FatFs, s: nat, data: seq<byte>)
    requires fs.Valid() && |data| % 512 == 0
    requires fs.geo.database <= s && s + |data| / 512 <= |fs.disk.sectors|
    requires !(s <= fs.winsect < s + |data| / 512)
    modifies fs.disk
    ensures fs.Valid() && fs.Fat() == old(fs.Fat())
    ensures fs.disk.sectors == PutSectors(old(fs.disk.sectors), s, data)
    ensures fs.Img() == PutSectors(old(fs.Img()), s, data)
    ensures LogGrew(old(fs.disk.log), fs.disk.log)
    ensures LoggedFat(fs.geo, old(|fs.disk.log|), fs.disk.log, FatView(fs.geo, old(fs.disk.sectors)))
  {
    ghost var d0, i0 := fs.disk.sectors, fs.Img();
    fs.disk.WriteSectors(s, data);
    DataWritten(fs.geo, d0, fs.disk.sectors, i0, fs.wflag, fs.winsect, fs.win[..], s, data);
    if fs.winsect < |d0| { PutSectorsAt(d0, s, data, fs.winsect); }
  }

  lemma DataWritten(g: Geo, d0: Image, d1: Image, i0: Image, wflag: bool, w: nat, win: Sector, s: nat, data: seq<byte>)
    requires g.Valid(|d0|) && |data| % 512 == 0 && g.database <= s && s + |data| / 512 <= |d0|
    requires !(s <= w < s + |data| / 512) && (wflag ==> w < |d0|)
    requires d1 == PutSectors(d0, s, data)
    requires i0 == if wflag then Overlay(g, d0, w, win) else d0
    ensures (if wflag then Overlay(g, d1, w, win) else d1) == PutSectors(i0, s, data)
    ensures FatView(g, d1) == FatView(g, d0)
    ensures FatView(g, PutSectors(i0, s, data)) == FatView(g, i0)
  {
    var i1 := if wflag then Overlay(g, d1, w, win) else d1;
    forall t | 0 <= t < |d0|
      ensures i1[t] == PutSectors(i0, s, data)[t]
      ensures t < g.database ==> d1[t] == d0[t] && PutSectors(i0, s, data)[t] == i0[t]
    {
      PutSectorsAt(d0, s, data, t);
      PutSectorsAt(i0, s, data, t);
    }
    SameFat1(g, d1, d0);
    SameFat1(g, PutSectors(i0, s, data), i0);
  }
}
