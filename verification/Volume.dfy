/** The drive, the one-sector access window, and the image the two of them stand for. */
module Volume {
  import opened Bytes
  import opened Geometry
  import opened FatTable
  import opened Sectors

  // ----- images -----

  /** The sector s replaced, with its copy in the second FAT when s is in the first. */
  function Overlay(g: Geo, img: Image, s: nat, sec: Sector): (r: Image)
    requires g.Valid(|img|) && s < |img|
    ensures |r| == |img|
    ensures r[s] == sec
    ensures forall t :: 0 <= t < |img| && t != s && !(g.nFats == 2 && g.InFat1(s) && t == s + g.fsize) ==>
            r[t] == img[t]
  {
    var one := img[s := sec];
    if g.nFats == 2 && g.InFat1(s) then one[s + g.fsize := sec] else one
  }

  /** The bytes of the first FAT, as one run. */
  function Fat1(g: Geo, img: Image): (b: seq<byte>)
    requires g.Valid(|img|)
    ensures |b| == 512 * g.fsize
    ensures forall k :: 0 <= k < |b| ==> b[k] == img[g.fatbase + k / 512][k % 512]
  {
    seq(512 * g.fsize, k requires 0 <= k < 512 * g.fsize => img[g.fatbase + k / 512][k % 512])
  }

  /** The FAT as a table of cluster values. */
  function FatView(g: Geo, img: Image): (f: seq<nat>)
    requires g.Valid(|img|)
    ensures |f| == g.nFatent
  {
    Entries(g.fsType, g.nFatent, Fat1(g, img))
  }

  /** Nothing outside the two FATs differs. */
  ghost predicate SameOutsideFats(g: Geo, a: Image, b: Image) {
    |a| == |b| && forall s :: 0 <= s < |a| && !(g.fatbase <= s < g.FatEnd()) ==> a[s] == b[s]
  }

  /** The second FAT, if there is one, is a copy of the first. */
  ghost predicate Mirrored(g: Geo, img: Image)
    requires g.Valid(|img|)
  {
    g.nFats == 2 ==> forall s :: g.InFat1(s) ==> img[s] == img[s + g.fsize]
  }

  /** Changing one byte of a sector of the first FAT changes one byte of the run. */
  lemma PokeIsUpdate(g: Geo, img: Image, k: nat, v: byte)
    requires g.Valid(|img|) && k < 512 * g.fsize
    ensures var s := g.fatbase + k / 512;
            Fat1(g, Overlay(g, img, s, img[s][k % 512 := v])) == Fat1(g, img)[k := v]
  {
    var s := g.fatbase + k / 512;
    var after := Overlay(g, img, s, img[s][k % 512 := v]);
    forall j | 0 <= j < 512 * g.fsize
      ensures Fat1(g, after)[j] == Fat1(g, img)[k := v][j]
    {
      if j != k && j / 512 == k / 512 {
        assert j % 512 != k % 512;
      }
    }
  }

  lemma OverlayKeepsRest(g: Geo, img: Image, s: nat, sec: Sector)
    requires g.Valid(|img|) && g.InFat1(s)
    ensures SameOutsideFats(g, img, Overlay(g, img, s, sec))
    ensures Mirrored(g, img) ==> Mirrored(g, Overlay(g, img, s, sec))
  {
  }

  /** Equal sectors in the first FAT make equal tables. */
  lemma SameFat1(g: Geo, a: Image, b: Image)
    requires g.Valid(|a|) && |a| == |b|
    requires forall s :: g.InFat1(s) ==> a[s] == b[s]
    ensures Fat1(g, a) == Fat1(g, b)
    ensures FatView(g, a) == FatView(g, b)
  {
    forall k | 0 <= k < 512 * g.fsize
      ensures Fat1(g, a)[k] == Fat1(g, b)[k]
    {
      assert g.InFat1(g.fatbase + k / 512);
    }
  }

  // ----- the drive -----

  /** disk_read and disk_write on an array of sectors. The log keeps the drive as it was at first and
      after each write. */
  class Disk {
    var sectors: seq<Sector>
    ghost var log: seq<Image>

    constructor (initial: seq<Sector>)
      ensures sectors == initial && log == [initial]
    {
      sectors := initial;
      log := [initial];
    }

    method ReadSector(s: nat) returns (data: Sector)
      requires s < |sectors|
      ensures data == sectors[s]
    {
      data := sectors[s];
    }

    method ReadSectors(s: nat, n: nat) returns (data: seq<byte>)
      requires s + n <= |sectors|
      ensures data == GetSectors(sectors, s, n)
    {
      data := GetSectors(sectors, s, n);
    }

    /** One transfer of |data| / 512 sectors. */
    method WriteSectors(s: nat, data: seq<byte>)
      requires |data| % 512 == 0 && s + |data| / 512 <= |sectors|
      modifies this
      ensures sectors == PutSectors(old(sectors), s, data)
      ensures log == old(log) + [sectors]
    {
      sectors := PutSectors(sectors, s, data);
      log := log + [sectors];
    }

    method WriteSector(s: nat, data: Sector)
      requires s < |sectors|
      modifies this
      ensures sectors == old(sectors)[s := data]
      ensures log == old(log) + [sectors]
    {
      sectors := sectors[s := data];
      log := log + [sectors];
    }
  }

  // ----- the volume object -----

  /** FATFS: the layout is fixed by mounting; the rest changes in place. */
  class FatFs {
    const disk: Disk
    const geo: Geo
    const win: array<byte>
    var winsect: nat
    var wflag: bool
    var lastClst: nat
    var freeClst: nat
    var fsiFlag: bool
    /** While files are open: the sector the window showed when that began, and the length the log
        then had, less one. */
    ghost var home: nat
    ghost var mark: nat

    constructor (d: Disk, g: Geo)
      requires g.Valid(|d.sectors|) && d.log != [] && d.log[|d.log| - 1] == d.sectors
      ensures disk == d && geo == g && fresh(win)
      ensures Valid() && !wflag && winsect == MAX_DWORD
      ensures freeClst == MAX_DWORD && lastClst == MAX_DWORD && home == MAX_DWORD && mark == |d.log| - 1
    {
      disk, geo := d, g;
      win := new byte[512];
      winsect, wflag := MAX_DWORD, false;
      lastClst, freeClst, fsiFlag := MAX_DWORD, MAX_DWORD, false;
      home, mark := MAX_DWORD, |d.log| - 1;
    }

    /** A clean window shows what is on the drive; a dirty one stands over a real sector. */
    ghost predicate Valid()
      reads `winsect, `wflag, disk, win
    {
      && geo.Valid(|disk.sectors|)
      && disk.log != [] && disk.log[|disk.log| - 1] == disk.sectors
      && win.Length == 512
      && winsect <= MAX_DWORD
      && (wflag ==> winsect < |disk.sectors|)
      && (!wflag && winsect < |disk.sectors| ==> win[..] == disk.sectors[winsect])
    }

    /** What the drive would hold if the window were written back now. */
    function Img(): (r: Image)
      requires Valid()
      reads `winsect, `wflag, disk, win
      ensures |r| == |disk.sectors|
      ensures winsect < |r| ==> r[winsect] == win[..]
    {
      if wflag then Overlay(geo, disk.sectors, winsect, win[..]) else disk.sectors
    }

    ghost function Now(): (s: Snap)
      requires Valid()
      reads `winsect, `wflag, disk, win
      ensures s.img == Img() && s.log == disk.log
    {
      Snap(Img(), disk.sectors, disk.log, winsect)
    }

    function Fat(): (f: seq<nat>)
      requires Valid()
      reads `winsect, `wflag, disk, win
      ensures |f| == geo.nFatent
    {
      FatView(geo, Img())
    }
  }

  /** The layout facts of a valid volume. */
  lemma VolumeFacts(fs: FatFs)
    requires fs.Valid()
    ensures fs.geo.Valid(|fs.disk.sectors|) && |fs.Now().img| == |fs.Img()| == |fs.disk.sectors| && fs.geo.csize > 0
    ensures fs.geo.FatEnd() <= fs.geo.database && 3 <= fs.geo.nFatent
    ensures fs.Fat() == FatView(fs.geo, fs.Img()) && |fs.Fat()| == fs.geo.nFatent
    ensures fs.Now() == Snap(fs.Img(), fs.disk.sectors, fs.disk.log, fs.winsect)
  {
  }

  /** Every drive state written since the log was `before` long has the table f in its first FAT. */
  ghost predicate LoggedFat(g: Geo, before: nat, log: seq<Image>, f: seq<nat>) {
    forall i :: before <= i < |log| ==> g.Valid(|log[i]|) && FatView(g, log[i]) == f
  }

  lemma NothingLogged(g: Geo, log: seq<Image>, f: seq<nat>)
    ensures LoggedFat(g, |log|, log, f)
  {
  }

  /** Sectors of the data area other than w are as they were. */
  ghost predicate KeepsData(g: Geo, a: Image, b: Image, w: nat) {
    |a| == |b| && forall s :: g.database <= s < |a| && s != w ==> a[s] == b[s]
  }

  /** The drive part of a volume at one moment, with the image it stands for. */
  datatype Snap = Snap(img: Image, sectors: Image, log: seq<Image>, winsect: nat)

  ghost predicate LogGrew(a: seq<Image>, b: seq<Image>) {
    a <= b
  }

  /** What every access through the window does to the drive: sectors are written as the window
      moves, and it moves to FAT sectors. */
  ghost predicate Moved(g: Geo, a: Snap, b: Snap) {
    && KeepsData(g, a.sectors, b.sectors, a.winsect)
    && LogGrew(a.log, b.log)
    && (b.winsect == a.winsect || g.InFat1(b.winsect))
  }

  /** Two images that differ in the FATs only, both copies alike if they were alike. */
  ghost predicate FatOnly(g: Geo, a: Image, b: Image) {
    SameOutsideFats(g, a, b) && (g.Valid(|a|) && Mirrored(g, a) ==> Mirrored(g, b))
  }

  /** Reading the FAT: the image is the same, and all that was written to the drive was due. */
  ghost predicate Looked(g: Geo, a: Snap, b: Snap)
    requires g.Valid(|a.img|)
  {
    Moved(g, a, b) && b.img == a.img && LoggedFat(g, |a.log|, b.log, FatView(g, a.img))
  }

  /** Writing the FAT: nothing else of the image changes. */
  ghost predicate FatWritten(g: Geo, a: Snap, b: Snap) {
    Moved(g, a, b) && FatOnly(g, a.img, b.img)
  }

  lemma FatWrittenTrans(g: Geo, a: Snap, b: Snap, c: Snap)
    requires g.FatEnd() <= g.database
    requires FatWritten(g, a, b) && FatWritten(g, b, c)
    ensures FatWritten(g, a, c)
  {
  }

  /** What a caller of get_fat relies on, without the definitions. */
  lemma LookedFacts(g: Geo, a: Snap, b: Snap)
    requires g.Valid(|a.img|) && Looked(g, a, b)
    ensures FatWritten(g, a, b) && b.img == a.img && LogGrew(a.log, b.log) && |a.log| <= |b.log|
    ensures LoggedFat(g, |a.log|, b.log, FatView(g, a.img))
  {
  }

  lemma LookedRefl(g: Geo, a: Snap)
    requires g.Valid(|a.img|)
    ensures Looked(g, a, a)
  {
  }

  lemma LookedTrans(g: Geo, a: Snap, b: Snap, c: Snap)
    requires g.Valid(|a.img|) && Looked(g, a, b) && b.img == a.img && Looked(g, b, c)
    ensures Looked(g, a, c) && c.img == a.img
  {
    hide FatView;
  }

  lemma FatWrittenLog(g: Geo, a: Snap, b: Snap)
    requires FatWritten(g, a, b)
    ensures LogGrew(a.log, b.log) && |a.log| <= |b.log|
  {
  }

  lemma LoggedFatTrans(g: Geo, before: nat, log0: seq<Image>, log1: seq<Image>, f: seq<nat>)
    requires before <= |log0| && LogGrew(log0, log1)
    requires LoggedFat(g, before, log0, f) && LoggedFat(g, |log0|, log1, f)
    ensures LoggedFat(g, before, log1, f)
  {
  }

  lemma FatWrittenRefl(g: Geo, a: Snap)
    ensures FatWritten(g, a, a)
  {
  }

  // ----- sync_window, move_window -----

  /** The drive after the first of the two writes shows the FAT already, and after both the image. */
  lemma WrittenBack(g: Geo, d: Image, s: nat, sec: Sector)
    requires g.Valid(|d|) && s < |d|
    ensures Sub32(s, g.fatbase) < g.fsize <==> g.InFat1(s)
    ensures FatView(g, d[s := sec]) == FatView(g, Overlay(g, d, s, sec))
    ensures Overlay(g, d, s, sec) == if g.nFats == 2 && g.InFat1(s) then d[s := sec][s + g.fsize := sec]
            else d[s := sec]
    ensures KeepsData(g, d, Overlay(g, d, s, sec), s)
  {
    SameFat1(g, d[s := sec], Overlay(g, d, s, sec));
    Sub32InRange(s, g.fatbase, g.fsize);
  }

  /** Write the dirty window back, to the second FAT too. The image does not change. */
  method SyncWindow(fs: FatFs)
    requires fs.Valid()
    modifies fs`wflag, fs.disk
    ensures fs.Valid() && !fs.wflag
    ensures fs.Img() == old(fs.Img()) == fs.disk.sectors
    ensures KeepsData(fs.geo, old(fs.disk.sectors), fs.disk.sectors, fs.winsect)
    ensures old(fs.disk.log) <= fs.disk.log
    ensures LoggedFat(fs.geo, old(|fs.disk.log|), fs.disk.log, old(fs.Fat()))
    ensures old(!fs.wflag) ==> fs.disk.log == old(fs.disk.log)
  {
    if fs.wflag {
      WrittenBack(fs.geo, fs.disk.sectors, fs.winsect, fs.win[..]);
      fs.disk.WriteSector(fs.winsect, fs.win[..]);
      fs.wflag := false;
      if Sub32(fs.winsect, fs.geo.fatbase) < fs.geo.fsize {
        if fs.geo.nFats == 2 {
          fs.disk.WriteSector(fs.winsect + fs.geo.fsize, fs.win[..]);
        }
      }
    }
  }

  /** Bring sector s into the window, writing the window back first if it is dirty. */
  method MoveWindow(fs: FatFs, s: nat)
    requires fs.Valid() && s < |fs.disk.sectors|
    modifies fs`winsect, fs`wflag, fs.win, fs.disk
    ensures fs.Valid() && fs.winsect == s
    ensures fs.Img() == old(fs.Img())
    ensures KeepsData(fs.geo, old(fs.disk.sectors), fs.disk.sectors, old(fs.winsect))
    ensures old(fs.disk.log) <= fs.disk.log
    ensures LoggedFat(fs.geo, old(|fs.disk.log|), fs.disk.log, old(fs.Fat()))
  {
    if s != fs.winsect {
      SyncWindow(fs);
      var data := fs.disk.ReadSector(s);
      forall i | 0 <= i < 512 { fs.win[i] := data[i]; }
      fs.winsect := s;
      assert fs.win[..] == data;
    }
  }
}
