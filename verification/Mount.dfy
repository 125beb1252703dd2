/** mount_volume: the layout of a FAT volume from its boot sector, in 32-bit arithmetic. */
module Mount {
  import opened Bytes
  import opened Directory
  import opened Geometry
  import opened Results

  function Times(a: nat, b: nat): nat { a * b }

  /** The fields of the boot sector that fix the layout. */
  datatype Bpb = Bpb(
    bytsPerSec: nat,
    secPerClus: nat,
    rsvdSecCnt: nat,
    numFats: nat,
    rootEntCnt: nat,
    totSec16: nat,
    fatSz16: nat,
    totSec32: nat,
    fatSz32: nat,
    fsVer32: nat,
    rootClus32: nat
  )
  {
    /** The fields have the widths they have in the sector. */
    predicate InWidth() {
      && bytsPerSec <= 0xFFFF && secPerClus < 256 && rsvdSecCnt <= 0xFFFF && numFats < 256
      && rootEntCnt <= 0xFFFF && totSec16 <= 0xFFFF && fatSz16 <= 0xFFFF && totSec32 <= MAX_DWORD
      && fatSz32 <= MAX_DWORD && fsVer32 <= 0xFFFF && rootClus32 <= MAX_DWORD
    }

    function FatSize(): nat { if fatSz16 == 0 then fatSz32 else fatSz16 }

    function Total(): nat { if totSec16 == 0 then totSec32 else totSec16 }

    /** Sectors of all the FATs together. */
    function FatArea(): nat { Times(FatSize(), numFats) }

    /** Sectors before the data area, had the sum no width. */
    function Overhead(): nat { rsvdSecCnt + FatArea() + rootEntCnt / 16 }
  }

  function ReadBpb(win: seq<byte>): (b: Bpb)
    requires |win| == 512
    ensures b.InWidth()
  {
    Bpb(LdWord(win, 11), win[13] as int, LdWord(win, 14), win[16] as int, LdWord(win, 17), LdWord(win, 19),
        LdWord(win, 22), LdDword(win, 32), LdDword(win, 36), LdWord(win, 42), LdDword(win, 44))
  }

  /** The sub-type a cluster count stands for. */
  function TypeOf(n: nat): FsType
  {
    if n <= MAX_FAT12 then FAT12 else if n <= MAX_FAT16 then FAT16 else FAT32
  }

  /** The system area as the code adds it up, and the cluster count it leaves. */
  function SysArea(b: Bpb): nat { b.Overhead() % WRAP }

  function ClusterCount(b: Bpb): nat
    requires b.secPerClus > 0 && SysArea(b) <= b.Total()
  {
    Quotient(b.Total() - SysArea(b), b.secPerClus)
  }

  function Quotient(a: nat, d: nat): nat
    requires d > 0
  {
    a / d
  }

  /** What mount_volume checks. */
  predicate Accepted(b: Bpb) {
    && b.bytsPerSec == 512
    && (b.numFats == 1 || b.numFats == 2)
    && IsClusterSize(b.secPerClus)
    && b.rootEntCnt % 16 == 0
    && b.rsvdSecCnt != 0
    && SysArea(b) <= b.Total()
    && var n := ClusterCount(b);
       && 0 < n <= MAX_FAT32
       && (if TypeOf(n) == FAT32 then b.fsVer32 == 0 && b.rootEntCnt == 0 else b.rootEntCnt != 0)
       && (FatBytesNeeded(TypeOf(n), n + 2) + 511) / 512 <= b.FatSize()
  }

  /** The layout of an accepted volume whose boot sector is sector bsect. */
  function Layout(b: Bpb, bsect: nat): Geo
    requires Accepted(b)
  {
    var n := ClusterCount(b);
    var fatbase := (bsect + b.rsvdSecCnt) % WRAP;
    Geo(TypeOf(n), b.numFats, b.rootEntCnt, b.secPerClus, n + 2, b.FatSize(), bsect, fatbase,
        if TypeOf(n) == FAT32 then b.rootClus32 else (fatbase + b.FatArea()) % WRAP,
        (bsect + SysArea(b)) % WRAP)
  }

  /** check_fs takes the sector for the boot sector of a FAT volume: a jump, and either the mark of FAT32
      or fields a FAT volume may have. */
  predicate IsFatSector(s: seq<byte>)
    requires |s| == 512
  {
    && (s[0] == 0xEB || s[0] == 0xE9 || s[0] == 0xE8)
    && ((LdWord(s, 510) == 0xAA55 && s[82..90] == [0x46, 0x41, 0x54, 0x33, 0x32, 0x20, 0x20, 0x20])
        || var b := ReadBpb(s);
           && b.bytsPerSec == 512 && IsClusterSize(b.secPerClus) && b.rsvdSecCnt != 0 && 1 <= b.numFats <= 2
           && b.rootEntCnt != 0 && (b.totSec16 >= 128 || b.totSec32 >= 0x1_0000) && b.fatSz16 != 0)
  }

  /** check_fs, on the sector in the window. */
  method CheckFs(win: seq<byte>) returns (fmt: nat)
    requires |win| == 512
    ensures fmt == if IsFatSector(win) then 0 else if win[510] == 0x55 && win[511] == 0xAA then 2 else 3
  {
    var sign := LdWord(win, 510);
    var b := win[0] as int;
    if b == 0xEB || b == 0xE9 || b == 0xE8 {
      if sign == 0xAA55 && win[82..90] == [0x46, 0x41, 0x54, 0x33, 0x32, 0x20, 0x20, 0x20] {
        return 0;
      }
      var w := LdWord(win, 11);
      b := win[13] as int;
      if w == 512 && IsClusterSize(b) && LdWord(win, 14) != 0 && (win[16] as int == 1 || win[16] as int == 2)
         && LdWord(win, 17) != 0 && (LdWord(win, 19) >= 128 || LdDword(win, 32) >= 0x1_0000) && LdWord(win, 22) != 0 {
        return 0;
      }
    }
    fmt := if sign == 0xAA55 then 2 else 3;
  }

  /** A value nobody looks at when mounting fails. */
  const NO_LAYOUT: Geo := Geo(FAT12, 0, 0, 0, 0, 0, 0, 0, 0, 0)

  /** A byte is a power of two exactly when it and its predecessor have no bit in common. */
  lemma PowerOfTwoTest(c: bv8)
    ensures c != 0 && c & (c - 1) == 0 <==> IsClusterSize(c as int)
  {
    assert c != 0 && c & (c - 1) == 0 <==>
           c == 1 || c == 2 || c == 4 || c == 8 || c == 16 || c == 32 || c == 64 || c == 128;
  }

  /** mount_volume from the boot sector on. */
  method MountVolume(win: seq<byte>, bsect: nat) returns (res: FResult, g: Geo)
    requires |win| == 512 && bsect <= MAX_DWORD
    ensures res == if Accepted(ReadBpb(win)) then FR_OK else FR_NO_FILESYSTEM
    ensures res == FR_OK ==> g == Layout(ReadBpb(win), bsect)
  {
    ghost var b := ReadBpb(win);
    res, g := FR_NO_FILESYSTEM, NO_LAYOUT;
    if LdWord(win, 11) != 512 { return; }
    var fasize := LdWord(win, 22);
    if fasize == 0 { fasize := LdDword(win, 36); }
    var fsize := fasize;
    var nFats := win[16] as int;
    if nFats != 1 && nFats != 2 { return; }
    fasize := fasize * nFats % WRAP;
    var csize := win[13] as int;
    if !IsClusterSize(csize) { return; }
    var nRootdir := LdWord(win, 17);
    if nRootdir % 16 != 0 { return; }
    var tsect := LdWord(win, 19);
    if tsect == 0 { tsect := LdDword(win, 32); }
    var nrsv := LdWord(win, 14);
    if nrsv == 0 { return; }
    var sysect := (nrsv + fasize + nRootdir / 16) % WRAP;
    SystemArea(b, nrsv, fsize, nFats, nRootdir, fasize);
    if tsect < sysect { return; }
    assert sysect == SysArea(b) && tsect == b.Total();
    res, g := Finish(win, b, bsect, tsect, sysect, csize, nRootdir, nFats, fsize, nrsv, fasize);
  }

  lemma SystemArea(b: Bpb, nrsv: nat, fsize: nat, nFats: nat, nRootdir: nat, fasize: nat)
    requires nrsv == b.rsvdSecCnt && fsize == b.FatSize() && nFats == b.numFats && nRootdir == b.rootEntCnt
    requires fasize == fsize * nFats % WRAP
    ensures (nrsv + fasize + nRootdir / 16) % WRAP == SysArea(b)
  {
    WrapSum(nrsv, fsize * nFats, nRootdir / 16);
  }

  lemma WrapSum(a: nat, b: nat, c: nat)
    ensures (a + b % WRAP + c) % WRAP == (a + b + c) % WRAP
  {
    var q := b / WRAP;
    assert a + b + c == (a + b % WRAP + c) + WRAP * q;
  }

  /** The sub-type and the rest of the checks. */
  method Finish(win: seq<byte>, ghost b: Bpb, bsect: nat, tsect: nat, sysect: nat, csize: nat, nRootdir: nat,
                nFats: nat, fsize: nat, nrsv: nat, fasize: nat)
    returns (res: FResult, g: Geo)
    requires |win| == 512 && b == ReadBpb(win) && bsect <= MAX_DWORD
    requires b.bytsPerSec == 512 && (nFats == 1 || nFats == 2) && IsClusterSize(csize) && nRootdir % 16 == 0
             && nrsv != 0
    requires csize == b.secPerClus && nRootdir == b.rootEntCnt && nFats == b.numFats && fsize == b.FatSize()
             && nrsv == b.rsvdSecCnt
    requires tsect == b.Total() && sysect == SysArea(b) && sysect <= tsect && fasize == fsize * nFats % WRAP
    ensures res == if Accepted(b) then FR_OK else FR_NO_FILESYSTEM
    ensures res == FR_OK ==> g == Layout(b, bsect)
  {
    hide FatBytesNeeded, SysArea, ReadBpb;
    res, g := FR_NO_FILESYSTEM, NO_LAYOUT;
    var nclst := (tsect - sysect) / csize;
    if nclst == 0 || nclst > MAX_FAT32 { return; }
    var fmt := TypeOf(nclst);
    var nFatent := nclst + 2;
    var fatbase := (bsect + nrsv) % WRAP;
    var database := (bsect + sysect) % WRAP;
    var dirbase;
    if fmt == FAT32 {
      if LdWord(win, 42) != 0 { BpbFields(win); return; }
      if nRootdir != 0 { return; }
      dirbase := LdDword(win, 44);
    } else {
      if nRootdir == 0 { return; }
      dirbase := (fatbase + fasize) % WRAP;
    }
    BpbFields(win);
    WrapSum(fatbase, fsize * nFats, 0);
    var szbfat := FatBytesNeeded(fmt, nFatent);
    if fsize < (szbfat + 511) / 512 { return; }
    res := FR_OK;
    g := Geo(fmt, nFats, nRootdir, csize, nFatent, fsize, bsect, fatbase, dirbase, database);
  }

  lemma BpbFields(win: seq<byte>)
    requires |win| == 512
    ensures ReadBpb(win).fsVer32 == LdWord(win, 42) && ReadBpb(win).rootClus32 == LdDword(win, 44)
  {
  }

  // ----- what mounting guarantees -----

  lemma QuotientTimes(a: nat, d: nat)
    requires d > 0
    ensures d * Quotient(a, d) <= a
  {
  }

  lemma AcceptedFacts(b: Bpb)
    requires Accepted(b)
    ensures b.numFats == 1 || b.numFats == 2
    ensures IsClusterSize(b.secPerClus) && b.rootEntCnt % 16 == 0 && b.rsvdSecCnt != 0
    ensures SysArea(b) <= b.Total()
    ensures var n := ClusterCount(b);
            && 0 < n <= MAX_FAT32 && n <= MaxClusters(TypeOf(n))
            && FatBytesNeeded(TypeOf(n), n + 2) <= 512 * b.FatSize()
            && b.secPerClus * n <= b.Total() - SysArea(b)
            && (TypeOf(n) == FAT32 ==> b.rootEntCnt == 0)
  {
    hide FatBytesNeeded, SysArea;
    QuotientTimes(b.Total() - SysArea(b), b.secPerClus);
    var n := ClusterCount(b);
    CeilingCovers(FatBytesNeeded(TypeOf(n), n + 2), b.FatSize());
  }

  lemma CeilingCovers(x: nat, s: nat)
    ensures (x + 511) / 512 <= s <==> x <= 512 * s
  {
  }

  /** The end of the volume as it is laid out without wrapping. */
  function TrueEnd(b: Bpb, bsect: nat): nat
    requires Accepted(b)
  {
    bsect + b.Overhead() + Times(b.secPerClus, ClusterCount(b))
  }

  /** An accepted layout keeps every FAT entry inside the FAT, the FATs, the root area and the data
      area apart, and every cluster on a drive of nsect sectors, if and only if it ends on that
      drive when its sums are taken without wrapping. */
  lemma MountedIsValid(b: Bpb, bsect: nat, nsect: nat)
    requires b.InWidth() && Accepted(b) && bsect <= MAX_DWORD && nsect <= MAX_DWORD
    ensures Layout(b, bsect).Valid(nsect) <==> TrueEnd(b, bsect) <= nsect
    ensures TrueEnd(b, bsect) <= nsect ==> RootFits(Layout(b, bsect))
    ensures TrueEnd(b, bsect) <= nsect && Layout(b, bsect).fsType == FAT32 ==> Layout(b, bsect).nRootdir == 0
  {
    AcceptedFacts(b);
    hide Accepted, FatBytesNeeded, MaxClusters, TypeOf, IsClusterSize;
    if b.Overhead() + bsect < WRAP {
      PlainLayout(b, bsect, nsect);
    } else {
      WrappedLayout(b, bsect, nsect);
    }
  }

  lemma NoWrap(v: nat, r: nat, f: nat, d: nat)
    requires v + r + f + d < WRAP
    ensures (r + f + d) % WRAP == r + f + d && (v + (r + f + d) % WRAP) % WRAP == v + r + f + d
    ensures (v + r) % WRAP == v + r && ((v + r) % WRAP + f) % WRAP == v + r + f
  {
  }

  lemma AreaIs(b: Bpb)
    requires b.numFats == 1 || b.numFats == 2
    ensures b.FatArea() == if b.numFats == 2 then 2 * b.FatSize() else b.FatSize()
  {
  }

  lemma DataIs(b: Bpb)
    requires Accepted(b)
    ensures Times(b.secPerClus, ClusterCount(b)) == b.secPerClus * ((ClusterCount(b) + 2) - 2)
  {
    hide Accepted, ClusterCount;
  }

  lemma PlainLayout(b: Bpb, bsect: nat, nsect: nat)
    requires b.InWidth() && Accepted(b) && bsect <= MAX_DWORD && nsect <= MAX_DWORD && b.Overhead() + bsect < WRAP
    requires b.numFats == 1 || b.numFats == 2
    requires IsClusterSize(b.secPerClus) && b.rsvdSecCnt != 0 && b.rootEntCnt % 16 == 0
    requires var n := ClusterCount(b);
             0 < n <= MaxClusters(TypeOf(n)) && FatBytesNeeded(TypeOf(n), n + 2) <= 512 * b.FatSize()
    ensures Layout(b, bsect).Valid(nsect) <==> TrueEnd(b, bsect) <= nsect
    ensures RootFits(Layout(b, bsect))
  {
    hide *;
    AreaIs(b);
    DataIs(b);
    LayoutIs(b, bsect);
    NoWrap(bsect, b.rsvdSecCnt, b.FatArea(), b.rootEntCnt / 16);
    ValidIs(Layout(b, bsect), nsect);
    MaxDword();
  }

  lemma MaxDword()
    ensures WRAP == 0x1_0000_0000 && MAX_DWORD == 0xFFFF_FFFF
  {
  }

  lemma LayoutIs(b: Bpb, bsect: nat)
    requires Accepted(b)
    ensures var g, n := Layout(b, bsect), ClusterCount(b);
      && g.fsType == TypeOf(n) && g.nFats == b.numFats && g.csize == b.secPerClus && g.nFatent == n + 2
      && g.fsize == b.FatSize() && g.volbase == bsect && g.fatbase == (bsect + b.rsvdSecCnt) % WRAP
      && (g.fsType != FAT32 ==> g.dirbase == (g.fatbase + b.FatArea()) % WRAP)
      && g.database == (bsect + (b.rsvdSecCnt + b.FatArea() + b.rootEntCnt / 16) % WRAP) % WRAP
      && g.nRootdir == b.rootEntCnt
    ensures TrueEnd(b, bsect) ==
            bsect + (b.rsvdSecCnt + b.FatArea() + b.rootEntCnt / 16) + Times(b.secPerClus, ClusterCount(b))
    ensures b.Overhead() == b.rsvdSecCnt + b.FatArea() + b.rootEntCnt / 16
  {
    hide Accepted, ClusterCount, TypeOf, Times;
  }

  lemma ValidIs(g: Geo, nsect: nat)
    ensures g.Valid(nsect) <==>
      && nsect <= MAX_DWORD && (g.nFats == 1 || g.nFats == 2) && IsClusterSize(g.csize)
      && 3 <= g.nFatent <= MaxClusters(g.fsType) + 2 && FatBytesNeeded(g.fsType, g.nFatent) <= 512 * g.fsize
      && g.volbase < g.fatbase && g.fatbase + (if g.nFats == 2 then 2 * g.fsize else g.fsize) <= g.database
      && g.database + g.csize * (g.nFatent - 2) <= nsect
    ensures RootFits(g) <==>
      (g.fsType != FAT32 ==>
        && g.fatbase + (if g.nFats == 2 then 2 * g.fsize else g.fsize) <= g.dirbase
        && g.nRootdir % 16 == 0 && g.dirbase + g.nRootdir / 16 <= g.database)
  {
    hide FatBytesNeeded, MaxClusters, IsClusterSize;
  }

  lemma WrappedLayout(b: Bpb, bsect: nat, nsect: nat)
    requires b.InWidth() && Accepted(b) && bsect <= MAX_DWORD && nsect <= MAX_DWORD && b.Overhead() + bsect >= WRAP
    requires b.numFats == 1 || b.numFats == 2
    ensures !Layout(b, bsect).Valid(nsect) && TrueEnd(b, bsect) > nsect
  {
    hide *;
    AreaIs(b);
    WidthIs(b);
    LayoutIs(b, bsect);
    WrapsBelow(bsect, b.rsvdSecCnt, b.FatArea(), b.rootEntCnt / 16);
    ValidIs(Layout(b, bsect), nsect);
    MaxDword();
  }

  lemma WidthIs(b: Bpb)
    requires b.InWidth()
    ensures b.rsvdSecCnt <= 0xFFFF && b.rootEntCnt / 16 <= 0xFFFF
  {
  }

  /** If the sum reaches 2^32, either the FAT starts before the volume or the data area starts
      before the FATs end. */
  lemma WrapsBelow(v: nat, r: nat, f: nat, d: nat)
    requires v <= MAX_DWORD && r <= 0xFFFF && d <= 0xFFFF && v + r + f + d >= WRAP
    ensures (v + r) % WRAP <= v || (v + (r + f + d) % WRAP) % WRAP < (v + r) % WRAP + f
  {
    WrapSum(v, r + f + d, 0);
    if v + r < WRAP {
      assert (v + (r + f + d) % WRAP) % WRAP == (v + r + f + d) % WRAP;
      assert (v + r + f + d) % WRAP <= v + r + f + d - WRAP;
    }
  }

  /** There is an accepted volume with no valid layout: two FATs of 2^31 sectors each add up to 0. */
  lemma WrappedVolumeMounts(nsect: nat)
    ensures var b := Bpb(512, 1, 1, 2, 512, 0, 0, 0x1_0000, 0x8000_0000, 0, 0);
            b.InWidth() && Accepted(b) && !Layout(b, 0).Valid(nsect)
  {
    var b := Bpb(512, 1, 1, 2, 512, 0, 0, 0x1_0000, 0x8000_0000, 0, 0);
    assert b.FatArea() == 0x1_0000_0000 && SysArea(b) == 33;
    assert ClusterCount(b) == 0xFFDF;
  }
}
