/** f_mkfs after the boot sector: the FATs and the root directory it writes, and that what it leaves
    mounts as an empty, well-formed volume. */
module FormatFat {
  import opened Bytes
  import opened Chains
  import opened FatAccess
  import opened FatTable
  import opened Format
  import opened FreeScan
  import opened Geometry
  import opened Mount
  import opened Results
  import opened Sectors
  import opened Volume

  // ----- the cleared FAT -----

  /** The table f_mkfs leaves: nothing in use but, on FAT32, cluster 2 for the root directory. */
  ghost predicate Cleared(t: FsType, f: Table) {
    && |f| >= 3
    && forall c :: InTable(f, c) ==> if t == FAT32 && c == 2 then f[c] >= |f| else f[c] == 0
  }

  lemma {:induction false} AllFree(f: Table, lo: nat, hi: nat)
    requires lo <= hi <= |f| && forall c :: lo <= c < hi ==> f[c] == 0
    ensures FreeBetween(f, lo, hi) == hi - lo
  {
    if lo < hi { AllFree(f, lo, hi - 1); }
  }

  /** It is a well-formed FAT, with all clusters free but the root directory's: the count that goes
      into FSINFO. */
  lemma ClearedIsWellFormed(t: FsType, f: Table)
    requires Cleared(t, f)
    ensures WellFormed(f)
    ensures FreeCount(f) == |f| - 2 - (if t == FAT32 then 1 else 0)
  {
    forall c | InTable(f, c) && f[c] != 0
      ensures Ends(f, c)
    {
      assert IsChain(f, [c]) && [c][0] == c;
    }
    var g := f[2 := 0];
    AllFree(g, 2, |g|);
    FreeCountUpdate(f, 2, 0);
  }

  // ----- the bytes -----

  /** How a FAT begins: entries 0 and 1, and on FAT32 the root directory's. */
  function FatHead(t: FsType): (h: seq<byte>) {
    match t
    case FAT32 => [0xF8, 0xFF, 0xFF, 0xFF, 0xFF, 0xFF, 0xFF, 0xFF, 0xFF, 0xFF, 0xFF, 0x0F]
    case FAT16 => [0xF8, 0xFF, 0xFF, 0xFF]
    case FAT12 => [0xF8, 0xFF, 0xFF, 0x00]
  }

  /** Zeros after a head. */
  function ZeroPadded(h: seq<byte>): (s: Sector)
    requires |h| <= 512
    ensures s[..|h|] == h && forall k :: |h| <= k < 512 ==> s[k] == 0
  {
    h + seq(512 - |h|, _ => 0)
  }

  lemma HeadFits(t: FsType)
    ensures |FatHead(t)| == (if t == FAT32 then 12 else 4)
    ensures FatHead(t)[0] == 0xF8 && FatHead(t)[1] == FatHead(t)[2] == 0xFF
    ensures t != FAT12 ==> FatHead(t)[3] == 0xFF
    ensures t == FAT12 ==> FatHead(t)[3] == 0
    ensures t == FAT32 ==> FatHead(t)[4] == FatHead(t)[5] == FatHead(t)[6] == FatHead(t)[7] == 0xFF
    ensures t == FAT32 ==> FatHead(t)[8] == FatHead(t)[9] == FatHead(t)[10] == 0xFF && FatHead(t)[11] == 0x0F
  {
  }

  /** A run of sectors: the first as given, the rest zero. */
  ghost predicate SectorRun(d: Image, s: nat, n: nat, first: Sector) {
    s + n <= |d| && forall k :: s <= k < s + n ==> d[k] == if k == s then first else ZeroPadded([])
  }

  /** What a FAT whose bytes are these holds. */
  lemma HeadEntries(t: FsType, b: seq<byte>, c: nat)
    requires FatBytesNeeded(t, c + 1) <= |b| && |FatHead(t)| <= |b|
    requires FatHead(t) <= b && forall k :: |FatHead(t)| <= k < |b| ==> b[k] == 0
    ensures c < 2 ==> Entry(t, b, c) != 0
    ensures t == FAT32 && c == 2 ==> Entry(t, b, c) == 0x0FFF_FFFF
    ensures c >= 2 && !(t == FAT32 && c == 2) ==> Entry(t, b, c) == 0
  {
    HeadFits(t);
    hide FatHead;
    Fits12(c);
  }

  /** The bytes f_mkfs stores are a cleared FAT, with entries 0 and 1 in use. */
  lemma WrittenIsCleared(g: Geo, d: Image)
    requires g.Valid(|d|) && SectorRun(d, g.fatbase, g.fsize, ZeroPadded(FatHead(g.fsType)))
    ensures Cleared(g.fsType, FatView(g, d)) && FatView(g, d)[0] != 0 && FatView(g, d)[1] != 0
  {
    var b := Fat1(g, d);
    forall c: nat | c < g.nFatent
      ensures c < 2 ==> FatView(g, d)[c] != 0
      ensures c >= 2 ==> if g.fsType == FAT32 && c == 2 then FatView(g, d)[c] == 0x0FFF_FFFF else FatView(g, d)[c] == 0
    {
      FatAt(g, d, c);
      HeadOfFat(g, d);
      HeadEntries(g.fsType, b, c);
    }
  }

  lemma HeadOfFat(g: Geo, d: Image)
    requires g.Valid(|d|) && SectorRun(d, g.fatbase, g.fsize, ZeroPadded(FatHead(g.fsType)))
    ensures var b := Fat1(g, d);
            FatHead(g.fsType) <= b && forall k :: |FatHead(g.fsType)| <= k < |b| ==> b[k] == 0
  {
    var b, h := Fat1(g, d), FatHead(g.fsType);
    HeadFits(g.fsType);
    forall k | 0 <= k < |b|
      ensures b[k] == if k < |h| then h[k] else 0
    {
      assert b[k] == d[g.fatbase + k / 512][k % 512];
    }
  }

  // ----- the loops -----

  /** The work buffer starts with this sector and is zero behind it. */
  ghost predicate Ready(b: seq<byte>, first: Sector) {
    |b| >= 512 && b[..512] == first && forall k :: 512 <= k < |b| ==> b[k] == 0
  }

  /** From d0 to d the run alone was written. */
  ghost predicate Filled(d0: Image, d: Image, s: nat, n: nat, first: Sector) {
    |d| == |d0| && SectorRun(d, s, n, first) && forall k :: 0 <= k < |d| && !(s <= k < s + n) ==> d[k] == d0[k]
  }

  lemma FilledNothing(d: Image, s: nat, first: Sector)
    requires s <= |d|
    ensures Filled(d, d, s, 0, first)
  {
  }

  /** One transfer more; the buffer holds the first sector only before the first of them. */
  lemma FilledMore(d0: Image, d: Image, s: nat, done: nat, n: nat, first: Sector, b: seq<byte>)
    requires Filled(d0, d, s, done, first) && Ready(b, if done == 0 then first else ZeroPadded([]))
    requires 0 < n && 512 * n <= |b| && s + done + n <= |d|
    ensures |b[..512 * n]| / 512 == n && Filled(d0, PutSectors(d, s + done, b[..512 * n]), s, done + n, first)
  {
    hide *;
    var d' := PutSectors(d, s + done, b[..512 * n]);
    forall k: nat | k < |d|
      ensures d'[k] == if s + done <= k < s + done + n then (if k == s then first else ZeroPadded([])) else d[k]
    {
      SectorPut(d, s + done, n, if done == 0 then first else ZeroPadded([]), b, k);
    }
    FilledJoin(d0, d, d', s, done, n, first);
  }

  lemma FilledJoin(d0: Image, d: Image, d': Image, s: nat, done: nat, n: nat, first: Sector)
    requires Filled(d0, d, s, done, first) && |d'| == |d| && s + done + n <= |d|
    requires forall k: nat :: k < |d| ==>
               d'[k] == if s + done <= k < s + done + n then (if k == s then first else ZeroPadded([])) else d[k]
    ensures Filled(d0, d', s, done + n, first)
  {
    hide ZeroPadded;
  }

  lemma SectorPut(d: Image, s: nat, n: nat, first: Sector, b: seq<byte>, k: nat)
    requires Ready(b, first) && 512 * n <= |b| && s + n <= |d| && k < |d|
    ensures PutSectors(d, s, b[..512 * n])[k] == if s <= k < s + n then (if k == s then first else ZeroPadded([]))
            else d[k]
  {
    PutSectorsAt(d, s, b[..512 * n], k);
    if s <= k < s + n {
      SectorOfBuffer(b, first, k - s);
      assert b[..512 * n][512 * (k - s)..512 * (k - s) + 512] == b[512 * (k - s)..512 * (k - s) + 512];
    }
  }

  lemma SectorOfBuffer(b: seq<byte>, first: Sector, j: nat)
    requires Ready(b, first) && 512 * j + 512 <= |b|
    ensures b[512 * j..512 * j + 512] == if j == 0 then first else ZeroPadded([])
  {
  }

  /** memset of the first sector, in a buffer of sz sectors. */
  method ClearFirst(buf: array<byte>, sz: nat, ghost first: Sector)
    requires 0 < 512 * sz <= buf.Length && Ready(buf[..512 * sz], first)
    modifies buf
    ensures Ready(buf[..512 * sz], ZeroPadded([]))
  {
    forall k | 0 <= k < 512 { buf[k] := 0; }
    assert buf[..512 * sz][..512] == ZeroPadded([]);
  }

  /** The do-while loop that writes n sectors from a buffer of several, the first of them as it is
      and the rest zero. For the root directory the buffer is zero from the start, and clearing it
      after a transfer, which the code leaves out there, changes nothing. */
  method FillRun(disk: Disk, buf: array<byte>, sz: nat, s: nat, n: nat, ghost first: Sector) returns (next: nat)
    requires 0 < 512 * sz <= buf.Length && Ready(buf[..512 * sz], first) && 0 < n && s + n <= |disk.sectors|
    modifies disk, buf
    ensures next == s + n && Ready(buf[..512 * sz], ZeroPadded([]))
    ensures Filled(old(disk.sectors), disk.sectors, s, n, first)
  {
    hide *;
    ghost var d0 := disk.sectors;
    next := s;
    var nsect := n;
    FilledNothing(d0, s, first);
    while nsect > 0
      invariant 0 <= nsect <= n && next + nsect == s + n && |disk.sectors| == |d0|
      invariant Ready(buf[..512 * sz], if nsect == n then first else ZeroPadded([]))
      invariant Filled(d0, disk.sectors, s, n - nsect, first)
    {
      var m := if nsect > sz then sz else nsect;
      FilledMore(d0, disk.sectors, s, n - nsect, m, first, buf[..512 * sz]);
      SliceOfSlice(buf[..], 512 * m, 512 * sz);
      disk.WriteSectors(next, buf[..512 * m]);
      ClearFirst(buf, sz, if nsect == n then first else ZeroPadded([]));
      next, nsect := next + m, nsect - m;
    }
  }

  lemma SliceOfSlice(b: seq<byte>, m: nat, n: nat)
    requires m <= n <= |b|
    ensures b[..n][..m] == b[..m]
  {
  }

  /** Entries 0 and 1, and on FAT32 the root directory's, into the cleared buffer. */
  method StoreHead(buf: array<byte>, sz: nat, t: FsType)
    requires 0 < 512 * sz <= buf.Length && Ready(buf[..512 * sz], ZeroPadded([]))
    modifies buf
    ensures Ready(buf[..512 * sz], ZeroPadded(FatHead(t)))
  {
    hide Ready, FatHead, ZeroPadded;
    AllZero(buf[..512 * sz]);
    assert forall k :: 0 <= k < 512 * sz ==> buf[k] == buf[..512 * sz][k];
    HeadFits(t);
    if t == FAT32 {
      StDword(buf, 0, 0xFFFF_FFF8);
      StDword(buf, 4, 0xFFFF_FFFF);
      StDword(buf, 8, 0x0FFF_FFFF);
    } else {
      StDword(buf, 0, if t == FAT12 then 0xFF_FFF8 else 0xFFFF_FFF8);
    }
    ReadyFrom(buf[..512 * sz], FatHead(t));
  }

  lemma AllZero(b: seq<byte>)
    requires Ready(b, ZeroPadded([]))
    ensures forall k :: 0 <= k < |b| ==> b[k] == 0
  {
    forall k | 0 <= k < 512
      ensures b[k] == 0
    {
      assert b[k] == b[..512][k];
    }
  }

  lemma ReadyFrom(b: seq<byte>, h: seq<byte>)
    requires |b| >= 512 && |h| <= 512 && forall k :: 0 <= k < |b| ==> b[k] == if k < |h| then h[k] else 0
    ensures Ready(b, ZeroPadded(h))
  {
    assert b[..512] == ZeroPadded(h);
  }

  /** First sector after n copies. */
  function AfterFats(b: nat, size: nat, n: nat): nat {
    if n == 0 then b else if n == 1 then b + size else b + 2 * size
  }

  /** n copies of the cleared FAT, and nothing else written. */
  ghost predicate FatsWritten(d0: Image, d: Image, t: FsType, b: nat, size: nat, n: nat) {
    && |d| == |d0|
    && (n >= 1 ==> SectorRun(d, b, size, ZeroPadded(FatHead(t))))
    && (n >= 2 ==> SectorRun(d, b + size, size, ZeroPadded(FatHead(t))))
    && forall k :: 0 <= k < |d| && !(b <= k < AfterFats(b, size, n)) ==> d[k] == d0[k]
  }

  lemma FatsStart(d: Image, t: FsType, b: nat, size: nat)
    ensures FatsWritten(d, d, t, b, size, 0)
  {
  }

  lemma FatsMore(d0: Image, d: Image, d': Image, t: FsType, b: nat, size: nat, n: nat)
    requires n < 2 && FatsWritten(d0, d, t, b, size, n)
             && Filled(d, d', AfterFats(b, size, n), size, ZeroPadded(FatHead(t)))
    ensures FatsWritten(d0, d', t, b, size, n + 1)
  {
    hide FatHead;
  }

  lemma AfterFatsStep(b: nat, size: nat, n: nat, m: nat)
    requires n < m <= 2
    ensures AfterFats(b, size, 0) == b
    ensures AfterFats(b, size, n + 1) == AfterFats(b, size, n) + size <= AfterFats(b, size, m)
  {
  }

  /** The FATs, then the root directory: its clusters on FAT32, its own area otherwise. */
  method InitVolume(disk: Disk, buf: array<byte>, sz: nat, t: FsType, bFat: nat, szFat: nat, nFat: nat, nDir: nat)
    requires 0 < 512 * sz <= buf.Length && (nFat == 1 || nFat == 2) && szFat > 0 && nDir > 0
    requires AfterFats(bFat, szFat, nFat) + nDir <= |disk.sectors|
    modifies disk, buf
    ensures var s := AfterFats(bFat, szFat, nFat);
            exists d :: FatsWritten(old(disk.sectors), d, t, bFat, szFat, nFat)
              && Filled(d, disk.sectors, s, nDir, ZeroPadded([]))
  {
    hide *;
    forall k | 0 <= k < 512 * sz { buf[k] := 0; }
    BufferCleared(buf[..512 * sz]);
    var sect, i := bFat, 0;
    ghost var d0 := disk.sectors;
    FatsStart(d0, t, bFat, szFat);
    AfterFatsStep(bFat, szFat, 0, nFat);
    HeadFits(t);
    while i < nFat
      invariant 0 <= i <= nFat && sect == AfterFats(bFat, szFat, i) && |disk.sectors| == |d0|
      invariant Ready(buf[..512 * sz], ZeroPadded([])) && FatsWritten(d0, disk.sectors, t, bFat, szFat, i)
    {
      AfterFatsStep(bFat, szFat, i, nFat);
      ghost var d := disk.sectors;
      StoreHead(buf, sz, t);
      sect := FillRun(disk, buf, sz, sect, szFat, ZeroPadded(FatHead(t)));
      FatsMore(d0, d, disk.sectors, t, bFat, szFat, i);
      FilledSize(d, disk.sectors, AfterFats(bFat, szFat, i), szFat, ZeroPadded(FatHead(t)));
      i := i + 1;
    }
    sect := FillRun(disk, buf, sz, sect, nDir, ZeroPadded([]));
  }

  lemma FilledSize(d0: Image, d: Image, s: nat, n: nat, first: Sector)
    requires Filled(d0, d, s, n, first)
    ensures |d| == |d0|
  {
  }

  lemma BufferCleared(b: seq<byte>)
    requires |b| >= 512 && forall k :: 0 <= k < |b| ==> b[k] == 0
    ensures Ready(b, ZeroPadded([]))
  {
    ReadyFrom(b, []);
  }

  // ----- the whole of f_mkfs -----

  /** Where the root directory is: cluster 2 on FAT32, its own area otherwise. */
  function RootAt(g: Geo): nat { if g.fsType == FAT32 then g.database else g.dirbase }

  function RootSize(g: Geo): nat { if g.fsType == FAT32 then g.csize else g.nRootdir / 16 }

  /** An empty volume: cleared FATs that agree, and a root directory of zeros. */
  ghost predicate Blank(g: Geo, d: Image) {
    && g.Valid(|d|) && Mirrored(g, d)
    && Cleared(g.fsType, FatView(g, d)) && FatView(g, d)[0] != 0 && FatView(g, d)[1] != 0
    && SectorRun(d, RootAt(g), RootSize(g), ZeroPadded([]))
  }

  /** The FATs and the root directory lie side by side, on the drive. */
  ghost predicate RootFollows(g: Geo) {
    && 1 <= g.nFats <= 2 && AfterFats(g.fatbase, g.fsize, g.nFats) == RootAt(g)
    && 0 < RootSize(g) && RootAt(g) + RootSize(g) <= g.database + g.csize && g.fsize > 0
  }

  lemma InitIsBlank(g: Geo, d0: Image, d: Image, d1: Image)
    requires g.Valid(|d0|) && RootFollows(g) && FatsWritten(d0, d, g.fsType, g.fatbase, g.fsize, g.nFats)
    requires Filled(d, d1, RootAt(g), RootSize(g), ZeroPadded([]))
    ensures |d1| == |d0| && Blank(g, d1)
    ensures forall k :: 0 <= k < |d0| && !(g.fatbase <= k < RootAt(g) + RootSize(g)) ==> d1[k] == d0[k]
  {
    hide FatHead, Cleared;
    WrittenIsCleared(g, d1);
  }

  /** The layout f_mkfs makes puts them so. */
  lemma MadeFollows(v: Format.Volume, bVol: nat, szVol: nat, nFat: nat, nRoot: nat, nsect: nat)
    requires IsPlan(v, szVol, nFat, nRoot) && Options(szVol, nFat, nRoot)
    requires Made(v, bVol, nFat, nRoot).Valid(nsect)
    ensures var g := Made(v, bVol, nFat, nRoot);
            && RootFollows(g) && g.fsType == v.t && g.csize == v.pau && g.nFats == nFat && g.fsize == v.szFat
               && g.fatbase == bVol + v.szRsv
            && g.volbase == bVol && RootSize(g) == (if v.t == FAT32 then v.pau else v.szDir) && RootSize(g) > 0
            && (nFat == 1 || nFat == 2) && v.szFat > 0 && AfterFats(g.fatbase, v.szFat, nFat) == RootAt(g)
            && bVol < g.fatbase && bVol < nsect && RootAt(g) + RootSize(g) <= nsect
  {
    hide *;
    PlanFacts(v, szVol, nFat, nRoot);
    FatFits(v, szVol, nFat, nRoot);
    OptionFacts(szVol, nFat, nRoot);
    MadeParts(v, bVol, nFat, nRoot);
    RootOnDrive(Made(v, bVol, nFat, nRoot), nsect);
  }

  lemma MadeParts(v: Format.Volume, bVol: nat, nFat: nat, nRoot: nat)
    requires (nFat == 1 || nFat == 2) && v.szDir == (if v.t == FAT32 then 0 else nRoot / 16)
    ensures var g := Made(v, bVol, nFat, nRoot);
            && g.fsType == v.t && g.nFats == nFat && g.fsize == v.szFat && g.fatbase == bVol + v.szRsv
               && g.volbase == bVol && g.csize == v.pau
            && RootSize(g) == (if v.t == FAT32 then v.pau else v.szDir)
            && AfterFats(g.fatbase, v.szFat, nFat) == RootAt(g)
            && RootAt(g) + (if v.t == FAT32 then 0 else RootSize(g)) == g.database
  {
  }

  lemma RootOnDrive(g: Geo, nsect: nat)
    requires g.Valid(nsect) && 0 < RootSize(g) && AfterFats(g.fatbase, g.fsize, g.nFats) == RootAt(g) && g.fsize > 0
    requires RootAt(g) + (if g.fsType == FAT32 then 0 else RootSize(g)) == g.database
    ensures RootFollows(g) && RootAt(g) + RootSize(g) <= nsect && g.volbase < g.fatbase < nsect
  {
    var rest := g.nFatent - 2;
    assert g.csize * rest >= g.csize;
  }

  /** So a volume f_mkfs made is well formed with every cluster free but the root directory's, and the
      first scan of f_getfree counts it right. */
  lemma BlankIsEmpty(g: Geo, d: Image)
    requires Blank(g, d)
    ensures WellFormed(FatView(g, d))
    ensures FreeCount(FatView(g, d)) == g.nFatent - 2 - (if g.fsType == FAT32 then 1 else 0)
    ensures FreeBetween(FatView(g, d), 0, g.nFatent) == FreeCount(FatView(g, d))
  {
    ClearedIsWellFormed(g.fsType, FatView(g, d));
    ScanIsRight(FatView(g, d));
  }

  /** f_mkfs: on success the boot sector it stored mounts, and the volume it describes is blank; the
      reserved sectors behind the boot sector and all others are left alone. On failure nothing is written. */
  method FormatDrive(disk: Disk, fat: bool, fat32: bool, sfd: bool, nFatOpt: nat, nRootOpt: nat, auSize: nat,
                     vsn: nat, work: array<byte>)
    returns (res: FResult)
    requires |disk.sectors| <= MAX_DWORD && vsn <= MAX_DWORD
    modifies disk, work
    ensures |disk.sectors| == old(|disk.sectors|)
    ensures work.Length < 512 <==> res == FR_NOT_ENOUGH_CORE
    ensures res != FR_OK ==> disk.sectors == old(disk.sectors)
    ensures var szVol := |disk.sectors| - BaseOf(|disk.sectors|, sfd);
            res == FR_OK <==>
              && work.Length >= 512 && szVol >= 128 && (fat || fat32)
              && Feasible(szVol, FatsOf(nFatOpt), RootOf(nRootOpt), fat, fat32, UnitOf(auSize))
    ensures res == FR_OK ==>
      var bVol := BaseOf(|disk.sectors|, sfd);
      && bVol < |disk.sectors| && IsFatSector(disk.sectors[bVol]) && Accepted(ReadBpb(disk.sectors[bVol]))
      && var g := Layout(ReadBpb(disk.sectors[bVol]), bVol);
      && g.volbase == bVol && Blank(g, disk.sectors)
      && Picked(|disk.sectors| - bVol, FatsOf(nFatOpt), RootOf(nRootOpt), fat, fat32, UnitOf(auSize), g.fsType, g.csize)
      && forall k :: 0 <= k < |disk.sectors| && k != bVol && !(g.fatbase <= k < RootAt(g) + RootSize(g)) ==>
           disk.sectors[k] == old(disk.sectors[k])
  {
    hide *;
    res := FR_NOT_ENOUGH_CORE;
    if work.Length / 512 > 0 {
      var nsect := |disk.sectors|;
      var boot := new byte[512];
      var v;
      res, v := Mkfs(nsect, fat, fat32, sfd, nFatOpt, nRootOpt, auSize, vsn, boot);
      if res == FR_OK {
        var bVol, nFat := BaseOf(nsect, sfd), FatsOf(nFatOpt);
        ghost var g, d0 := Layout(ReadBpb(boot[..]), bVol), disk.sectors;
        OptionsHold(nsect - bVol, nFatOpt, nRootOpt);
        MadeFollows(v, bVol, nsect - bVol, nFat, RootOf(nRootOpt), nsect);
        disk.WriteSector(bVol, boot[..]);
        ghost var d1 := disk.sectors;
        InitVolume(disk, work, work.Length / 512, v.t, bVol + v.szRsv, v.szFat, nFat,
                   if v.t == FAT32 then v.pau else v.szDir);
        ghost var d :| FatsWritten(d1, d, v.t, g.fatbase, v.szFat, nFat)
          && Filled(d, disk.sectors, RootAt(g), RootSize(g), ZeroPadded([]));
        InitIsBlank(g, d1, d, disk.sectors);
      }
    }
  }
}
