/** The free-cluster scan of f_getfree. */
module FreeScan {
  import opened Bytes
  import opened Chains
  import opened ChainOps
  import opened FatAccess
  import opened Geometry
  import opened Results
  import opened Volume

  lemma {:induction false} FreeBetweenFrom(f: Table, lo: nat, mid: nat, hi: nat)
    requires lo <= mid <= hi <= |f|
    ensures FreeBetween(f, lo, hi) == FreeBetween(f, lo, mid) + FreeBetween(f, mid, hi)
    decreases hi
  {
    if mid < hi {
      FreeBetweenFrom(f, lo, mid, hi - 1);
    }
  }

  /** The scan of a 16- or 32-bit FAT counts entries 0 and 1 as well, so it is right exactly when
      neither of them is zero. */
  lemma ScanIsRight(f: Table)
    requires |f| >= 3
    ensures FreeBetween(f, 0, |f|) == FreeCount(f) <==> f[0] != 0 && f[1] != 0
    ensures FreeBetween(f, 0, |f|) >= FreeCount(f)
  {
    FreeBetweenFrom(f, 0, 2, |f|);
    assert FreeBetween(f, 0, 2) == FreeBetween(f, 0, 1) + (if f[1] == 0 then 1 else 0);
    assert FreeBetween(f, 0, 1) == FreeBetween(f, 0, 0) + (if f[0] == 0 then 1 else 0);
  }

  /** It is wrong on a volume of one free cluster with entry 0 cleared: the FAT is well formed. */
  lemma ScanCanBeWrong()
    ensures var f: Table := [0, 0xFFFF, 0];
            WellFormed(f) && FreeCount(f) == 1 && FreeBetween(f, 0, |f|) == 2
  {
    var f: Table := [0, 0xFFFF, 0];
    assert FreeBetween(f, 2, 2) == 0 && FreeBetween(f, 0, 2) == 1;
  }

  lemma FreeBetweenStep(f: Table, lo: nat, hi: nat)
    requires lo <= hi < |f|
    ensures FreeBetween(f, lo, hi + 1) == FreeBetween(f, lo, hi) + (if f[hi] == 0 then 1 else 0)
  {
  }

  lemma CountStart(f: Table)
    requires |f| >= 2
    ensures FreeBetween(f, 2, 2) == 0 && FreeBetween(f, 0, 0) == 0
    ensures FreeCount(f) == FreeBetween(f, 2, |f|)
  {
  }

  /** FAT12: one get_fat per cluster; an entry holding 1 stops the scan. */
  method Scan12(fs: FatFs) returns (res: FResult, nfree: nat)
    requires fs.Valid()
    modifies fs`winsect, fs`wflag, fs.win, fs.disk
    ensures fs.Valid() && Looked(fs.geo, old(fs.Now()), fs.Now()) && fs.Img() == old(fs.Img())
    ensures res == FR_OK || res == FR_INT_ERR
    ensures res == FR_OK <==> forall c :: 2 <= c < fs.geo.nFatent ==> old(fs.Fat())[c] != 1
    ensures res == FR_OK ==> nfree == FreeCount(old(fs.Fat()))
  {
    hide *;
    VolumeFacts(fs);
    ghost var s0, f := fs.Now(), fs.Fat();
    LookedRefl(fs.geo, s0);
    CountStart(f);
    res, nfree := FR_OK, 0;
    var clst := 2;
    while clst < fs.geo.nFatent
      invariant fs.Valid() && Looked(fs.geo, s0, fs.Now()) && fs.Img() == s0.img
      invariant 2 <= clst <= |f| && nfree == FreeBetween(f, 2, clst)
      invariant forall c :: 2 <= c < clst ==> f[c] != 1
      invariant res == FR_OK
    {
      FreeBetweenStep(f, 2, clst);
      var stat := Probe(fs, clst, s0);
      if stat == 1 {
        res := FR_INT_ERR;
        break;
      }
      if stat == 0 {
        nfree := nfree + 1;
      }
      clst := clst + 1;
    }
  }

  /** Bytes per entry of the flat FATs. */
  function Width(t: FsType): nat { if t == FAT16 then 2 else 4 }

  /** One entry of a flat FAT, read in the window, is entry c of the table. */
  lemma EntryInWindow(fs: FatFs, c: nat)
    requires fs.Valid() && fs.geo.fsType != FAT12 && c < fs.geo.nFatent
    requires var p := Width(fs.geo.fsType) * c; fs.winsect == fs.geo.fatbase + p / 512
    ensures var p := Width(fs.geo.fsType) * c;
            && p % 512 + Width(fs.geo.fsType) <= 512 == fs.win.Length
            && fs.Fat()[c] == if fs.geo.fsType == FAT16 then LdWord(fs.win[..], p % 512)
               else LdDword(fs.win[..], p % 512) % 0x1000_0000
  {
    FatAt(fs.geo, fs.Img(), c);
    hide FatFs.Img, Fat1, FatView, Geo.Valid, LdWord, LdDword, FatFs.Valid;
    if fs.geo.fsType == FAT16 {
      WordInWindow(fs, c);
    } else {
      DwordInWindow(fs, c);
    }
  }

  /** Where the flat scan stands before entry k: byte i of the window, next sector sect. */
  predicate ScanAt(g: Geo, k: nat, i: nat, sect: nat, winsect: nat) {
    var p := Width(g.fsType) * k;
    && i == p % 512
    && (i == 0 ==> sect == g.fatbase + p / 512)
    && (i != 0 ==> sect == g.fatbase + p / 512 + 1 && winsect + 1 == sect)
  }

  lemma ScanStart(g: Geo, f: Table)
    ensures FreeBetween(f, 0, 0) == 0
    ensures forall w: nat :: ScanAt(g, 0, 0, g.fatbase, w)
  {
  }

  /** One entry further: the position in its sector and the sector, for either width. */
  lemma NextWord(k: nat)
    ensures 2 * (k + 1) % 512 == (2 * k % 512 + 2) % 512
    ensures 2 * (k + 1) / 512 == 2 * k / 512 + if (2 * k % 512 + 2) % 512 == 0 then 1 else 0
  {
    assert 2 * k == 512 * (k / 256) + 2 * (k % 256);
  }

  lemma NextDword(k: nat)
    ensures 4 * (k + 1) % 512 == (4 * k % 512 + 4) % 512
    ensures 4 * (k + 1) / 512 == 4 * k / 512 + if (4 * k % 512 + 4) % 512 == 0 then 1 else 0
  {
    assert 4 * k == 512 * (k / 128) + 4 * (k % 128);
  }

  lemma ScanNext(g: Geo, k: nat, i: nat, sect: nat, winsect: nat)
    requires g.fsType != FAT12 && i == Width(g.fsType) * k % 512
    requires winsect == g.fatbase + Width(g.fsType) * k / 512 && sect == winsect + 1
    ensures ScanAt(g, k + 1, (i + Width(g.fsType)) % 512, sect, winsect)
  {
    if g.fsType == FAT16 {
      NextWord(k);
    } else {
      NextDword(k);
    }
  }

  lemma ScanSectorFits(g: Geo, nsect: nat, k: nat)
    requires g.Valid(nsect) && g.fsType != FAT12 && k < g.nFatent
    ensures g.fatbase + Width(g.fsType) * k / 512 < nsect
    ensures g.InFat1(g.fatbase + Width(g.fsType) * k / 512)
  {
    hide *;
    FlatFatSize(g, nsect);
    if g.fsType == FAT16 {
      SectorBelow(2, k, g.nFatent, g.fsize);
    } else {
      SectorBelow(4, k, g.nFatent, g.fsize);
    }
    FatSectorFits(g, nsect, Width(g.fsType) * k / 512);
  }

  lemma FlatFatSize(g: Geo, nsect: nat)
    requires g.Valid(nsect) && g.fsType != FAT12
    ensures Width(g.fsType) == (if g.fsType == FAT16 then 2 else 4) && Width(g.fsType) * g.nFatent <= 512 * g.fsize
  {
  }

  lemma SectorBelow(w: nat, k: nat, n: nat, size: nat)
    requires (w == 2 || w == 4) && k < n && w * n <= 512 * size
    ensures w * k / 512 < size
  {
  }

  lemma FatSectorFits(g: Geo, nsect: nat, j: nat)
    requires g.Valid(nsect) && j < g.fsize
    ensures g.fatbase + j < nsect && g.InFat1(g.fatbase + j)
  {
  }

  lemma ScanFacts(fs: FatFs, k: nat, i: nat, sect: nat)
    requires fs.Valid() && fs.geo.fsType != FAT12 && k < fs.geo.nFatent
    requires ScanAt(fs.geo, k, i, sect, fs.winsect)
    ensures Width(fs.geo.fsType) == if fs.geo.fsType == FAT16 then 2 else 4
    ensures i == Width(fs.geo.fsType) * k % 512
    ensures fs.geo.fatbase + Width(fs.geo.fsType) * k / 512 < |fs.disk.sectors|
    ensures fs.geo.InFat1(fs.geo.fatbase + Width(fs.geo.fsType) * k / 512)
    ensures i == 0 ==> sect == fs.geo.fatbase + Width(fs.geo.fsType) * k / 512
    ensures i != 0 ==> fs.winsect == fs.geo.fatbase + Width(fs.geo.fsType) * k / 512 && sect == fs.winsect + 1
  {
    ScanSectorFits(fs.geo, |fs.disk.sectors|, k);
  }

  /** Read one entry of the flat scan. */
  method ScanOne(fs: FatFs, k: nat, i: nat, sect: nat, ghost s0: Snap) returns (zero: bool, nextSect: nat)
    requires fs.Valid() && fs.geo.fsType != FAT12 && k < fs.geo.nFatent
    requires fs.geo.Valid(|s0.img|) && Looked(fs.geo, s0, fs.Now()) && fs.Img() == s0.img
    requires ScanAt(fs.geo, k, i, sect, fs.winsect)
    modifies fs`winsect, fs`wflag, fs.win, fs.disk
    ensures fs.Valid() && Looked(fs.geo, s0, fs.Now()) && fs.Img() == s0.img
    ensures zero <==> FatView(fs.geo, s0.img)[k] == 0
    ensures ScanAt(fs.geo, k + 1, (i + Width(fs.geo.fsType)) % 512, nextSect, fs.winsect)
  {
    hide *;
    VolumeFacts(fs);
    ScanFacts(fs, k, i, sect);
    nextSect := sect;
    if i == 0 {
      MoveInFat(fs, nextSect, s0);
      nextSect := nextSect + 1;
    }
    EntryInWindow(fs, k);
    VolumeFacts(fs);
    ScanNext(fs.geo, k, i, nextSect, fs.winsect);
    zero := if fs.geo.fsType == FAT16 then LdWord(fs.win[..], i) == 0 else LdDword(fs.win[..], i) % 0x1000_0000 == 0;
  }

  /** FAT16 and FAT32: the entries counted straight from the sectors, 0 and 1 included. */
  method ScanFlat(fs: FatFs) returns (nfree: nat)
    requires fs.Valid() && fs.geo.fsType != FAT12
    modifies fs`winsect, fs`wflag, fs.win, fs.disk
    ensures fs.Valid() && Looked(fs.geo, old(fs.Now()), fs.Now()) && fs.Img() == old(fs.Img())
    ensures nfree == FreeBetween(old(fs.Fat()), 0, fs.geo.nFatent)
  {
    hide *;
    VolumeFacts(fs);
    ghost var s0, f := fs.Now(), fs.Fat();
    LookedRefl(fs.geo, s0);
    ScanStart(fs.geo, f);
    nfree := 0;
    var clst, sect := fs.geo.nFatent, fs.geo.fatbase;
    var i: nat := 0;
    ghost var k := 0;
    while clst > 0
      invariant fs.Valid() && Looked(fs.geo, s0, fs.Now()) && fs.Img() == s0.img
      invariant k + clst == |f| && nfree == FreeBetween(f, 0, k)
      invariant ScanAt(fs.geo, k, i, sect, fs.winsect)
    {
      FreeBetweenStep(f, 0, k);
      var zero;
      zero, sect := ScanOne(fs, fs.geo.nFatent - clst, i, sect, s0);
      if zero {
        nfree := nfree + 1;
      }
      i := (i + Width(fs.geo.fsType)) % 512;
      clst := clst - 1;
      k := k + 1;
    }
  }

  /** f_getfree: a known count is answered as it is; otherwise the scan makes it known. After a
      successful scan of a sound FAT the count is right: always in FAT12, and in the flat FATs
      exactly when entries 0 and 1 are not zero. */
  method GetFree(fs: FatFs) returns (res: FResult, nclst: nat)
    requires fs.Valid()
    modifies fs`winsect, fs`wflag, fs.win, fs.disk, fs`freeClst, fs`fsiFlag
    ensures fs.Valid() && Looked(fs.geo, old(fs.Now()), fs.Now()) && fs.Img() == old(fs.Img())
    ensures fs.fsiFlag <==> old(fs.fsiFlag) || (old(fs.freeClst) > fs.geo.nFatent - 2 && res == FR_OK)
    ensures old(fs.freeClst) <= fs.geo.nFatent - 2 ==> res == FR_OK && nclst == fs.freeClst == old(fs.freeClst)
    ensures old(fs.freeClst) > fs.geo.nFatent - 2 && fs.geo.fsType == FAT12 ==>
      && (res == FR_OK <==> forall c :: 2 <= c < fs.geo.nFatent ==> old(fs.Fat())[c] != 1)
      && (res == FR_OK ==> nclst == fs.freeClst == FreeCount(old(fs.Fat())))
      && (res != FR_OK ==> res == FR_INT_ERR && fs.freeClst == old(fs.freeClst))
    ensures old(fs.freeClst) > fs.geo.nFatent - 2 && fs.geo.fsType != FAT12 ==>
      && res == FR_OK && nclst == fs.freeClst
      && (nclst == FreeCount(old(fs.Fat())) <==> old(fs.Fat())[0] != 0 && old(fs.Fat())[1] != 0)
  {
    hide *;
    VolumeFacts(fs);
    LookedRefl(fs.geo, fs.Now());
    res, nclst := FR_OK, 0;
    if fs.freeClst <= fs.geo.nFatent - 2 {
      nclst := fs.freeClst;
    } else {
      ScanIsRight(fs.Fat());
      var nfree;
      if fs.geo.fsType == FAT12 {
        res, nfree := Scan12(fs);
      } else {
        nfree := ScanFlat(fs);
      }
      if res == FR_OK {
        nclst := nfree;
        fs.freeClst := nfree;
        fs.fsiFlag := true;
      }
    }
  }
}
