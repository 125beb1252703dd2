/** Directory tables: their slots of 32 bytes, in the static root area or along a cluster chain,
    and the object that walks them. Nothing is asked of the FAT: chains may be broken or cyclic. */
module Directory {
  import opened Bytes
  import opened Chains
  import opened FatAccess
  import opened FileLayout
  import opened Geometry
  import opened Numbers
  import opened Results
  import opened Sectors
  import opened Volume

  const SZDIRE: nat := 32

  /** Largest table in bytes. */
  const MAX_DIR: nat := 0x20_0000

  /** The root directory of a FAT12 or FAT16 volume has its own area before the data. */
  ghost predicate RootFits(g: Geo) {
    g.fsType != FAT32 ==> g.FatEnd() <= g.dirbase && g.nRootdir % 16 == 0 && g.dirbase + g.nRootdir / 16 <= g.database
  }

  /** The cluster the table starts at; 0 for the static root. */
  function Start(g: Geo, sclust: nat): nat {
    if sclust == 0 && g.fsType == FAT32 then g.dirbase else sclust
  }

  /** On FAT32 a table that starts nowhere has no slots. */
  ghost predicate TableOk(g: Geo, start: nat) {
    RootFits(g) && (start == 0 && g.fsType == FAT32 ==> g.nRootdir == 0)
  }

  /** The table has a slot k: it is in the root area, or the chain is long enough to reach it. */
  ghost predicate HasSlot(g: Geo, f: Table, start: nat, k: nat) {
    && k < MAX_DIR / SZDIRE && g.csize > 0
    && if start == 0 then k < g.nRootdir
       else forall n :: 0 <= n <= k / 16 / g.csize ==> g.IsCluster(Follow(f, start, n))
  }

  ghost function SlotCluster(g: Geo, f: Table, start: nat, k: nat): nat {
    if start == 0 || g.csize == 0 then 0 else Follow(f, start, k / 16 / g.csize)
  }

  ghost function SlotSector(g: Geo, f: Table, start: nat, k: nat): nat {
    if start == 0 then g.dirbase + k / 16
    else if g.csize == 0 then 0
    else g.ClstSect(SlotCluster(g, f, start, k)) + k / 16 % g.csize
  }

  lemma SlotInDrive(g: Geo, nsect: nat, f: Table, start: nat, k: nat)
    requires g.Valid(nsect) && TableOk(g, start) && HasSlot(g, f, start, k)
    ensures 0 < SlotSector(g, f, start, k) < nsect && g.FatEnd() <= SlotSector(g, f, start, k)
  {
    if start != 0 {
      ClusterInDataArea(g, nsect, SlotCluster(g, f, start, k));
    } else {
      InRootArea(k, g.nRootdir);
      MulMono(g.csize, 1, g.nFatent - 2);
    }
  }

  lemma InRootArea(k: nat, n: nat)
    requires k < n && n % 16 == 0
    ensures k / 16 < n / 16
  {
  }

  /** The 32 bytes of slot k. */
  ghost function Slot(g: Geo, img: Image, f: Table, start: nat, k: nat): (e: seq<byte>)
    requires SlotSector(g, f, start, k) < |img|
    ensures |e| == 32
  {
    var o := k % 16 * 32;
    img[SlotSector(g, f, start, k)][o..o + 32]
  }

  /** The object points at slot k. */
  ghost predicate PointsAt(g: Geo, f: Table, start: nat, k: nat, dptr: nat, clust: nat, sect: nat, dir: nat) {
    && HasSlot(g, f, start, k)
    && dptr == 32 * k && dir == k % 16 * 32
    && clust == SlotCluster(g, f, start, k)
    && sect == SlotSector(g, f, start, k)
  }

  /** DIR: a place in a directory table. dir is the offset of the entry in the window. */
  class Dir {
    const fs: FatFs
    const sclust: nat
    var dptr: nat
    var clust: nat
    var sect: nat
    var dir: nat
    var blkOfs: nat
    var attr: nat

    constructor (v: FatFs, start: nat)
      ensures fs == v && sclust == start && sect == 0
    {
      fs, sclust := v, start;
      dptr, clust, sect, dir, blkOfs, attr := 0, 0, 0, 0, 0, 0;
    }

    ghost predicate Valid()
      reads fs`winsect, fs`wflag, fs.disk, fs.win
    {
      fs.Valid() && TableOk(fs.geo, Start(fs.geo, sclust))
    }

    ghost predicate At(k: nat)
      requires Valid()
      reads `dptr, `clust, `sect, `dir, fs`winsect, fs`wflag, fs.disk, fs.win
    {
      PointsAt(fs.geo, fs.Fat(), Start(fs.geo, sclust), k, dptr, clust, sect, dir)
    }
  }

  lemma Dirs(dp: Dir)
    ensures dp.Valid() <==> dp.fs.Valid() && TableOk(dp.fs.geo, Start(dp.fs.geo, dp.sclust))
    ensures dp.Valid() ==>
      forall k :: dp.At(k) <==>
        PointsAt(dp.fs.geo, dp.fs.Fat(), Start(dp.fs.geo, dp.sclust), k, dp.dptr, dp.clust, dp.sect, dp.dir)
  {
  }

  lemma DirFacts(dp: Dir)
    requires dp.Valid()
    ensures dp.fs.Valid() && dp.fs.geo.Valid(|dp.fs.Img()|) && dp.fs.geo.csize > 0
    ensures dp.fs.Fat() == FatView(dp.fs.geo, dp.fs.Img()) && |dp.fs.Fat()| == dp.fs.geo.nFatent
  {
  }

  // ----- dir_sdi -----

  /** Walking clusters from the start: n of them passed, rest bytes of the offset left. */
  ghost predicate Walked(g: Geo, f: Table, start: nat, ofs: nat, n: nat, rest: nat, clst: nat) {
    && ofs == n * (g.csize * 512) + rest
    && clst == Follow(f, start, n)
    && forall m :: 0 <= m < n ==> g.IsCluster(Follow(f, start, m))
  }

  lemma WalkStarts(g: Geo, f: Table, start: nat, ofs: nat)
    ensures Walked(g, f, start, ofs, 0, ofs, start)
  {
  }

  lemma WalkFurther(g: Geo, f: Table, start: nat, ofs: nat, n: nat, rest: nat, clst: nat)
    requires |f| == g.nFatent && g.csize > 0 && start > 0 && ofs < MAX_DIR
    requires Walked(g, f, start, ofs, n, rest, clst) && rest >= g.csize * 512
    ensures g.csize * 512 > 0
    ensures g.IsCluster(clst) && g.IsCluster(f[clst]) ==> Walked(g, f, start, ofs, n + 1, rest - g.csize * 512, f[clst])
    ensures !g.IsCluster(clst) || !g.IsCluster(f[clst]) ==> !HasSlot(g, f, start, ofs / 32)
  {
    assert (n + 1) * (g.csize * 512) == n * (g.csize * 512) + g.csize * 512;
    if !g.IsCluster(clst) || !g.IsCluster(f[clst]) {
      FurtherCluster(g.csize, ofs, n, rest);
      assert Follow(f, start, n + 1) == if clst < |f| then f[clst] else 0;
    }
  }

  lemma FurtherCluster(d: nat, ofs: nat, n: nat, rest: nat)
    requires d > 0 && ofs == n * (d * 512) + rest && rest >= d * 512
    ensures n + 1 <= ofs / 32 / 16 / d
  {
    assert (n + 1) * (d * 512) == n * (d * 512) + d * 512;
    assert ofs / 32 / 16 == ofs / 512;
    ClusterOfByte(d, ofs);
    assert d * 512 * (n + 1) == (n + 1) * (d * 512);
    DivMonotone(d * 512, (d * 512) * (n + 1), ofs);
    DivModIs(d * 512, (d * 512) * (n + 1), n + 1, 0);
  }

  lemma WalkEnds(g: Geo, nsect: nat, f: Table, start: nat, ofs: nat, n: nat, rest: nat, clst: nat)
    requires g.Valid(nsect) && |f| == g.nFatent && start > 0 && ofs < MAX_DIR && ofs % 32 == 0
    requires Walked(g, f, start, ofs, n, rest, clst) && rest < g.csize * 512
    ensures g.ClstSect(clst) == 0 <==> !HasSlot(g, f, start, ofs / 32)
    ensures g.ClstSect(clst) != 0 ==>
            PointsAt(g, f, start, ofs / 32, ofs, clst, g.ClstSect(clst) + rest / 512, rest % 512)
  {
    var d := g.csize;
    ClusterOfByte(d, ofs);
    DivModIs(d * 512, ofs, n, rest);
    SlotOfByte(ofs);
    if g.IsCluster(clst) {
      ClusterInDataArea(g, nsect, clst);
    }
    DivModIs(512, rest, ofs / 512 % d, ofs % 512);
  }

  lemma SlotOfByte(ofs: nat)
    requires ofs % 32 == 0
    ensures ofs == 32 * (ofs / 32) && ofs / 32 / 16 == ofs / 512 && ofs % 512 == ofs / 32 % 16 * 32
    ensures ofs < MAX_DIR <==> ofs / 32 < MAX_DIR / SZDIRE
  {
  }

  lemma RootSlot(g: Geo, nsect: nat, f: Table, ofs: nat)
    requires g.Valid(nsect) && ofs < MAX_DIR && ofs % 32 == 0 && TableOk(g, 0)
    ensures HasSlot(g, f, 0, ofs / 32) <==> ofs / 32 < g.nRootdir
    ensures ofs / 32 < g.nRootdir ==>
            g.dirbase > 0 && PointsAt(g, f, 0, ofs / 32, ofs, 0, g.dirbase + ofs / 512, ofs % 512)
  {
    SlotOfByte(ofs);
  }

  /** The cluster that holds the offset: FR_INT_ERR when the chain does not reach it. */
  method WalkClusters(dp: Dir, start: nat, ofs: nat) returns (ok: bool, clst: nat, rest: nat, ghost n: nat)
    requires dp.Valid() && start == Start(dp.fs.geo, dp.sclust) > 0 && ofs < MAX_DIR && ofs % 32 == 0
    modifies dp.fs`winsect, dp.fs`wflag, dp.fs.win, dp.fs.disk
    ensures dp.Valid() && dp.fs.Img() == old(dp.fs.Img())
    ensures !ok ==> !HasSlot(dp.fs.geo, dp.fs.Fat(), start, ofs / 32)
    ensures ok ==> Walked(dp.fs.geo, dp.fs.Fat(), start, ofs, n, rest, clst) && rest < dp.fs.geo.csize * 512
  {
    hide *;
    Dirs(dp);
    VolumeFacts(dp.fs);
    ghost var g, f, img := dp.fs.geo, dp.fs.Fat(), dp.fs.Img();
    var csz := dp.fs.geo.csize * 512;
    WalkStarts(g, f, start, ofs);
    ok, clst, rest, n := true, start, ofs, 0;
    while rest >= csz
      invariant dp.Valid() && dp.fs.Valid() && dp.fs.Img() == img && dp.fs.Fat() == f
      invariant Walked(g, f, start, ofs, n, rest, clst)
      decreases rest
    {
      WalkFurther(g, f, start, ofs, n, rest, clst);
      ClusterRange(g, clst);
      var val := GetFat(dp.fs, clst);
      Dirs(dp);
      VolumeFacts(dp.fs);
      ClusterRange(g, val);
      if val < 2 || val >= dp.fs.geo.nFatent {
        ok := false;
        return;
      }
      clst := val;
      rest := rest - csz;
      n := n + 1;
    }
  }

  /** dir_sdi: point at the slot at an offset, if the table has it. */
  method DirSdi(dp: Dir, ofs: nat) returns (res: FResult)
    requires dp.Valid()
    modifies dp`dptr, dp`clust, dp`sect, dp`dir, dp.fs`winsect, dp.fs`wflag, dp.fs.win, dp.fs.disk
    ensures dp.Valid() && dp.fs.Img() == old(dp.fs.Img())
    ensures res == if ofs % 32 == 0 && HasSlot(dp.fs.geo, dp.fs.Fat(), Start(dp.fs.geo, dp.sclust), ofs / 32)
                   then FR_OK else FR_INT_ERR
    ensures res == FR_OK ==> dp.At(ofs / 32)
  {
    hide *;
    Dirs(dp);
    VolumeFacts(dp.fs);
    res := FR_INT_ERR;
    SlotRange(dp.fs.geo, dp.fs.Fat(), Start(dp.fs.geo, dp.sclust), ofs);
    if ofs >= MAX_DIR || ofs % SZDIRE != 0 { return; }
    dp.dptr := ofs;
    var clst := dp.sclust;
    if clst == 0 && dp.fs.geo.fsType == FAT32 {
      clst := dp.fs.geo.dirbase;
    }
    StartIs(dp.fs.geo, dp.sclust);
    var rest := ofs;
    if clst == 0 {
      RootSlot(dp.fs.geo, |dp.fs.Img()|, dp.fs.Fat(), ofs);
      if ofs / SZDIRE >= dp.fs.geo.nRootdir { return; }
      dp.sect := dp.fs.geo.dirbase;
    } else {
      var ok;
      ghost var n;
      ghost var start := clst;
      ok, clst, rest, n := WalkClusters(dp, clst, ofs);
      if !ok { return; }
      Dirs(dp);
      VolumeFacts(dp.fs);
      WalkEnds(dp.fs.geo, |dp.fs.Img()|, dp.fs.Fat(), start, ofs, n, rest, clst);
      dp.sect := dp.fs.geo.ClstSect(clst);
    }
    dp.clust := clst;
    if dp.sect == 0 { return; }
    dp.sect := dp.sect + rest / 512;
    dp.dir := rest % 512;
    Dirs(dp);
    res := FR_OK;
  }

  lemma StartIs(g: Geo, sclust: nat)
    ensures Start(g, sclust) == if sclust == 0 && g.fsType == FAT32 then g.dirbase else sclust
  {
  }

  lemma SlotRange(g: Geo, f: Table, start: nat, ofs: nat)
    ensures ofs >= MAX_DIR ==> !HasSlot(g, f, start, ofs / 32)
    ensures SZDIRE == 32
  {
  }

  // ----- dir_next -----

  /** The next slot is in the same sector, in the next sector, or in the next cluster. */
  lemma NextInSector(g: Geo, f: Table, start: nat, k: nat, dptr: nat, clust: nat, sect: nat, dir: nat)
    requires g.csize > 0 && |f| == g.nFatent && TableOk(g, start) && PointsAt(g, f, start, k, dptr, clust, sect, dir)
    requires dptr + 32 < MAX_DIR && (dptr + 32) % 512 != 0
    ensures PointsAt(g, f, start, k + 1, dptr + 32, clust, sect, (dptr + 32) % 512)
  {
    hide HasSlot, SlotSector, SlotCluster;
    SlotOfByte(dptr + 32);
    if start == 0 { NextInRoot(g, f, k); NoCluster(g, f, k); } else { NextInChain(g, f, start, k); }
  }

  lemma NoCluster(g: Geo, f: Table, k: nat)
    ensures SlotCluster(g, f, 0, k) == 0
  {
  }

  lemma NextOfRoot(g: Geo, f: Table, start: nat, k: nat, dptr: nat, clust: nat, sect: nat, dir: nat)
    requires g.csize > 0 && |f| == g.nFatent && TableOk(g, start) && PointsAt(g, f, start, k, dptr, clust, sect, dir)
    requires start == 0 && dptr + 32 < MAX_DIR && (dptr + 32) % 512 == 0
    ensures HasSlot(g, f, start, k + 1) <==> (dptr + 32) / 32 < g.nRootdir
    ensures (dptr + 32) / 32 < g.nRootdir ==>
            PointsAt(g, f, start, k + 1, dptr + 32, clust, sect + 1, (dptr + 32) % 512)
  {
    hide HasSlot, SlotSector, SlotCluster;
    SlotOfByte(dptr + 32);
    NextInRoot(g, f, k);
    NoCluster(g, f, k);
  }

  lemma NextOfCluster(g: Geo, f: Table, start: nat, k: nat, dptr: nat, clust: nat, sect: nat, dir: nat)
    requires g.csize > 0 && |f| == g.nFatent && PointsAt(g, f, start, k, dptr, clust, sect, dir)
    requires start != 0 && dptr + 32 < MAX_DIR && (dptr + 32) % 512 == 0
    ensures (dptr + 32) / 512 % g.csize != 0 ==>
            PointsAt(g, f, start, k + 1, dptr + 32, clust, sect + 1, (dptr + 32) % 512)
    ensures g.IsCluster(clust) && clust < |f|
    ensures (dptr + 32) / 512 % g.csize == 0 ==>
              && (HasSlot(g, f, start, k + 1) <==> g.IsCluster(f[clust]))
              && (g.IsCluster(f[clust]) ==>
                  PointsAt(g, f, start, k + 1, dptr + 32, f[clust], g.ClstSect(f[clust]), (dptr + 32) % 512))
  {
    hide HasSlot, SlotSector, SlotCluster, Geo.ClstSect;
    SlotOfByte(dptr + 32);
    NextInChain(g, f, start, k);
  }

  lemma PointFacts(g: Geo, nsect: nat, f: Table, start: nat, k: nat, dptr: nat, clust: nat, sect: nat, dir: nat)
    requires g.Valid(nsect) && |f| == g.nFatent && TableOk(g, start) && PointsAt(g, f, start, k, dptr, clust, sect, dir)
    ensures 0 < sect < nsect && (clust == 0 <==> start == 0) && dptr == 32 * k && HasSlot(g, f, start, k) && g.csize > 0
    ensures dptr + 32 >= MAX_DIR ==> !HasSlot(g, f, start, k + 1)
    ensures clust == SlotCluster(g, f, start, k)
    ensures dir + 32 <= 512 && dir == k % 16 * 32 && sect == SlotSector(g, f, start, k) && g.FatEnd() <= sect
  {
    SlotInDrive(g, nsect, f, start, k);
  }

  lemma NextInRoot(g: Geo, f: Table, k: nat)
    requires g.csize > 0 && HasSlot(g, f, 0, k) && k + 1 < MAX_DIR / SZDIRE && TableOk(g, 0)
    ensures HasSlot(g, f, 0, k + 1) <==> k + 1 < g.nRootdir
    ensures (k + 1) % 16 != 0 ==> k + 1 < g.nRootdir && SlotSector(g, f, 0, k + 1) == SlotSector(g, f, 0, k)
    ensures (k + 1) % 16 == 0 ==> SlotSector(g, f, 0, k + 1) == SlotSector(g, f, 0, k) + 1
    ensures SlotCluster(g, f, 0, k + 1) == 0
  {
  }

  lemma NextInChain(g: Geo, f: Table, start: nat, k: nat)
    requires g.csize > 0 && start > 0 && |f| == g.nFatent && HasSlot(g, f, start, k) && k + 1 < MAX_DIR / SZDIRE
    ensures var clust := SlotCluster(g, f, start, k);
      && g.IsCluster(clust)
      && ((k + 1) % 16 != 0 || (k + 1) / 16 % g.csize != 0 ==>
            HasSlot(g, f, start, k + 1) && SlotCluster(g, f, start, k + 1) == clust
            && SlotSector(g, f, start, k + 1) == SlotSector(g, f, start, k) + (if (k + 1) % 16 == 0 then 1 else 0))
      && ((k + 1) % 16 == 0 && (k + 1) / 16 % g.csize == 0 ==>
            && (HasSlot(g, f, start, k + 1) <==> g.IsCluster(f[clust]))
            && SlotCluster(g, f, start, k + 1) == f[clust]
            && SlotSector(g, f, start, k + 1) == g.ClstSect(f[clust]))
  {
    hide HasSlot, SlotSector, SlotCluster, Geo.ClstSect;
    var m := (k + 1) / 16;
    if (k + 1) % 16 != 0 {
      assert m == k / 16;
      SameCluster(g, f, start, k);
    } else {
      assert m == k / 16 + 1;
      if m % g.csize != 0 {
        InsideMultiple(g.csize, m);
        SameCluster(g, f, start, k);
      } else {
        NextMultiple(g.csize, m);
        OtherCluster(g, f, start, k);
      }
    }
  }

  lemma SameCluster(g: Geo, f: Table, start: nat, k: nat)
    requires g.csize > 0 && start > 0 && HasSlot(g, f, start, k) && k + 1 < MAX_DIR / SZDIRE
    requires (k + 1) / 16 / g.csize == k / 16 / g.csize
    ensures g.IsCluster(SlotCluster(g, f, start, k))
    ensures HasSlot(g, f, start, k + 1) && SlotCluster(g, f, start, k + 1) == SlotCluster(g, f, start, k)
    ensures SlotSector(g, f, start, k + 1) - SlotSector(g, f, start, k) == (k + 1) / 16 % g.csize - k / 16 % g.csize
  {
    hide Geo.ClstSect;
  }

  lemma OtherCluster(g: Geo, f: Table, start: nat, k: nat)
    requires g.csize > 0 && start > 0 && |f| == g.nFatent && HasSlot(g, f, start, k) && k + 1 < MAX_DIR / SZDIRE
    requires (k + 1) / 16 / g.csize == k / 16 / g.csize + 1 && (k + 1) / 16 % g.csize == 0
    ensures g.IsCluster(SlotCluster(g, f, start, k))
    ensures var c := f[SlotCluster(g, f, start, k)];
      && (HasSlot(g, f, start, k + 1) <==> g.IsCluster(c))
      && SlotCluster(g, f, start, k + 1) == c && SlotSector(g, f, start, k + 1) == g.ClstSect(c)
  {
    hide Geo.ClstSect;
    var q := k / 16 / g.csize;
    assert Follow(f, start, q + 1) == f[Follow(f, start, q)];
  }

  /** The link at the end of the cluster of slot k: not a cluster, and not an end mark either. */
  ghost predicate BrokenAfter(g: Geo, f: Table, start: nat, k: nat) {
    && start != 0 && g.csize > 0 && 32 * (k + 1) < MAX_DIR
    && (k + 1) % 16 == 0 && (k + 1) / 16 % g.csize == 0
    && var c := SlotCluster(g, f, start, k); c < |f| && f[c] <= 1
  }

  lemma BrokenIs(g: Geo, f: Table, start: nat, k: nat, ofs: nat)
    requires |f| == g.nFatent && ofs == 32 * (k + 1)
    ensures var c := SlotCluster(g, f, start, k);
      BrokenAfter(g, f, start, k) <==>
        start != 0 && g.csize > 0 && ofs < MAX_DIR && ofs % 512 == 0 && ofs / 512 % g.csize == 0 && c < |f| && f[c] <= 1
  {
    SlotOfByte(ofs);
  }

  /** dir_next without stretching: the next slot, or FR_NO_FILE at the end of the table, or
      FR_INT_ERR at a broken link. */
  method DirNext(dp: Dir, ghost k: nat) returns (res: FResult)
    requires dp.Valid() && dp.At(k)
    modifies dp`dptr, dp`clust, dp`sect, dp`dir, dp.fs`winsect, dp.fs`wflag, dp.fs.win, dp.fs.disk
    ensures dp.Valid() && dp.fs.Img() == old(dp.fs.Img())
    ensures var g, f, start := dp.fs.geo, dp.fs.Fat(), Start(dp.fs.geo, dp.sclust);
            res == if HasSlot(g, f, start, k + 1) then FR_OK
                   else if BrokenAfter(g, f, start, k) then FR_INT_ERR else FR_NO_FILE
    ensures res == FR_OK ==> dp.At(k + 1)
    ensures res == FR_NO_FILE ==> dp.sect == 0
  {
    hide *;
    Dirs(dp);
    VolumeFacts(dp.fs);
    ghost var g, f, start := dp.fs.geo, dp.fs.Fat(), Start(dp.fs.geo, dp.sclust);
    PointFacts(g, |dp.fs.Img()|, f, start, k, dp.dptr, dp.clust, dp.sect, dp.dir);
    SlotRange(g, f, start, 0);
    BrokenIs(g, f, start, k, dp.dptr + SZDIRE);
    res := FR_NO_FILE;
    var ofs := dp.dptr + SZDIRE;
    if ofs >= MAX_DIR { dp.sect := 0; }
    if dp.sect != 0 {
      if ofs % 512 == 0 {
        res := NextSector(dp, ofs, k);
      } else {
        NextInSector(g, f, start, k, dp.dptr, dp.clust, dp.sect, dp.dir);
        NextExists(g, f, start, k + 1, ofs, dp.clust, dp.sect, ofs % 512);
        res := FR_OK;
      }
      if res == FR_OK {
        dp.dptr := ofs;
        dp.dir := ofs % 512;
      }
    }
    Dirs(dp);
  }

  lemma NextExists(g: Geo, f: Table, start: nat, k: nat, dptr: nat, clust: nat, sect: nat, dir: nat)
    requires PointsAt(g, f, start, k, dptr, clust, sect, dir)
    ensures HasSlot(g, f, start, k)
  {
  }

  /** At the end of a sector, the sector of the next slot. */
  method NextSector(dp: Dir, ofs: nat, ghost k: nat) returns (res: FResult)
    requires dp.Valid() && dp.At(k) && ofs == dp.dptr + 32 < MAX_DIR && ofs % 512 == 0
    modifies dp`clust, dp`sect, dp.fs`winsect, dp.fs`wflag, dp.fs.win, dp.fs.disk
    ensures dp.Valid() && dp.fs.Valid() && dp.fs.Img() == old(dp.fs.Img()) && dp.fs.Fat() == old(dp.fs.Fat())
    ensures var g, f, start := dp.fs.geo, dp.fs.Fat(), Start(dp.fs.geo, dp.sclust);
            && res == (if HasSlot(g, f, start, k + 1) then FR_OK
                       else if BrokenAfter(g, f, start, k) then FR_INT_ERR else FR_NO_FILE)
            && (res == FR_OK ==> PointsAt(g, f, start, k + 1, ofs, dp.clust, dp.sect, ofs % 512))
    ensures res == FR_NO_FILE ==> dp.sect == 0
  {
    hide *;
    Dirs(dp);
    VolumeFacts(dp.fs);
    ghost var g, f, start := dp.fs.geo, dp.fs.Fat(), Start(dp.fs.geo, dp.sclust);
    PointFacts(g, |dp.fs.Img()|, f, start, k, dp.dptr, dp.clust, dp.sect, dp.dir);
    BrokenIs(g, f, start, k, ofs);
    SlotRange(g, f, start, 0);
    if start == 0 {
      NextOfRoot(g, f, start, k, dp.dptr, dp.clust, dp.sect, dp.dir);
    } else {
      NextOfCluster(g, f, start, k, dp.dptr, dp.clust, dp.sect, dp.dir);
    }
    res := FR_OK;
    dp.sect := dp.sect + 1;
    if dp.clust == 0 {
      if ofs / SZDIRE >= dp.fs.geo.nRootdir {
        dp.sect := 0;
        res := FR_NO_FILE;
      }
    } else if ofs / 512 % dp.fs.geo.csize == 0 {
      res := NextCluster(dp);
      VolumeFacts(dp.fs);
    } else {
      NextExists(g, f, start, k + 1, ofs, dp.clust, dp.sect, ofs % 512);
    }
  }

  /** At the end of a cluster, the next one. */
  method NextCluster(dp: Dir) returns (res: FResult)
    requires dp.Valid() && dp.fs.Valid() && |dp.fs.Fat()| == dp.fs.geo.nFatent && dp.fs.geo.IsCluster(dp.clust)
    modifies dp`clust, dp`sect, dp.fs`winsect, dp.fs`wflag, dp.fs.win, dp.fs.disk
    ensures dp.Valid() && dp.fs.Valid() && dp.fs.Img() == old(dp.fs.Img()) && dp.fs.Fat() == old(dp.fs.Fat())
    ensures |dp.fs.Fat()| == dp.fs.geo.nFatent && old(dp.clust) < |dp.fs.Fat()|
    ensures var c := dp.fs.Fat()[old(dp.clust)];
            && res == (if dp.fs.geo.IsCluster(c) then FR_OK else if c <= 1 then FR_INT_ERR else FR_NO_FILE)
            && (res == FR_OK ==> dp.clust == c && dp.sect == dp.fs.geo.ClstSect(c))
    ensures res == FR_NO_FILE ==> dp.sect == 0
  {
    hide *;
    Dirs(dp);
    VolumeFacts(dp.fs);
    ClusterRange(dp.fs.geo, dp.clust);
    var clst := GetFat(dp.fs, dp.clust);
    Dirs(dp);
    VolumeFacts(dp.fs);
    ClusterRange(dp.fs.geo, clst);
    res := FR_OK;
    if clst <= 1 {
      res := FR_INT_ERR;
    } else if clst >= dp.fs.geo.nFatent {
      dp.sect := 0;
      res := FR_NO_FILE;
    } else {
      dp.clust := clst;
      dp.sect := dp.fs.geo.ClstSect(clst);
    }
  }
}
