/** dir_register, once slots are reserved: the entries of a long name and its short entry. */
module DirStore {
  import opened Bytes
  import opened Chains
  import opened DirScan
  import opened Directory
  import opened FileLayout
  import opened Geometry
  import opened Lfn
  import opened LongRuns
  import opened Numbers
  import opened Results
  import opened Sectors
  import ShortName
  import opened Volume

  /** The image with the entry at offset o of sector s replaced. */
  ghost function PutSlot(img: Image, s: nat, o: nat, e: Entry): (r: Image)
    requires s < |img| && o + 32 <= 512
    ensures |r| == |img|
  {
    img[s := WithEntry(img[s], o, e)]
  }

  /** Outside the FATs the dirty window is one sector of the image. */
  lemma OverlayOutside(g: Geo, d: Image, s: nat, w: Sector, w': Sector)
    requires g.Valid(|d|) && s < |d| && g.FatEnd() <= s
    ensures Overlay(g, d, s, w') == Overlay(g, d, s, w)[s := w'] == d[s := w']
  {
  }

  lemma PutSlotKeepsFat(g: Geo, img: Image, s: nat, o: nat, e: Entry)
    requires g.Valid(|img|) && s < |img| && o + 32 <= 512 && g.FatEnd() <= s
    ensures FatView(g, PutSlot(img, s, o, e)) == FatView(g, img)
  {
    SameFat1(g, PutSlot(img, s, o, e), img);
  }

  /** The window as the code changes it: a sector of the directory with one entry replaced. */
  lemma WindowPut(g: Geo, d: Image, img: Image, wflag: bool, s: nat, w: Sector, o: nat, w': Sector, e: Entry)
    requires g.Valid(|d|) && s < |d| && g.FatEnd() <= s && o + 32 <= 512
    requires img == (if wflag then Overlay(g, d, s, w) else d) && img[s] == w
    requires w' == WithEntry(w, o, e)
    ensures Overlay(g, d, s, w') == PutSlot(img, s, o, e)
    ensures g.Valid(|img|) && FatView(g, PutSlot(img, s, o, e)) == FatView(g, img)
  {
    OverlayOutside(g, d, s, w, w');
    PutSlotKeepsFat(g, img, s, o, e);
  }

  /** The parts of the volume the proofs below speak about, without the definitions. */
  lemma WindowState(fs: FatFs)
    requires fs.Valid()
    ensures fs.geo.Valid(|fs.disk.sectors|) && fs.win.Length == 512 && |fs.Img()| == |fs.disk.sectors|
    ensures fs.disk.log != [] && fs.disk.log[|fs.disk.log| - 1] == fs.disk.sectors
    ensures fs.winsect < |fs.disk.sectors| ==>
            fs.Img() == (if fs.wflag then Overlay(fs.geo, fs.disk.sectors, fs.winsect, fs.win[..]) else fs.disk.sectors)
    ensures fs.winsect < |fs.disk.sectors| ==> fs.Img()[fs.winsect] == fs.win[..]
    ensures fs.Fat() == FatView(fs.geo, fs.Img())
  {
  }

  lemma DirtyValid(fs: FatFs)
    requires fs.geo.Valid(|fs.disk.sectors|) && fs.win.Length == 512 && fs.winsect < |fs.disk.sectors| && fs.wflag
    requires fs.winsect <= MAX_DWORD && fs.disk.log != [] && fs.disk.log[|fs.disk.log| - 1] == fs.disk.sectors
    ensures fs.Valid() && fs.Img() == Overlay(fs.geo, fs.disk.sectors, fs.winsect, fs.win[..])
  {
  }

  /** Bring the entry's sector into the window. */
  method ToEntry(dp: Dir, ghost k: nat)
    requires dp.Valid() && dp.At(k)
    modifies dp.fs`winsect, dp.fs`wflag, dp.fs.win, dp.fs.disk
    ensures dp.Valid() && dp.fs.Valid() && dp.fs.Img() == old(dp.fs.Img()) && dp.fs.Fat() == old(dp.fs.Fat())
            && dp.At(k)
    ensures dp.fs.winsect == dp.sect < |dp.fs.disk.sectors| && dp.fs.geo.FatEnd() <= dp.sect && dp.dir + 32 <= 512
    ensures dp.sect == SlotSector(dp.fs.geo, dp.fs.Fat(), Start(dp.fs.geo, dp.sclust), k) && dp.dir == k % 16 * 32
    ensures HasSlot(dp.fs.geo, dp.fs.Fat(), Start(dp.fs.geo, dp.sclust), k)
  {
    hide *;
    Dirs(dp);
    VolumeFacts(dp.fs);
    ghost var g, f, start := dp.fs.geo, dp.fs.Fat(), Start(dp.fs.geo, dp.sclust);
    PointFacts(g, |dp.fs.Img()|, f, start, k, dp.dptr, dp.clust, dp.sect, dp.dir);
    MoveWindow(dp.fs, dp.sect);
    Dirs(dp);
    VolumeFacts(dp.fs);
  }

  /** The entry of slot k replaced, in the image. */
  ghost predicate SlotPut(g: Geo, f: Table, start: nat, k: nat, a: Image, b: Image, e: Entry) {
    && SlotSector(g, f, start, k) < |a|
    && b == PutSlot(a, SlotSector(g, f, start, k), k % 16 * 32, e)
  }

  /** The window has been changed to hold e in slot k. */
  lemma EntryWritten(dp: Dir, k: nat, d: Image, img: Image, fat: Table, wflag: bool, w: Sector, e: Entry)
    requires dp.fs.disk.log != [] && dp.fs.disk.log[|dp.fs.disk.log| - 1] == dp.fs.disk.sectors
    requires dp.fs.disk.sectors == d && dp.fs.geo.Valid(|d|) && dp.fs.win.Length == 512 && dp.fs.wflag
    requires dp.fs.winsect == dp.sect < |d| && dp.fs.geo.FatEnd() <= dp.sect && dp.dir + 32 <= 512
             && dp.sect <= MAX_DWORD
    requires img == (if wflag then Overlay(dp.fs.geo, d, dp.sect, w) else d) && img[dp.sect] == w
    requires fat == FatView(dp.fs.geo, img) && TableOk(dp.fs.geo, Start(dp.fs.geo, dp.sclust))
    requires dp.sect == SlotSector(dp.fs.geo, fat, Start(dp.fs.geo, dp.sclust), k) && dp.dir == k % 16 * 32
    requires dp.fs.win[..] == WithEntry(w, dp.dir, e)
    requires PointsAt(dp.fs.geo, fat, Start(dp.fs.geo, dp.sclust), k, dp.dptr, dp.clust, dp.sect, dp.dir)
    ensures dp.Valid() && dp.fs.Fat() == fat && dp.At(k)
    ensures SlotPut(dp.fs.geo, fat, Start(dp.fs.geo, dp.sclust), k, img, dp.fs.Img(), e)
  {
    hide *;
    WindowPut(dp.fs.geo, d, img, wflag, dp.sect, w, dp.dir, dp.fs.win[..], e);
    DirtyValid(dp.fs);
    WindowState(dp.fs);
    Dirs(dp);
    SlotPutIs(dp.fs.geo, fat, Start(dp.fs.geo, dp.sclust), k, img, dp.fs.Img(), e);
  }

  lemma SlotPutIs(g: Geo, f: Table, start: nat, k: nat, a: Image, b: Image, e: Entry)
    ensures k % 16 * 32 + 32 <= 512
    ensures SlotPut(g, f, start, k, a, b, e) <==>
            SlotSector(g, f, start, k) < |a| && b == PutSlot(a, SlotSector(g, f, start, k), k % 16 * 32, e)
  {
  }

  /** put_lfn on the entry the object points at. */
  method StoreLong(dp: Dir, lfn: array<Word>, ord: byte, sum: byte, ghost name: Name, ghost k: nat)
    returns (ghost e: Entry)
    requires dp.Valid() && dp.At(k)
    requires IsName(name) && Lfn.Shows(lfn[..], name) && 1 <= ord && 13 * (ord as int - 1) < |name|
    modifies dp.fs`winsect, dp.fs`wflag, dp.fs.win, dp.fs.disk
    ensures dp.Valid() && dp.fs.Valid() && dp.fs.Fat() == old(dp.fs.Fat()) && dp.At(k)
    ensures SlotPut(dp.fs.geo, old(dp.fs.Fat()), Start(dp.fs.geo, dp.sclust), k, old(dp.fs.Img()), dp.fs.Img(), e)
    ensures IsPart(e, name, ord as int, sum) && HasSlot(dp.fs.geo, old(dp.fs.Fat()), Start(dp.fs.geo, dp.sclust), k)
  {
    hide *;
    ToEntry(dp, k);
    Dirs(dp);
    WindowState(dp.fs);
    SectorNumber(dp.fs);
    ghost var d, img, fat, wflag, w := dp.fs.disk.sectors, dp.fs.Img(), dp.fs.Fat(), dp.fs.wflag, dp.fs.win[..];
    PutLfn(lfn, dp.fs.win, dp.dir, ord, sum, name);
    dp.fs.wflag := true;
    e := EntryOf(dp.fs.win[..], dp.dir);
    EntryWritten(dp, k, d, img, fat, wflag, w, e);
    Dirs(dp);
  }

  lemma SectorNumber(fs: FatFs)
    requires fs.Valid()
    ensures fs.winsect <= MAX_DWORD
  {
  }

  /** The short entry dir_register writes: the name, the case flags, and zeros. */
  ghost function ShortEntry(fn: seq<byte>): (e: Entry)
    requires |fn| == 12
    ensures e[..11] == fn[..11]
  {
    fn[..11] + [0, NtFlags(fn[11])] + seq(19, i => 0)
  }

  /** NS_BODY and NS_EXT of the flags, and nothing else. */
  function NtFlags(flags: byte): (r: byte)
    ensures r as int % 8 == 0 && r < 32
    ensures r as int / 8 % 2 == flags as int / 8 % 2 && r as int / 16 == flags as int / 16 % 2
  {
    flags as int / 8 % 4 * 8
  }

  /** Clear the entry and store the short name. */
  method StoreShort(dp: Dir, fn: seq<byte>, ghost k: nat)
    requires dp.Valid() && dp.At(k) && |fn| == 12
    modifies dp.fs`winsect, dp.fs`wflag, dp.fs.win, dp.fs.disk
    ensures dp.Valid() && dp.fs.Valid() && dp.fs.Fat() == old(dp.fs.Fat()) && dp.At(k)
    ensures SlotPut(dp.fs.geo, old(dp.fs.Fat()), Start(dp.fs.geo, dp.sclust), k, old(dp.fs.Img()), dp.fs.Img(),
                    ShortEntry(fn))
    ensures HasSlot(dp.fs.geo, old(dp.fs.Fat()), Start(dp.fs.geo, dp.sclust), k) && InWindow(dp, ShortEntry(fn))
  {
    hide *;
    ToEntry(dp, k);
    Dirs(dp);
    WindowState(dp.fs);
    SectorNumber(dp.fs);
    ghost var d, img, fat, wflag, w := dp.fs.disk.sectors, dp.fs.Img(), dp.fs.Fat(), dp.fs.wflag, dp.fs.win[..];
    FillShort(dp.fs.win, dp.dir, fn);
    dp.fs.wflag := true;
    EntryWritten(dp, k, d, img, fat, wflag, w, ShortEntry(fn));
    EntryIs(w, dp.dir, ShortEntry(fn));
    EntryShown(dp, ShortEntry(fn));
    Dirs(dp);
  }

  lemma EntryShown(dp: Dir, e: Entry)
    requires dp.fs.winsect == dp.sect && dp.dir + 32 <= dp.fs.win.Length && EntryOf(dp.fs.win[..], dp.dir) == e
    ensures InWindow(dp, e)
  {
    assert dp.fs.win[..][dp.dir..dp.dir + 32] == dp.fs.win[dp.dir..dp.dir + 32];
  }

  method FillShort(win: array<byte>, o: nat, fn: seq<byte>)
    requires o + 32 <= win.Length && |fn| == 12
    modifies win
    ensures win[..] == WithEntry(old(win[..]), o, ShortEntry(fn))
  {
    forall i | 0 <= i < 32 { win[o + i] := 0; }
    forall i | 0 <= i < 11 { win[o + i] := fn[i]; }
    win[o + 12] := NtFlags(fn[11]);
    assert win[..] == WithEntry(old(win[..]), o, ShortEntry(fn));
  }

  // ----- the slots of a table -----

  /** Two slots are two places on the drive. */
  ghost predicate Apart(g: Geo, f: Table, start: nat, k: nat, j: nat) {
    SlotSector(g, f, start, k) != SlotSector(g, f, start, j) || k % 16 != j % 16
  }

  /** No two slots of the table are one place: true of the root area and of every terminated chain. */
  ghost predicate TableApart(g: Geo, f: Table, start: nat) {
    forall k, j :: HasSlot(g, f, start, k) && HasSlot(g, f, start, j) && k != j ==> Apart(g, f, start, k, j)
  }

  lemma {:induction false} FollowPast(f: Table, s: seq<nat>, n: nat)
    requires IsChain(f, s) && n <= |s|
    ensures n < |s| ==> Follow(f, s[0], n) == s[n]
    ensures n == |s| ==> Follow(f, s[0], n) >= |f|
  {
    if n < |s| { FollowChain(f, s, n); } else { FollowChain(f, s, n - 1); }
  }

  lemma SlotInChain(g: Geo, f: Table, s: seq<nat>, k: nat)
    requires IsChain(f, s) && |f| == g.nFatent && s[0] > 0 && HasSlot(g, f, s[0], k)
    ensures HasSector(g, s, k / 16) && SlotSector(g, f, s[0], k) == Lba(g, s, k / 16)
  {
    var n := k / 16 / g.csize;
    if n >= |s| {
      assert g.IsCluster(Follow(f, s[0], |s|));
      FollowPast(f, s, |s|);
    } else {
      FollowPast(f, s, n);
    }
  }

  /** The slots of a directory on a terminated chain are apart. */
  lemma ChainApart(g: Geo, nsect: nat, f: Table, start: nat, s: seq<nat>)
    requires g.Valid(nsect) && |f| == g.nFatent && IsChain(f, s) && start == s[0] > 0
    ensures TableApart(g, f, start)
  {
    ChainOwns(g, f, s);
    hide HasSlot, SlotSector, IsChain, HasSector, Lba, Geo.Valid;
    forall k: nat, j: nat | HasSlot(g, f, start, k) && HasSlot(g, f, start, j) && k != j
      ensures Apart(g, f, start, k, j)
    {
      SlotInChain(g, f, s, k);
      SlotInChain(g, f, s, j);
      if SlotSector(g, f, start, k) == SlotSector(g, f, start, j) {
        LbaInjective(g, nsect, s, k / 16, j / 16);
      }
    }
  }

  lemma RootApart(g: Geo, f: Table)
    ensures TableApart(g, f, 0)
  {
  }

  lemma EarlierSlot(g: Geo, f: Table, start: nat, k: nat, j: nat)
    requires HasSlot(g, f, start, k) && j <= k
    ensures HasSlot(g, f, start, j)
  {
    DivMonotone(g.csize, j / 16, k / 16);
  }

  // ----- what is stored -----

  lemma PutHolds(g: Geo, f: Table, start: nat, k: nat, a: Image, b: Image, e: Entry, j: nat, x: Entry)
    requires SlotPut(g, f, start, k, a, b, e) && HasSlot(g, f, start, k)
    ensures HoldsAt(g, b, f, start, k, e)
    ensures HasSlot(g, f, start, j) && Apart(g, f, start, k, j) ==>
            (HoldsAt(g, a, f, start, j, x) <==> HoldsAt(g, b, f, start, j, x))
  {
    var s, o := SlotSector(g, f, start, k), k % 16 * 32;
    var w := a[s];
    var w' := WithEntry(w, o, e);
    assert w'[o..o + 32] == e;
    if HasSlot(g, f, start, j) && Apart(g, f, start, k, j) && SlotSector(g, f, start, j) == s {
      OtherEntry(w, o, e, j % 16, k % 16);
    }
  }

  lemma OtherEntry(w: Sector, o: nat, e: Entry, i: nat, j: nat)
    requires i < 16 && j < 16 && i != j && o == j * 32
    ensures WithEntry(w, o, e)[i * 32..i * 32 + 32] == w[i * 32..i * 32 + 32]
  {
  }

  /** The sector holds one of the n slots from b on. */
  ghost predicate SectorOf(g: Geo, f: Table, start: nat, b: nat, n: nat, s: nat) {
    exists k: nat :: b <= k < b + n && SlotSector(g, f, start, k) == s
  }

  /** The slots from b on hold es; the other slots of the table are as they were, and so is
      every sector without one of these slots. */
  ghost predicate Stored(g: Geo, f: Table, start: nat, b: nat, a: Image, img: Image, es: seq<Entry>) {
    && |img| == |a|
    && (forall j :: 0 <= j < |es| ==> HoldsAt(g, img, f, start, b + j, es[j]))
    && (forall k: nat, x: Entry :: HasSlot(g, f, start, k) && !(b <= k < b + |es|) ==>
          (HoldsAt(g, a, f, start, k, x) <==> HoldsAt(g, img, f, start, k, x)))
    && (forall s: nat :: s < |a| && !SectorOf(g, f, start, b, |es|, s) ==> img[s] == a[s])
  }

  lemma StoredNone(g: Geo, f: Table, start: nat, b: nat, a: Image)
    ensures Stored(g, f, start, b, a, a, [])
  {
  }

  lemma StoredMore(g: Geo, f: Table, start: nat, b: nat, a: Image, img: Image, es: seq<Entry>, img': Image, e: Entry)
    requires Stored(g, f, start, b, a, img, es) && TableApart(g, f, start) && HasSlot(g, f, start, b + |es|)
    requires SlotPut(g, f, start, b + |es|, img, img', e)
    ensures Stored(g, f, start, b, a, img', es + [e])
  {
    hide HoldsAt, SlotSector, HasSlot, Apart;
    var w, k0 := es + [e], b + |es|;
    forall j | 0 <= j < |w|
      ensures HoldsAt(g, img', f, start, b + j, w[j])
    {
      HoldsSlot(g, img, f, start, b + j, w[j]);
      PutHolds(g, f, start, k0, img, img', e, b + j, w[j]);
    }
    forall k: nat, x: Entry | HasSlot(g, f, start, k) && !(b <= k < b + |w|)
      ensures HoldsAt(g, a, f, start, k, x) <==> HoldsAt(g, img', f, start, k, x)
    {
      PutHolds(g, f, start, k0, img, img', e, k, x);
    }
    forall s: nat | s < |a| && !SectorOf(g, f, start, b, |w|, s)
      ensures img'[s] == a[s]
    {
      PutElsewhere(g, f, start, b, |es|, img, img', e, s);
    }
  }

  lemma HoldsSlot(g: Geo, img: Image, f: Table, start: nat, k: nat, e: Entry)
    ensures HoldsAt(g, img, f, start, k, e) ==> HasSlot(g, f, start, k)
  {
  }

  lemma PutElsewhere(g: Geo, f: Table, start: nat, b: nat, n: nat, a: Image, img: Image, e: Entry, s: nat)
    requires SlotPut(g, f, start, b + n, a, img, e) && s < |a| && !SectorOf(g, f, start, b, n + 1, s)
    ensures |img| == |a| && img[s] == a[s] && !SectorOf(g, f, start, b, n, s)
  {
    hide SlotSector;
    assert SlotSector(g, f, start, b + n) != s;
  }

  // ----- dir_register -----

  ghost predicate PartsSoFar(es: seq<Entry>, name: Name, n: nat, sum: byte) {
    |es| <= n && forall j :: 0 <= j < |es| ==> IsPart(es[j], name, n - j, sum)
  }

  lemma PartsMore(es: seq<Entry>, name: Name, n: nat, sum: byte, e: Entry)
    requires PartsSoFar(es, name, n, sum) && |es| < n && IsPart(e, name, n - |es|, sum)
    ensures PartsSoFar(es + [e], name, n, sum)
  {
  }

  lemma PartsDone(es: seq<Entry>, name: Name, n: nat, sum: byte)
    ensures PartsSoFar([], name, n, sum)
    ensures PartsSoFar(es, name, n, sum) && |es| == n ==> StoredFrom(es, name, n, sum)
  {
  }

  lemma PartRange(name: Name, n: nat)
    requires IsName(name) && 1 <= n <= EntryCount(|name|)
    ensures n < 256 && 13 * (n - 1) < |name|
  {
  }

  /** Store the parts of a long name, the last first, in the n slots the object points at. */
  method StoreLongs(dp: Dir, lfn: array<Word>, n: nat, sum: byte, ghost name: Name, ghost b: nat)
    returns (ghost es: seq<Entry>)
    requires dp.Valid() && dp.fs.Valid() && dp.At(b) && IsName(name) && Lfn.Shows(lfn[..], name)
             && n == EntryCount(|name|)
    requires HasSlot(dp.fs.geo, dp.fs.Fat(), Start(dp.fs.geo, dp.sclust), b + n)
    requires TableApart(dp.fs.geo, dp.fs.Fat(), Start(dp.fs.geo, dp.sclust))
    modifies dp`dptr, dp`clust, dp`sect, dp`dir, dp.fs`winsect, dp.fs`wflag, dp.fs.win, dp.fs.disk
    ensures dp.Valid() && dp.fs.Valid() && dp.fs.Fat() == old(dp.fs.Fat()) && dp.At(b + n)
    ensures StoredFrom(es, name, n, sum) && |es| == n
    ensures Stored(dp.fs.geo, dp.fs.Fat(), Start(dp.fs.geo, dp.sclust), b, old(dp.fs.Img()), dp.fs.Img(), es)
  {
    hide *;
    ghost var g, f, start, a := dp.fs.geo, dp.fs.Fat(), Start(dp.fs.geo, dp.sclust), dp.fs.Img();
    es := [];
    StoredNone(g, f, start, b, a);
    PartsDone([], name, n, sum);
    var left := n;
    while left > 0
      invariant dp.Valid() && dp.fs.Valid() && dp.fs.Fat() == f && |es| + left == n && dp.At(b + |es|)
      invariant Stored(g, f, start, b, a, dp.fs.Img(), es) && PartsSoFar(es, name, n, sum)
      decreases left
    {
      PartRange(name, left);
      ghost var img := dp.fs.Img();
      ghost var e := StoreLong(dp, lfn, left, sum, name, b + |es|);
      StoredMore(g, f, start, b, a, img, es, dp.fs.Img(), e);
      PartsMore(es, name, n, sum, e);
      EarlierSlot(g, f, start, b + n, b + |es| + 1);
      DirFacts(dp);
      var res := DirNext(dp, b + |es|);
      DirFacts(dp);
      es := es + [e];
      left := left - 1;
    }
    PartsDone(es, name, n, sum);
  }

  /** The end of dir_register, with n slots reserved before the one the object points at: the
      long entries of the name (none if NS_LFN is clear), then the short entry. */
  method StoreName(dp: Dir, lfn: array<Word>, fn: seq<byte>, n: nat, ghost name: Name, ghost b: nat)
    returns (res: FResult, ghost es: seq<Entry>)
    requires dp.Valid() && dp.fs.Valid() && |fn| == 12 && dp.At(b + n)
    requires n > 0 ==> IsName(name) && Lfn.Shows(lfn[..], name) && n == EntryCount(|name|)
    requires TableApart(dp.fs.geo, dp.fs.Fat(), Start(dp.fs.geo, dp.sclust))
    modifies dp`dptr, dp`clust, dp`sect, dp`dir, dp.fs`winsect, dp.fs`wflag, dp.fs.win, dp.fs.disk
    ensures dp.Valid() && dp.fs.Valid() && dp.fs.Fat() == old(dp.fs.Fat()) && res == FR_OK && dp.At(b + n)
    ensures n > 0 ==> StoredFrom(es, name, n, SumSfnOf(fn))
    ensures |es| == n && InWindow(dp, ShortEntry(fn))
    ensures Stored(dp.fs.geo, dp.fs.Fat(), Start(dp.fs.geo, dp.sclust), b, old(dp.fs.Img()), dp.fs.Img(),
                   es + [ShortEntry(fn)])
  {
    hide *;
    DirFacts(dp);
    AtHas(dp, b + n);
    ghost var g, f, start, a := dp.fs.geo, dp.fs.Fat(), Start(dp.fs.geo, dp.sclust), dp.fs.Img();
    StoredNone(g, f, start, b, a);
    res, es := FR_OK, [];
    if n > 0 {
      SlotOffset(b, n);
      EarlierSlot(g, f, start, b + n, b);
      res := DirSdi(dp, dp.dptr - n * SZDIRE);
      DirFacts(dp);
      var sum := SumSfn(fn);
      es := StoreLongs(dp, lfn, n, sum, name, b);
    }
    AtHas(dp, b + n);
    ghost var img := dp.fs.Img();
    StoreShort(dp, fn, b + n);
    StoredMore(g, f, start, b, a, img, es, dp.fs.Img(), ShortEntry(fn));
  }

  lemma AtHas(dp: Dir, k: nat)
    requires dp.Valid() && dp.At(k)
    ensures dp.fs.Valid() && HasSlot(dp.fs.geo, dp.fs.Fat(), Start(dp.fs.geo, dp.sclust), k) && dp.dptr == 32 * k
  {
  }

  lemma SlotOffset(b: nat, n: nat)
    ensures 32 * (b + n) - n * SZDIRE == 32 * b && 32 * b % 32 == 0 && 32 * b / 32 == b && SZDIRE == 32
  {
  }

  // ----- a stored name is found and read back -----

  lemma ShortSum(fn: seq<byte>, e: Entry)
    requires |fn| == 12 && e[..11] == fn[..11]
    ensures SumSfnOf(e) == SumSfnOf(fn)
  {
  }

  /** The entries of the table in front of the short entry are those before b and the long ones. */
  lemma ReadsStored(g: Geo, f: Table, start: nat, b: nat, a: Image, img: Image, es: seq<Entry>, e: Entry, k: nat,
                    rs: seq<Entry>, x: Entry)
    requires Stored(g, f, start, b, a, img, es + [e]) && k <= b && |rs| == b + |es| - k
    requires Reads(g, img, f, start, k, rs) && HoldsAt(g, img, f, start, k + |rs|, x)
    ensures rs == rs[..b - k] + es && x == e
  {
    hide HasSlot, SlotSector, Slot;
    var w := es + [e];
    assert w[|es|] == e && HoldsAt(g, img, f, start, b + |es|, w[|es|]);
    OneEntry(g, img, f, start, b + |es|, x, e);
    forall j | 0 <= j < |es|
      ensures rs[b - k + j] == es[j]
    {
      assert HoldsAt(g, img, f, start, b + j, w[j]) && HoldsAt(g, img, f, start, k + (b - k + j), rs[b - k + j]);
      OneEntry(g, img, f, start, b + j, rs[b - k + j], es[j]);
    }
  }

  lemma OneEntry(g: Geo, img: Image, f: Table, start: nat, k: nat, x: Entry, y: Entry)
    requires HoldsAt(g, img, f, start, k, x) && HoldsAt(g, img, f, start, k, y)
    ensures x == y
  {
  }

  /** e is the short entry stored for the name, with whatever its other fields have become since.
      After dir_register has stored a long name, dir_read, wherever before it it starts, and if it
      stops at the new short entry, reports the place of the long entries and has the name in the
      buffer. */
  lemma StoredThenRead(g: Geo, f: Table, start: nat, b: nat, a: Image, img: Image, es: seq<Entry>, fn: seq<byte>,
                       e: Entry, name: Name, k: nat, rs: seq<Entry>, x: Entry, lfn: seq<Word>, blk: nat, m: nat,
                       lfn0: seq<Word>)
    requires |fn| == 12 && e[..11] == fn[..11]
    requires IsName(name) && StoredFrom(es, name, EntryCount(|name|), SumSfnOf(fn))
    requires Stored(g, f, start, b, a, img, es + [e]) && k <= b && |rs| == b + |es| - k
    requires Reads(g, img, f, start, k, rs) && StoppedAt(g, img, f, start, false, k, rs, x, lfn, blk, m, lfn0)
    ensures x == e && blk == 32 * b && Lfn.Shows(lfn, name)
  {
    StoppedFacts(g, img, f, start, k, rs, x, lfn, blk, m, lfn0);
    hide *;
    ReadsStored(g, f, start, b, a, img, es, e, k, rs, x);
    ShortSum(fn, e);
    StoredNameRead(k, rs[..b - k], es, x, name, lfn, blk, m, lfn0);
  }

  lemma StoppedFacts(g: Geo, img: Image, f: Table, start: nat, k: nat, rs: seq<Entry>, x: Entry, lfn: seq<Word>,
                     blk: nat, m: nat, lfn0: seq<Word>)
    requires StoppedAt(g, img, f, start, false, k, rs, x, lfn, blk, m, lfn0)
    ensures HoldsAt(g, img, f, start, k + |rs|, x) && Reported(false, k, rs, x, lfn, blk, m, lfn0)
  {
  }

  /** And the name that dir_find has to find there by its long form is exactly that name, in
      whatever case: the search from the first slot hits the new entry by its long name if and
      only if the name searched for is the stored one but for case. */
  lemma StoredThenFound(g: Geo, f: Table, start: nat, b: nat, a: Image, img: Image, es: seq<Entry>, fn: seq<byte>,
                        e: Entry, name: Name, rs: seq<Entry>, x: Entry, up: Word -> Word, lfn: seq<Word>,
                        want: seq<byte>, wanted: Name)
    requires |fn| == 12 && e[..11] == fn[..11]
    requires IsName(name) && StoredFrom(es, name, EntryCount(|name|), SumSfnOf(fn))
    requires Stored(g, f, start, b, a, img, es + [e]) && |rs| == b + |es|
    requires Reads(g, img, f, start, 0, rs) && HoldsAt(g, img, f, start, 0 + |rs|, x)
    requires IsName(wanted) && Lfn.Shows(lfn, wanted) && IsUpper(up) && |want| == 12 && want[11] as int / 64 % 2 == 0
    ensures x == e && (HasName(Agrees(up, lfn, want), rs, x) <==> SameName(up, name, wanted))
  {
    hide *;
    ReadsStored(g, f, start, b, a, img, es, e, 0, rs, x);
    ShortSum(fn, e);
    StoredNameHit(up, lfn, want, rs[..b - 0], es, x, name, wanted);
  }

  /** A name for which create_name asks for no long entries: get_fileinfo prints it back from the
      short entry dir_register stores. */
  lemma StoredShortPrints(cv: Word -> ShortName.Piece, n: Name, last: bool, fn: seq<byte>)
    requires ShortName.IsTrimmed(n) && ShortName.IsConversion(cv) && ShortName.ShortMade(cv, n, last, fn)
    requires fn[11] as int / ShortName.NS_LFN % 2 == 0
    ensures var e := ShortEntry(fn); ShortName.Printed(e[..11], e[12]) == n
  {
    assert ShortEntry(fn)[..11] == fn[..11];
    ShortName.CreatedShortPrints(cv, n, last, fn, NtFlags(fn[11]));
  }
}
