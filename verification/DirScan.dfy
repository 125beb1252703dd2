/** dir_read and dir_find: the next short entry of a table, with the long entries before it. */
module DirScan {
  import opened Bytes
  import opened Chains
  import opened Directory
  import opened Geometry
  import opened Lfn
  import opened LongRuns
  import opened Numbers
  import opened Results
  import opened Sectors
  import opened Volume

  const NO_BLOCK: nat := 0xFFFF_FFFF

  /** es are the entries of the table from slot k on. */
  ghost predicate Reads(g: Geo, img: Image, f: Table, start: nat, k: nat, es: seq<Entry>) {
    forall j :: 0 <= j < |es| ==> HoldsAt(g, img, f, start, k + j, es[j])
  }

  ghost predicate HoldsAt(g: Geo, img: Image, f: Table, start: nat, k: nat, e: Entry) {
    HasSlot(g, f, start, k) && SlotSector(g, f, start, k) < |img| && e == Slot(g, img, f, start, k)
  }

  /** The table ends at slot k: there is no such slot, or its entry says so. */
  ghost predicate EndsAt(g: Geo, img: Image, f: Table, start: nat, k: nat) {
    HasSlot(g, f, start, k) ==> exists e: Entry :: HoldsAt(g, img, f, start, k, e) && e[0] == 0
  }

  lemma ReadsMore(g: Geo, img: Image, f: Table, start: nat, k: nat, es: seq<Entry>, e: Entry)
    requires Reads(g, img, f, start, k, es) && HoldsAt(g, img, f, start, k + |es|, e)
    ensures Reads(g, img, f, start, k, es + [e])
  {
    hide HoldsAt;
  }

  // ----- sum_sfn -----

  /** Rotate right and add, for each byte of the name. */
  function SumOf(s: seq<byte>): byte {
    if s == [] then 0
    else
      var sum := SumOf(s[..|s| - 1]);
      (sum as int / 2 + sum as int * 128 + s[|s| - 1] as int) % 256
  }

  /** x turned right by one bit. */
  ghost predicate TurnedRight(x: byte, r: byte) {
    forall k :: 0 <= k < 8 ==> (BitOf(r, k) <==> BitOf(x, (k + 1) % 8))
  }

  /** Each byte is added to the sum so far, turned right by one bit. */
  lemma SumTurns(s: seq<byte>, b: byte) returns (r: byte)
    ensures SumOf([]) == 0
    ensures TurnedRight(SumOf(s), r) && SumOf(s + [b]) == (r as int + b as int) % 256
  {
    assert (s + [b])[..|s|] == s;
    var x := SumOf(s);
    TopBit(x, b);
    r := x / 2 + x % 2 * 128;
    assert Pow2(7) == 2 * Pow2(6) == 4 * Pow2(5) == 8 * Pow2(4) == 16 * Pow2(3) == 32 * Pow2(2) == 64 * Pow2(1) == 128;
    forall k | 0 <= k < 8
      ensures BitOf(r, k) <==> BitOf(x, (k + 1) % 8)
    {
      BitOnTop(x / 2, x % 2, 7, k);
    }
  }

  /** Short names that differ in exactly one byte have different checksums. */
  lemma {:induction false} SumsDiffer(s: seq<byte>, t: seq<byte>, i: nat)
    requires |s| == |t| && i < |s| && s[i] != t[i]
    requires forall j :: 0 <= j < |s| && j != i ==> s[j] == t[j]
    ensures SumOf(s) != SumOf(t)
  {
    var n := |s| - 1;
    if i < n {
      SumsDiffer(s[..n], t[..n], i);
    } else {
      assert s[..n] == t[..n];
    }
    SumOne(s);
    SumOne(t);
    hide SumOf;
    StepDiffers(SumOf(s[..n]), SumOf(t[..n]), s[n], t[n]);
  }

  lemma SumOne(s: seq<byte>)
    requires s != []
    ensures var sum := SumOf(s[..|s| - 1]);
            SumOf(s) == (sum / 2 + sum % 2 * 128 + s[|s| - 1]) % 256
  {
    TopBit(SumOf(s[..|s| - 1]), s[|s| - 1]);
  }

  /** Of a byte times 128 the lowest bit is left in a byte. */
  lemma TopBit(x: byte, b: byte)
    ensures (x / 2 + x * 128 + b) % 256 == (x / 2 + x % 2 * 128 + b) % 256
  {
    assert x / 2 + x * 128 + b == 256 * (x / 2) + (x / 2 + x % 2 * 128 + b);
  }

  lemma StepDiffers(x: byte, y: byte, b: byte, c: byte)
    requires (x == y) != (b == c)
    ensures (x / 2 + x % 2 * 128 + b) % 256 != (y / 2 + y % 2 * 128 + c) % 256
  {
  }

  /** The checksum of a short name, the first eleven bytes of e. */
  function SumSfnOf(e: seq<byte>): byte
    requires |e| >= 11
  {
    SumOf(e[..11])
  }

  method SumSfn(e: seq<byte>) returns (sum: byte)
    requires |e| >= 11
    ensures sum == SumSfnOf(e)
  {
    sum := 0;
    var n, i := 11, 0;
    assert e[..0] == [];
    while n != 0
      invariant 0 <= n <= 11 && i == 11 - n && sum == SumOf(e[..i])
    {
      assert e[..i + 1][..i] == e[..i];
      sum := (sum as int / 2 + sum as int * 128 + e[i] as int) % 256;
      i := i + 1;
      n := n - 1;
    }
  }

  /** The entry the object points at, brought into the window. */
  method ReadEntry(dp: Dir, ghost k: nat) returns (e: Entry)
    requires dp.Valid() && dp.At(k)
    modifies dp.fs`winsect, dp.fs`wflag, dp.fs.win, dp.fs.disk
    ensures dp.Valid() && dp.fs.Valid() && dp.fs.Img() == old(dp.fs.Img()) && dp.fs.Fat() == old(dp.fs.Fat())
    ensures dp.At(k) && dp.dptr == 32 * k && k < 0x1_0000 && InWindow(dp, e)
    ensures HoldsAt(dp.fs.geo, dp.fs.Img(), dp.fs.Fat(), Start(dp.fs.geo, dp.sclust), k, e)
    ensures e[0] == 0 ==> EndsAt(dp.fs.geo, dp.fs.Img(), dp.fs.Fat(), Start(dp.fs.geo, dp.sclust), k)
  {
    hide *;
    Dirs(dp);
    VolumeFacts(dp.fs);
    AtIs(dp, k);
    ghost var g, f, start := dp.fs.geo, dp.fs.Fat(), Start(dp.fs.geo, dp.sclust);
    PointFacts(g, |dp.fs.Img()|, f, start, k, dp.dptr, dp.clust, dp.sect, dp.dir);
    MoveWindow(dp.fs, dp.sect);
    WindowShows(dp.fs);
    e := dp.fs.win[dp.dir..dp.dir + 32];
    SlotIs(g, dp.fs.Img(), f, start, k, dp.fs.win[..], dp.sect, dp.dir, e);
    EndIs(g, dp.fs.Img(), f, start, k, e);
    InWindowIs(dp, e);
    Dirs(dp);
    VolumeFacts(dp.fs);
  }

  /** The window shows the sector the object points into, and there the entry. */
  ghost predicate InWindow(dp: Dir, e: Entry)
    reads dp`sect, dp`dir, dp.fs`winsect, dp.fs.win
  {
    dp.fs.winsect == dp.sect && dp.dir + 32 <= dp.fs.win.Length && e == dp.fs.win[dp.dir..dp.dir + 32]
  }

  lemma InWindowIs(dp: Dir, e: Entry)
    ensures InWindow(dp, e) <==>
            dp.fs.winsect == dp.sect && dp.dir + 32 <= dp.fs.win.Length && e == dp.fs.win[dp.dir..dp.dir + 32]
  {
  }

  lemma WindowShows(fs: FatFs)
    requires fs.Valid() && fs.winsect < |fs.disk.sectors|
    ensures fs.win.Length == 512 && |fs.Img()| == |fs.disk.sectors| && fs.Img()[fs.winsect] == fs.win[..]
  {
  }

  lemma SlotIs(g: Geo, img: Image, f: Table, start: nat, k: nat, win: seq<byte>, sect: nat, dir: nat, e: Entry)
    requires HasSlot(g, f, start, k) && sect == SlotSector(g, f, start, k) < |img|
    requires dir == k % 16 * 32 && |win| == 512 && win == img[sect] && dir + 32 <= 512 && e == win[dir..dir + 32]
    ensures HoldsAt(g, img, f, start, k, e)
  {
  }

  // ----- dir_read -----

  /** An entry dir_read passes over without looking at it: deleted, a dot entry, or of the wrong kind. */
  predicate PassedOver(vol: bool, e: Entry) {
    e[0] == DDEM || e[0] == 0x2E || (Attr(e) % 32 == 8) != vol
  }

  /** An entry dir_read stops at. */
  predicate StopsRead(vol: bool, e: Entry) {
    !PassedOver(vol, e) && !Long(e)
  }

  ghost predicate NoneStops(vol: bool, es: seq<Entry>) {
    forall j :: 0 <= j < |es| ==> es[j][0] != 0 && !StopsRead(vol, es[j])
  }

  /** While a run is open, the buffer is what picking its entries made of lfn0. */
  ghost predicate PickedRun(lfn0: seq<Word>, es: seq<Entry>, lfn: seq<Word>, m: nat) {
    m <= |es| && |lfn0| == MAX_LFN + 1 && PicksTo(lfn0, es[|es| - m..], lfn)
  }

  lemma PickedFirst(lfn: seq<Word>, es: seq<Entry>, e: Entry)
    requires |lfn| == MAX_LFN + 1 && Pickable(e)
    ensures PlaceOf(OrderOf(e)) + |Contribution(e)| <= MAX_LFN + 1
    ensures PickedRun(lfn, es + [e], Picked(lfn, e), 1)
  {
    var w := es + [e];
    assert w[|w| - 1..] == [] + [e];
    PicksMore(lfn, [], lfn, e);
  }

  lemma PickedNext(lfn0: seq<Word>, es: seq<Entry>, lfn: seq<Word>, m: nat, e: Entry)
    requires PickedRun(lfn0, es, lfn, m) && Pickable(e)
    ensures PlaceOf(OrderOf(e)) + |Contribution(e)| <= MAX_LFN + 1 && |lfn| == MAX_LFN + 1
    ensures PickedRun(lfn0, es + [e], Picked(lfn, e), m + 1)
  {
    hide Pickable, Picked, PicksTo;
    PickableFits(e);
    PicksMore(lfn0, es[|es| - m..], lfn, e);
    SuffixMore(es, e, m);
  }

  lemma SuffixMore(es: seq<Entry>, e: Entry, m: nat)
    requires m <= |es|
    ensures (es + [e])[|es + [e]| - (m + 1)..] == es[|es| - m..] + [e]
  {
  }

  lemma PickableOrder(vol: bool, e: Entry)
    ensures Picks(vol)(e) <==> !vol && Pickable(e)
    ensures Pickable(e) ==> 0 < OrderOf(e) <= 20
    ensures !Flagged(e) && e[0] != 0 ==> OrderOf(e) > 0 && OrderOf(e) == e[0] as int
    ensures Flagged(e) ==> e[0] >= 64 && OrderOf(e) == e[0] as int - 64
    ensures OrderOf(e) <= 255
  {
  }

  /** The long entries dir_read uses: all proper ones when it reads files, none when it reads labels. */
  ghost function Picks(vol: bool): (p: Entry -> bool)
    ensures forall e: Entry :: p(e) <==> !vol && Pickable(e)
  {
    (e: Entry) => !vol && Pickable(e)
  }

  /** The open run, by its first slot: blk is its offset in the table. */
  ghost predicate Tracked(vol: bool, k: nat, es: seq<Entry>, lfn: seq<Word>, ord: nat, sum: byte, blk: nat, m: nat,
                          lfn0: seq<Word>) {
    && Tracks(Picks(vol), es, ord, sum, m)
    && ord <= DEAD
    && (ord != DEAD ==> 0 < m <= |es| && blk == 32 * (k + |es| - m) && PickedRun(lfn0, es, lfn, m))
  }

  lemma TrackedStart(vol: bool, k: nat, lfn: seq<Word>, blk: nat)
    ensures Tracked(vol, k, [], lfn, DEAD, 0xFF, blk, 0, lfn)
  {
    TracksNothing(Picks(vol), 0xFF);
  }

  lemma TrackedOther(vol: bool, k: nat, es: seq<Entry>, e: Entry, lfn: seq<Word>, sum: byte, blk: nat)
    requires !Long(e) || vol || !Pickable(e)
    ensures Tracked(vol, k, es + [e], lfn, DEAD, sum, blk, 0, lfn)
  {
    if Long(e) { TracksRefused(Picks(vol), es, e, sum); } else { TracksOther(Picks(vol), es, e, sum); }
  }

  lemma TrackedFlagged(vol: bool, k: nat, es: seq<Entry>, e: Entry, lfn: seq<Word>)
    requires !vol && Long(e) && Flagged(e) && |lfn| == MAX_LFN + 1 && Pickable(e)
    ensures PlaceOf(OrderOf(e)) + |Contribution(e)| <= MAX_LFN + 1 && OrderOf(e) > 0
    ensures Tracked(vol, k, es + [e], Picked(lfn, e), OrderOf(e) - 1, e[13], 32 * (k + |es|), 1, lfn)
  {
    hide Tracks, PickedRun, Pickable, Picked, Flagged, OrderOf, Picks;
    PickableOrder(vol, e);
    TracksFlagged(Picks(vol), es, e);
    PickedFirst(lfn, es, e);
  }

  lemma TrackedNext(vol: bool, k: nat, es: seq<Entry>, e: Entry, lfn: seq<Word>, ord: nat, sum: byte, blk: nat,
                    m: nat, lfn0: seq<Word>)
    requires Tracked(vol, k, es, lfn, ord, sum, blk, m, lfn0) && |lfn| == MAX_LFN + 1 && !vol && Long(e)
             && !Flagged(e) && e[0] != 0
    ensures OrderOf(e) == ord && sum == e[13] && Pickable(e) ==>
              && PlaceOf(OrderOf(e)) + |Contribution(e)| <= MAX_LFN + 1 && ord > 0
              && Tracked(vol, k, es + [e], Picked(lfn, e), ord - 1, sum, blk, m + 1, lfn0)
    ensures !(OrderOf(e) == ord && sum == e[13] && Pickable(e)) ==>
            Tracked(vol, k, es + [e], lfn, DEAD, sum, blk, 0, lfn)
  {
    hide Tracks, PickedRun, Pickable, Picked, Flagged, OrderOf, Picks;
    PickableOrder(vol, e);
    TracksNext(Picks(vol), es, e, ord, sum, m);
    UnflaggedOrder(e);
    if OrderOf(e) == ord && sum == e[13] && Pickable(e) {
      PickedNext(lfn0, es, lfn, m, e);
    }
  }

  /** A long entry: open a run, continue the open one, or drop it. */
  method TakeLong(ghost vol: bool, lfn: array<Word>, e: Entry, ord0: nat, sum0: byte, blk0: nat, dptr: nat,
                  ghost k: nat, ghost es: seq<Entry>, ghost m0: nat, ghost lfn0: seq<Word>)
    returns (ord: nat, sum: byte, blk: nat, ghost m: nat, ghost was: seq<Word>)
    requires lfn.Length == MAX_LFN + 1 && !vol && Long(e) && e[0] != 0 && dptr == 32 * (k + |es|)
    requires Tracked(vol, k, es, lfn[..], ord0, sum0, blk0, m0, lfn0)
    modifies lfn
    ensures Tracked(vol, k, es + [e], lfn[..], ord, sum, blk, m, was)
  {
    hide *;
    ord, sum, blk, m, was := ord0, sum0, blk0, m0, lfn[..];
    PickableOrder(vol, e);
    var b := e[0] as int;
    if Flagged(e) {
      sum := e[13];
      b := b - 64;
      ord := b;
      blk := dptr;
      m := 0;
    } else {
      TrackedNext(vol, k, es, e, lfn[..], ord0, sum0, blk0, m0, lfn0);
      was := lfn0;
    }
    if b == ord && sum == e[13] {
      ghost var before := lfn[..];
      var ok := PickLfn(lfn, e);
      if ok {
        ord := ord - 1;
        m := m + 1;
        if Flagged(e) { TrackedFlagged(vol, k, es, e, before); }
      } else {
        ord, m := 0xFF, 0;
        TrackedOther(vol, k, es, e, lfn[..], sum, blk);
        was := lfn[..];
      }
    } else {
      ord, m := 0xFF, 0;
      was := lfn[..];
    }
    DeadIs();
  }

  lemma DeadIs()
    ensures DEAD == 0xFF
  {
  }

  /** A name belongs to the short entry at the end: its entries are the last m of es. */
  ghost predicate HasName(p: Entry -> bool, es: seq<Entry>, e: Entry) {
    exists m :: Named(p, es, SumSfnOf(e), m)
  }

  /** What dir_read reports about the long name of the short entry e it stopped at: either where
      the run of its entries begins, the buffer being what picking them makes of lfn0; or that
      there is no such run. */
  ghost predicate Reported(vol: bool, k: nat, es: seq<Entry>, e: Entry, lfn: seq<Word>, blk: nat, m: nat,
                           lfn0: seq<Word>) {
    if blk == NO_BLOCK then !HasName(Picks(vol), es, e)
    else Named(Picks(vol), es, SumSfnOf(e), m) && blk == 32 * (k + |es| - m) && PickedRun(lfn0, es, lfn, m)
  }

  lemma ReportedFrom(vol: bool, k: nat, es: seq<Entry>, e: Entry, lfn: seq<Word>, ord: nat, sum: byte, blk: nat,
                     m: nat, lfn0: seq<Word>)
    requires Tracked(vol, k, es, lfn, ord, sum, blk, m, lfn0) && k + |es| < 0x1_0000
    ensures var none := ord != 0 || sum != SumSfnOf(e);
            Reported(vol, k, es, e, lfn, if none then NO_BLOCK else blk, m, lfn0)
  {
    hide Tracks, Named, PickedRun, SumSfnOf;
    TracksShort(Picks(vol), es, ord, sum, m, SumSfnOf(e));
  }

  /** es are the entries from slot k on, and dir_read stops at none of them. */
  ghost predicate Scanned(g: Geo, img: Image, f: Table, start: nat, vol: bool, k: nat, es: seq<Entry>) {
    Reads(g, img, f, start, k, es) && NoneStops(vol, es)
  }

  /** dir_read stops at the entry e of the slot after es, and reports its long name. */
  ghost predicate StoppedAt(g: Geo, img: Image, f: Table, start: nat, vol: bool, k: nat, es: seq<Entry>, e: Entry,
                            lfn: seq<Word>, blk: nat, m: nat, lfn0: seq<Word>) {
    && HoldsAt(g, img, f, start, k + |es|, e)
    && e[0] != 0 && StopsRead(vol, e)
    && Reported(vol, k, es, e, lfn, blk, m, lfn0)
  }

  lemma StoppedIs(g: Geo, img: Image, f: Table, start: nat, vol: bool, k: nat, es: seq<Entry>, e: Entry,
                  lfn: seq<Word>, blk: nat, m: nat, lfn0: seq<Word>)
    requires HoldsAt(g, img, f, start, k + |es|, e) && e[0] != 0 && StopsRead(vol, e)
    requires Reported(vol, k, es, e, lfn, blk, m, lfn0)
    ensures StoppedAt(g, img, f, start, vol, k, es, e, lfn, blk, m, lfn0)
  {
  }

  lemma ScannedMore(g: Geo, img: Image, f: Table, start: nat, vol: bool, k: nat, es: seq<Entry>, e: Entry)
    requires Scanned(g, img, f, start, vol, k, es) && HoldsAt(g, img, f, start, k + |es|, e)
    requires e[0] != 0 && !StopsRead(vol, e)
    ensures Scanned(g, img, f, start, vol, k, es + [e])
  {
    ReadsMore(g, img, f, start, k, es, e);
    NoneMore(vol, es, e);
  }

  lemma PassOver(vol: bool, e: Entry)
    ensures PassedOver(vol, e) <==> e[0] == DDEM || e[0] == 0x2E || (Attr(e) % 32 == 8) != vol
    ensures Long(e) <==> Attr(e) == 15
    ensures StopsRead(vol, e) <==> !PassedOver(vol, e) && !Long(e)
    ensures !PassedOver(vol, e) && Long(e) ==> !vol
    ensures DEAD == 0xFF && NO_BLOCK == 0xFFFF_FFFF
    ensures Attr(e) == e[11] as int % 64
  {
  }

  lemma NoneMore(vol: bool, es: seq<Entry>, e: Entry)
    requires NoneStops(vol, es) && e[0] != 0 && !StopsRead(vol, e)
    ensures NoneStops(vol, es + [e])
  {
    hide StopsRead;
  }

  lemma ScanStart(g: Geo, img: Image, f: Table, start: nat, k: nat, vol: bool)
    ensures Scanned(g, img, f, start, vol, k, [])
  {
  }

  lemma EndIs(g: Geo, img: Image, f: Table, start: nat, k: nat, e: Entry)
    ensures HoldsAt(g, img, f, start, k, e) && e[0] == 0 ==> EndsAt(g, img, f, start, k)
    ensures !HasSlot(g, f, start, k) ==> EndsAt(g, img, f, start, k)
    ensures HasSlot(g, f, start, k) ==> k < MAX_DIR / SZDIRE
    ensures HoldsAt(g, img, f, start, k, e) ==> HasSlot(g, f, start, k)
  {
  }

  /** One entry read by dir_read: stop at it, or take account of it. */
  method ReadTurn(lfn: array<Word>, vol: bool, e: Entry, ord0: nat, sum0: byte, blk0: nat, dptr: nat,
                  ghost k: nat, ghost es: seq<Entry>, ghost m0: nat, ghost lfn0: seq<Word>)
    returns (stop: bool, ord: nat, sum: byte, blk: nat, ghost m: nat, ghost was: seq<Word>)
    requires lfn.Length == MAX_LFN + 1 && e[0] != 0 && dptr == 32 * (k + |es|) && k + |es| < 0x1_0000
    requires Tracked(vol, k, es, lfn[..], ord0, sum0, blk0, m0, lfn0)
    modifies lfn
    ensures stop == StopsRead(vol, e)
    ensures stop ==> Reported(vol, k, es, e, lfn[..], blk, m, was)
    ensures !stop ==> Tracked(vol, k, es + [e], lfn[..], ord, sum, blk, m, was)
  {
    hide *;
    PassOver(vol, e);
    var attr := e[11] as int % 64;
    stop, ord, sum, blk, m, was := false, ord0, sum0, blk0, m0, lfn0;
    if e[0] == DDEM || e[0] == 0x2E || (attr % 32 == 8) != vol {
      ord, m, was := 0xFF, 0, lfn[..];
      SkippedEntry(vol, k, es, e, lfn[..], ord0, sum, blk, m0, lfn0);
    } else if attr == 0x0F {
      ord, sum, blk, m, was := TakeLong(vol, lfn, e, ord0, sum0, blk0, dptr, k, es, m0, lfn0);
    } else {
      var s := SumSfn(e);
      ReportedFrom(vol, k, es, e, lfn[..], ord, sum, blk, m, was);
      if ord != 0 || sum != s {
        blk := NO_BLOCK;
      }
      stop := true;
    }
  }

  /** A long entry that is passed over has no order a run could have. */
  lemma SkippedEntry(vol: bool, k: nat, es: seq<Entry>, e: Entry, lfn: seq<Word>, ord: nat, sum: byte, blk: nat,
                     m: nat, lfn0: seq<Word>)
    requires Tracked(vol, k, es, lfn, ord, sum, blk, m, lfn0) && PassedOver(vol, e)
    ensures Tracked(vol, k, es + [e], lfn, DEAD, sum, blk, 0, lfn)
  {
    if Long(e) {
      PickableOrder(vol, e);
    }
    TrackedOther(vol, k, es, e, lfn, sum, blk);
  }

  /** dir_read: the next short entry (of a file, or of a label) from where the object points. es
      are the entries passed. blkOfs tells where its long name begins, if it has one: then the
      entries from there on are a descending run n..1 with the checksum of the short entry, and
      the buffer is what picking them made of it. Otherwise blkOfs says there is none. */
  method DirRead(dp: Dir, lfn: array<Word>, vol: bool, ghost k: nat)
    returns (res: FResult, ghost es: seq<Entry>, ghost e: Entry, ghost m: nat, ghost was: seq<Word>)
    requires dp.Valid() && lfn.Length == MAX_LFN + 1 && (dp.sect != 0 ==> dp.At(k))
    modifies lfn, dp`dptr, dp`clust, dp`sect, dp`dir, dp`blkOfs, dp`attr, dp.fs`winsect, dp.fs`wflag, dp.fs.win,
             dp.fs.disk
    ensures dp.Valid() && dp.fs.Img() == old(dp.fs.Img()) && dp.fs.Fat() == old(dp.fs.Fat())
    ensures old(dp.sect) == 0 ==> res == FR_NO_FILE
    ensures old(dp.sect) != 0 ==>
      Scanned(dp.fs.geo, dp.fs.Img(), dp.fs.Fat(), Start(dp.fs.geo, dp.sclust), vol, k, es)
    ensures old(dp.sect) != 0 && res != FR_OK ==>
      EndsAt(dp.fs.geo, dp.fs.Img(), dp.fs.Fat(), Start(dp.fs.geo, dp.sclust), k + |es|)
    ensures res != FR_OK ==> dp.sect == 0
    ensures res == FR_OK ==>
      && dp.At(k + |es|) && dp.attr == Attr(e) && InWindow(dp, e)
      && StoppedAt(dp.fs.geo, dp.fs.Img(), dp.fs.Fat(), Start(dp.fs.geo, dp.sclust), vol, k, es, e, lfn[..],
                   dp.blkOfs, m, was)
  {
    hide *;
    Dirs(dp);
    DirFacts(dp);
    ghost var g, img, f, start := dp.fs.geo, dp.fs.Img(), dp.fs.Fat(), Start(dp.fs.geo, dp.sclust);
    ScanStart(g, img, f, start, k, vol);
    TrackedStart(vol, k, lfn[..], dp.blkOfs);
    PassOver(vol, SomeEntry());
    res, es, m, was, e := FR_NO_FILE, [], 0, lfn[..], SomeEntry();
    var ord: nat, sum: byte := 0xFF, 0xFF;
    var going := dp.sect != 0;
    while going
      invariant dp.Valid() && dp.fs.Valid() && dp.fs.Img() == img && dp.fs.Fat() == f
      invariant old(dp.sect) != 0 ==> Scanned(g, img, f, start, vol, k, es)
      invariant going ==> old(dp.sect) != 0 && dp.At(k + |es|)
      invariant going ==> Tracked(vol, k, es, lfn[..], ord, sum, dp.blkOfs, m, was)
      invariant !going && res == FR_OK ==> dp.At(k + |es|) && dp.attr == Attr(e) && InWindow(dp, e)
      invariant !going && res == FR_OK ==> StoppedAt(g, img, f, start, vol, k, es, e, lfn[..], dp.blkOfs, m, was)
      invariant !going && old(dp.sect) != 0 && res != FR_OK ==> EndsAt(g, img, f, start, k + |es|)
      invariant old(dp.sect) == 0 ==> !going && res == FR_NO_FILE
      decreases 0x1_0000 - (k + |es|), going
    {
      var x := ReadEntry(dp, k + |es|);
      if x[0] == 0 {
        res, going := FR_NO_FILE, false;
      } else {
        dp.attr := x[11] as int % 64;
        PassOver(vol, x);
        var stop, blk;
        stop, ord, sum, blk, m, was := ReadTurn(lfn, vol, x, ord, sum, dp.blkOfs, dp.dptr, k, es, m, was);
        dp.blkOfs := blk;
        if stop {
          res, going, e := FR_OK, false, x;
          StoppedIs(g, img, f, start, vol, k, es, e, lfn[..], dp.blkOfs, m, was);
        } else {
          res := Advance(dp, k + |es|);
          ScannedMore(g, img, f, start, vol, k, es, x);
          es := es + [x];
          going := res == FR_OK;
        }
      }
    }
    if res != FR_OK { dp.sect := 0; }
    Dirs(dp);
  }

  ghost function SomeEntry(): Entry { seq(32, i => 0) }

  lemma AtIs(dp: Dir, k: nat)
    requires dp.Valid() && dp.At(k)
    ensures dp.dptr == 32 * k && k < 0x1_0000
  {
  }

  /** dir_next, and what its failure says about the table. */
  method Advance(dp: Dir, ghost k: nat) returns (res: FResult)
    requires dp.Valid() && dp.At(k)
    modifies dp`dptr, dp`clust, dp`sect, dp`dir, dp.fs`winsect, dp.fs`wflag, dp.fs.win, dp.fs.disk
    ensures dp.Valid() && dp.fs.Valid() && dp.fs.Img() == old(dp.fs.Img()) && dp.fs.Fat() == old(dp.fs.Fat())
    ensures res == FR_OK ==> dp.At(k + 1)
    ensures res == FR_OK || res == FR_NO_FILE || res == FR_INT_ERR
    ensures res != FR_OK ==> EndsAt(dp.fs.geo, dp.fs.Img(), dp.fs.Fat(), Start(dp.fs.geo, dp.sclust), k + 1)
  {
    hide *;
    DirFacts(dp);
    Dirs(dp);
    res := DirNext(dp, k);
    Dirs(dp);
    DirFacts(dp);
    EndIs(dp.fs.geo, dp.fs.Img(), dp.fs.Fat(), Start(dp.fs.geo, dp.sclust), k + 1, SomeEntry());
  }

  // ----- dir_find -----

  /** The long entries dir_find follows: those that agree with the name in the buffer, unless it
      was told to look at short names only. fn[11] holds the flags of the short name. */
  ghost function Agrees(up: Word -> Word, lfn: seq<Word>, fn: seq<byte>): (p: Entry -> bool)
    requires |fn| == 12
    ensures forall e: Entry :: p(e) <==> fn[11] as int / 64 % 2 == 0 && Comparable(up, lfn, e)
  {
    (e: Entry) => fn[11] as int / 64 % 2 == 0 && Comparable(up, lfn, e)
  }

  /** Not deleted, not a volume label, not a long entry. */
  predicate Plain(e: Entry) {
    e[0] != DDEM && Attr(e) / 8 % 2 == 0
  }

  /** The short name is a real one, not a made-up one, and it is the entry's. */
  predicate SameShort(fn: seq<byte>, e: Entry)
    requires |fn| == 12
  {
    fn[11] as int % 2 == 0 && e[..11] == fn[..11]
  }

  /** The entry is the one searched for: by its long name, in the entries es before it, or by its
      short name. */
  ghost predicate Hit(p: Entry -> bool, fn: seq<byte>, es: seq<Entry>, e: Entry)
    requires |fn| == 12
  {
    Plain(e) && (HasName(p, es, e) || SameShort(fn, e))
  }

  ghost predicate NoHit(p: Entry -> bool, fn: seq<byte>, es: seq<Entry>)
    requires |fn| == 12
  {
    forall j :: 0 <= j < |es| ==> es[j][0] != 0 && !Hit(p, fn, es[..j], es[j])
  }

  /** The open run while dir_find scans from the first slot. */
  ghost predicate Followed(p: Entry -> bool, es: seq<Entry>, ord: nat, sum: byte, blk: nat, m: nat) {
    && Tracks(p, es, ord, sum, m)
    && ord <= DEAD
    && (ord != DEAD ==> 0 < m <= |es| && blk == 32 * (|es| - m))
  }

  lemma FollowedStart(p: Entry -> bool, blk: nat)
    ensures Followed(p, [], DEAD, 0xFF, blk, 0)
  {
    TracksNothing(p, 0xFF);
  }

  lemma FollowedOther(p: Entry -> bool, es: seq<Entry>, e: Entry, sum: byte, blk: nat)
    requires !Long(e) || !p(e)
    ensures Followed(p, es + [e], DEAD, sum, blk, 0)
  {
    if Long(e) { TracksRefused(p, es, e, sum); } else { TracksOther(p, es, e, sum); }
  }

  lemma FollowedFlagged(p: Entry -> bool, es: seq<Entry>, e: Entry)
    requires Long(e) && Flagged(e) && p(e) && OrderOf(e) > 0
    ensures Followed(p, es + [e], OrderOf(e) - 1, e[13], 32 * |es|, 1)
  {
    hide Tracks, OrderOf;
    TracksFlagged(p, es, e);
    FlaggedOrder(e);
  }

  lemma FlaggedOrder(e: Entry)
    ensures Flagged(e) ==> e[0] >= 64 && OrderOf(e) == e[0] as int - 64 && OrderOf(e) < DEAD
    ensures !Flagged(e) ==> OrderOf(e) == e[0] as int
    ensures OrderOf(e) <= 255
  {
  }

  lemma FollowedNext(p: Entry -> bool, es: seq<Entry>, e: Entry, ord: nat, sum: byte, blk: nat, m: nat)
    requires Followed(p, es, ord, sum, blk, m) && Long(e) && !Flagged(e) && e[0] != 0
    ensures OrderOf(e) == ord && sum == e[13] && p(e) ==> ord > 0 && Followed(p, es + [e], ord - 1, sum, blk, m + 1)
    ensures !(OrderOf(e) == ord && sum == e[13] && p(e)) ==> Followed(p, es + [e], DEAD, sum, blk, 0)
  {
    hide Tracks, OrderOf, Flagged;
    FlaggedOrder(e);
    UnflaggedOrder(e);
    TracksNext(p, es, e, ord, sum, m);
  }

  lemma PlaceInBuffer(up: Word -> Word, lfn: seq<Word>, e: Entry)
    requires Comparable(up, lfn, e)
    ensures PlaceOf(e[0] as int % 64) <= MAX_LFN
  {
    var u := Units(e);
    var first := up(u[0]);
  }

  lemma NeverRun(p: Entry -> bool, es: seq<Entry>, m: nat)
    requires forall e: Entry :: !p(e)
    ensures !RunOf(p, es, m)
  {
    if RunOf(p, es, m) {
      NoRunOf(p, es[|es| - m..]);
    }
  }

  lemma NoRunOf(p: Entry -> bool, es: seq<Entry>)
    requires forall e: Entry :: !p(e)
    ensures !Partial(p, es)
  {
    if |es| > 0 {
      assert !InRun(p, es[0], es[0], 0);
    }
  }

  /** An entry cmp_lfn accepts has an order. */
  lemma ComparableOrder(up: Word -> Word, lfn: seq<Word>, fn: seq<byte>, e: Entry)
    requires |fn| == 12
    ensures Agrees(up, lfn, fn)(e) <==> fn[11] as int / 64 % 2 == 0 && Comparable(up, lfn, e)
    ensures Comparable(up, lfn, e) ==> OrderOf(e) > 0
  {
    if Comparable(up, lfn, e) { PlaceInBuffer(up, lfn, e); }
  }

  // ----- where the long entries begin -----

  /** Slot i holds the last flagged long entry since the last entry of another kind. */
  ghost predicate LastFlagged(es: seq<Entry>, i: nat) {
    && i < |es| && Flagged(es[i])
    && forall j :: i <= j < |es| ==> Long(es[j]) && es[j][0] != DDEM && (i < j ==> !Flagged(es[j]))
  }

  /** blkOfs in dir_find: the offset of that entry, if there is one and long names are looked at. */
  ghost predicate BlockAt(fn: seq<byte>, es: seq<Entry>, blk: nat)
    requires |fn| == 12
  {
    if blk == NO_BLOCK then fn[11] as int / 64 % 2 != 0 || forall i :: !LastFlagged(es, i)
    else fn[11] as int / 64 % 2 == 0 && blk % 32 == 0 && LastFlagged(es, blk / 32)
  }

  lemma BlockReset(fn: seq<byte>, es: seq<Entry>, e: Entry)
    requires |fn| == 12 && (!Long(e) || e[0] == DDEM)
    ensures BlockAt(fn, es + [e], NO_BLOCK)
  {
    forall i: nat
      ensures !LastFlagged(es + [e], i)
    {
      assert (es + [e])[|es|] == e;
    }
  }

  lemma BlockOpened(fn: seq<byte>, es: seq<Entry>, e: Entry)
    requires |fn| == 12 && fn[11] as int / 64 % 2 == 0 && Long(e) && e[0] != DDEM && Flagged(e)
    ensures BlockAt(fn, es + [e], 32 * |es|)
  {
    assert 32 * |es| / 32 == |es|;
    assert LastFlagged(es + [e], |es|);
  }

  lemma BlockGoesOn(fn: seq<byte>, es: seq<Entry>, e: Entry, blk: nat)
    requires |fn| == 12 && BlockAt(fn, es, blk) && Long(e) && e[0] != DDEM
    requires fn[11] as int / 64 % 2 != 0 || !Flagged(e)
    ensures BlockAt(fn, es + [e], blk)
  {
    hide Flagged, Long;
    var w := es + [e];
    forall i: nat | fn[11] as int / 64 % 2 == 0
      ensures LastFlagged(w, i) <==> LastFlagged(es, i)
    {
      assert w[|es|] == e;
      if LastFlagged(w, i) {
        assert forall j :: 0 <= j < |es| ==> w[j] == es[j];
      }
    }
  }

  /** A long entry in dir_find. */
  method FollowLong(up: Word -> Word, lfn: array<Word>, fn: seq<byte>, e: Entry, ord0: nat, sum0: byte, blk0: nat,
                    dptr: nat, ghost es: seq<Entry>, ghost m0: nat)
    returns (ord: nat, sum: byte, blk: nat, ghost m: nat)
    requires lfn.Length == MAX_LFN + 1 && |fn| == 12 && fn[11] as int / 64 % 2 == 0
    requires Long(e) && e[0] != 0 && e[0] != DDEM && dptr == 32 * |es|
    requires Followed(Agrees(up, lfn[..], fn), es, ord0, sum0, blk0, m0) && BlockAt(fn, es, blk0)
    ensures Followed(Agrees(up, lfn[..], fn), es + [e], ord, sum, blk, m) && BlockAt(fn, es + [e], blk)
  {
    hide *;
    ghost var p := Agrees(up, lfn[..], fn);
    if Flagged(e) { BlockOpened(fn, es, e); } else { BlockGoesOn(fn, es, e, blk0); }
    ord, sum, blk, m := ord0, sum0, blk0, m0;
    FlaggedOrder(e);
    ComparableOrder(up, lfn[..], fn, e);
    DeadIs();
    var c := e[0] as int;
    if Flagged(e) {
      sum := e[13];
      c := c - 64;
      ord := c;
      blk := dptr;
      m := 0;
    } else {
      FollowedNext(p, es, e, ord0, sum0, blk0, m0);
    }
    if c == ord && sum == e[13] {
      var ok := CmpLfn(up, lfn, e);
      if ok {
        ord := ord - 1;
        m := m + 1;
        if Flagged(e) { FollowedFlagged(p, es, e); }
      } else {
        ord, m := 0xFF, 0;
        FollowedOther(p, es, e, sum, blk);
      }
    } else {
      ord, m := 0xFF, 0;
    }
  }

  lemma FoundBy(p: Entry -> bool, fn: seq<byte>, es: seq<Entry>, e: Entry, ord: nat, sum: byte, blk: nat, m: nat)
    requires |fn| == 12 && Followed(p, es, ord, sum, blk, m) && Plain(e)
    ensures ord == 0 && sum == SumSfnOf(e) <==> HasName(p, es, e)
    ensures ord == 0 && sum == SumSfnOf(e) ==> Named(p, es, SumSfnOf(e), m) && blk == 32 * (|es| - m)
    ensures Hit(p, fn, es, e) <==> HasName(p, es, e) || SameShort(fn, e)
  {
    hide Tracks, Named, SumSfnOf, SameShort;
    TracksShort(p, es, ord, sum, m, SumSfnOf(e));
  }

  lemma PlainIs(p: Entry -> bool, fn: seq<byte>, es: seq<Entry>, e: Entry)
    requires |fn| == 12
    ensures Plain(e) <==> e[0] != DDEM && Attr(e) / 8 % 2 == 0
    ensures Long(e) <==> Attr(e) == 15
    ensures Long(e) ==> Attr(e) / 8 % 2 == 1
    ensures Attr(e) == e[11] as int % 64
    ensures !Plain(e) ==> !Hit(p, fn, es, e)
    ensures SameShort(fn, e) <==> fn[11] as int % 2 == 0 && e[..11] == fn[..11]
    ensures DEAD == 0xFF && DDEM == 0xE5
  {
  }

  /** Told to look at short names only, dir_find never opens a run. */
  lemma IgnoredLong(up: Word -> Word, lfn: seq<Word>, fn: seq<byte>, es: seq<Entry>, e: Entry, ord: nat, sum: byte,
                    blk: nat, m: nat)
    requires |fn| == 12 && fn[11] as int / 64 % 2 != 0 && Long(e) && e[0] != DDEM
    requires Followed(Agrees(up, lfn, fn), es, ord, sum, blk, m)
    ensures Followed(Agrees(up, lfn, fn), es + [e], ord, sum, blk, 0)
    ensures !Hit(Agrees(up, lfn, fn), fn, es, e)
  {
    var p := Agrees(up, lfn, fn);
    assert ord != DEAD ==> RunOf(p, es, m);
    NeverRun(p, es, m);
    FollowedOther(p, es, e, sum, blk);
  }

  lemma DeletedLong(up: Word -> Word, lfn: seq<Word>, fn: seq<byte>, e: Entry)
    requires |fn| == 12 && e[0] == DDEM
    ensures !Agrees(up, lfn, fn)(e)
  {
    assert e[0] as int % 64 == 37;
    if Comparable(up, lfn, e) { PlaceInBuffer(up, lfn, e); }
  }

  /** One entry in dir_find: the one searched for, or take account of it. */
  method FindTurn(up: Word -> Word, lfn: array<Word>, fn: seq<byte>, e: Entry, ord0: nat, sum0: byte, blk0: nat,
                  dptr: nat, ghost es: seq<Entry>, ghost m0: nat)
    returns (hit: bool, ord: nat, sum: byte, blk: nat, ghost m: nat)
    requires lfn.Length == MAX_LFN + 1 && |fn| == 12 && e[0] != 0 && dptr == 32 * |es|
    requires Followed(Agrees(up, lfn[..], fn), es, ord0, sum0, blk0, m0) && BlockAt(fn, es, blk0)
    ensures hit == Hit(Agrees(up, lfn[..], fn), fn, es, e)
    ensures hit && HasName(Agrees(up, lfn[..], fn), es, e) ==>
            Named(Agrees(up, lfn[..], fn), es, SumSfnOf(e), m) && blk == 32 * (|es| - m)
    ensures hit ==> BlockAt(fn, es, blk)
    ensures !hit ==> Followed(Agrees(up, lfn[..], fn), es + [e], ord, sum, blk, m) && BlockAt(fn, es + [e], blk)
  {
    hide *;
    ghost var p := Agrees(up, lfn[..], fn);
    PlainIs(p, fn, es, e);
    ComparableOrder(up, lfn[..], fn, e);
    hit, ord, sum, blk, m := false, ord0, sum0, blk0, m0;
    var a := e[11] as int % 64;
    if e[0] == DDEM || (a / 8 % 2 == 1 && a != 15) {
      ord, blk, m := 0xFF, NO_BLOCK, 0;
      if e[0] == DDEM { DeletedLong(up, lfn[..], fn, e); }
      BlockReset(fn, es, e);
      FollowedOther(p, es, e, sum, blk);
    } else if a == 15 {
      if fn[11] as int / 64 % 2 == 0 {
        ord, sum, blk, m := FollowLong(up, lfn, fn, e, ord0, sum0, blk0, dptr, es, m0);
      } else {
        IgnoredLong(up, lfn[..], fn, es, e, ord, sum, blk, m);
        BlockGoesOn(fn, es, e, blk);
        m := 0;
      }
    } else {
      FoundBy(p, fn, es, e, ord, sum, blk, m);
      var s := SumSfn(e);
      if ord == 0 && sum == s {
        hit := true;
      } else if fn[11] as int % 2 == 0 && e[..11] == fn[..11] {
        hit := true;
      } else {
        ord, blk, m := 0xFF, NO_BLOCK, 0;
        BlockReset(fn, es, e);
        FollowedOther(p, es, e, sum, blk);
      }
    }
  }

  /** The slots from the first up to the one found: the only hit is the last. */
  ghost predicate FoundAt(g: Geo, img: Image, f: Table, start: nat, p: Entry -> bool, fn: seq<byte>, es: seq<Entry>,
                          e: Entry, blk: nat, m: nat)
    requires |fn| == 12
  {
    && HoldsAt(g, img, f, start, |es|, e)
    && e[0] != 0 && Hit(p, fn, es, e)
    && (HasName(p, es, e) ==> Named(p, es, SumSfnOf(e), m) && blk == 32 * (|es| - m))
    && BlockAt(fn, es, blk)
  }

  lemma FoundAtIs(g: Geo, img: Image, f: Table, start: nat, p: Entry -> bool, fn: seq<byte>, es: seq<Entry>,
                  e: Entry, blk: nat, m: nat)
    requires |fn| == 12 && HoldsAt(g, img, f, start, 0 + |es|, e) && e[0] != 0 && Hit(p, fn, es, e)
    requires HasName(p, es, e) ==> Named(p, es, SumSfnOf(e), m) && blk == 32 * (|es| - m)
    requires BlockAt(fn, es, blk)
    ensures FoundAt(g, img, f, start, p, fn, es, e, blk, m)
  {
  }

  ghost predicate Searched(g: Geo, img: Image, f: Table, start: nat, p: Entry -> bool, fn: seq<byte>, es: seq<Entry>)
    requires |fn| == 12
  {
    Reads(g, img, f, start, 0, es) && NoHit(p, fn, es)
  }

  lemma SearchedMore(g: Geo, img: Image, f: Table, start: nat, p: Entry -> bool, fn: seq<byte>, es: seq<Entry>,
                     e: Entry)
    requires |fn| == 12 && Searched(g, img, f, start, p, fn, es) && HoldsAt(g, img, f, start, 0 + |es|, e)
    requires e[0] != 0 && !Hit(p, fn, es, e)
    ensures Searched(g, img, f, start, p, fn, es + [e])
  {
    hide Hit, HoldsAt;
    ReadsMore(g, img, f, start, 0, es, e);
    var w := es + [e];
    forall j | 0 <= j < |w|
      ensures w[j][0] != 0 && !Hit(p, fn, w[..j], w[j])
    {
      assert w[..j] == es[..j];
    }
  }

  lemma SearchStart(g: Geo, img: Image, f: Table, start: nat, p: Entry -> bool, fn: seq<byte>)
    requires |fn| == 12
    ensures Searched(g, img, f, start, p, fn, [])
    ensures !HasSlot(g, f, start, 0 / 32) ==> EndsAt(g, img, f, start, 0)
    ensures BlockAt(fn, [], NO_BLOCK)
    ensures NO_BLOCK == 0xFFFF_FFFF
  {
  }

  /** The scan of dir_find, from the first slot on. */
  method ScanTable(dp: Dir, up: Word -> Word, lfn: array<Word>, fn: seq<byte>)
    returns (res: FResult, ghost es: seq<Entry>, ghost e: Entry, ghost m: nat)
    requires dp.Valid() && dp.At(0) && lfn.Length == MAX_LFN + 1 && |fn| == 12
    modifies dp`dptr, dp`clust, dp`sect, dp`dir, dp`blkOfs, dp`attr, dp.fs`winsect, dp.fs`wflag, dp.fs.win, dp.fs.disk
    ensures dp.Valid() && dp.fs.Img() == old(dp.fs.Img()) && dp.fs.Fat() == old(dp.fs.Fat())
    ensures Searched(dp.fs.geo, dp.fs.Img(), dp.fs.Fat(), Start(dp.fs.geo, dp.sclust), Agrees(up, lfn[..], fn), fn, es)
    ensures res != FR_OK ==> EndsAt(dp.fs.geo, dp.fs.Img(), dp.fs.Fat(), Start(dp.fs.geo, dp.sclust), 0 + |es|)
    ensures res == FR_OK ==>
      && dp.At(0 + |es|) && dp.attr == Attr(e) && InWindow(dp, e)
      && FoundAt(dp.fs.geo, dp.fs.Img(), dp.fs.Fat(), Start(dp.fs.geo, dp.sclust), Agrees(up, lfn[..], fn), fn, es,
                 e, dp.blkOfs, m)
  {
    hide *;
    DirFacts(dp);
    ghost var g, img, f, start, p :=
      dp.fs.geo, dp.fs.Img(), dp.fs.Fat(), Start(dp.fs.geo, dp.sclust), Agrees(up, lfn[..], fn);
    SearchStart(g, img, f, start, p, fn);
    es, m, e := [], 0, SomeEntry();
    FollowedStart(p, NO_BLOCK);
    DeadIs();
    var ord: nat, sum: byte := 0xFF, 0xFF;
    dp.blkOfs := NO_BLOCK;
    var going := true;
    res := FR_OK;
    while going
      invariant dp.Valid() && dp.fs.Valid() && dp.fs.Img() == img && dp.fs.Fat() == f
      invariant Searched(g, img, f, start, p, fn, es)
      invariant going ==> dp.At(0 + |es|) && Followed(p, es, ord, sum, dp.blkOfs, m) && BlockAt(fn, es, dp.blkOfs)
      invariant !going && res == FR_OK ==> dp.At(0 + |es|) && dp.attr == Attr(e) && InWindow(dp, e)
      invariant !going && res == FR_OK ==> FoundAt(g, img, f, start, p, fn, es, e, dp.blkOfs, m)
      invariant !going && res != FR_OK ==> EndsAt(g, img, f, start, 0 + |es|)
      decreases 0x1_0000 - |es|, going
    {
      var x := ReadEntry(dp, 0 + |es|);
      if x[0] == 0 {
        res, going := FR_NO_FILE, false;
      } else {
        dp.attr := x[11] as int % 64;
        PlainIs(p, fn, es, x);
        var hit, blk;
        hit, ord, sum, blk, m := FindTurn(up, lfn, fn, x, ord, sum, dp.blkOfs, dp.dptr, es, m);
        dp.blkOfs := blk;
        if hit {
          res, going, e := FR_OK, false, x;
          FoundAtIs(g, img, f, start, p, fn, es, x, blk, m);
        } else {
          res := Advance(dp, 0 + |es|);
          SearchedMore(g, img, f, start, p, fn, es, x);
          es := es + [x];
          going := res == FR_OK;
        }
      }
    }
  }

  /** dir_find: the first entry of the table that has the name, by its long or its short form; its
      long entries, if it was found by them, begin at blkOfs. Found by its short form only, it has
      in blkOfs the last flagged long entry since an entry of another kind, whether that run is whole
      or not. It fails when no entry up to the end of the table has the name. */
  method DirFind(dp: Dir, up: Word -> Word, lfn: array<Word>, fn: seq<byte>)
    returns (res: FResult, ghost es: seq<Entry>, ghost e: Entry, ghost m: nat)
    requires dp.Valid() && lfn.Length == MAX_LFN + 1 && |fn| == 12
    modifies dp`dptr, dp`clust, dp`sect, dp`dir, dp`blkOfs, dp`attr, dp.fs`winsect, dp.fs`wflag, dp.fs.win, dp.fs.disk
    ensures dp.Valid() && dp.fs.Img() == old(dp.fs.Img()) && dp.fs.Fat() == old(dp.fs.Fat())
    ensures Searched(dp.fs.geo, dp.fs.Img(), dp.fs.Fat(), Start(dp.fs.geo, dp.sclust), Agrees(up, lfn[..], fn), fn, es)
    ensures res != FR_OK ==> EndsAt(dp.fs.geo, dp.fs.Img(), dp.fs.Fat(), Start(dp.fs.geo, dp.sclust), 0 + |es|)
    ensures res == FR_OK ==>
      && dp.At(0 + |es|) && dp.attr == Attr(e) && InWindow(dp, e)
      && FoundAt(dp.fs.geo, dp.fs.Img(), dp.fs.Fat(), Start(dp.fs.geo, dp.sclust), Agrees(up, lfn[..], fn), fn, es,
                 e, dp.blkOfs, m)
  {
    hide *;
    DirFacts(dp);
    SearchStart(dp.fs.geo, dp.fs.Img(), dp.fs.Fat(), Start(dp.fs.geo, dp.sclust), Agrees(up, lfn[..], fn), fn);
    es, m, e := [], 0, SomeEntry();
    res := DirSdi(dp, 0);
    DirFacts(dp);
    if res == FR_OK {
      res, es, e, m := ScanTable(dp, up, lfn, fn);
    }
  }

  // ----- names that were stored -----

  /** Where the entries of a stored long name stand before their short entry, dir_read finds them
      and has the name in the buffer, whatever was in the buffer and in the table before them. */
  lemma StoredNameRead(k: nat, before: seq<Entry>, es: seq<Entry>, e: Entry, name: Name, lfn: seq<Word>, blk: nat,
                       m: nat, lfn0: seq<Word>)
    requires IsName(name) && StoredFrom(es, name, EntryCount(|name|), SumSfnOf(e))
    requires Reported(false, k, before + es, e, lfn, blk, m, lfn0)
    ensures blk == 32 * (k + |before|) && m == |es|
    ensures Lfn.Shows(lfn, name)
  {
    hide StoredFrom, IsName, RunOf, Pickable;
    var p := Picks(false);
    var n := EntryCount(|name|);
    AllPickable(es, name, SumSfnOf(e));
    StoredRun(p, before, es, name, SumSfnOf(e));
    assert HasName(p, before + es, e);
    OneRun(p, before + es, m, |es|);
    assert (before + es)[|before + es| - m..] == es;
    var r := StoredNameRoundTrip(lfn0, es, name, SumSfnOf(e));
    PicksOne(lfn0, es, r, lfn);
  }

  lemma AllPickable(es: seq<Entry>, name: Name, sum: byte)
    requires IsName(name) && StoredFrom(es, name, EntryCount(|name|), sum)
    ensures |es| > 0 && forall j :: 0 <= j < |es| ==> Pickable(es[j])
  {
    hide Pickable, IsPart;
    forall j | 0 <= j < |es|
      ensures Pickable(es[j])
    {
      var k := EntryCount(|name|) - j;
      PartFacts(es[j], name, k, sum);
      PartRoom(es[j], name, k);
    }
  }

  /** And dir_find finds the short entry by its long name exactly when the name searched for is
      the stored one but for case, whatever the buffer holds after its terminator. */
  lemma StoredNameHit(up: Word -> Word, lfn: seq<Word>, fn: seq<byte>, before: seq<Entry>, es: seq<Entry>, e: Entry,
                      a: Name, b: Name)
    requires IsName(a) && StoredFrom(es, a, EntryCount(|a|), SumSfnOf(e))
    requires IsName(b) && Lfn.Shows(lfn, b) && IsUpper(up) && |fn| == 12 && fn[11] as int / 64 % 2 == 0
    ensures HasName(Agrees(up, lfn, fn), before + es, e) <==> SameName(up, a, b)
  {
    hide StoredFrom, IsName, IsUpper, Lfn.Shows, Comparable, SameName;
    var p := Agrees(up, lfn, fn);
    StoredNameFound(up, lfn, es, a, b, SumSfnOf(e));
    AllPickable(es, a, SumSfnOf(e));
    if SameName(up, a, b) {
      StoredRun(p, before, es, a, SumSfnOf(e));
    }
    if HasName(p, before + es, e) {
      var m :| Named(p, before + es, SumSfnOf(e), m);
      StoredRun(Picks(false), before, es, a, SumSfnOf(e));
      SameLength(p, Picks(false), before + es, m, |es|);
      assert (before + es)[|before + es| - m..] == es;
      RunAccepted(p, es);
    }
  }

  lemma RunAccepted(p: Entry -> bool, es: seq<Entry>)
    requires Partial(p, es)
    ensures forall j :: 0 <= j < |es| ==> p(es[j])
  {
    forall j | 0 <= j < |es|
      ensures p(es[j])
    {
      assert InRun(p, es[0], es[j], j);
    }
  }

  lemma FlaggedInRun(p: Entry -> bool, es: seq<Entry>, j: nat)
    requires Partial(p, es) && j < |es|
    ensures Flagged(es[j]) <==> j == 0
  {
    assert InRun(p, es[0], es[j], j);
  }

  /** Two runs that end at the same entry have one length, whatever they accept. */
  lemma SameLength(p: Entry -> bool, q: Entry -> bool, es: seq<Entry>, m: nat, i: nat)
    requires RunOf(p, es, m) && RunOf(q, es, i)
    ensures m == i
  {
    hide Partial, Flagged;
    var a, b := es[|es| - m..], es[|es| - i..];
    if m < i {
      assert b[i - m] == a[0];
      FlaggedInRun(p, a, 0);
      FlaggedInRun(q, b, i - m);
    } else if i < m {
      assert a[m - i] == b[0];
      FlaggedInRun(q, b, 0);
      FlaggedInRun(p, a, m - i);
    }
  }
}
