/** The attribute byte of an entry: written into a new entry, changed by f_chmod, and what a search
    of the table reports afterwards. */
module DirAttr {
  import opened Bytes
  import opened Chains
  import opened DirScan
  import opened DirStore
  import opened Directory
  import opened Geometry
  import opened Lfn
  import opened LongRuns
  import opened Numbers
  import opened Sectors
  import opened Volume

  function WithAttr(e: Entry, b: byte): Entry {
    e[11 := b]
  }

  /** What the change of byte 11 leaves alone, and that a search tells entries by the bits it reads there. */
  lemma WithAttrIs(e: Entry, b: byte)
    ensures WithAttr(e, b)[..11] == e[..11] && WithAttr(e, b)[12..] == e[12..] && WithAttr(e, b)[0] == e[0]
    ensures Attr(WithAttr(e, b)) == b as int % 64
  {
  }

  /** f_open and f_mkdir give the new entry its attribute; the window still shows it. */
  method StampAttr(dp: Dir, b: byte, ghost k: nat, ghost e: Entry)
    requires dp.Valid() && dp.fs.Valid() && dp.At(k) && InWindow(dp, e)
    modifies dp.fs`wflag, dp.fs.win
    ensures dp.Valid() && dp.fs.Valid() && dp.fs.Fat() == old(dp.fs.Fat()) && dp.At(k) && InWindow(dp, WithAttr(e, b))
    ensures SlotPut(dp.fs.geo, old(dp.fs.Fat()), Start(dp.fs.geo, dp.sclust), k, old(dp.fs.Img()), dp.fs.Img(),
                    WithAttr(e, b))
    ensures HasSlot(dp.fs.geo, old(dp.fs.Fat()), Start(dp.fs.geo, dp.sclust), k)
  {
    hide *;
    Dirs(dp);
    VolumeFacts(dp.fs);
    ghost var g, f, start := dp.fs.geo, dp.fs.Fat(), Start(dp.fs.geo, dp.sclust);
    PointFacts(g, |dp.fs.Img()|, f, start, k, dp.dptr, dp.clust, dp.sect, dp.dir);
    InWindowIs(dp, e);
    WindowState(dp.fs);
    SectorNumber(dp.fs);
    ghost var d, img, fat, wflag, w := dp.fs.disk.sectors, dp.fs.Img(), dp.fs.Fat(), dp.fs.wflag, dp.fs.win[..];
    EntryIsWindow(dp, e);
    StoreInEntry(w, dp.dir, e, 11, b);
    dp.fs.win[dp.dir + 11] := b;
    dp.fs.wflag := true;
    EntryIs(w, dp.dir, WithAttr(e, b));
    EntryWritten(dp, k, d, img, fat, wflag, w, WithAttr(e, b));
    EntryShown(dp, WithAttr(e, b));
    Dirs(dp);
  }

  lemma EntryIsWindow(dp: Dir, e: Entry)
    requires InWindow(dp, e)
    ensures dp.dir + 32 <= |dp.fs.win[..]| && WithEntry(dp.fs.win[..], dp.dir, e) == dp.fs.win[..]
    ensures forall b: byte :: WithAttr(e, b) == e[11 := b]
  {
    SameEntry(dp.fs.win[..], dp.dir);
    assert EntryOf(dp.fs.win[..], dp.dir) == e;
  }

  // ----- f_chmod -----

  /** (a & m) | (b & ~m) on n bits. */
  function Mix(m: nat, a: nat, b: nat, n: nat): nat {
    if n == 0 then 0 else (if m % 2 == 1 then a % 2 else b % 2) + 2 * Mix(m / 2, a / 2, b / 2, n - 1)
  }

  lemma {:induction false} MixBit(m: nat, a: nat, b: nat, n: nat, k: nat)
    requires k < n
    ensures BitOf(Mix(m, a, b, n), k) <==> if BitOf(m, k) then BitOf(a, k) else BitOf(b, k)
  {
    if k > 0 { MixBit(m / 2, a / 2, b / 2, n - 1, k - 1); }
  }

  lemma {:induction false} MixBound(m: nat, a: nat, b: nat, n: nat)
    ensures Mix(m, a, b, n) < Pow2(n)
  {
    if n > 0 { MixBound(m / 2, a / 2, b / 2, n - 1); }
  }

  /** The bits f_chmod may change: read-only, hidden, system, archive. */
  const SETTABLE: byte := 0x27

  /** b has the bits of attr where the mask asks for it and the bit may be changed, otherwise those it had. */
  ghost predicate Changed(b: byte, was: byte, attr: byte, mask: byte) {
    forall k :: 0 <= k < 8 ==>
      (BitOf(b, k) <==> if k in {0, 1, 2, 5} && BitOf(mask, k) then BitOf(attr, k) else BitOf(was, k))
  }

  method MixAttr(was: byte, attr: byte, mask: byte) returns (b: byte)
    ensures Changed(b, was, attr, mask)
  {
    var m := Mix(SETTABLE, mask, 0, 8);
    var x := Mix(m, attr, was, 8);
    MixBound(m, attr, was, 8);
    assert Pow2(8) == 256;
    b := x;
    forall k | 0 <= k < 8
      ensures BitOf(b, k) <==> if k in {0, 1, 2, 5} && BitOf(mask, k) then BitOf(attr, k) else BitOf(was, k)
    {
      MixBit(m, attr, was, 8, k);
      MixBit(SETTABLE, mask, 0, 8, k);
      SettableBit(k);
    }
  }

  lemma SettableBit(k: nat)
    requires k < 8
    ensures BitOf(SETTABLE, k) <==> k in {0, 1, 2, 5}
    ensures !BitOf(0, k)
  {
    ZeroBit(k);
    if k > 0 { assert BitOf(39, k) == BitOf(19, k - 1); }
    if k > 1 { assert BitOf(19, k - 1) == BitOf(9, k - 2); }
    if k > 2 { assert BitOf(9, k - 2) == BitOf(4, k - 3); }
    if k > 3 { assert BitOf(4, k - 3) == BitOf(2, k - 4); }
    if k > 4 { assert BitOf(2, k - 4) == BitOf(1, k - 5); }
    if k > 5 {
      assert BitOf(1, k - 5) == BitOf(0, k - 6);
      ZeroBit(k - 6);
    }
  }

  lemma ZeroBit(k: nat)
    ensures !BitOf(0, k)
  {
  }

  /** f_chmod on the entry that was found. */
  method Chmod(dp: Dir, attr: byte, mask: byte, ghost k: nat, ghost e: Entry) returns (ghost b: byte)
    requires dp.Valid() && dp.fs.Valid() && dp.At(k) && InWindow(dp, e)
    modifies dp.fs`wflag, dp.fs.win
    ensures dp.Valid() && dp.fs.Valid() && dp.fs.Fat() == old(dp.fs.Fat()) && dp.At(k) && InWindow(dp, WithAttr(e, b))
    ensures Changed(b, e[11], attr, mask)
    ensures SlotPut(dp.fs.geo, old(dp.fs.Fat()), Start(dp.fs.geo, dp.sclust), k, old(dp.fs.Img()), dp.fs.Img(),
                    WithAttr(e, b))
    ensures HasSlot(dp.fs.geo, old(dp.fs.Fat()), Start(dp.fs.geo, dp.sclust), k)
  {
    hide *;
    InWindowIs(dp, e);
    var x := MixAttr(dp.fs.win[dp.dir + 11], attr, mask);
    b := x;
    StampAttr(dp, x, k, e);
  }

  /** The kind of an entry, a file or a directory and not a label, is not for f_chmod to change. */
  lemma ChangedKind(b: byte, was: byte, attr: byte, mask: byte)
    requires Changed(b, was, attr, mask)
    ensures b as int / 8 % 2 == was as int / 8 % 2 && b as int / 16 % 2 == was as int / 16 % 2
  {
    ByteBits(b);
    ByteBits(was);
    assert BitOf(b, 3) <==> BitOf(was, 3);
    assert BitOf(b, 4) <==> BitOf(was, 4);
  }

  lemma ByteBits(b: byte)
    ensures BitOf(b, 3) <==> b as int / 8 % 2 == 1
    ensures BitOf(b, 4) <==> b as int / 16 % 2 == 1
  {
    assert BitOf(b, 3) == BitOf(b / 2, 2) == BitOf(b / 2 / 2, 1) == BitOf(b / 2 / 2 / 2, 0);
    assert BitOf(b, 4) == BitOf(b / 2, 3) == BitOf(b / 2 / 2, 2) == BitOf(b / 2 / 2 / 2, 1) ==
           BitOf(b / 2 / 2 / 2 / 2, 0);
  }

  // ----- what a search reports -----

  /** A search of the table from its first slot: it stopped at e, the entry after es, or the table
      ended there without a hit. */
  ghost predicate Outcome(g: Geo, img: Image, f: Table, start: nat, p: Entry -> bool, fn: seq<byte>, found: bool,
                          es: seq<Entry>, e: Entry)
    requires |fn| == 12
  {
    && Searched(g, img, f, start, p, fn, es)
    && if found then HoldsAt(g, img, f, start, |es|, e) && e[0] != 0 && Hit(p, fn, es, e)
       else EndsAt(g, img, f, start, |es|)
  }

  /** That is what dir_find reports. */
  lemma FoundIsOutcome(g: Geo, img: Image, f: Table, start: nat, p: Entry -> bool, fn: seq<byte>, es: seq<Entry>,
                       e: Entry, blk: nat, m: nat)
    requires |fn| == 12 && Searched(g, img, f, start, p, fn, es)
    ensures FoundAt(g, img, f, start, p, fn, es, e, blk, m) ==> Outcome(g, img, f, start, p, fn, true, es, e)
    ensures EndsAt(g, img, f, start, 0 + |es|) ==> Outcome(g, img, f, start, p, fn, false, es, e)
  {
    hide HoldsAt, Hit, Searched, EndsAt, HasName;
  }

  /** One image, one outcome. */
  lemma OneOutcome(g: Geo, img: Image, f: Table, start: nat, p: Entry -> bool, fn: seq<byte>, es: seq<Entry>,
                   e: Entry, found: bool, rs: seq<Entry>, x: Entry)
    requires |fn| == 12 && Outcome(g, img, f, start, p, fn, true, es, e)
    requires Outcome(g, img, f, start, p, fn, found, rs, x)
    ensures found && rs == es && x == e
  {
    hide HoldsAt, Hit;
    SameReads(g, img, f, start, es, rs);
    if |rs| < |es| {
      assert HoldsAt(g, img, f, start, 0 + |rs|, es[|rs|]) && es[..|rs|] == rs;
      StopsAt(g, img, f, start, p, fn, found, rs, x, es[|rs|]);
    } else if |es| < |rs| {
      assert HoldsAt(g, img, f, start, 0 + |es|, rs[|es|]) && rs[..|es|] == es;
      StopsAt(g, img, f, start, p, fn, true, es, e, rs[|es|]);
    } else {
      assert rs == es;
      StopsAt(g, img, f, start, p, fn, found, rs, x, e);
    }
  }

  lemma SameReads(g: Geo, img: Image, f: Table, start: nat, es: seq<Entry>, rs: seq<Entry>)
    requires Reads(g, img, f, start, 0, es) && Reads(g, img, f, start, 0, rs)
    ensures forall j :: 0 <= j < |es| && j < |rs| ==> es[j] == rs[j]
  {
    hide HoldsAt;
    forall j | 0 <= j < |es| && j < |rs|
      ensures es[j] == rs[j]
    {
      OneEntry(g, img, f, start, 0 + j, es[j], rs[j]);
    }
  }

  /** What stands in the slot a search stopped at. */
  lemma StopsAt(g: Geo, img: Image, f: Table, start: nat, p: Entry -> bool, fn: seq<byte>, found: bool, rs: seq<Entry>,
                x: Entry, e: Entry)
    requires |fn| == 12 && Outcome(g, img, f, start, p, fn, found, rs, x) && HoldsAt(g, img, f, start, 0 + |rs|, e)
    ensures found ==> x == e && Hit(p, fn, rs, e)
    ensures e[0] != 0 ==> found
  {
    hide Hit, Searched, HasSlot, SlotSector, Slot;
    if found {
      OneEntry(g, img, f, start, |rs|, x, e);
    } else {
      AtEnd(g, img, f, start, |rs|, e);
    }
  }

  lemma AtEnd(g: Geo, img: Image, f: Table, start: nat, k: nat, e: Entry)
    requires EndsAt(g, img, f, start, k) && HoldsAt(g, img, f, start, k, e)
    ensures e[0] == 0
  {
    hide HasSlot, SlotSector, Slot;
    HoldsSlot(g, img, f, start, k, e);
    var y: Entry :| HoldsAt(g, img, f, start, k, y) && y[0] == 0;
    OneEntry(g, img, f, start, k, y, e);
  }

  /** The entry stored last has been changed in place. */
  lemma StoredStamped(g: Geo, f: Table, start: nat, b: nat, a: Image, img: Image, es: seq<Entry>, e: Entry,
                      img': Image, e': Entry)
    requires Stored(g, f, start, b, a, img, es + [e]) && TableApart(g, f, start) && HasSlot(g, f, start, b + |es|)
    requires SlotPut(g, f, start, b + |es|, img, img', e')
    ensures Stored(g, f, start, b, a, img', es + [e'])
  {
    hide HoldsAt, SlotSector, HasSlot, Apart;
    var v, w, k0 := es + [e], es + [e'], b + |es|;
    forall j | 0 <= j < |w|
      ensures HoldsAt(g, img', f, start, b + j, w[j])
    {
      assert HoldsAt(g, img, f, start, b + j, v[j]);
      HoldsSlot(g, img, f, start, b + j, v[j]);
      PutHolds(g, f, start, k0, img, img', e', b + j, w[j]);
    }
    forall k: nat, x: Entry | HasSlot(g, f, start, k) && !(b <= k < b + |w|)
      ensures HoldsAt(g, a, f, start, k, x) <==> HoldsAt(g, img', f, start, k, x)
    {
      PutHolds(g, f, start, k0, img, img', e', k, x);
    }
    forall s: nat | s < |a| && !SectorOf(g, f, start, b, |w|, s)
      ensures img'[s] == a[s]
    {
      PutElsewhere(g, f, start, b, |es|, img, img', e', s);
    }
  }

  /** A name has been stored with its long entries and its short entry e, and e has got its attribute
      since. A search for that name, in whatever case, that gets as far as these entries stops at e,
      and nowhere before it among them; so what it reports is the attribute in the image. */
  lemma StoredIsReported(g: Geo, f: Table, start: nat, b: nat, a: Image, img: Image, es: seq<Entry>, fn: seq<byte>,
                         e: Entry, name: Name, up: Word -> Word, lfn: seq<Word>, want: seq<byte>, wanted: Name,
                         found: bool, rs: seq<Entry>, x: Entry)
    requires |fn| == 12 && e[..11] == fn[..11] && e[0] != 0 && Plain(e)
    requires IsName(name) && StoredFrom(es, name, EntryCount(|name|), SumSfnOf(fn))
    requires Stored(g, f, start, b, a, img, es + [e])
    requires IsName(wanted) && Lfn.Shows(lfn, wanted) && IsUpper(up) && |want| == 12 && want[11] as int / 64 % 2 == 0
    requires SameName(up, name, wanted)
    requires Outcome(g, img, f, start, Agrees(up, lfn, want), want, found, rs, x) && |rs| >= b
    ensures found && |rs| == b + |es| && x == e && Attr(x) == Attr(e)
  {
    hide *;
    var p, k0 := Agrees(up, lfn, want), b + |es|;
    OutcomeIs(g, img, f, start, p, want, found, rs, x);
    StoredSlot(g, f, start, b, a, img, es, e, if |rs| < k0 then |rs| else k0);
    if |rs| > k0 {
      ReadsTo(g, img, f, start, rs, k0);
      StoredThenFound(g, f, start, b, a, img, es, fn, e, name, rs[..k0], rs[k0], up, lfn, want, wanted);
      PassedIs(g, img, f, start, p, want, rs, k0);
      assert false;
    } else if |rs| == k0 {
      StopsAt(g, img, f, start, p, want, found, rs, x, e);
    } else {
      LongStored(es, name, SumSfnOf(fn), |rs| - b);
      StopsAt(g, img, f, start, p, want, found, rs, x, es[|rs| - b]);
      PlainIs(p, want, rs, es[|rs| - b]);
      assert false;
    }
  }

  lemma OutcomeIs(g: Geo, img: Image, f: Table, start: nat, p: Entry -> bool, fn: seq<byte>, found: bool,
                  es: seq<Entry>, e: Entry)
    requires |fn| == 12
    ensures Outcome(g, img, f, start, p, fn, found, es, e) <==>
      && Searched(g, img, f, start, p, fn, es)
      && if found then HoldsAt(g, img, f, start, |es|, e) && e[0] != 0 && Hit(p, fn, es, e)
         else EndsAt(g, img, f, start, |es|)
    ensures Outcome(g, img, f, start, p, fn, found, es, e) ==> Reads(g, img, f, start, 0, es)
  {
  }

  lemma StoredSlot(g: Geo, f: Table, start: nat, b: nat, a: Image, img: Image, es: seq<Entry>, e: Entry, k: nat)
    requires Stored(g, f, start, b, a, img, es + [e]) && b <= k <= b + |es|
    ensures HoldsAt(g, img, f, start, 0 + k, if k < b + |es| then es[k - b] else e)
  {
    hide HoldsAt;
    var w := es + [e];
    assert HoldsAt(g, img, f, start, b + (k - b), w[k - b]);
  }

  lemma ReadsTo(g: Geo, img: Image, f: Table, start: nat, rs: seq<Entry>, k: nat)
    requires Reads(g, img, f, start, 0, rs) && k < |rs|
    ensures Reads(g, img, f, start, 0, rs[..k]) && HoldsAt(g, img, f, start, 0 + |rs[..k]|, rs[k])
  {
    hide HoldsAt;
  }

  /** An entry a search passed over was not the one searched for. */
  lemma PassedIs(g: Geo, img: Image, f: Table, start: nat, p: Entry -> bool, fn: seq<byte>, rs: seq<Entry>, k: nat)
    requires |fn| == 12 && Searched(g, img, f, start, p, fn, rs) && k < |rs|
    ensures Plain(rs[k]) ==> !HasName(p, rs[..k], rs[k])
  {
    hide HasName, Plain;
  }

  lemma LongStored(es: seq<Entry>, name: Name, sum: byte, j: nat)
    requires IsName(name) && StoredFrom(es, name, EntryCount(|name|), sum) && j < |es|
    ensures Long(es[j]) && es[j][0] != 0
  {
    var ord := EntryCount(|name|) - j;
    assert IsPart(es[j], name, ord, sum);
  }

  /** After f_chmod the same search stops at the same slot, and reports the new attribute. */
  lemma ChmodIsReported(g: Geo, f: Table, start: nat, a: Image, img: Image, p: Entry -> bool, fn: seq<byte>,
                        es: seq<Entry>, e: Entry, b: byte, attr: byte, mask: byte, found: bool, rs: seq<Entry>,
                        x: Entry)
    requires |fn| == 12 && TableApart(g, f, start) && Outcome(g, a, f, start, p, fn, true, es, e)
    requires SlotPut(g, f, start, |es|, a, img, WithAttr(e, b)) && Changed(b, e[11], attr, mask)
    requires Outcome(g, img, f, start, p, fn, found, rs, x)
    ensures found && rs == es && x == WithAttr(e, b) && Attr(x) == b as int % 64
  {
    hide *;
    OutcomeIs(g, a, f, start, p, fn, true, es, e);
    HoldsSlot(g, a, f, start, |es|, e);
    PutHolds(g, f, start, |es|, a, img, WithAttr(e, b), |es|, e);
    SearchedStill(g, f, start, a, img, p, fn, es, WithAttr(e, b));
    WithAttrIs(e, b);
    ChangedKind(b, e[11], attr, mask);
    HitStill(p, fn, es, e, b);
    OutcomeIs(g, img, f, start, p, fn, true, es, WithAttr(e, b));
    OneOutcome(g, img, f, start, p, fn, es, WithAttr(e, b), found, rs, x);
  }

  lemma SearchedStill(g: Geo, f: Table, start: nat, a: Image, img: Image, p: Entry -> bool, fn: seq<byte>,
                      es: seq<Entry>, e: Entry)
    requires |fn| == 12 && TableApart(g, f, start) && Searched(g, a, f, start, p, fn, es)
    requires HasSlot(g, f, start, |es|) && SlotPut(g, f, start, |es|, a, img, e)
    ensures Searched(g, img, f, start, p, fn, es)
  {
    hide HoldsAt, SlotPut, HasSlot, Apart, NoHit;
    forall j | 0 <= j < |es|
      ensures HoldsAt(g, img, f, start, 0 + j, es[j])
    {
      HoldsSlot(g, a, f, start, 0 + j, es[j]);
      PutHolds(g, f, start, |es|, a, img, e, j, es[j]);
    }
  }

  lemma HitStill(p: Entry -> bool, fn: seq<byte>, es: seq<Entry>, e: Entry, b: byte)
    requires |fn| == 12 && Hit(p, fn, es, e) && b as int / 8 % 2 == e[11] as int / 8 % 2
    ensures Hit(p, fn, es, WithAttr(e, b))
  {
    hide *;
    WithAttrIs(e, b);
    PlainStill(e, b);
    HitIs(p, fn, es, e, WithAttr(e, b));
  }

  lemma PlainStill(e: Entry, b: byte)
    requires b as int / 8 % 2 == e[11] as int / 8 % 2
    ensures Plain(e) <==> Plain(WithAttr(e, b))
  {
    WithAttrIs(e, b);
    LowBits(b);
    LowBits(e[11]);
    hide WithAttr;
  }

  lemma LowBits(b: byte)
    ensures b as int % 64 / 8 % 2 == b as int / 8 % 2
  {
    assert b as int == 64 * (b as int / 64) + b as int % 64;
    assert b as int / 8 == 8 * (b as int / 64) + b as int % 64 / 8;
  }

  lemma HitIs(p: Entry -> bool, fn: seq<byte>, es: seq<Entry>, e: Entry, x: Entry)
    requires |fn| == 12 && e[..11] == x[..11] && (Plain(e) <==> Plain(x))
    ensures Hit(p, fn, es, e) <==> Hit(p, fn, es, x)
  {
    hide Named, SumOf, Plain;
    assert SumSfnOf(e) == SumSfnOf(x);
  }
}
