/** Long names in directory entries: thirteen units an entry, the last part first. */
module Lfn {
  import opened Bytes

  type Word = x: int | 0 <= x <= 0xFFFF

  /** First byte of a deleted entry. */
  const DDEM: byte := 0xE5

  type Name = seq<Word>

  const AM_LFN: byte := 0x0F
  const LLEF: nat := 0x40
  const MAX_LFN: nat := 255

  /** Offset of unit s in an entry. */
  function LfnOfs(s: nat): (o: nat)
    requires s < 13
    ensures o + 2 <= 32
  {
    if s < 5 then 1 + 2 * s else if s < 11 then 14 + 2 * (s - 5) else 28 + 2 * (s - 11)
  }

  /** The units lie one after the other, and in bytes 1 to 10, 14 to 25 and 28 to 31: just these are
      a part of some unit. */
  lemma UnitPlaces(b: nat)
    requires b < 32
    ensures forall s: nat, t: nat :: s < t < 13 ==> LfnOfs(s) + 2 <= LfnOfs(t)
    ensures (exists s: nat :: s < 13 && LfnOfs(s) <= b < LfnOfs(s) + 2) <==> 1 <= b <= 10 || 14 <= b <= 25 || 28 <= b
  {
    if 1 <= b <= 10 || 14 <= b <= 25 || 28 <= b {
      var s := if b <= 10 then (b - 1) / 2 else if b <= 25 then 5 + (b - 14) / 2 else 11 + (b - 28) / 2;
      assert LfnOfs(s) <= b < LfnOfs(s) + 2;
    }
  }

  /** Unit j of a stored name: the name, a zero, and fillers. */
  function UnitAt(name: Name, j: nat): Word {
    if j < |name| then name[j] else if j == |name| then 0 else 0xFFFF
  }

  /** Names have 1 to 255 units, none 0 or 0xFFFF. */
  predicate IsName(name: Name) {
    0 < |name| <= MAX_LFN && forall i :: 0 <= i < |name| ==> name[i] != 0 && name[i] != 0xFFFF
  }

  /** The working buffer shows a name; what follows its zero may be anything. */
  predicate Shows(lfn: seq<Word>, name: Name) {
    |lfn| == MAX_LFN + 1 && |name| <= MAX_LFN && lfn[..|name|] == name && lfn[|name|] == 0
  }

  /** Number of entries a name takes. */
  function EntryCount(len: nat): nat {
    (len + 12) / 13
  }

  predicate Flagged(e: seq<byte>)
    requires |e| == 32
  {
    e[0] as int / LLEF % 2 == 1
  }

  /** The entry that holds part ord (from 1) of the name: every byte of it. */
  predicate IsPart(e: seq<byte>, name: Name, ord: nat, sum: byte) {
    && |e| == 32 && 1 <= ord <= 20
    && e[0] == (if 13 * ord >= |name| then ord + LLEF else ord)
    && e[11] == AM_LFN && e[12] == 0 && e[13] == sum && e[26] == 0 && e[27] == 0
    && forall s :: 0 <= s < 13 ==> LdWord(e, LfnOfs(s)) == UnitAt(name, 13 * (ord - 1) + s)
  }

  // ----- put_lfn -----

  /** The units written so far. */
  ghost predicate Written(e: seq<byte>, name: Name, ord: nat, sum: byte, n: nat)
    requires n <= 13
  {
    && |e| == 32 && 1 <= ord
    && e[11] == AM_LFN && e[12] == 0 && e[13] == sum && e[26] == 0 && e[27] == 0
    && forall s :: 0 <= s < n ==> LdWord(e, LfnOfs(s)) == UnitAt(name, 13 * (ord - 1) + s)
  }

  lemma WrittenStep(e: seq<byte>, name: Name, ord: nat, sum: byte, n: nat, wc: Word, e': seq<byte>)
    requires n < 13 && Written(e, name, ord, sum, n) && wc == UnitAt(name, 13 * (ord - 1) + n)
    requires e' == e[LfnOfs(n) := wc % 256][LfnOfs(n) + 1 := wc / 256]
    ensures Written(e', name, ord, sum, n + 1)
  {
    forall s | 0 <= s < n
      ensures LdWord(e', LfnOfs(s)) == LdWord(e, LfnOfs(s))
    {
    }
  }

  lemma WrittenDone(e: seq<byte>, name: Name, ord: nat, sum: byte, b: byte, e': seq<byte>)
    requires Written(e, name, ord, sum, 13) && ord <= 20
    requires b == (if 13 * ord >= |name| then ord + LLEF else ord) && e' == e[0 := b]
    ensures IsPart(e', name, ord, sum)
  {
    forall s | 0 <= s < 13
      ensures LdWord(e', LfnOfs(s)) == LdWord(e, LfnOfs(s))
    {
    }
  }

  lemma WrittenStart(e: seq<byte>, name: Name, ord: nat, sum: byte)
    requires |e| == 32 && 1 <= ord
    ensures Written(e[13 := sum][11 := AM_LFN][12 := 0][26 := 0][27 := 0], name, ord, sum, 0)
  {
  }

  /** The unit the loop takes next, from the buffer or from the one before. */
  lemma NextUnit(lfn: seq<Word>, name: Name, j: nat, wc: Word)
    requires IsName(name) && Shows(lfn, name) && j < |name| + 13
    requires wc == 0xFFFF <==> j > |name|
    ensures wc != 0xFFFF ==>
            j < |lfn| && lfn[j] == UnitAt(name, j) && (lfn[j] == 0 <==> j == |name|) && lfn[j] != 0xFFFF
    ensures wc == 0xFFFF ==> UnitAt(name, j) == 0xFFFF
  {
  }

  /** An entry of a sector, and the sector with that entry replaced. */
  function EntryOf(s: seq<byte>, o: nat): (e: seq<byte>)
    requires o + 32 <= |s|
    ensures |e| == 32
  {
    s[o..o + 32]
  }

  function WithEntry(s: seq<byte>, o: nat, e: seq<byte>): (s': seq<byte>)
    requires o + 32 <= |s| && |e| == 32
    ensures |s'| == |s| && EntryOf(s', o) == e
  {
    s[..o] + e + s[o + 32..]
  }

  lemma StoreInEntry(s: seq<byte>, o: nat, e: seq<byte>, k: nat, v: byte)
    requires o + 32 <= |s| && |e| == 32 && k < 32
    ensures WithEntry(s, o, e)[o + k := v] == WithEntry(s, o, e[k := v])
  {
  }

  /** One store into the entry at o. */
  method Poke(win: array<byte>, o: nat, k: nat, v: byte, ghost s0: seq<byte>, ghost e: seq<byte>)
    requires o + 32 <= win.Length == |s0| && |e| == 32 && k < 32 && win[..] == WithEntry(s0, o, e)
    modifies win
    ensures win[..] == WithEntry(s0, o, e[k := v])
  {
    StoreInEntry(s0, o, e, k, v);
    win[o + k] := v;
  }

  /** st_word */
  method PokeWord(win: array<byte>, o: nat, k: nat, v: Word, ghost s0: seq<byte>, ghost e: seq<byte>)
    requires o + 32 <= win.Length == |s0| && |e| == 32 && k + 1 < 32 && win[..] == WithEntry(s0, o, e)
    modifies win
    ensures win[..] == WithEntry(s0, o, e[k := v % 256][k + 1 := v / 256])
  {
    Poke(win, o, k, v % 256, s0, e);
    Poke(win, o, k + 1, v / 256, s0, e[k := v % 256]);
  }

  lemma SameEntry(s: seq<byte>, o: nat)
    requires o + 32 <= |s|
    ensures WithEntry(s, o, EntryOf(s, o)) == s
  {
  }

  /** put_lfn: part ord of the name in the buffer becomes the entry at o. */
  method PutLfn(lfn: array<Word>, win: array<byte>, o: nat, ord: byte, sum: byte, ghost name: Name)
    requires IsName(name) && Shows(lfn[..], name) && 1 <= ord && 13 * (ord as int - 1) < |name|
    requires o + 32 <= win.Length
    modifies win
    ensures IsPart(EntryOf(win[..], o), name, ord as int, sum)
    ensures win[..] == WithEntry(old(win[..]), o, EntryOf(win[..], o))
  {
    hide *;
    ghost var s0: seq<byte>, e: seq<byte> := win[..], EntryOf(win[..], o);
    SameEntry(s0, o);
    OrdBound(name, ord as int);
    WrittenStart(e, name, ord as int, sum);
    Poke(win, o, 13, sum, s0, e);
    e := e[13 := sum];
    Poke(win, o, 11, AM_LFN, s0, e);
    e := e[11 := AM_LFN];
    Poke(win, o, 12, 0, s0, e);
    e := e[12 := 0];
    PokeWord(win, o, 26, 0, s0, e);
    e := e[26 := 0][27 := 0];
    var i := (ord as int - 1) * 13;
    ghost var i0 := i;
    var s, wc: Word := 0, 0;
    while s < 13
      invariant 0 <= s <= 13 && win.Length == |s0| && |e| == 32 && win[..] == WithEntry(s0, o, e)
      invariant Written(e, name, ord as int, sum, s)
      invariant wc == 0xFFFF <==> i0 + s > |name|
      invariant wc != 0xFFFF ==> i == i0 + s
      invariant wc == 0 ==> s == 0
    {
      NextUnit(lfn[..], name, i0 + s, wc);
      if wc != 0xFFFF {
        wc := lfn[i];
        i := i + 1;
      }
      OfsInEntry(s);
      PokeWord(win, o, LfnOfs(s), wc, s0, e);
      ghost var e': seq<byte> := e[LfnOfs(s) := wc % 256][LfnOfs(s) + 1 := wc / 256];
      WrittenStep(e, name, ord as int, sum, s, wc, e');
      e := e';
      if wc == 0 {
        wc := 0xFFFF;
      }
      s := s + 1;
    }
    LastPart(lfn[..], name, i0);
    var b := ord;
    if wc == 0xFFFF || lfn[i] == 0 {
      b := ord + LLEF;
    }
    Poke(win, o, 0, b, s0, e);
    WrittenDone(e, name, ord as int, sum, b, e[0 := b]);
  }

  lemma EntryIs(s: seq<byte>, o: nat, e: seq<byte>)
    requires o + 32 <= |s| && |e| == 32
    ensures EntryOf(WithEntry(s, o, e), o) == e
  {
  }

  lemma OfsInEntry(s: nat)
    requires s < 13
    ensures LfnOfs(s) + 1 < 32
  {
  }

  lemma OrdBound(name: Name, ord: nat)
    requires IsName(name) && 1 <= ord && 13 * (ord - 1) < |name|
    ensures ord <= 20 && ord < LLEF && ord + LLEF < 256 && |name| <= 255
  {
  }

  lemma LastPart(lfn: seq<Word>, name: Name, i0: nat)
    requires IsName(name) && Shows(lfn, name) && i0 < |name|
    ensures i0 + 13 <= |name| ==> i0 + 13 < |lfn| && (lfn[i0 + 13] == 0 <==> i0 + 13 >= |name|)
  {
  }

  // ----- pick_lfn -----

  /** The units of an entry, in order. */
  function Units(e: seq<byte>): (u: seq<Word>)
    requires |e| == 32
    ensures |u| == 13
    ensures forall s :: 0 <= s < 13 ==> u[s] == LdWord(e, LfnOfs(s))
  {
    seq(13, s requires 0 <= s < 13 => LdWord(e, LfnOfs(s)))
  }

  function FirstZero(u: seq<Word>): (m: nat)
    ensures m <= |u| && (m < |u| ==> u[m] == 0)
    ensures forall s :: 0 <= s < m ==> u[s] != 0
  {
    if u == [] || u[0] == 0 then 0 else 1 + FirstZero(u[1..])
  }

  /** After the zero there are only fillers. */
  ghost predicate Padded(u: seq<Word>) {
    forall s :: FirstZero(u) < s < |u| ==> u[s] == 0xFFFF
  }

  /** Place of the entry's first unit in the name; order 0 wraps to a place no buffer has. */
  function PlaceOf(ord: nat): (i: nat)
    requires ord <= 255
    ensures ord > 0 ==> i == 13 * (ord - 1)
    ensures ord == 0 ==> i > MAX_LFN
  {
    if ord == 0 then 0x1_0000_0000 - 13 else (ord - 1) * 13
  }

  function OrderOf(e: seq<byte>): (ord: nat)
    requires |e| == 32
    ensures ord <= 255
  {
    if Flagged(e) then e[0] as int - LLEF else e[0] as int
  }

  /** The units an entry contributes, with the terminator a full last part lacks. */
  function Contribution(e: seq<byte>): (t: seq<Word>)
    requires |e| == 32
    ensures |t| <= 14
  {
    var u := Units(e);
    var m := FirstZero(u);
    if m < 13 then u[..m + 1] else if Flagged(e) then u + [0] else u
  }

  /** pick_lfn accepts: a proper entry whose contribution has its place in the buffer. */
  ghost predicate Pickable(e: seq<byte>)
    requires |e| == 32
  {
    && LdWord(e, 26) == 0 && Padded(Units(e))
    && PlaceOf(OrderOf(e)) + |Contribution(e)| <= MAX_LFN + 1
  }

  function Picked(lfn: seq<Word>, e: seq<byte>): (r: seq<Word>)
    requires |e| == 32 && |lfn| == MAX_LFN + 1 && PlaceOf(OrderOf(e)) + |Contribution(e)| <= MAX_LFN + 1
    ensures |r| == MAX_LFN + 1
  {
    var i, t := PlaceOf(OrderOf(e)), Contribution(e);
    lfn[..i] + t + lfn[i + |t|..]
  }

  /** The units picked so far, n of them, and whether the zero has been seen. */
  ghost predicate PickedSome(lfn0: seq<Word>, lfn: seq<Word>, u: seq<Word>, i0: nat, s: nat, wc: Word) {
    && |u| == 13 && s <= 13 && |lfn| == |lfn0| == MAX_LFN + 1
    && var m := FirstZero(u);
       var k := if s <= m then s else m + 1;
       && (wc == 0 <==> s > m)
       && (s > 0 ==> i0 + k <= |lfn|)
       && (forall x :: m < x < s ==> u[x] == 0xFFFF)
       && (s > 0 ==> lfn == lfn0[..i0] + u[..k] + lfn0[i0 + k..])
       && (s == 0 ==> lfn == lfn0)
  }

  lemma PickStart(lfn: seq<Word>, u: seq<Word>, i0: nat)
    requires |u| == 13 && |lfn| == MAX_LFN + 1
    ensures PickedSome(lfn, lfn, u, i0, 0, 1)
  {
  }

  lemma PickStep(lfn0: seq<Word>, lfn: seq<Word>, u: seq<Word>, i0: nat, s: nat, wc: Word)
    requires PickedSome(lfn0, lfn, u, i0, s, wc) && s < 13
    ensures wc != 0 && i0 + s < |lfn| ==> PickedSome(lfn0, lfn[i0 + s := u[s]], u, i0, s + 1, u[s])
    ensures wc == 0 && u[s] == 0xFFFF ==> PickedSome(lfn0, lfn, u, i0, s + 1, wc)
    ensures wc == 0 && u[s] != 0xFFFF ==> !Padded(u)
  {
    if wc != 0 && i0 + s < |lfn| {
      assert lfn[i0 + s := u[s]] == lfn0[..i0] + u[..s + 1] + lfn0[i0 + s + 1..];
    }
  }

  /** Not enough room: some unit that has to be stored has no place. */
  lemma PickOverflow(lfn0: seq<Word>, lfn: seq<Word>, e: seq<byte>, i0: nat, s: nat, wc: Word)
    requires |e| == 32 && PickedSome(lfn0, lfn, Units(e), i0, s, wc)
    requires wc != 0 && i0 + s > MAX_LFN && (s < 13 || Flagged(e)) && i0 == PlaceOf(OrderOf(e))
    ensures !Pickable(e)
  {
  }

  lemma PickDone(lfn0: seq<Word>, lfn: seq<Word>, e: seq<byte>, i0: nat, wc: Word)
    requires |e| == 32 && PickedSome(lfn0, lfn, Units(e), i0, 13, wc) && i0 == PlaceOf(OrderOf(e))
    requires LdWord(e, 26) == 0
    ensures Padded(Units(e))
    ensures !(Flagged(e) && wc != 0) ==> Pickable(e) && lfn == Picked(lfn0, e)
    ensures Flagged(e) && wc != 0 && i0 + 13 <= MAX_LFN ==> Pickable(e) && lfn[i0 + 13 := 0] == Picked(lfn0, e)
  {
    var u, m := Units(e), FirstZero(Units(e));
    if Flagged(e) && wc != 0 && i0 + 13 <= MAX_LFN {
      assert lfn[i0 + 13 := 0] == lfn0[..i0] + (u + [0]) + lfn0[i0 + 14..];
    }
  }

  /** pick_lfn: the units of the entry go to their place in the buffer. */
  method PickLfn(lfn: array<Word>, e: seq<byte>) returns (ok: bool)
    requires |e| == 32 && lfn.Length == MAX_LFN + 1
    modifies lfn
    ensures ok <==> Pickable(e)
    ensures ok ==> lfn[..] == Picked(old(lfn[..]), e)
  {
    hide *;
    ghost var lfn0 := lfn[..];
    PickableIs(e, lfn0);
    if LdWord(e, 26) != 0 { return false; }
    var i0 := PlaceOf(OrderOf(e));
    var i, wc: Word, s := i0, 1, 0;
    PickStart(lfn0, Units(e), i0);
    UnitsAre(e);
    while s < 13
      invariant 0 <= s <= 13
      invariant PickedSome(lfn0, lfn[..], Units(e), i0, s, wc)
      invariant wc != 0 ==> i == i0 + s
    {
      PickStep(lfn0, lfn[..], Units(e), i0, s, wc);
      UnitIs(e, s);
      var uc := LdWord(e, LfnOfs(s));
      if wc != 0 {
        if i >= MAX_LFN + 1 {
          PickOverflow(lfn0, lfn[..], e, i0, s, wc);
          return false;
        }
        wc := uc;
        lfn[i] := uc;
        i := i + 1;
      } else {
        if uc != 0xFFFF { return false; }
      }
      s := s + 1;
    }
    PickDone(lfn0, lfn[..], e, i0, wc);
    if Flagged(e) && wc != 0 {
      if i >= MAX_LFN + 1 {
        PickOverflow(lfn0, lfn[..], e, i0, s, wc);
        return false;
      }
      lfn[i] := 0;
    }
    ok := true;
  }

  lemma PickableIs(e: seq<byte>, lfn: seq<Word>)
    requires |e| == 32 && |lfn| == MAX_LFN + 1
    ensures Pickable(e) ==>
            LdWord(e, 26) == 0 && Padded(Units(e)) && PlaceOf(OrderOf(e)) + |Contribution(e)| <= MAX_LFN + 1
  {
  }

  lemma UnitsAre(e: seq<byte>)
    requires |e| == 32
    ensures |Units(e)| == 13
  {
  }

  lemma UnitIs(e: seq<byte>, s: nat)
    requires |e| == 32 && s < 13
    ensures LfnOfs(s) + 1 < 32 && LdWord(e, LfnOfs(s)) == Units(e)[s]
  {
  }

  // ----- cmp_lfn -----

  /** ff_wtoupper maps 0, and nothing else, to 0. */
  ghost predicate IsUpper(up: Word -> Word) {
    forall c: Word :: up(c) == 0 <==> c == 0
  }

  /** Units s0 up to s of the entry agree with the buffer, up to its zero. */
  ghost predicate Agree(up: Word -> Word, lfn: seq<Word>, u: seq<Word>, i: nat, s: nat) {
    && |lfn| == MAX_LFN + 1 && s <= |u| == 13
    && (forall x :: 0 <= x < s && x <= FirstZero(u) ==> i + x <= MAX_LFN && up(u[x]) == up(lfn[i + x]))
    && (forall x :: FirstZero(u) < x < s ==> u[x] == 0xFFFF)
  }

  /** cmp_lfn accepts: a proper entry that agrees with the buffer; a full last part ends it. */
  ghost predicate Comparable(up: Word -> Word, lfn: seq<Word>, e: seq<byte>)
    requires |e| == 32
  {
    var i := PlaceOf(e[0] as int % 64);
    && LdWord(e, 26) == 0
    && Agree(up, lfn, Units(e), i, 13)
    && (Flagged(e) && FirstZero(Units(e)) == 13 ==> i + 13 <= MAX_LFN && lfn[i + 13] == 0)
  }

  lemma AgreeStart(up: Word -> Word, lfn: seq<Word>, u: seq<Word>, i: nat)
    requires |lfn| == MAX_LFN + 1 && |u| == 13
    ensures Agree(up, lfn, u, i, 0)
  {
  }

  lemma AgreeStep(up: Word -> Word, lfn: seq<Word>, u: seq<Word>, i: nat, s: nat, ended: bool)
    requires Agree(up, lfn, u, i, s) && s < 13 && (ended <==> s > FirstZero(u))
    ensures var fine := if ended then u[s] == 0xFFFF else i + s <= MAX_LFN && up(u[s]) == up(lfn[i + s]);
            if fine then Agree(up, lfn, u, i, s + 1) else !Agree(up, lfn, u, i, 13)
    ensures !ended ==> (u[s] == 0 <==> s + 1 > FirstZero(u))
    ensures ended ==> s + 1 > FirstZero(u)
  {
    var atS := if ended then u[s] == 0xFFFF else i + s <= MAX_LFN && up(u[s]) == up(lfn[i + s]);
    assert Agree(up, lfn, u, i, 13) ==> atS;
  }

  lemma AgreeDone(up: Word -> Word, lfn: seq<Word>, e: seq<byte>, i: nat, wc: Word)
    requires |e| == 32 && LdWord(e, 26) == 0 && i == PlaceOf(e[0] as int % 64)
    requires Agree(up, lfn, Units(e), i, 13) && (wc == 0 <==> 13 > FirstZero(Units(e)))
    ensures wc != 0 ==> i + 13 <= MAX_LFN
    ensures Comparable(up, lfn, e) <==> !(Flagged(e) && wc != 0 && lfn[i + 13] != 0)
  {
    if wc != 0 {
      assert up(Units(e)[12]) == up(lfn[i + 12]);
      MultipleOf13(e[0] as int % 64);
    }
  }

  lemma MultipleOf13(ord: nat)
    requires ord < LLEF && PlaceOf(ord) + 12 <= MAX_LFN
    ensures PlaceOf(ord) + 13 <= MAX_LFN
  {
  }

  lemma CompareFacts(up: Word -> Word, lfn: seq<Word>, e: seq<byte>)
    requires |e| == 32
    ensures Comparable(up, lfn, e) ==> LdWord(e, 26) == 0 && Agree(up, lfn, Units(e), PlaceOf(e[0] as int % 64), 13)
    ensures e[0] as int % 64 <= 255
  {
  }

  /** cmp_lfn: does the entry hold its part of the name in the buffer? */
  method CmpLfn(up: Word -> Word, lfn: array<Word>, e: seq<byte>) returns (ok: bool)
    requires |e| == 32 && lfn.Length == MAX_LFN + 1
    ensures ok <==> Comparable(up, lfn[..], e)
  {
    hide *;
    CompareFacts(up, lfn[..], e);
    if LdWord(e, 26) != 0 { return false; }
    ghost var u := Units(e);
    UnitsAre(e);
    var i0 := PlaceOf(e[0] as int % 64);
    var i, wc: Word, s := i0, 1, 0;
    AgreeStart(up, lfn[..], u, i0);
    while s < 13
      invariant 0 <= s <= 13 && Agree(up, lfn[..], u, i0, s)
      invariant wc == 0 <==> s > FirstZero(u)
      invariant wc != 0 ==> i == i0 + s
    {
      AgreeStep(up, lfn[..], u, i0, s, wc == 0);
      UnitIs(e, s);
      var uc := LdWord(e, LfnOfs(s));
      if wc != 0 {
        if i >= MAX_LFN + 1 || up(uc) != up(lfn[i]) { return false; }
        i := i + 1;
        wc := uc;
      } else {
        if uc != 0xFFFF { return false; }
      }
      s := s + 1;
    }
    AgreeDone(up, lfn[..], e, i0, wc);
    if Flagged(e) && wc != 0 && lfn[i] != 0 { return false; }
    ok := true;
  }

  // ----- whole names -----

  lemma PartFacts(e: seq<byte>, name: Name, ord: nat, sum: byte)
    requires IsName(name) && IsPart(e, name, ord, sum) && 13 * (ord - 1) < |name|
    ensures OrderOf(e) == ord && e[0] as int % 64 == ord && (Flagged(e) <==> 13 * ord >= |name|)
    ensures LdWord(e, 26) == 0
    ensures forall s :: 0 <= s < 13 ==> Units(e)[s] == UnitAt(name, 13 * (ord - 1) + s)
    ensures |name| - 13 * (ord - 1) < 13 ==> FirstZero(Units(e)) == |name| - 13 * (ord - 1)
    ensures |name| - 13 * (ord - 1) >= 13 ==> FirstZero(Units(e)) == 13
    ensures Padded(Units(e))
  {
    hide Units, FirstZero, Padded;
    OrdBytes(e, name, ord, sum);
    var u := Units(e);
    assert forall s :: 0 <= s < 13 ==> u[s] == UnitAt(name, 13 * (ord - 1) + s);
    ZeroOfPart(u, name, 13 * (ord - 1));
  }

  lemma OrdBytes(e: seq<byte>, name: Name, ord: nat, sum: byte)
    requires IsPart(e, name, ord, sum)
    ensures OrderOf(e) == ord && e[0] as int % 64 == ord && (Flagged(e) <==> 13 * ord >= |name|)
  {
  }

  lemma ZeroOfPart(u: seq<Word>, name: Name, i: nat)
    requires IsName(name) && |u| == 13 && i < |name| && forall s :: 0 <= s < 13 ==> u[s] == UnitAt(name, i + s)
    ensures FirstZero(u) == (if |name| - i < 13 then |name| - i else 13) && Padded(u)
  {
    var m := FirstZero(u);
    if |name| - i < 13 {
      assert u[|name| - i] == 0;
    }
  }

  /** Parts n down to k are in the buffer, with the terminator. */
  predicate TailPicked(lfn: seq<Word>, name: Name, k: nat) {
    && |lfn| == MAX_LFN + 1 && |name| <= MAX_LFN && 1 <= k
    && (13 * (k - 1) < |name| ==> lfn[13 * (k - 1)..|name|] == name[13 * (k - 1)..] && lfn[|name|] == 0)
  }

  /** Picking part k of a stored name adds that part to what is in the buffer. */
  lemma PickPart(lfn: seq<Word>, e: seq<byte>, name: Name, k: nat, sum: byte)
    requires IsName(name) && IsPart(e, name, k, sum) && 13 * (k - 1) < |name| && TailPicked(lfn, name, k + 1)
    ensures Pickable(e) && TailPicked(Picked(lfn, e), name, k)
  {
    PartFacts(e, name, k, sum);
    hide *;
    PartRoom(e, name, k);
    PartPicked(lfn, e, name, k);
  }

  lemma PartRoom(e: seq<byte>, name: Name, k: nat)
    requires IsName(name) && |e| == 32 && 1 <= k && 13 * (k - 1) < |name|
    requires OrderOf(e) == k && (Flagged(e) <==> 13 * k >= |name|)
    requires FirstZero(Units(e)) == (if |name| - 13 * (k - 1) < 13 then |name| - 13 * (k - 1) else 13)
    requires LdWord(e, 26) == 0 && Padded(Units(e))
    ensures Pickable(e)
    ensures var i := 13 * (k - 1);
            && PlaceOf(OrderOf(e)) == i
            && i + |Contribution(e)| == (if 13 * k >= |name| then |name| + 1 else 13 * k)
            && i + |Contribution(e)| <= MAX_LFN + 1
            && forall x :: 0 <= x < |Contribution(e)| ==> Contribution(e)[x] == (if x < 13 then Units(e)[x] else 0)
  {
    hide Padded;
  }

  lemma PartPicked(lfn: seq<Word>, e: seq<byte>, name: Name, k: nat)
    requires IsName(name) && |e| == 32 && 1 <= k && 13 * (k - 1) < |name| && TailPicked(lfn, name, k + 1)
    requires forall s :: 0 <= s < 13 ==> Units(e)[s] == UnitAt(name, 13 * (k - 1) + s)
    requires var i := 13 * (k - 1);
            && PlaceOf(OrderOf(e)) == i
            && i + |Contribution(e)| == (if 13 * k >= |name| then |name| + 1 else 13 * k)
            && i + |Contribution(e)| <= MAX_LFN + 1
            && forall x :: 0 <= x < |Contribution(e)| ==> Contribution(e)[x] == (if x < 13 then Units(e)[x] else 0)
    ensures TailPicked(Picked(lfn, e), name, k)
  {
    hide OrderOf, Contribution, Units;
    var i, t, r := 13 * (k - 1), Contribution(e), Picked(lfn, e);
    forall x | i <= x < |name|
      ensures r[x] == name[x]
    {
      if x < i + |t| {
        assert r[x] == t[x - i];
      } else {
        assert r[x] == lfn[x];
        assert lfn[13 * k..|name|][x - 13 * k] == name[13 * k..][x - 13 * k];
      }
    }
    if |name| < i + |t| {
      assert r[|name|] == t[|name| - i];
    } else {
      assert r[|name|] == lfn[|name|];
    }
  }

  /** What a run of pick_lfn over entries leaves in the buffer, if every entry is accepted. */
  ghost predicate PicksTo(lfn: seq<Word>, es: seq<seq<byte>>, r: seq<Word>)
    requires |lfn| == MAX_LFN + 1
    decreases |es|
  {
    if es == [] then r == lfn
    else |es[0]| == 32 && Pickable(es[0]) && PicksTo(Picked(lfn, es[0]), es[1..], r)
  }

  lemma {:induction false} PicksMore(lfn: seq<Word>, es: seq<seq<byte>>, r: seq<Word>, e: seq<byte>)
    requires |lfn| == MAX_LFN + 1 && PicksTo(lfn, es, r) && |e| == 32 && Pickable(e)
    ensures |r| == MAX_LFN + 1
    ensures PicksTo(lfn, es + [e], Picked(r, e))
    decreases |es|
  {
    hide Pickable, Picked;
    PickableFits(e);
    if es == [] {
      assert es + [e] == [e] && [e][1..] == [];
    } else {
      PickableFits(es[0]);
      assert (es + [e])[1..] == es[1..] + [e];
      PicksMore(Picked(lfn, es[0]), es[1..], r, e);
    }
  }

  lemma {:induction false} PicksOne(lfn: seq<Word>, es: seq<seq<byte>>, r: seq<Word>, r': seq<Word>)
    requires |lfn| == MAX_LFN + 1 && PicksTo(lfn, es, r) && PicksTo(lfn, es, r')
    ensures r == r'
    decreases |es|
  {
    hide Pickable, Picked;
    if es != [] {
      PickableFits(es[0]);
      PicksOne(Picked(lfn, es[0]), es[1..], r, r');
    }
  }

  /** es holds parts k down to 1 of the name, in that order, for the short entry with checksum sum. */
  ghost predicate StoredFrom(es: seq<seq<byte>>, name: Name, k: nat, sum: byte) {
    |es| == k && forall j :: 0 <= j < k ==> IsPart(es[j], name, k - j, sum)
  }

  lemma {:induction false} PicksRest(lfn: seq<Word>, es: seq<seq<byte>>, name: Name, k: nat, sum: byte)
    returns (r: seq<Word>)
    requires IsName(name) && StoredFrom(es, name, k, sum) && 13 * k < |name| + 13 && TailPicked(lfn, name, k + 1)
    ensures PicksTo(lfn, es, r) && |r| == MAX_LFN + 1 && TailPicked(r, name, 1)
    decreases k
  {
    hide IsPart, TailPicked, Pickable, Picked, IsName;
    TailLength(lfn, name, k + 1);
    if k == 0 {
      r := lfn;
    } else {
      IsPartLength(es[0], name, k, sum);
      PickPart(lfn, es[0], name, k, sum);
      PickableFits(es[0]);
      r := PicksRest(Picked(lfn, es[0]), es[1..], name, k - 1, sum);
    }
  }

  lemma PickableFits(e: seq<byte>)
    requires |e| == 32 && Pickable(e)
    ensures PlaceOf(OrderOf(e)) + |Contribution(e)| <= MAX_LFN + 1
  {
  }

  lemma TailLength(lfn: seq<Word>, name: Name, k: nat)
    requires TailPicked(lfn, name, k)
    ensures |lfn| == MAX_LFN + 1
  {
  }

  /** A name stored by put_lfn, last part first, is what pick_lfn brings back, with its zero,
      whatever the buffer held; the flag of the last part is on the first stored entry only. */
  lemma StoredNameRoundTrip(lfn: seq<Word>, es: seq<seq<byte>>, name: Name, sum: byte) returns (r: seq<Word>)
    requires IsName(name) && |lfn| == MAX_LFN + 1 && StoredFrom(es, name, EntryCount(|name|), sum)
    ensures PicksTo(lfn, es, r) && Shows(r, name)
    ensures forall j :: 0 <= j < |es| ==> |es[j]| == 32 && (Flagged(es[j]) <==> j == 0)
  {
    var n := EntryCount(|name|);
    r := PicksRest(lfn, es, name, n, sum);
    hide Flagged;
    forall j | 0 <= j < |es|
      ensures |es[j]| == 32 && (Flagged(es[j]) <==> j == 0)
    {
      OrdBytes(es[j], name, n - j, sum);
    }
  }

  /** Names equal but for case. */
  ghost predicate SameName(up: Word -> Word, a: Name, b: Name) {
    |a| == |b| && forall i :: 0 <= i < |a| ==> up(a[i]) == up(b[i])
  }

  /** Part k of the name a agrees with the buffer. */
  lemma ComparePart(up: Word -> Word, lfn: seq<Word>, e: seq<byte>, a: Name, k: nat, sum: byte)
    requires IsName(a) && IsPart(e, a, k, sum) && 13 * (k - 1) < |a| && |lfn| == MAX_LFN + 1 && IsUpper(up)
    ensures Comparable(up, lfn, e) <==>
            && (forall j :: 13 * (k - 1) <= j < 13 * k && j < |a| ==> up(a[j]) == up(lfn[j]))
            && (13 * k >= |a| ==> lfn[|a|] == 0)
  {
    PartFacts(e, a, k, sum);
    hide Units, FirstZero, Flagged, Padded, IsPart;
    var u, i := Units(e), 13 * (k - 1);
    assert PlaceOf(e[0] as int % 64) == i;
    forall x | 0 <= x < 13 && i + x < |a|
      ensures u[x] == a[i + x]
    {
    }
    if 13 * k > |a| {
      assert u[|a| - i] == 0;
    }
    if Comparable(up, lfn, e) {
      forall j | i <= j < 13 * k && j < |a|
        ensures up(a[j]) == up(lfn[j])
      {
        assert u[j - i] == a[j] && j - i <= FirstZero(u);
      }
      if 13 * k > |a| {
        assert up(u[|a| - i]) == up(lfn[i + (|a| - i)]);
      }
    }
  }

  /** cmp_lfn accepts every entry of a stored name a if and only if the buffer shows a name equal
      to a but for case. What the buffer holds after its zero does not matter. */
  lemma StoredNameFound(up: Word -> Word, lfn: seq<Word>, es: seq<seq<byte>>, a: Name, b: Name, sum: byte)
    requires IsName(a) && StoredFrom(es, a, EntryCount(|a|), sum)
    requires IsName(b) && Shows(lfn, b) && IsUpper(up)
    ensures (forall j :: 0 <= j < |es| ==> |es[j]| == 32 && Comparable(up, lfn, es[j])) <==> SameName(up, a, b)
  {
    var n := EntryCount(|a|);
    hide IsPart, Comparable;
    forall j | 0 <= j < n
      ensures |es[j]| == 32
      ensures Comparable(up, lfn, es[j]) <==>
              && (forall i :: 13 * (n - j - 1) <= i < 13 * (n - j) && i < |a| ==> up(a[i]) == up(lfn[i]))
              && (13 * (n - j) >= |a| ==> lfn[|a|] == 0)
    {
      IsPartLength(es[j], a, n - j, sum);
      ComparePart(up, lfn, es[j], a, n - j, sum);
    }
    if forall j :: 0 <= j < |es| ==> |es[j]| == 32 && Comparable(up, lfn, es[j]) {
      assert Comparable(up, lfn, es[0]);
      forall i | 0 <= i < |a|
        ensures up(a[i]) == up(lfn[i])
      {
        var j := n - 1 - i / 13;
        assert Comparable(up, lfn, es[j]);
      }
      SameFromBuffer(up, lfn, a, b);
    }
    if SameName(up, a, b) {
      assert forall i :: 0 <= i < |a| ==> lfn[i] == b[i];
    }
  }

  lemma IsPartLength(e: seq<byte>, name: Name, ord: nat, sum: byte)
    requires IsPart(e, name, ord, sum)
    ensures |e| == 32
  {
  }

  lemma SameFromBuffer(up: Word -> Word, lfn: seq<Word>, a: Name, b: Name)
    requires IsName(a) && IsName(b) && Shows(lfn, b) && IsUpper(up)
    requires (forall i :: 0 <= i < |a| ==> up(a[i]) == up(lfn[i])) && lfn[|a|] == 0
    ensures SameName(up, a, b)
  {
    assert forall i :: 0 <= i < |b| ==> lfn[i] == lfn[..|b|][i] == b[i];
    assert forall i :: 0 <= i < |b| ==> lfn[i] != 0;
    assert up(lfn[|b|]) == 0;
  }
}
