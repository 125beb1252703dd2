/** create_name, which turns a path segment into a long name and an 8.3 field, and the part of
    get_fileinfo that prints an 8.3 field with its case flags. */
module ShortName {
  import opened Bytes
  import opened Lfn
  import Pattern
  import opened Results

  const SPACE: byte := 0x20
  const DOT: byte := 0x2E
  const RDDEM: byte := 0x05

  // ----- names of the 8.3 form -----

  predicate IsUpperCase(c: int) { 0x41 <= c <= 0x5A }

  predicate IsLowerCase(c: int) { 0x61 <= c <= 0x7A }

  /** Characters a long name may have and a short one may not: + , ; = [ ] */
  predicate Replaced(c: int) {
    c == 0x2B || c == 0x2C || c == 0x3B || c == 0x3D || c == 0x5B || c == 0x5D
  }

  predicate PlainChar(c: Word) {
    0x20 < c < 0x80 && c != DOT && !Replaced(c)
  }

  predicate PlainText(s: seq<Word>) {
    forall k :: 0 <= k < |s| ==> PlainChar(s[k])
  }

  /** One more than the index of the last dot, or 0. */
  function AfterDot(n: seq<Word>): (d: nat)
    ensures d <= |n|
    ensures d > 0 ==> n[d - 1] == DOT
    ensures forall k :: d <= k < |n| ==> n[k] != DOT
  {
    if n == [] then 0 else if n[|n| - 1] == DOT then |n| else AfterDot(n[..|n| - 1])
  }

  function Body(n: seq<Word>): seq<Word> {
    if AfterDot(n) == 0 then n else n[..AfterDot(n) - 1]
  }

  function Ext(n: seq<Word>): seq<Word> {
    if AfterDot(n) == 0 then [] else n[AfterDot(n)..]
  }

  /** 1 if there is a lower-case letter, plus 2 if there is an upper-case one. */
  function CaseBits(s: seq<Word>): (b: nat)
    ensures b <= 3
  {
    if s == [] then 0 else CaseMore(CaseBits(s[..|s| - 1]), s[|s| - 1])
  }

  function CaseMore(b: nat, c: Word): (r: nat)
    ensures b <= 3 ==> r <= 3
  {
    if IsUpperCase(c) then (if b / 2 % 2 == 1 then b else b + 2)
    else if IsLowerCase(c) then (if b % 2 == 1 then b else b + 1)
    else b
  }

  /** Body and extension fit and need no replacement. */
  predicate Fits83(n: seq<Word>) {
    0 < |Body(n)| <= 8 && |Ext(n)| <= 3 && PlainText(Body(n)) && PlainText(Ext(n))
  }

  /** And neither of them mixes the cases. */
  predicate Short83(n: seq<Word>) {
    Fits83(n) && CaseBits(Body(n)) != 3 && CaseBits(Ext(n)) != 3
  }

  function Raise(c: Word): byte {
    if IsLowerCase(c) then c - 0x20 else if c < 256 then c else 0
  }

  function RaiseAll(s: seq<Word>): (r: seq<byte>)
    ensures |r| == |s|
    ensures forall k :: 0 <= k < |s| ==> r[k] == Raise(s[k])
  {
    seq(|s|, k requires 0 <= k < |s| => Raise(s[k]))
  }

  function Spaces(n: nat): (s: seq<byte>)
    ensures |s| == n && forall k :: 0 <= k < n ==> s[k] == SPACE
  {
    seq(n, k => SPACE)
  }

  /** The 11-byte field: body and extension in upper case, padded with spaces. */
  function Field(body: seq<Word>, ext: seq<Word>): (f: seq<byte>)
    requires |body| <= 8 && |ext| <= 3
    ensures |f| == 11
  {
    RaiseAll(body) + Spaces(8 - |body|) + RaiseAll(ext) + Spaces(3 - |ext|)
  }

  // ----- what is stored of a name -----

  /** The bytes stored for a character, and whether they stand for just this character. */
  datatype Piece = Piece(bytes: seq<byte>, kept: bool)

  /** Spaces and dots are left out, what a short name may not hold becomes an underscore. Above ASCII
      toOem gives the code of a character, of one byte or of two, and ct the capital of a code. */
  ghost function Converted(toOem: Word -> Word, ct: seq<byte>): (cv: Word -> Piece)
    requires |ct| == 128
    ensures IsConversion(cv)
  {
    (c: Word) =>
      var w: Word := if c < 0x80 then c else if toOem(c) / 128 % 2 == 1 then ct[toOem(c) % 128] else toOem(c);
      if c <= 0x20 || c == DOT then Piece([], false)
      else if w == 0 || Replaced(w) then Piece([0x5F], false)
      else if w < 0x100 then Piece([Raise(w)], true)
      else Piece([w / 256, w % 256], true)
  }

  /** ASCII characters are stored in upper case, if they may be in a short name. */
  ghost predicate IsConversion(cv: Word -> Piece) {
    forall c: Word ::
      && |cv(c).bytes| <= 2 && (c > 0x20 && c != DOT ==> cv(c).bytes != [])
      && (c < 0x80 ==>
            cv(c) == if PlainChar(c) then Piece([Raise(c)], true) else Piece(if Replaced(c) then [0x5F] else [], false))
  }

  /** What has been taken of a part of the name, how much room is left, and whether nothing was lost. */
  datatype Part = Part(bytes: seq<byte>, room: nat, whole: bool)

  /** A character that finds no room closes the part. */
  ghost function Taken(cv: Word -> Piece, s: seq<Word>, w: nat): (p: Part)
    ensures |p.bytes| + p.room <= w && (p.room > 0 || p.whole ==> |p.bytes| + p.room == w)
  {
    if s == [] then Part([], w, true) else TakenMore(cv, Taken(cv, s[..|s| - 1], w), s[|s| - 1])
  }

  ghost function TakenMore(cv: Word -> Piece, p: Part, c: Word): Part {
    if |cv(c).bytes| <= p.room then Part(p.bytes + cv(c).bytes, p.room - |cv(c).bytes|, p.whole && cv(c).kept)
    else Part(p.bytes, 0, false)
  }

  lemma TakenStep(cv: Word -> Piece, s: seq<Word>, w: nat, c: Word)
    ensures Taken(cv, s + [c], w) == TakenMore(cv, Taken(cv, s, w), c)
    ensures Taken(cv, [], w) == Part([], w, true)
  {
    assert (s + [c])[..|s|] == s;
  }

  /** More characters take nothing away, and bring nothing once there is no room. */
  lemma {:induction false} TakenFurther(cv: Word -> Piece, s: seq<Word>, w: nat, k: nat)
    requires k <= |s|
    ensures Taken(cv, s, w).whole ==> Taken(cv, s[..k], w).whole
    ensures Taken(cv, s[..k], w).room == 0 ==>
            Taken(cv, s, w).bytes == Taken(cv, s[..k], w).bytes && Taken(cv, s, w).room == 0
    decreases |s|
  {
    if k == |s| {
      assert s[..k] == s;
    } else {
      TakenFurther(cv, s[..|s| - 1], w, k);
      assert s[..|s| - 1][..k] == s[..k];
    }
  }

  /** Of a part in ASCII everything is kept exactly if it is plain text and has room. */
  lemma {:induction false} TakenPlain(cv: Word -> Piece, s: seq<Word>, w: nat)
    requires IsConversion(cv) && Ascii(s)
    ensures Taken(cv, s, w).whole <==> PlainText(s) && |s| <= w
    ensures PlainText(s) && |s| <= w ==> Taken(cv, s, w) == Part(RaiseAll(s), w - |s|, true)
  {
    if s != [] {
      var t, c := s[..|s| - 1], s[|s| - 1];
      assert s == t + [c];
      TakenPlain(cv, t, w);
      CharIs(cv, c);
      PlainMore(t, c);
      hide PlainText, IsConversion, PlainChar, RaiseAll, Raise;
    } else {
      assert RaiseAll(s) == [];
    }
  }

  lemma PlainMore(t: seq<Word>, c: Word)
    ensures PlainText(t + [c]) <==> PlainText(t) && PlainChar(c)
    ensures RaiseAll(t + [c]) == RaiseAll(t) + [Raise(c)]
  {
    assert PlainText(t + [c]) ==> PlainChar((t + [c])[|t|]);
    assert forall k :: 0 <= k < |t| ==> (t + [c])[k] == t[k];
    hide PlainChar;
  }

  /** Every character of the name is stored: body and extension have room, and there is a body. */
  ghost predicate FitsField(cv: Word -> Piece, n: seq<Word>) {
    0 < |Body(n)| && Taken(cv, Body(n), 8).whole && Taken(cv, Ext(n), 3).whole
  }

  ghost function Padded11(body: seq<byte>, ext: seq<byte>): (f: seq<byte>)
    requires |body| <= 8 && |ext| <= 3
    ensures |f| == 11
  {
    body + Spaces(8 - |body|) + ext + Spaces(3 - |ext|)
  }

  /** The field of a name, whether something is lost or not. */
  ghost function CodeField(cv: Word -> Piece, n: seq<Word>): (f: seq<byte>)
    ensures |f| == 11
  {
    Padded11(Taken(cv, Body(n), 8).bytes, Taken(cv, Ext(n), 3).bytes)
  }

  /** A name of the 8.3 form is stored as its field, and no other name in ASCII fits. */
  lemma FitsBoth(cv: Word -> Piece, n: seq<Word>)
    requires IsConversion(cv)
    ensures Fits83(n) ==> FitsField(cv, n) && CodeField(cv, n) == Field(Body(n), Ext(n))
    ensures FitsField(cv, n) && Ascii(n) ==> Fits83(n)
  {
    if Fits83(n) {
      PlainIsAscii(Body(n));
      PlainIsAscii(Ext(n));
    }
    if Fits83(n) || Ascii(n) {
      PartsAscii(n);
      TakenPlain(cv, Body(n), 8);
      TakenPlain(cv, Ext(n), 3);
    }
    hide Taken, IsConversion, Body, Ext, PlainText, Ascii, RaiseAll;
  }

  lemma PlainIsAscii(s: seq<Word>)
    requires PlainText(s)
    ensures Ascii(s)
  {
    assert forall k :: 0 <= k < |s| ==> PlainChar(s[k]);
  }

  lemma PartsAscii(n: seq<Word>)
    ensures Ascii(n) ==> Ascii(Body(n)) && Ascii(Ext(n))
  {
  }

  ghost predicate Ascii(n: seq<Word>) {
    forall k :: 0 <= k < |n| ==> n[k] < 0x80
  }

  // ----- the second half of create_name -----

  /** The field as far as si characters are taken: of the body (ni is 8), or of the extension. */
  ghost predicate Filling(cv: Word -> Piece, n: seq<Word>, si: nat, i: nat, ni: nat, f: seq<byte>) {
    && si <= |n|
    && if ni == 8 then
         var p := Taken(cv, n[..si], 8);
         (AfterDot(n) > 0 ==> si < AfterDot(n)) && i + p.room == 8 && f == Padded11(p.bytes, [])
       else
         var d := AfterDot(n);
         && ni == 11 && 0 < d <= si
         && var p := Taken(cv, n[d..si], 3);
            i + p.room == 11 && f == Padded11(Taken(cv, Body(n), 8).bytes, p.bytes)
  }

  /** Nothing has been lost so far. */
  ghost predicate Whole(cv: Word -> Piece, n: seq<Word>, si: nat, ni: nat) {
    && si <= |n| && n != [] && n[0] != DOT
    && if ni == 8 then Taken(cv, n[..si], 8).whole
       else
         0 < AfterDot(n) <= si && 0 < |Body(n)| && Taken(cv, Body(n), 8).whole
         && Taken(cv, n[AfterDot(n)..si], 3).whole
  }

  /** What has been seen of upper and lower case while no long name is needed. */
  ghost predicate Letters(n: seq<Word>, si: nat, ni: nat, b: nat) {
    && si <= |n|
    && if ni == 8 then PlainText(n[..si]) && b == CaseBits(n[..si])
       else
         var d := AfterDot(n);
         0 < d <= si && PlainText(n[..d - 1]) && PlainText(n[d..si])
         && b == CaseBits(n[..d - 1]) * 4 + CaseBits(n[d..si])
  }

  /** The field with some bytes stored at i. */
  ghost function StoredAt(f: seq<byte>, i: nat, t: seq<byte>): (r: seq<byte>)
    requires i + |t| <= |f|
    ensures |r| == |f|
  {
    f[..i] + t + f[i + |t|..]
  }

  lemma StoredAtIs(f: seq<byte>, i: nat, t: seq<byte>)
    requires i + |t| <= |f|
    ensures t == [] ==> StoredAt(f, i, t) == f
    ensures |t| == 1 ==> StoredAt(f, i, t) == f[i := t[0]]
    ensures |t| == 2 ==> StoredAt(f, i, t) == f[i := t[0]][i + 1 := t[1]]
  {
  }

  lemma PadBody(a: seq<byte>, t: seq<byte>)
    requires |a| + |t| <= 8
    ensures StoredAt(Padded11(a, []), |a|, t) == Padded11(a + t, [])
  {
  }

  lemma PadExt(a: seq<byte>, b: seq<byte>, t: seq<byte>)
    requires |a| <= 8 && |b| + |t| <= 3
    ensures StoredAt(Padded11(a, b), 8 + |b|, t) == Padded11(a, b + t)
  {
  }

  lemma BodyNext(cv: Word -> Piece, s: seq<Word>, c: Word, i: nat, f: seq<byte>)
    requires i + Taken(cv, s, 8).room == 8 && f == Padded11(Taken(cv, s, 8).bytes, [])
    ensures var t, q := cv(c).bytes, Taken(cv, s + [c], 8);
      if i + |t| <= 8 then i + |t| + q.room == 8 && StoredAt(f, i, t) == Padded11(q.bytes, [])
      else q.room == 0 && f == Padded11(q.bytes, [])
  {
    var t, p := cv(c).bytes, Taken(cv, s, 8);
    TakenStep(cv, s, 8, c);
    hide Taken, Padded11, StoredAt;
    if |t| <= p.room && t != [] { PadBody(p.bytes, t); }
    if t == [] { StoredAtIs(f, i, t); }
  }

  lemma ExtNext(cv: Word -> Piece, body: seq<byte>, s: seq<Word>, c: Word, i: nat, f: seq<byte>)
    requires |body| <= 8 && i + Taken(cv, s, 3).room == 11 && f == Padded11(body, Taken(cv, s, 3).bytes)
    ensures var t, q := cv(c).bytes, Taken(cv, s + [c], 3);
      if i + |t| <= 11 then i + |t| + q.room == 11 && StoredAt(f, i, t) == Padded11(body, q.bytes)
      else q.room == 0 && f == Padded11(body, q.bytes)
  {
    var t, p := cv(c).bytes, Taken(cv, s, 3);
    TakenStep(cv, s, 3, c);
    hide Taken, Padded11, StoredAt;
    if |t| <= p.room && t != [] { PadExt(body, p.bytes, t); }
    if t == [] { StoredAtIs(f, i, t); }
  }

  /** The next character, stored if it has room. */
  lemma FillingNext(cv: Word -> Piece, n: seq<Word>, k: nat, i: nat, ni: nat, f: seq<byte>)
    requires Filling(cv, n, k, i, ni, f) && k < |n| && k + 1 != AfterDot(n) && i <= ni
    ensures var t := cv(n[k]).bytes;
            if i + |t| <= ni then
              |f| == 11 && ni <= 11 && Filling(cv, n, k + 1, i + |t|, ni, StoredAt(f, i, t))
            else Filling(cv, n, k + 1, ni, ni, f)
  {
    hide AfterDot, Body, Taken, Padded11, StoredAt;
    if ni == 8 {
      assert n[..k + 1] == n[..k] + [n[k]];
      BodyNext(cv, n[..k], n[k], i, f);
    } else {
      var d := AfterDot(n);
      assert n[d..k + 1] == n[d..k] + [n[k]];
      ExtNext(cv, Taken(cv, Body(n), 8).bytes, n[d..k], n[k], i, f);
    }
  }

  /** The next character is kept, or the name does not fit. */
  lemma WholeNext(cv: Word -> Piece, n: seq<Word>, k: nat, i: nat, ni: nat, f: seq<byte>)
    requires Filling(cv, n, k, i, ni, f) && Whole(cv, n, k, ni) && k < |n| && k + 1 != AfterDot(n) && i <= ni
    ensures var x := cv(n[k]);
            if x.kept && i + |x.bytes| <= ni then Whole(cv, n, k + 1, ni) else !FitsField(cv, n)
  {
    var d := AfterDot(n);
    hide AfterDot, Body, Ext, Taken, Padded11;
    if ni == 8 {
      assert n[..k + 1] == n[..k] + [n[k]];
      TakenStep(cv, n[..k], 8, n[k]);
      BodyStart(n, k);
      TakenFurther(cv, Body(n), 8, k + 1);
    } else {
      assert n[d..k + 1] == n[d..k] + [n[k]];
      TakenStep(cv, n[d..k], 3, n[k]);
      ExtStart(n, k);
      TakenFurther(cv, Ext(n), 3, k + 1 - d);
    }
  }

  lemma BodyStart(n: seq<Word>, k: nat)
    requires k < |n| && (AfterDot(n) > 0 ==> k < AfterDot(n) - 1)
    ensures k < |Body(n)| && Body(n)[..k + 1] == n[..k] + [n[k]] && Body(n)[..k] == n[..k]
  {
    hide AfterDot;
  }

  lemma ExtStart(n: seq<Word>, k: nat)
    requires 0 < AfterDot(n) <= k < |n|
    ensures k - AfterDot(n) < |Ext(n)| && Ext(n)[..k - AfterDot(n) + 1] == n[AfterDot(n)..k] + [n[k]]
    ensures Ext(n)[..k - AfterDot(n)] == n[AfterDot(n)..k]
  {
    hide AfterDot;
  }

  /** The rest of the body is left out when there is no room, and the extension begins. */
  lemma FillingSkip(cv: Word -> Piece, n: seq<Word>, k: nat, i: nat, f: seq<byte>)
    requires Filling(cv, n, k, i, 8, f) && k < |n| && 0 < AfterDot(n) && (k + 1 == AfterDot(n) || i == 8)
    ensures Filling(cv, n, AfterDot(n), 8, 11, f)
  {
    var d := AfterDot(n);
    assert n[d..d] == [];
    hide AfterDot, Taken, Padded11;
    TakenStep(cv, [], 3, 0);
    assert Body(n)[..k] == n[..k];
    if k + 1 == d { assert Body(n) == n[..k]; } else { TakenFurther(cv, Body(n), 8, k); }
  }

  /** The rest of the last part is left out when there is no room. */
  lemma FillingStop(cv: Word -> Piece, n: seq<Word>, k: nat, ni: nat, f: seq<byte>)
    requires Filling(cv, n, k, ni, ni, f) && k < |n| && (ni == 8 ==> AfterDot(n) == 0)
    ensures Filling(cv, n, |n|, ni, ni, f)
  {
    var d := AfterDot(n);
    hide AfterDot, Taken, Padded11, Body;
    if ni == 8 {
      WholeSlice(n);
      TakenFurther(cv, n, 8, k);
    } else {
      SliceOfRest(n, d, k);
      TakenFurther(cv, n[d..], 3, k - d);
    }
  }

  lemma SliceOfRest(n: seq<Word>, d: nat, k: nat)
    requires d <= k <= |n|
    ensures n[d..|n|] == n[d..] && n[d..][..k - d] == n[d..k]
  {
  }

  lemma FillingDone(cv: Word -> Piece, n: seq<Word>, i: nat, ni: nat, f: seq<byte>)
    requires Filling(cv, n, |n|, i, ni, f) && n != [] && n[|n| - 1] != DOT
    ensures f == CodeField(cv, n) && (ni == 8 ==> AfterDot(n) == 0)
    ensures Whole(cv, n, |n|, ni) ==> FitsField(cv, n)
  {
    var d := AfterDot(n);
    assert n[..|n|] == n;
    if d > 0 { assert n[d..|n|] == n[d..]; }
    hide AfterDot, Taken, Padded11;
    TakenStep(cv, [], 3, 0);
  }

  lemma CaseBitsMore(s: seq<Word>, c: Word)
    ensures CaseBits(s + [c]) == CaseMore(CaseBits(s), c)
  {
    assert (s + [c])[..|s|] == s;
  }

  /** A character of the case bits. */
  lemma LettersChar(n: seq<Word>, si: nat, ni: nat, b: nat)
    requires Letters(n, si, ni, b) && si < |n| && PlainChar(n[si]) && (ni == 8 || ni == 11)
    ensures Letters(n, si + 1, ni, CaseMore(b, n[si]))
  {
    hide CaseBits, CaseMore, PlainChar, AfterDot;
    if ni == 8 {
      assert n[..si + 1] == n[..si] + [n[si]];
      CaseBitsMore(n[..si], n[si]);
    } else {
      var d := AfterDot(n);
      assert n[d..si + 1] == n[d..si] + [n[si]];
      CaseBitsMore(n[d..si], n[si]);
      CaseOfExt(CaseBits(n[..d - 1]), CaseBits(n[d..si]), n[si]);
    }
  }

  lemma CaseOfExt(x: nat, y: nat, c: Word)
    requires y <= 3
    ensures CaseMore(x * 4 + y, c) == x * 4 + CaseMore(y, c)
  {
    assert (x * 4 + y) / 2 == x * 2 + y / 2;
  }

  lemma WholeDot(cv: Word -> Piece, n: seq<Word>, k: nat)
    requires Whole(cv, n, k, 8) && k < |n| && k + 1 == AfterDot(n)
    ensures Whole(cv, n, k + 1, 11)
  {
    var d := AfterDot(n);
    assert n[d..d] == [] && Body(n) == n[..k];
    TakenStep(cv, [], 3, 0);
    hide Taken;
  }

  lemma LettersDot(n: seq<Word>, si: nat, b: nat)
    requires Letters(n, si, 8, b) && si < |n| && si + 1 == AfterDot(n)
    ensures Letters(n, si + 1, 11, b * 4)
  {
    var d := AfterDot(n);
    assert n[d..d] == [] && n[..d - 1] == n[..si];
    hide AfterDot;
  }

  /** Why a name cannot be written in the 8.3 form. */
  lemma Unfit(n: seq<Word>, k: nat)
    requires k < |n| && k + 1 != AfterDot(n) && !PlainChar(n[k])
    ensures !Fits83(n)
  {
    var d := AfterDot(n);
    if d == 0 || k < d - 1 {
      assert Body(n)[k] == n[k];
    } else {
      assert Ext(n)[k - d] == n[k];
    }
  }

  lemma LeadingUnfit(cv: Word -> Piece, n: seq<Word>)
    requires 0 < |n| && (n[0] == SPACE || n[0] == DOT) && IsConversion(cv)
    ensures !Fits83(n) && !FitsField(cv, n)
  {
    if AfterDot(n) != 1 {
      Unfit(n, 0);
      BodyStart(n, 0);
      TakenFurther(cv, Body(n), 8, 1);
      TakenStep(cv, [], 8, n[0]);
      assert Body(n)[..1] == [] + [n[0]];
      CharIs(cv, n[0]);
      PlainIs(n[0]);
      hide Body, Fits83, AfterDot, IsConversion;
    }
  }

  /** Leading spaces are left out. */
  lemma {:induction false} TakenSpaces(cv: Word -> Piece, s: seq<Word>, w: nat)
    requires IsConversion(cv) && forall k :: 0 <= k < |s| ==> s[k] == SPACE
    ensures Taken(cv, s, w).bytes == [] && Taken(cv, s, w).room == w
  {
    if s != [] { TakenSpaces(cv, s[..|s| - 1], w); }
  }

  lemma LettersDone(n: seq<Word>, ni: nat, b: nat)
    requires Letters(n, |n|, ni, b) && n != [] && n[|n| - 1] != DOT && (ni == 8 ==> AfterDot(n) == 0)
    ensures PlainText(Body(n)) && PlainText(Ext(n))
    ensures (if ni == 8 then b * 4 else b) == CaseBits(Body(n)) * 4 + CaseBits(Ext(n))
  {
    var d := AfterDot(n);
    assert n[..|n|] == n;
    if d > 0 { assert n[d..|n|] == n[d..]; }
  }

  lemma DotPlaces(n: seq<Word>)
    ensures AfterDot(n) <= |n|
    ensures forall k :: 0 <= k < |n| && k + 1 == AfterDot(n) ==> n[k] == DOT
    ensures forall k :: AfterDot(n) <= k < |n| ==> n[k] != DOT
  {
  }

  /** The loop's state: the field so far; whether something was lost; and whether a long name is needed. */
  ghost predicate Making(cv: Word -> Piece, n: seq<Word>, si: nat, i: nat, ni: nat, b: nat, f: seq<byte>,
                         loss: bool, long: bool) {
    && |f| == 11 && si <= |n| && i <= ni && (ni == 8 || ni == 11) && (loss ==> long)
    && Filling(cv, n, si, i, ni, f)
    && (if loss then !FitsField(cv, n) else Whole(cv, n, si, ni))
    && (if long then !Fits83(n) else Letters(n, si, ni, b))
  }

  lemma MakingIs(cv: Word -> Piece, n: seq<Word>, si: nat, i: nat, ni: nat, b: nat, f: seq<byte>, loss: bool,
                 long: bool)
    ensures Making(cv, n, si, i, ni, b, f, loss, long) <==>
      && |f| == 11 && si <= |n| && i <= ni && (ni == 8 || ni == 11) && (loss ==> long)
      && Filling(cv, n, si, i, ni, f)
      && (if loss then !FitsField(cv, n) else Whole(cv, n, si, ni))
      && (if long then !Fits83(n) else Letters(n, si, ni, b))
  {
  }

  /** The working buffer holds a trimmed name: 1 to 255 characters, none a control character, the
      last neither a space nor a dot. */
  predicate IsTrimmed(n: seq<Word>) {
    && 0 < |n| <= MAX_LFN
    && (forall k :: 0 <= k < |n| ==> n[k] >= 0x20)
    && n[|n| - 1] != SPACE && n[|n| - 1] != DOT
  }

  lemma BufferAt(lfn: seq<Word>, n: seq<Word>, k: nat)
    requires IsTrimmed(n) && Shows(lfn, n) && k <= |n|
    ensures k < |lfn|
    ensures k < |n| ==> lfn[k] == n[k] && n[k] >= 0x20
    ensures k == |n| ==> lfn[k] == 0
  {
  }

  lemma PlainIs(c: Word)
    ensures PlainChar(c) <==> 0x20 < c < 0x80 && c != DOT && !Replaced(c)
    ensures c < 256 && !IsLowerCase(c) ==> Raise(c) == c
    ensures IsLowerCase(c) ==> Raise(c) == c - 0x20 && c < 256
    ensures SPACE == 0x20 && DOT == 0x2E && (Replaced(c) ==> c < 0x80 && c != SPACE && c != DOT)
    ensures !(IsUpperCase(c) && IsLowerCase(c))
  {
  }

  /** b |= 2 for an upper-case letter, b |= 1 for a lower-case one. */
  function Or1(b: nat): nat { if b % 2 == 1 then b else b + 1 }

  function Or2(b: nat): nat { if b / 2 % 2 == 1 then b else b + 2 }

  lemma OrIs(b: nat, c: Word)
    ensures CaseMore(b, c) == if IsUpperCase(c) then Or2(b) else if IsLowerCase(c) then Or1(b) else b
  {
  }

  lemma ConvertedIs(toOem: Word -> Word, ct: seq<byte>, c: Word)
    requires |ct| == 128
    ensures var w: Word := if c < 0x80 then c else if toOem(c) / 128 % 2 == 1 then ct[toOem(c) % 128] else toOem(c);
      Converted(toOem, ct)(c) ==
        if c <= 0x20 || c == DOT then Piece([], false)
        else if w == 0 || Replaced(w) then Piece([0x5F], false)
        else if w < 0x100 then Piece([Raise(w)], true)
        else Piece([w / 256, w % 256], true)
    ensures IsConversion(Converted(toOem, ct))
  {
  }

  lemma CharIs(cv: Word -> Piece, c: Word)
    requires IsConversion(cv)
    ensures |cv(c).bytes| <= 2 && (c > 0x20 && c != DOT ==> cv(c).bytes != [])
    ensures c < 0x80 ==>
            cv(c) == if PlainChar(c) then Piece([Raise(c)], true) else Piece(if Replaced(c) then [0x5F] else [], false)
  {
  }

  /** What a character that is no dot before the extension does to the state. */
  lemma MakingNext(cv: Word -> Piece, n: seq<Word>, k: nat, i: nat, ni: nat, b: nat, f: seq<byte>, loss: bool,
                   long: bool)
    requires Making(cv, n, k, i, ni, b, f, loss, long) && IsConversion(cv) && k < |n| && k + 1 != AfterDot(n)
    ensures var x := cv(n[k]);
      && |f| == 11 && ni <= 11
      && (if i + |x.bytes| <= ni then Filling(cv, n, k + 1, i + |x.bytes|, ni, StoredAt(f, i, x.bytes))
          else Filling(cv, n, k + 1, ni, ni, f))
      && (!x.kept || i + |x.bytes| > ni ==> !FitsField(cv, n))
      && (!loss && x.kept && i + |x.bytes| <= ni ==> Whole(cv, n, k + 1, ni))
      && (!PlainChar(n[k]) ==> !Fits83(n))
      && (!long && PlainChar(n[k]) ==> Letters(n, k + 1, ni, CaseMore(b, n[k])))
      && |x.bytes| <= 2
    ensures !FitsField(cv, n) ==> !Fits83(n)
    ensures loss ==> !FitsField(cv, n)
  {
    MakingIs(cv, n, k, i, ni, b, f, loss, long);
    CharIs(cv, n[k]);
    hide *;
    FitsBoth(cv, n);
    FillingNext(cv, n, k, i, ni, f);
    if !loss { WholeNext(cv, n, k, i, ni, f); }
    if !PlainChar(n[k]) { Unfit(n, k); } else if !long { LettersChar(n, k, ni, b); }
  }

  /** One character that belongs into the field: converted, replaced or raised, and stored. */
  method PutChar(toOem: Word -> Word, ct: seq<byte>, fn: array<byte>, c: Word, i0: nat, ni: nat, b0: nat,
                 loss0: bool, long0: bool, ghost n: seq<Word>, ghost k: nat)
    returns (i: nat, b: nat, loss: bool, long: bool)
    requires |ct| == 128 && fn.Length == 12 && k < |n| && n[k] == c && c > 0x20 && i0 < ni && k + 1 != AfterDot(n)
             && c != DOT
    requires Making(Converted(toOem, ct), n, k, i0, ni, b0, fn[..11], loss0, long0)
    modifies fn
    ensures Making(Converted(toOem, ct), n, k + 1, i, ni, b, fn[..11], loss, long)
  {
    hide *;
    ghost var cv, f: seq<byte> := Converted(toOem, ct), fn[..11];
    MakingIs(cv, n, k, i0, ni, b0, f, loss0, long0);
    ConvertedIs(toOem, ct, c);
    MakingNext(cv, n, k, i0, ni, b0, f, loss0, long0);
    PlainIs(c);
    OrIs(b0, c);
    i, b, loss, long := i0, b0, loss0, long0;
    var wc := c;
    if wc >= 0x80 {
      long := true;
      wc := toOem(wc);
      if wc / 128 % 2 == 1 { wc := ct[wc % 128]; }
    }
    PlainIs(wc);
    if wc >= 0x100 && i >= ni - 1 {
      loss, long := true, true;
      i := ni;
    } else {
      if wc >= 0x100 {
        fn[i] := wc / 256;
        i := i + 1;
      } else if wc == 0 || Replaced(wc) {
        wc := 0x5F;
        loss, long := true, true;
      } else {
        if IsUpperCase(wc) { b := Or2(b); }
        if IsLowerCase(wc) {
          b := Or1(b);
          wc := wc - 0x20;
        }
      }
      fn[i] := wc % 256;
      i := i + 1;
      StoredAtIs(f, i0, cv(c).bytes);
      assert |cv(c).bytes| == 1 ==> fn[..11] == f[i0 := cv(c).bytes[0]];
      assert |cv(c).bytes| == 2 ==> fn[..11] == f[i0 := cv(c).bytes[0]][i0 + 1 := cv(c).bytes[1]];
    }
    MakingIs(cv, n, k + 1, i, ni, b, fn[..11], loss, long);
  }

  /** A space, an embedded dot, or the end of a field: what the loop does before it stores. */
  lemma NotStored(cv: Word -> Piece, n: seq<Word>, k: nat, i: nat, ni: nat, b: nat, f: seq<byte>, loss: bool,
                  long: bool)
    requires Making(cv, n, k, i, ni, b, f, loss, long) && IsConversion(cv) && k < |n|
    ensures n[k] == SPACE || (n[k] == DOT && k + 1 != AfterDot(n)) ==> Making(cv, n, k + 1, i, ni, b, f, true, true)
    ensures !(n[k] == SPACE || n[k] == DOT) && i == ni == 11 && n[k] > 0x20 ==>
            Making(cv, n, |n|, i, ni, b, f, true, true)
    ensures !(n[k] == SPACE || n[k] == DOT) && i == ni == 8 && n[k] > 0x20 && k + 1 > AfterDot(n) ==>
            Making(cv, n, |n|, i, ni, b, f, true, true)
    ensures !(n[k] == SPACE || n[k] == DOT) && i == ni == 8 && n[k] > 0x20 && k + 1 < AfterDot(n) ==>
            Making(cv, n, AfterDot(n), 8, 11, b * 4, f, true, true)
    ensures k + 1 == AfterDot(n) ==>
            ni == 8 && n[k] == DOT && Making(cv, n, k + 1, 8, 11, b * 4, f, loss, long)
    ensures AfterDot(n) <= |n|
  {
    hide *;
    MakingIs(cv, n, k, i, ni, b, f, loss, long);
    DotPlaces(n);
    PlainIs(n[k]);
    FillingPlace(cv, n, k, i, ni, f);
    if k + 1 == AfterDot(n) {
      FillingSkip(cv, n, k, i, f);
      if !loss { WholeDot(cv, n, k); }
      if !long { LettersDot(n, k, b); }
      MakingIs(cv, n, k + 1, 8, 11, b * 4, f, loss, long);
    } else {
      CharIs(cv, n[k]);
      MakingNext(cv, n, k, i, ni, b, f, loss, long);
      if n[k] == SPACE || n[k] == DOT {
        StoredAtIs(f, i, []);
        MakingIs(cv, n, k + 1, i, ni, b, f, true, true);
      } else if i == ni && n[k] > 0x20 {
        if ni == 8 && k + 1 < AfterDot(n) {
          FillingSkip(cv, n, k, i, f);
          MakingIs(cv, n, AfterDot(n), 8, 11, b * 4, f, true, true);
        } else {
          FillingStop(cv, n, k, ni, f);
          MakingIs(cv, n, |n|, i, ni, b, f, true, true);
        }
      }
    }
  }

  lemma FillingPlace(cv: Word -> Piece, n: seq<Word>, si: nat, i: nat, ni: nat, f: seq<byte>)
    requires Filling(cv, n, si, i, ni, f)
    ensures ni == 8 || ni == 11
    ensures ni == 8 ==> AfterDot(n) == 0 || si < AfterDot(n)
    ensures ni == 11 ==> 0 < AfterDot(n) <= si
  {
  }

  /** The loop over the characters, from number si0 on. */
  method MakeField(toOem: Word -> Word, ct: seq<byte>, lfn: array<Word>, fn: array<byte>, si0: nat, di: nat,
                   loss0: bool, long0: bool, ghost n: seq<Word>)
    returns (b: nat, ni: nat, loss: bool, long: bool, ghost i: nat)
    requires |ct| == 128 && fn.Length == 12 && lfn.Length == 256 && IsTrimmed(n) && Shows(lfn[..], n) && si0 <= |n|
             && di == AfterDot(n)
    requires Making(Converted(toOem, ct), n, si0, 0, 8, 0, fn[..11], loss0, long0)
    modifies fn
    ensures Making(Converted(toOem, ct), n, |n|, i, ni, b, fn[..11], loss, long)
  {
    hide *;
    ghost var cv := Converted(toOem, ct);
    ConvertedIs(toOem, ct, 0);
    var si: nat, at: nat := si0, 0;
    b, ni, loss, long := 0, 8, loss0, long0;
    var more := true;
    while more
      invariant Making(cv, n, if more then si else |n|, at, ni, b, fn[..11], loss, long)
      invariant fn.Length == 12 && si <= |n|
      decreases |n| - si, more
    {
      MakingIs(cv, n, si, at, ni, b, fn[..11], loss, long);
      BufferAt(lfn[..], n, si);
      var wc := lfn[si];
      if wc == 0 {
        more := false;
      } else {
        NotStored(cv, n, si, at, ni, b, fn[..11], loss, long);
        PlainIs(wc);
        ghost var k := si;
        si := si + 1;
        if wc == 0x20 || (wc == 0x2E && si != di) {
          loss, long := true, true;
        } else if at >= ni || si == di {
          if ni == 11 {
            loss, long, more := true, true, false;
          } else {
            if si != di { loss, long := true, true; }
            if si > di {
              more := false;
            } else {
              si, at, ni, b := di, 8, 11, b * 4;
            }
          }
        } else {
          at, b, loss, long := PutChar(toOem, ct, fn, wc, at, ni, b, loss, long, n, k);
        }
      }
    }
    i := at;
  }

  const NS_LOSS: nat := 1
  const NS_LFN: nat := 2
  const NS_LAST: nat := 4
  const NS_BODY: nat := 8
  const NS_EXT: nat := 16

  /** The flag byte of a short name. */
  function FlagByte(loss: bool, long: bool, last: bool, body: bool, ext: bool): (r: byte)
    ensures r as int % 2 == 1 <==> loss
    ensures r as int / 2 % 2 == 1 <==> long
    ensures r as int / 4 % 2 == 1 <==> last
    ensures r as int / 8 % 2 == 1 <==> body
    ensures r as int / 16 % 2 == 1 <==> ext
    ensures r < 32
  {
    (if loss then NS_LOSS else 0) + (if long then NS_LFN else 0) + (if last then NS_LAST else 0)
    + (if body then NS_BODY else 0) + (if ext then NS_EXT else 0)
  }

  /** The first byte, if it looks like the mark of a deleted entry, is replaced. */
  function Unmarked(f: seq<byte>): (r: seq<byte>)
    requires |f| == 11
    ensures |r| == 11 && r[0] != DDEM && r[1..] == f[1..]
    ensures f[0] != DDEM ==> r == f
  {
    if f[0] == DDEM then f[0 := RDDEM] else f
  }

  /** The short name of n as create_name leaves it: whether something was lost; whether a long name is
      needed; which of body and extension are in lower case, if none is needed; and the field. */
  ghost predicate ShortMade(cv: Word -> Piece, n: seq<Word>, last: bool, fn: seq<byte>) {
    && |fn| == 12
    && fn[11] == FlagByte(!FitsField(cv, n), !Short83(n), last, Short83(n) && CaseBits(Body(n)) == 1,
                          Short83(n) && CaseBits(Ext(n)) == 1)
    && fn[..11] == Unmarked(CodeField(cv, n))
  }

  /** What the loop's state says at its end. */
  lemma CasesOf(cv: Word -> Piece, n: seq<Word>, i: nat, ni: nat, b: nat, f: seq<byte>, loss: bool, long: bool)
    requires IsTrimmed(n) && IsConversion(cv) && Making(cv, n, |n|, i, ni, b, f, loss, long)
    ensures |f| == 11 && (loss <==> !FitsField(cv, n)) && f == CodeField(cv, n)
    ensures var b' := if ni == 8 then b * 4 else b;
      && (Short83(n) <==> !long && b' / 4 % 4 != 3 && b' % 4 != 3)
      && (Short83(n) ==> (b' % 2 == 1 <==> CaseBits(Ext(n)) == 1) && (b' / 4 % 2 == 1 <==> CaseBits(Body(n)) == 1))
  {
    hide *;
    MakingIs(cv, n, |n|, i, ni, b, f, loss, long);
    TrimmedLast(n);
    Short83Is(n);
    FillingDone(cv, n, i, ni, f);
    if !long {
      LettersDone(n, ni, b);
      PlainFits(cv, n);
      TwoBits(CaseBits(Body(n)), CaseBits(Ext(n)));
    }
  }

  lemma TrimmedLast(n: seq<Word>)
    requires IsTrimmed(n)
    ensures n != [] && n[|n| - 1] != DOT
  {
  }

  lemma Short83Is(n: seq<Word>)
    ensures Short83(n) <==> Fits83(n) && CaseBits(Body(n)) != 3 && CaseBits(Ext(n)) != 3
  {
  }

  lemma PlainFits(cv: Word -> Piece, n: seq<Word>)
    requires FitsField(cv, n) && PlainText(Body(n)) && PlainText(Ext(n)) && IsConversion(cv)
    ensures Fits83(n)
  {
    PlainIsAscii(Body(n));
    PlainIsAscii(Ext(n));
    TakenPlain(cv, Body(n), 8);
    TakenPlain(cv, Ext(n), 3);
    hide PlainText, Taken, IsConversion;
  }

  lemma TwoBits(x: nat, y: nat)
    requires x <= 3 && y <= 3
    ensures var b := x * 4 + y;
      && b / 4 % 4 == x && b % 4 == y
      && (x != 3 ==> (b / 4 % 2 == 1 <==> x == 1)) && (y != 3 ==> (b % 2 == 1 <==> y == 1))
  {
  }

  lemma FieldFirst(body: seq<Word>, ext: seq<Word>)
    requires 0 < |body| <= 8 && |ext| <= 3 && PlainText(body)
    ensures Field(body, ext)[0] < 0x80
  {
    assert PlainChar(body[0]);
  }

  lemma MakingStart(cv: Word -> Piece, n: seq<Word>, f: seq<byte>, si: nat)
    requires IsTrimmed(n) && IsConversion(cv) && si < |n| && f == Spaces(11) && n[si] != SPACE
    requires forall k :: 0 <= k < si ==> n[k] == SPACE
    ensures Making(cv, n, si, 0, 8, 0, f, si > 0 || n[si] == DOT, si > 0 || n[si] == DOT)
  {
    hide *;
    TrimmedLast(n);
    if si > 0 || n[0] == DOT { LeadingUnfit(cv, n); } else { LettersStart(cv, n); }
    FillingStart(cv, n, si);
    MakingIs(cv, n, si, 0, 8, 0, f, si > 0 || n[si] == DOT, si > 0 || n[si] == DOT);
  }

  lemma LettersStart(cv: Word -> Piece, n: seq<Word>)
    requires n != [] && n[0] != DOT
    ensures Whole(cv, n, 0, 8) && Letters(n, 0, 8, 0)
  {
    TakenStep(cv, [], 8, 0);
    hide Taken;
  }

  lemma FillingStart(cv: Word -> Piece, n: seq<Word>, si: nat)
    requires IsConversion(cv) && si <= |n| && forall k :: 0 <= k < si ==> n[k] == SPACE
    ensures Filling(cv, n, si, 0, 8, Spaces(11))
  {
    TakenSpaces(cv, n[..si], 8);
    NoDots(n, si);
    assert Padded11([], []) == Spaces(11);
    hide AfterDot, Taken, IsConversion, Padded11;
  }

  lemma NoDots(n: seq<Word>, si: nat)
    requires si <= |n| && forall k :: 0 <= k < si ==> n[k] == SPACE
    ensures AfterDot(n) > 0 ==> si < AfterDot(n)
  {
  }

  lemma AllSpaces(n: seq<Word>, si: nat)
    requires IsTrimmed(n) && si <= |n| && forall k :: 0 <= k < si ==> n[k] == SPACE
    ensures si < |n|
  {
  }

  lemma LastDot(n: seq<Word>, d: nat)
    requires d <= |n| && (forall k :: d <= k < |n| ==> n[k] != DOT) && (d > 0 ==> n[d - 1] == DOT)
    ensures d == AfterDot(n)
  {
  }

  /** The second half of create_name: the 8.3 field of the name in the buffer, and the flags. */
  method MakeShort(toOem: Word -> Word, ct: seq<byte>, lfn: array<Word>, len: nat, last: bool, fn: array<byte>,
                   ghost n: seq<Word>)
    requires |ct| == 128 && fn.Length == 12 && lfn.Length == 256 && IsTrimmed(n) && Shows(lfn[..], n) && len == |n|
    modifies fn
    ensures ShortMade(Converted(toOem, ct), n, last, fn[..])
  {
    hide *;
    BufferAt(lfn[..], n, 0);
    PlainIs(0x20);
    var si: nat := 0;
    while lfn[si] == 0x20
      invariant si <= |n| && forall k :: 0 <= k < si ==> n[k] == SPACE
      invariant si < lfn.Length && (si < |n| ==> lfn[si] == n[si]) && (si == |n| ==> lfn[si] == 0)
      decreases |n| - si
    {
      BufferAt(lfn[..], n, si + 1);
      si := si + 1;
    }
    AllSpaces(n, si);
    var loss, long := false, false;
    if si > 0 || lfn[si] == 0x2E { loss, long := true, true; }
    var di: nat := len;
    DotPlaces(n);
    BufferBefore(lfn[..], n);
    while di > 0 && lfn[di - 1] != 0x2E
      invariant di <= |n| && forall k :: di <= k < |n| ==> n[k] != DOT
    {
      di := di - 1;
    }
    LastDot(n, di);
    ghost var buffer := lfn[..];
    forall k | 0 <= k < 11 { fn[k] := SPACE; }
    assert lfn[..] == buffer;
    assert fn[..11] == Spaces(11) by { SpacesAre(fn[..11]); }
    ConvertedIs(toOem, ct, 0);
    MakingStart(Converted(toOem, ct), n, fn[..11], si);
    var b, ni;
    ghost var i;
    b, ni, loss, long, i := MakeField(toOem, ct, lfn, fn, si, di, loss, long, n);
    Finish(fn, b, ni, loss, long, last, Converted(toOem, ct), n, i);
  }

  lemma SpacesAre(f: seq<byte>)
    requires |f| == 11 && forall k :: 0 <= k < 11 ==> f[k] == SPACE
    ensures f == Spaces(11)
  {
  }

  lemma BufferBefore(lfn: seq<Word>, n: seq<Word>)
    requires IsTrimmed(n) && Shows(lfn, n)
    ensures |n| < |lfn| && forall k :: 0 <= k < |n| ==> lfn[k] == n[k]
  {
  }

  /** The flags, and the first byte if it looks like the mark of a deleted entry. */
  method Finish(fn: array<byte>, b0: nat, ni: nat, loss: bool, long0: bool, last: bool, ghost cv: Word -> Piece,
                ghost n: seq<Word>, ghost i: nat)
    requires fn.Length == 12 && IsTrimmed(n) && IsConversion(cv)
    requires Making(cv, n, |n|, i, ni, b0, fn[..11], loss, long0)
    modifies fn
    ensures ShortMade(cv, n, last, fn[..])
  {
    hide *;
    CasesOf(cv, n, i, ni, b0, fn[..11], loss, long0);
    ghost var f := fn[..11];
    UnmarkedIs(f);
    if fn[0] == DDEM { fn[0] := RDDEM; }
    var b := if ni == 8 then b0 * 4 else b0;
    var long := long0;
    if b / 4 % 4 == 3 || b % 4 == 3 { long := true; }
    var body, ext := false, false;
    if !long {
      ext := b % 2 == 1;
      body := b / 4 % 2 == 1;
    }
    fn[11] := FlagByte(loss, long, last, body, ext);
    assert fn[..][..11] == Unmarked(f);
    ShortMadeIs(cv, n, last, fn[..]);
  }

  lemma UnmarkedIs(f: seq<byte>)
    requires |f| == 11
    ensures Unmarked(f) == if f[0] == DDEM then f[0 := RDDEM] else f
  {
  }

  lemma ShortMadeIs(cv: Word -> Piece, n: seq<Word>, last: bool, fn: seq<byte>)
    ensures ShortMade(cv, n, last, fn) <==>
      && |fn| == 12
      && fn[11] == FlagByte(!FitsField(cv, n), !Short83(n), last, Short83(n) && CaseBits(Body(n)) == 1,
                            Short83(n) && CaseBits(Ext(n)) == 1)
      && fn[..11] == Unmarked(CodeField(cv, n))
  {
  }

  // ----- get_fileinfo for an entry without a long name -----

  /** The first k bytes of the field as text: no padding, a dot before the extension. */
  function AltUpTo(f: seq<byte>, k: nat): (t: seq<byte>)
    requires |f| == 11 && k <= 11
    ensures |t| <= k + 1
    ensures k <= 8 ==> |t| <= k
  {
    if k == 0 then []
    else if f[k - 1] == SPACE then AltUpTo(f, k - 1)
    else AltUpTo(f, k - 1) + (if k == 9 then [DOT] else []) + [if f[k - 1] == RDDEM then DDEM else f[k - 1]]
  }

  /** The text in the case of the flags: body up to the first dot, extension from it on. */
  function Cased(t: seq<byte>, low: bool, ext: bool): (r: seq<byte>)
    ensures |r| <= |t|
  {
    if t == [] || t[0] == 0 then []
    else
      var flag := if t[0] == DOT then ext else low;
      [if IsUpperCase(t[0]) && flag then t[0] + 0x20 else t[0]] + Cased(t[1..], flag, ext)
  }

  /** What get_fileinfo prints for the field f and the case flags nt. */
  function Printed(f: seq<byte>, nt: byte): seq<byte>
    requires |f| == 11
  {
    var alt := AltUpTo(f, 11);
    if alt == [] then [0x3F] else Cased(alt, nt as int / NS_BODY % 2 == 1, nt as int / NS_EXT % 2 == 1)
  }

  method PrintShort(e: seq<byte>) returns (fname: seq<byte>)
    requires |e| == 32
    ensures fname == Printed(e[..11], e[12])
  {
    var alt: seq<byte>, si := [], 0;
    ghost var f := e[..11];
    while si < 11
      invariant 0 <= si <= 11 && alt == AltUpTo(f, si)
    {
      var wc := e[si];
      si := si + 1;
      if wc != SPACE {
        if wc == RDDEM { wc := DDEM; }
        if si == 9 && |alt| < 12 { alt := alt + [DOT]; }
        alt := alt + [wc];
      }
    }
    if |alt| == 0 {
      fname := [0x3F];
    } else {
      fname := CopyCased(alt, e[12]);
    }
  }

  method CopyCased(alt: seq<byte>, nt: byte) returns (fname: seq<byte>)
    ensures fname == Cased(alt, nt as int / NS_BODY % 2 == 1, nt as int / NS_EXT % 2 == 1)
  {
    hide *;
    NtBitIs(nt);
    var body, ext := NtBit(nt, NS_BODY), NtBit(nt, NS_EXT);
    fname := [];
    var lcf, si := body, 0;
    assert alt[0..] == alt;
    while si < |alt| && alt[si] != 0
      invariant 0 <= si <= |alt|
      invariant fname + Cased(alt[si..], lcf, ext) == Cased(alt, body, ext)
    {
      var wc := alt[si];
      CasedStep(alt, si, lcf, ext);
      if wc == DOT { lcf := ext; }
      if IsUpperCase(wc) && lcf { wc := Lowered(wc); }
      assert alt[si..][1..] == alt[si + 1..] && alt[si..][0] == alt[si];
      fname := fname + [wc];
      si := si + 1;
    }
    CasedStep(alt, si, lcf, ext);
  }

  predicate NtBit(nt: byte, bit: nat)
    requires bit > 0
  {
    nt as int / bit % 2 == 1
  }

  lemma NtBitIs(nt: byte)
    ensures NS_BODY > 0 && NS_EXT > 0
    ensures NtBit(nt, NS_BODY) == (nt as int / NS_BODY % 2 == 1) && NtBit(nt, NS_EXT) == (nt as int / NS_EXT % 2 == 1)
  {
  }

  lemma CasedStep(t: seq<byte>, k: nat, low: bool, ext: bool)
    requires k <= |t|
    ensures k == |t| || t[k] == 0 ==> Cased(t[k..], low, ext) == []
    ensures k < |t| && t[k] != 0 ==>
      var flag := if t[k] == DOT then ext else low;
      Cased(t[k..], low, ext) ==
        [if IsUpperCase(t[k]) && flag then Lowered(t[k]) else t[k]] + Cased(t[k + 1..], flag, ext)
  {
    if k < |t| { assert t[k..][1..] == t[k + 1..]; }
  }

  function Lowered(c: byte): (r: byte)
    requires IsUpperCase(c)
    ensures r == c + 0x20
  {
    c + 0x20
  }

  // ----- round trip -----

  lemma {:induction false} AltOfRaised(f: seq<byte>, s: seq<Word>, k: nat)
    requires |f| == 11 && k <= |s| <= 8 && PlainText(s) && forall j :: 0 <= j < |s| ==> f[j] == Raise(s[j])
    ensures AltUpTo(f, k) == RaiseAll(s[..k])
  {
    if k > 0 {
      AltOfRaised(f, s, k - 1);
      assert PlainChar(s[k - 1]);
      assert RaiseAll(s[..k]) == RaiseAll(s[..k - 1]) + [Raise(s[k - 1])];
    }
  }

  lemma {:induction false} AltOfSpaces(f: seq<byte>, k: nat, j: nat)
    requires |f| == 11 && k <= j <= 11 && forall x :: k <= x < j ==> f[x] == SPACE
    ensures AltUpTo(f, j) == AltUpTo(f, k)
  {
    if k < j { AltOfSpaces(f, k, j - 1); }
  }

  lemma {:induction false} AltOfExt(f: seq<byte>, s: seq<Word>, k: nat)
    requires |f| == 11 && 0 < k <= |s| <= 3 && PlainText(s) && forall j :: 0 <= j < |s| ==> f[8 + j] == Raise(s[j])
    ensures AltUpTo(f, 8 + k) == AltUpTo(f, 8) + [DOT] + RaiseAll(s[..k])
  {
    assert PlainChar(s[k - 1]);
    assert RaiseAll(s[..k]) == RaiseAll(s[..k - 1]) + [Raise(s[k - 1])];
    if k > 1 {
      AltOfExt(f, s, k - 1);
    }
  }

  /** The text of the field: body, and a dot and the extension if there is one. */
  lemma AltOfField(body: seq<Word>, ext: seq<Word>)
    requires 0 < |body| <= 8 && |ext| <= 3 && PlainText(body) && PlainText(ext)
    ensures AltUpTo(Field(body, ext), 11) == RaiseAll(body) + (if ext == [] then [] else [DOT] + RaiseAll(ext))
  {
    hide *;
    var f := Field(body, ext);
    FieldParts(body, ext);
    AltOfRaised(f, body, |body|);
    WholeSlice(body);
    WholeSlice(ext);
    AltOfSpaces(f, |body|, 8);
    if ext == [] {
      AltOfSpaces(f, 8, 11);
    } else {
      AltOfExt(f, ext, |ext|);
      AltOfSpaces(f, 8 + |ext|, 11);
    }
  }

  lemma FieldParts(body: seq<Word>, ext: seq<Word>)
    requires |body| <= 8 && |ext| <= 3
    ensures var f := Field(body, ext);
      && |f| == 11
      && (forall j :: 0 <= j < |body| ==> f[j] == Raise(body[j]))
      && (forall x :: |body| <= x < 8 ==> f[x] == SPACE)
      && (forall j :: 0 <= j < |ext| ==> f[8 + j] == Raise(ext[j]))
      && (forall x :: 8 + |ext| <= x < 11 ==> f[x] == SPACE)
  {
  }

  /** The case flag of a part without mixed cases brings the letters back. */
  predicate Restores(s: seq<Word>, flag: bool) {
    forall k :: 0 <= k < |s| ==>
      && Raise(s[k]) != 0 && Raise(s[k]) != DOT
      && (if IsUpperCase(Raise(s[k])) && flag then Raise(s[k]) + 0x20 else Raise(s[k])) == s[k]
  }

  lemma {:induction false} CaseBitsSee(s: seq<Word>, k: nat)
    requires k < |s|
    ensures IsLowerCase(s[k]) ==> CaseBits(s) % 2 == 1
    ensures IsUpperCase(s[k]) ==> CaseBits(s) / 2 == 1
  {
    if k < |s| - 1 { CaseBitsSee(s[..|s| - 1], k); }
  }

  lemma OneCase(s: seq<Word>)
    requires PlainText(s) && CaseBits(s) != 3
    ensures Restores(s, CaseBits(s) == 1)
  {
    hide CaseBits;
    forall k | 0 <= k < |s|
      ensures PlainChar(s[k]) && (IsLowerCase(s[k]) ==> CaseBits(s) == 1) && (IsUpperCase(s[k]) ==> CaseBits(s) != 1)
    {
      CaseBitsSee(s, k);
    }
  }

  lemma {:induction false} CasedOf(s: seq<Word>, flag: bool, ext: bool, rest: seq<byte>)
    requires Restores(s, flag)
    ensures Cased(RaiseAll(s) + rest, flag, ext) == s + Cased(rest, flag, ext)
  {
    var t := RaiseAll(s) + rest;
    if s == [] {
      assert t == rest;
    } else {
      assert t[1..] == RaiseAll(s[1..]) + rest;
      CasedOf(s[1..], flag, ext, rest);
      assert s == [s[0]] + s[1..];
    }
  }

  lemma NameParts(n: seq<Word>)
    requires 0 < |n| && n[|n| - 1] != DOT
    ensures n == Body(n) + (if Ext(n) == [] then [] else [DOT] + Ext(n))
  {
    var d := AfterDot(n);
    if d > 0 { assert n == n[..d - 1] + [n[d - 1]] + n[d..]; }
  }

  /** A name for which create_name asks for no long name is what get_fileinfo prints from the
      11-byte field and the two case flags. */
  lemma ShortNameRoundTrip(n: seq<Word>, nt: byte)
    requires IsTrimmed(n) && Short83(n)
    requires nt as int / NS_BODY % 2 == 1 <==> CaseBits(Body(n)) == 1
    requires nt as int / NS_EXT % 2 == 1 <==> CaseBits(Ext(n)) == 1
    ensures Printed(Field(Body(n), Ext(n)), nt) == n
  {
    var body, ext, low, elow := Body(n), Ext(n), CaseBits(Body(n)) == 1, CaseBits(Ext(n)) == 1;
    hide CaseBits, Cased, AltUpTo, Restores, PlainText, Body, Ext, Field;
    NameParts(n);
    AltOfField(body, ext);
    OneCase(body);
    OneCase(ext);
    if ext == [] {
      CasedOf(body, low, elow, []);
      assert RaiseAll(body) + [] == RaiseAll(body);
      CasedNothing(low, elow);
    } else {
      CasedOf(body, low, elow, [DOT] + RaiseAll(ext));
      CasedDot(RaiseAll(ext), low, elow);
      CasedOf(ext, elow, elow, []);
      assert RaiseAll(ext) + [] == RaiseAll(ext);
      CasedNothing(elow, elow);
    }
  }

  lemma CasedNothing(low: bool, ext: bool)
    ensures Cased([], low, ext) == []
  {
  }

  lemma CasedDot(t: seq<byte>, low: bool, ext: bool)
    ensures Cased([DOT] + t, low, ext) == [DOT] + Cased(t, ext, ext)
  {
    assert ([DOT] + t)[1..] == t;
  }

  /** The field of a name of the 8.3 form. */
  lemma FieldMade(cv: Word -> Piece, n: seq<Word>, last: bool, fn: seq<byte>)
    requires IsConversion(cv) && ShortMade(cv, n, last, fn) && Fits83(n)
    ensures fn[..11] == Field(Body(n), Ext(n))
  {
    FitsBoth(cv, n);
    FieldFirst(Body(n), Ext(n));
    hide Field, CodeField, FitsField;
  }

  /** From the flag byte dir_register stores, through the directory entry. */
  lemma CreatedShortPrints(cv: Word -> Piece, n: seq<Word>, last: bool, fn: seq<byte>, nt: byte)
    requires IsTrimmed(n) && IsConversion(cv) && ShortMade(cv, n, last, fn) && nt == fn[11] as int / 8 % 4 * 8
    requires fn[11] as int / NS_LFN % 2 == 0
    ensures Printed(fn[..11], nt) == n
  {
    ShortMadeIs(cv, n, last, fn);
    hide Printed, Field, CaseBits, Body, Ext, FlagByte, Fits83, FitsField, ShortMade;
    NtBits(fn[11]);
    FieldMade(cv, n, last, fn);
    ShortNameRoundTrip(n, nt);
  }

  lemma NtBits(flags: byte)
    ensures var nt := flags as int / 8 % 4 * 8;
            nt / NS_BODY % 2 == flags as int / 8 % 2 && nt / NS_EXT % 2 == flags as int / 16 % 2
    ensures NS_LFN == 2
  {
    var q := flags as int / 8;
    assert (q % 4 * 8) / 8 == q % 4;
  }

  // ----- what the short name says of a name in ASCII -----

  /** Equal but for the case of letters. */
  ghost predicate SameButCase(s: seq<int>, t: seq<int>) {
    |s| == |t| && forall k :: 0 <= k < |s| ==> Pattern.SameLetter(s[k], t[k])
  }

  /** NS_LOSS is set exactly for the names that are not of the 8.3 form. */
  lemma LossExactly(cv: Word -> Piece, n: seq<Word>, last: bool, fn: seq<byte>)
    requires IsConversion(cv) && ShortMade(cv, n, last, fn) && Ascii(n)
    ensures fn[11] as int % 2 == 1 <==> !Fits83(n)
  {
    FitsBoth(cv, n);
    hide Fits83, FitsField, CodeField, Short83, CaseBits;
  }

  lemma {:induction false} CasedSame(t: seq<byte>, low: bool, ext: bool)
    requires forall k :: 0 <= k < |t| ==> t[k] != 0
    ensures SameButCase(Cased(t, low, ext), t)
    decreases |t|
  {
    if t != [] {
      var flag := if t[0] == DOT then ext else low;
      CasedSame(t[1..], flag, ext);
      assert t == [t[0]] + t[1..];
    }
  }

  lemma RaisedSame(s: seq<Word>)
    requires PlainText(s)
    ensures SameButCase(RaiseAll(s), s) && forall k :: 0 <= k < |s| ==> RaiseAll(s)[k] != 0
  {
    forall k | 0 <= k < |s|
      ensures Raise(s[k]) != 0 && Pattern.SameLetter(Raise(s[k]), s[k])
    {
      assert PlainChar(s[k]);
    }
  }

  lemma SameTrans(s: seq<int>, t: seq<int>, u: seq<int>)
    requires SameButCase(s, t) && SameButCase(t, u)
    ensures SameButCase(s, u)
  {
  }

  lemma SameBack(s: seq<int>, t: seq<int>)
    requires SameButCase(s, t)
    ensures SameButCase(t, s)
  {
  }

  lemma SameJoined(s: seq<int>, t: seq<int>, u: seq<int>, v: seq<int>)
    requires SameButCase(s, t) && SameButCase(u, v)
    ensures SameButCase(s + u, t + v)
  {
    hide Pattern.SameLetter;
  }

  /** Body, dot and extension in upper case: the name, but for case. */
  lemma PartsSame(n: seq<Word>)
    requires IsTrimmed(n) && Fits83(n)
    ensures var t := RaiseAll(Body(n)) + (if Ext(n) == [] then [] else [DOT] + RaiseAll(Ext(n)));
            t != [] && SameButCase(t, n) && forall k :: 0 <= k < |t| ==> t[k] != 0
  {
    TrimmedLast(n);
    NameParts(n);
    RaisedSame(Body(n));
    RaisedSame(Ext(n));
    hide Body, Ext, RaiseAll, PlainText;
    if Ext(n) == [] {
      SameJoined(RaiseAll(Body(n)), Body(n), [], []);
    } else {
      SameJoined([DOT], [DOT], RaiseAll(Ext(n)), Ext(n));
      SameJoined(RaiseAll(Body(n)), Body(n), [DOT] + RaiseAll(Ext(n)), [DOT] + Ext(n));
    }
  }

  /** If NS_LOSS is clear, the field is printed as the name but for case, whatever the case flags. */
  lemma FieldPrintsName(cv: Word -> Piece, n: seq<Word>, last: bool, fn: seq<byte>, nt: byte)
    requires IsTrimmed(n) && IsConversion(cv) && ShortMade(cv, n, last, fn) && Ascii(n)
    requires fn[11] as int % 2 == 0
    ensures SameButCase(Printed(fn[..11], nt), n)
  {
    LossExactly(cv, n, last, fn);
    FieldMade(cv, n, last, fn);
    hide *;
    FitsIs(n);
    AltOfField(Body(n), Ext(n));
    PartsSame(n);
    var alt := AltUpTo(fn[..11], 11);
    PrintedIs(fn[..11], nt);
    CasedSame(alt, nt as int / NS_BODY % 2 == 1, nt as int / NS_EXT % 2 == 1);
    SameTrans(Printed(fn[..11], nt), alt, n);
  }

  lemma FitsIs(n: seq<Word>)
    ensures Fits83(n) ==> 0 < |Body(n)| <= 8 && |Ext(n)| <= 3 && PlainText(Body(n)) && PlainText(Ext(n))
  {
  }

  lemma PrintedIs(f: seq<byte>, nt: byte)
    requires |f| == 11
    ensures NS_BODY > 0 && NS_EXT > 0
    ensures var alt := AltUpTo(f, 11);
            alt != [] ==> Printed(f, nt) == Cased(alt, nt as int / NS_BODY % 2 == 1, nt as int / NS_EXT % 2 == 1)
  {
  }

  /** So dir_find does right to take two names for one by their fields when NS_LOSS is clear in both:
      the fields are equal if and only if the names are equal but for case. */
  lemma OneFieldOneName(cv: Word -> Piece, a: seq<Word>, b: seq<Word>, fa: seq<byte>, fb: seq<byte>, la: bool,
                        lb: bool)
    requires IsConversion(cv) && IsTrimmed(a) && IsTrimmed(b) && Ascii(a) && Ascii(b)
    requires ShortMade(cv, a, la, fa) && ShortMade(cv, b, lb, fb) && fa[11] as int % 2 == 0 && fb[11] as int % 2 == 0
    ensures fa[..11] == fb[..11] <==> SameButCase(a, b)
  {
    FieldPrintsName(cv, a, la, fa, 0);
    FieldPrintsName(cv, b, lb, fb, 0);
    LossExactly(cv, a, la, fa);
    LossExactly(cv, b, lb, fb);
    FieldMade(cv, a, la, fa);
    FieldMade(cv, b, lb, fb);
    hide *;
    if fa[..11] == fb[..11] {
      SameBack(Printed(fa[..11], 0), a);
      SameTrans(a, Printed(fa[..11], 0), b);
    }
    if SameButCase(a, b) { SameField(a, b); }
  }

  /** Names equal but for case have one field. */
  lemma SameField(a: seq<Word>, b: seq<Word>)
    requires SameButCase(a, b) && Fits83(a) && Fits83(b)
    ensures |Body(a)| <= 8 && |Ext(a)| <= 3 && |Body(b)| <= 8 && |Ext(b)| <= 3
    ensures Field(Body(a), Ext(a)) == Field(Body(b), Ext(b))
  {
    SameDots(a, b);
    SameRaised(Body(a), Body(b));
    SameRaised(Ext(a), Ext(b));
  }

  lemma {:induction false} SameDots(a: seq<Word>, b: seq<Word>)
    requires SameButCase(a, b)
    ensures AfterDot(a) == AfterDot(b)
    decreases |a|
  {
    if a != [] {
      assert Pattern.SameLetter(a[|a| - 1], b[|a| - 1]);
      SameDots(a[..|a| - 1], b[..|b| - 1]);
    }
  }

  lemma SameRaised(s: seq<Word>, t: seq<Word>)
    requires SameButCase(s, t)
    ensures RaiseAll(s) == RaiseAll(t)
  {
    forall k | 0 <= k < |s|
      ensures Raise(s[k]) == Raise(t[k])
    {
      assert Pattern.SameLetter(s[k], t[k]);
    }
  }

  /** A byte a short name in ASCII may hold. */
  predicate Legal(x: byte) {
    x == SPACE || (PlainChar(x) && !IsLowerCase(x))
  }

  ghost predicate AllLegal(f: seq<byte>) {
    forall k :: 0 <= k < |f| ==> Legal(f[k])
  }

  lemma {:induction false} TakenLegal(cv: Word -> Piece, s: seq<Word>, w: nat)
    requires IsConversion(cv) && Ascii(s)
    ensures AllLegal(Taken(cv, s, w).bytes)
  {
    if s != [] {
      var t, c := s[..|s| - 1], s[|s| - 1];
      TakenLegal(cv, t, w);
      CharIs(cv, c);
      RaisedLegal(c);
      hide IsConversion, Legal, PlainChar, Raise;
    }
  }

  lemma RaisedLegal(c: Word)
    ensures PlainChar(c) ==> Legal(Raise(c))
    ensures Legal(0x5F) && Legal(SPACE)
  {
  }

  /** Whatever the name in ASCII, the field made of it holds only such bytes: what may not be in a
      short name has been replaced or left out. */
  lemma FieldIsLegal(cv: Word -> Piece, n: seq<Word>, last: bool, fn: seq<byte>)
    requires IsConversion(cv) && ShortMade(cv, n, last, fn) && Ascii(n)
    ensures AllLegal(fn[..11])
  {
    PartsAscii(n);
    TakenLegal(cv, Body(n), 8);
    TakenLegal(cv, Ext(n), 3);
    RaisedLegal(0);
    var f := CodeField(cv, n);
    hide Taken, Body, Ext, Legal, Ascii, IsConversion;
    assert AllLegal(f);
    LegalFirst(f[0]);
  }

  lemma LegalFirst(x: byte)
    requires Legal(x)
    ensures x != DDEM
  {
  }

  /** The characters as ff.c lists them. */
  lemma CharacterLists(c: Word)
    requires c < 0x80
    ensures Replaced(c) <==> c as char in "+,;=[]"
    ensures Illegal(c) <==> c as char in "*:<>|\"?\U{7F}"
    ensures IsSeparator(c) <==> c as char in "/\\"
    ensures IsUpperCase(c) <==> 'A' <= c as char <= 'Z'
    ensures IsLowerCase(c) <==> 'a' <= c as char <= 'z'
    ensures c == DOT <==> c as char == '.'
    ensures c == SPACE <==> c as char == ' '
    ensures EndsSegment(c) <==> c as char < ' ' || c as char in "/\\"
    ensures DDEM == 0xE5 && RDDEM == 0x05
  {
  }

  // ----- the first half of create_name -----

  /** The unit a byte of the path stands for; 0 ends the path. */
  function NameUnit(toUni: byte -> Word, c: byte): Word {
    if c == 0 then 0 else toUni(c)
  }

  /** The byte has no meaning in the code page. */
  predicate NoCode(toUni: byte -> Word, c: byte) {
    c != 0 && toUni(c) == 0
  }

  predicate IsSeparator(c: int) {
    c == 0x2F || c == 0x5C
  }

  predicate EndsSegment(w: Word) {
    w < 0x20 || IsSeparator(w)
  }

  /** * : < > | " ? and DEL */
  predicate Illegal(w: Word) {
    w == 0x2A || w == 0x3A || w == 0x3C || w == 0x3E || w == 0x7C || w == 0x22 || w == 0x3F || w == 0x7F
  }

  predicate Takes(toUni: byte -> Word, c: byte) {
    !NoCode(toUni, c) && !EndsSegment(NameUnit(toUni, c)) && !Illegal(NameUnit(toUni, c))
  }

  /** m bytes of the path from p on go into the name. */
  ghost predicate AllTaken(toUni: byte -> Word, path: seq<byte>, p: nat, m: nat) {
    forall j :: p <= j < p + m ==> Takes(toUni, Pattern.CharAt(path, j))
  }

  function UnitsFrom(toUni: byte -> Word, path: seq<byte>, p: nat, m: nat): (s: seq<Word>)
    ensures |s| == m
    ensures forall j :: p <= j < p + m ==> s[j - p] == NameUnit(toUni, Pattern.CharAt(path, j))
  {
    if m == 0 then [] else UnitsFrom(toUni, path, p, m - 1) + [NameUnit(toUni, Pattern.CharAt(path, p + m - 1))]
  }

  /** Trailing spaces and dots removed. */
  function Trimmed(s: seq<Word>): (t: seq<Word>)
    ensures t <= s
    ensures t != [] ==> t[|t| - 1] != SPACE && t[|t| - 1] != DOT
  {
    if s == [] || (s[|s| - 1] != SPACE && s[|s| - 1] != DOT) then s else Trimmed(s[..|s| - 1])
  }

  /** Why a segment gives no name: a byte without a code, an illegal one, 256 characters and more,
      or nothing left after trimming. */
  ghost predicate BadSegment(toUni: byte -> Word, path: seq<byte>, p: nat, m: nat) {
    && AllTaken(toUni, path, p, m)
    && var c := Pattern.CharAt(path, p + m);
       || m > MAX_LFN
       || NoCode(toUni, c)
       || (EndsSegment(NameUnit(toUni, c)) && Trimmed(UnitsFrom(toUni, path, p, m)) == [])
       || (!EndsSegment(NameUnit(toUni, c)) && Illegal(NameUnit(toUni, c)))
  }

  /** A segment of m characters that ends where it should. */
  ghost predicate GoodSegment(toUni: byte -> Word, path: seq<byte>, p: nat, m: nat) {
    && AllTaken(toUni, path, p, m) && m <= MAX_LFN
    && !NoCode(toUni, Pattern.CharAt(path, p + m))
    && EndsSegment(NameUnit(toUni, Pattern.CharAt(path, p + m)))
  }

  lemma SegmentCases(toUni: byte -> Word, path: seq<byte>, p: nat, m: nat)
    requires AllTaken(toUni, path, p, m) && m <= 255
    ensures var c := Pattern.CharAt(path, p + m); var w := NameUnit(toUni, c);
      && (NoCode(toUni, c) <==> c != 0 && toUni(c) == 0)
      && (NoCode(toUni, c) ==> BadSegment(toUni, path, p, m))
      && (!NoCode(toUni, c) && EndsSegment(w) ==> GoodSegment(toUni, path, p, m))
      && (!EndsSegment(w) && Illegal(w) ==> BadSegment(toUni, path, p, m))
      && (!NoCode(toUni, c) && !EndsSegment(w) && !Illegal(w) ==>
            && AllTaken(toUni, path, p, m + 1)
            && (m == MAX_LFN ==> BadSegment(toUni, path, p, m + 1)))
    ensures UnitsFrom(toUni, path, p, m + 1) ==
            UnitsFrom(toUni, path, p, m) + [NameUnit(toUni, Pattern.CharAt(path, p + m))]
    ensures MAX_LFN == 255
  {
  }

  lemma SegmentStart(toUni: byte -> Word, path: seq<byte>, p: nat)
    ensures AllTaken(toUni, path, p, 0) && UnitsFrom(toUni, path, p, 0) == []
  {
  }

  /** Copy a segment into the buffer. */
  method ReadSegment(toUni: byte -> Word, path: seq<byte>, p: nat, lfn: array<Word>) returns (res: FResult, m: nat)
    requires lfn.Length == 256
    modifies lfn
    ensures res == FR_OK || res == FR_INVALID_NAME
    ensures res == FR_OK ==> GoodSegment(toUni, path, p, m) && m <= 255 && lfn[..m] == UnitsFrom(toUni, path, p, m)
    ensures res != FR_OK ==> BadSegment(toUni, path, p, m)
  {
    hide *;
    SegmentStart(toUni, path, p);
    res, m := FR_OK, 0;
    var more := true;
    while more
      invariant m <= 256
      invariant res == FR_OK ==> m <= 255 && AllTaken(toUni, path, p, m) && lfn[..m] == UnitsFrom(toUni, path, p, m)
      invariant more ==> res == FR_OK
      invariant !more && res == FR_OK ==> GoodSegment(toUni, path, p, m)
      invariant !more && res != FR_OK ==> res == FR_INVALID_NAME && BadSegment(toUni, path, p, m)
      decreases 256 - m, more
    {
      SegmentCases(toUni, path, p, m);
      var c := Pattern.CharAt(path, p + m);
      if NoCode(toUni, c) {
        res, more := FR_INVALID_NAME, false;
      } else {
        var wc := NameUnit(toUni, c);
        if EndsSegment(wc) {
          more := false;
        } else if Illegal(wc) {
          res, more := FR_INVALID_NAME, false;
        } else if m >= 255 {
          m := m + 1;
          res, more := FR_INVALID_NAME, false;
        } else {
          lfn[m] := wc;
          assert lfn[..m + 1] == lfn[..m] + [wc];
          m := m + 1;
        }
      }
    }
  }

  lemma TrimStep(lfn: seq<Word>, s: seq<Word>, m: nat, k: nat)
    requires k <= m <= |lfn| && s == lfn[..m] && Trimmed(lfn[..k]) == Trimmed(s)
    ensures k > 0 && (lfn[k - 1] == SPACE || lfn[k - 1] == DOT) ==> Trimmed(lfn[..k - 1]) == Trimmed(s)
    ensures k == 0 || !(lfn[k - 1] == SPACE || lfn[k - 1] == DOT) ==> Trimmed(s) == lfn[..k]
    ensures SPACE == 0x20 && DOT == 0x2E
  {
    if k > 0 { assert lfn[..k][..k - 1] == lfn[..k - 1]; }
  }

  /** Snip off trailing spaces and dots, and terminate the name. */
  method TrimName(lfn: array<Word>, m: nat, ghost s: seq<Word>) returns (di: nat)
    requires lfn.Length == 256 && m <= 255 && s == lfn[..m]
    modifies lfn
    ensures di == |Trimmed(s)| <= 255 && lfn[..di] == Trimmed(s) && lfn[di] == 0
  {
    hide *;
    di := m;
    TrimStep(lfn[..], s, m, di);
    while di > 0 && (lfn[di - 1] == 0x20 || lfn[di - 1] == 0x2E)
      invariant di <= m && lfn[..][..di] == lfn[..di] && Trimmed(lfn[..di]) == Trimmed(s) && s == lfn[..][..m]
    {
      TrimStep(lfn[..], s, m, di);
      di := di - 1;
      assert lfn[..][..di] == lfn[..di];
    }
    TrimStep(lfn[..], s, m, di);
    ghost var t := lfn[..di];
    lfn[di] := 0;
    assert lfn[..di] == t;
  }

  lemma TrimmedIsTrimmed(toUni: byte -> Word, path: seq<byte>, p: nat, m: nat)
    requires GoodSegment(toUni, path, p, m) && Trimmed(UnitsFrom(toUni, path, p, m)) != []
    ensures IsTrimmed(Trimmed(UnitsFrom(toUni, path, p, m)))
  {
    var s := UnitsFrom(toUni, path, p, m);
    var t := Trimmed(s);
    forall k | 0 <= k < |t|
      ensures t[k] >= 0x20
    {
      assert t[k] == s[p + k - p] == NameUnit(toUni, Pattern.CharAt(path, p + k));
      assert Takes(toUni, Pattern.CharAt(path, p + k));
    }
  }

  lemma ShowsTrimmed(lfn: seq<Word>, n: seq<Word>)
    requires |lfn| == 256 && |n| <= 255 && lfn[..|n|] == n && lfn[|n|] == 0
    ensures Shows(lfn, n)
  {
  }

  lemma EmptySegment(toUni: byte -> Word, path: seq<byte>, p: nat, m: nat)
    requires GoodSegment(toUni, path, p, m) && Trimmed(UnitsFrom(toUni, path, p, m)) == []
    ensures BadSegment(toUni, path, p, m)
  {
  }

  /** Nothing but separators from a up to b. */
  predicate OnlySeparators(path: seq<byte>, a: nat, b: nat) {
    a <= b && forall k :: a <= k < b ==> IsSeparator(Pattern.CharAt(path, k) as int)
  }

  /** Where the path goes on after a segment: behind the end, or behind all the separators. */
  predicate Onwards(toUni: byte -> Word, path: seq<byte>, stop: nat, next: nat) {
    if NameUnit(toUni, Pattern.CharAt(path, stop)) < 0x20 then next == stop + 1
    else OnlySeparators(path, stop + 1, next) && !IsSeparator(Pattern.CharAt(path, next) as int)
  }

  /** The segment is the last one: it ended the path, or only separators followed. */
  predicate IsLast(toUni: byte -> Word, path: seq<byte>, stop: nat, next: nat) {
    NameUnit(toUni, Pattern.CharAt(path, stop)) < 0x20 || Pattern.CharAt(path, next) < 0x20
  }

  /** Step over the separators after a segment. */
  method SkipSeparators(path: seq<byte>, a: nat) returns (b: nat)
    requires a <= |path|
    ensures OnlySeparators(path, a, b) && !IsSeparator(Pattern.CharAt(path, b) as int)
  {
    b := a;
    while IsSeparator(Pattern.CharAt(path, b) as int)
      invariant a <= b <= |path| && OnlySeparators(path, a, b)
      decreases |path| - b
    {
      b := b + 1;
    }
  }

  /** create_name: the long name in the buffer is the segment without its trailing spaces and dots,
      and the short name is made from it. FR_INVALID_NAME for a segment that gives no name. */
  method CreateName(toUni: byte -> Word, toOem: Word -> Word, ct: seq<byte>, path: seq<byte>, p: nat,
                    lfn: array<Word>, fn: array<byte>)
    returns (res: FResult, next: nat, ghost m: nat, ghost last: bool)
    requires |ct| == 128 && lfn.Length == 256 && fn.Length == 12 && p <= |path|
    modifies lfn, fn
    ensures res == FR_OK || res == FR_INVALID_NAME
    ensures res == FR_INVALID_NAME ==> BadSegment(toUni, path, p, m)
    ensures res == FR_OK ==> GoodSegment(toUni, path, p, m)
    ensures res == FR_OK ==>
      var n := Trimmed(UnitsFrom(toUni, path, p, m));
      IsTrimmed(n) && Shows(lfn[..], n) && ShortMade(Converted(toOem, ct), n, last, fn[..])
    ensures res == FR_OK ==>
            p + m < next && Onwards(toUni, path, p + m, next) && (last <==> IsLast(toUni, path, p + m, next))
  {
    hide *;
    next, last := p, true;
    var len;
    res, len := ReadSegment(toUni, path, p, lfn);
    m := len;
    if res == FR_OK {
      var isLast;
      isLast, next := EndSegment(toUni, path, p, len);
      last := isLast;
      ghost var s := UnitsFrom(toUni, path, p, m);
      var di := TrimName(lfn, len, s);
      if di == 0 {
        EmptyIs(Trimmed(s));
        EmptySegment(toUni, path, p, m);
        res := FR_INVALID_NAME;
      } else {
        EmptyIs(Trimmed(s));
        TrimmedIsTrimmed(toUni, path, p, m);
        ShowsTrimmed(lfn[..], Trimmed(s));
        MakeShort(toOem, ct, lfn, di, isLast, fn, Trimmed(s));
      }
    }
  }

  lemma EmptyIs(s: seq<Word>)
    ensures |s| == 0 <==> s == []
  {
  }

  /** Where the next segment starts, and whether there is one. */
  method EndSegment(toUni: byte -> Word, path: seq<byte>, p: nat, m: nat) returns (last: bool, next: nat)
    requires GoodSegment(toUni, path, p, m) && p <= |path|
    ensures p + m < next && Onwards(toUni, path, p + m, next) && (last <==> IsLast(toUni, path, p + m, next))
  {
    last, next := true, p + m + 1;
    if NameUnit(toUni, Pattern.CharAt(path, p + m)) >= 0x20 {
      next := SkipSeparators(path, p + m + 1);
      last := Pattern.CharAt(path, next) < 0x20;
    }
  }
}
