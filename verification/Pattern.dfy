/** pattern_match: names against patterns with ? and *, by recursion on the wildcard terms. */
module Pattern {
  import opened Bytes

  type Text = seq<byte>

  const QUESTION: byte := 0x3F
  const STAR: byte := 0x2A

  /** FIND_RECURS: the number of wildcard terms a pattern may have. */
  const FIND_RECURS: nat := 4

  /** Strings end at the first zero. */
  predicate NoZero(s: Text) {
    forall i :: 0 <= i < |s| ==> s[i] != 0
  }

  function CharAt(s: Text, i: nat): byte {
    if i < |s| then s[i] else 0
  }

  predicate Wild(c: byte) {
    c == QUESTION || c == STAR
  }

  /** The upper-case conversion of one byte: ASCII letters, and the code page's table above. */
  predicate IsCaseTable(ct: seq<byte>) {
    |ct| == 128 && NoZero(ct)
  }

  function Upper(ct: seq<byte>, c: byte): (u: byte)
    requires IsCaseTable(ct)
    ensures u == 0 <==> c == 0
  {
    if 0x61 <= c <= 0x7A then c - 0x20
    else if c >= 0x80 then ct[c - 0x80]
    else c
  }

  // ----- the meaning of a pattern -----

  /** ? stands for one character, * for any number of them, anything else for itself in either case. */
  ghost predicate Matches(ct: seq<byte>, p: Text, n: Text)
    requires IsCaseTable(ct)
    decreases |p|
  {
    if p == [] then n == []
    else if p[0] == STAR then exists k :: 0 <= k <= |n| && Matches(ct, p[1..], n[k..])
    else if p[0] == QUESTION then n != [] && Matches(ct, p[1..], n[1..])
    else n != [] && Upper(ct, p[0]) == Upper(ct, n[0]) && Matches(ct, p[1..], n[1..])
  }

  /** Length of the wildcard term at the head of the pattern. */
  function TermLen(p: Text): (t: nat)
    ensures t <= |p|
    ensures t > 0 <==> p != [] && Wild(p[0])
    ensures t < |p| ==> !Wild(p[t])
  {
    if p == [] || !Wild(p[0]) then 0 else 1 + TermLen(p[1..])
  }

  /** The question marks in that term, and whether it has a star. */
  function Questions(p: Text): (q: nat)
    ensures q <= TermLen(p)
  {
    if p == [] || !Wild(p[0]) then 0 else (if p[0] == QUESTION then 1 else 0) + Questions(p[1..])
  }

  predicate Starred(p: Text) {
    p != [] && Wild(p[0]) && (p[0] == STAR || Starred(p[1..]))
  }

  /** Number of wildcard terms. */
  function Terms(p: Text): nat
    decreases |p|
  {
    if p == [] then 0
    else if Wild(p[0]) then 1 + Terms(p[TermLen(p)..])
    else Terms(p[1..])
  }

  /** Every term has fewer than 256 question marks. */
  predicate SmallTerms(p: Text)
    decreases |p|
  {
    if p == [] then true
    else if Wild(p[0]) then Questions(p) < 256 && SmallTerms(p[TermLen(p)..])
    else SmallTerms(p[1..])
  }

  // ----- what the code accepts -----

  /** The count of question marks is kept in eight bits, and what does not fit acts as a star. */
  ghost predicate Accepts(ct: seq<byte>, p: Text, n: Text, recur: nat)
    requires IsCaseTable(ct)
    decreases |p|, 0
  {
    if p == [] then n == []
    else if Wild(p[0]) then
      recur > 0 && AfterSkip(ct, p[TermLen(p)..], n, Questions(p) % 256, Starred(p) || Questions(p) >= 256, recur - 1)
    else n != [] && Upper(ct, p[0]) == Upper(ct, n[0]) && Accepts(ct, p[1..], n[1..], recur)
  }

  /** The rest of the pattern, k characters on, or anywhere from there on. */
  ghost predicate AfterSkip(ct: seq<byte>, p: Text, n: Text, k: nat, anywhere: bool, recur: nat)
    requires IsCaseTable(ct)
    decreases |p|, 1
  {
    if anywhere then exists j :: k <= j <= |n| && Accepts(ct, p, n[j..], recur)
    else k <= |n| && Accepts(ct, p, n[k..], recur)
  }

  lemma {:induction false} TooManyTerms(ct: seq<byte>, p: Text, n: Text, recur: nat)
    requires IsCaseTable(ct) && Terms(p) > recur
    ensures !Accepts(ct, p, n, recur)
    decreases |p|
  {
    hide Upper, IsCaseTable, TermLen, Questions, Starred;
    if Wild(p[0]) {
      if recur > 0 {
        var rest := p[TermLen(p)..];
        forall j | 0 <= j <= |n|
          ensures !Accepts(ct, rest, n[j..], recur - 1)
        {
          TooManyTerms(ct, rest, n[j..], recur - 1);
        }
      }
    } else if n != [] {
      TooManyTerms(ct, p[1..], n[1..], recur);
    }
  }

  /** A name shorter than the plain characters at the head of the pattern is not accepted. */
  lemma {:induction false} TooShort(ct: seq<byte>, p: Text, n: Text, m: nat, recur: nat)
    requires IsCaseTable(ct) && |n| < m <= |p| && forall i :: 0 <= i < m ==> !Wild(p[i])
    ensures !Accepts(ct, p, n, recur)
  {
    if n != [] {
      TooShort(ct, p[1..], n[1..], m - 1, recur);
    }
  }

  // ----- the code -----

  /** sk |= 0x100 */
  function SetBit8(sk: nat): (r: nat)
    ensures r % 256 == sk % 256 && r >= 256
    ensures r / 256 % 2 == 1 && (r == sk || r == sk + 256)
  {
    if sk / 256 % 2 == 1 then sk else sk + 256
  }

  /** Where a scan of the term at the head of p stands, after a of its question marks. */
  ghost predicate Scanned(p: Text, rest: Text, a: nat, starred: bool, sk: nat) {
    && |rest| <= |p|
    && TermLen(p) - TermLen(rest) == |p| - |rest|
    && Questions(p) == a + Questions(rest)
    && Starred(p) == (starred || Starred(rest))
    && sk % 256 == a % 256
    && (if starred || a >= 256 then sk >= 256 else sk == a)
  }

  lemma ScanStep(p: Text, rest: Text, a: nat, starred: bool, sk: nat)
    requires Scanned(p, rest, a, starred, sk) && rest != [] && Wild(rest[0])
    ensures if rest[0] == QUESTION then Scanned(p, rest[1..], a + 1, starred, sk + 1)
            else Scanned(p, rest[1..], a, true, SetBit8(sk))
  {
    var x := SetBit8(sk);
    assert (sk + 1) % 256 == (a + 1) % 256;
  }

  lemma ScanStart(p: Text)
    ensures Scanned(p, p, 0, false, 0)
  {
  }

  lemma ScanEnd(p: Text, rest: Text, a: nat, starred: bool, sk: nat)
    requires Scanned(p, rest, a, starred, sk) && (rest == [] || !Wild(rest[0]))
    ensures |p| - |rest| == TermLen(p) && sk % 256 == Questions(p) % 256
    ensures sk >= 256 <==> Starred(p) || Questions(p) >= 256
  {
    hide TermLen, Questions, Starred, Wild;
    NoTerm(rest);
  }

  lemma NoTerm(p: Text)
    requires p == [] || !Wild(p[0])
    ensures TermLen(p) == 0 && Questions(p) == 0 && !Starred(p)
  {
  }

  lemma WildAt(s: Text, i: nat)
    ensures Wild(CharAt(s, i)) <==> i < |s| && Wild(s[i])
    ensures i < |s| ==> (Wild(s[i]) <==> s[i] == QUESTION || s[i] == STAR)
  {
  }

  /** Read the wildcard term at p: where it ends, and what to skip. */
  method ScanTerm(pat: Text, p: nat) returns (q: nat, sk: nat)
    requires p < |pat| && Wild(pat[p])
    ensures q == p + TermLen(pat[p..]) <= |pat|
    ensures sk % 256 == Questions(pat[p..]) % 256
    ensures sk >= 256 <==> Starred(pat[p..]) || Questions(pat[p..]) >= 256
  {
    hide *;
    q, sk := p, 0;
    ghost var t, a, starred := pat[p..], 0, false;
    ScanStart(t);
    WildAt(pat, p);
    while Wild(CharAt(pat, q))
      invariant p <= q <= |pat|
      invariant Scanned(t, pat[q..], a, starred, sk)
      decreases |pat| - q
    {
      WildAt(pat, q);
      SuffixOfText(pat, q, 0);
      ScanStep(t, pat[q..], a, starred, sk);
      if pat[q] == QUESTION {
        sk := sk + 1;
        a := a + 1;
      } else {
        sk := SetBit8(sk);
        starred := true;
      }
      q := q + 1;
    }
    WildAt(pat, q);
    SuffixOfText(pat, q, 0);
    ScanEnd(t, pat[q..], a, starred, sk);
  }

  lemma AcceptsEnd(ct: seq<byte>, n: Text, recur: nat)
    requires IsCaseTable(ct)
    ensures Accepts(ct, [], n, recur) <==> n == []
  {
  }

  lemma AcceptsTerm(ct: seq<byte>, p: Text, n: Text, recur: nat)
    requires IsCaseTable(ct) && p != [] && Wild(p[0])
    ensures recur > 0 ==> (Accepts(ct, p, n, recur) <==>
              AfterSkip(ct, p[TermLen(p)..], n, Questions(p) % 256, Starred(p) || Questions(p) >= 256, recur - 1))
    ensures recur == 0 ==> Terms(p) > 0
  {
  }

  lemma AcceptsChar(ct: seq<byte>, p: Text, n: Text, recur: nat)
    requires IsCaseTable(ct) && p != [] && !Wild(p[0])
    ensures Accepts(ct, p, n, recur) <==>
            n != [] && Upper(ct, p[0]) == Upper(ct, n[0]) && Accepts(ct, p[1..], n[1..], recur)
  {
  }

  lemma SuffixTerms(p: Text, i: nat)
    requires i <= |p| && forall k :: 0 <= k < i ==> !Wild(p[k])
    ensures Terms(p) == Terms(p[i..])
  {
    if i > 0 {
      SuffixTerms(p[1..], i - 1);
      assert p[1..][i - 1..] == p[i..];
    }
  }

  lemma SuffixOfText(s: Text, i: nat, j: nat)
    requires i + j <= |s|
    ensures s[i..][j..] == s[i + j..]
    ensures i + j < |s| ==> s[i + j..][0] == s[i + j] && s[i + j..][1..] == s[i + j + 1..]
    ensures i + j == |s| ==> s[i + j..] == []
  {
  }

  /** After i plain characters, pattern and name agreed so far. */
  ghost predicate Agreed(ct: seq<byte>, pat: Text, pp: nat, nam: Text, n: nat, i: nat, recur: nat)
    requires IsCaseTable(ct) && pp <= |pat| && n <= |nam|
  {
    && pp + i <= |pat| && n + i <= |nam|
    && (forall k :: 0 <= k < i ==> !Wild(pat[pp..][k]))
    && (Accepts(ct, pat[pp..], nam[n..], recur) <==> Accepts(ct, pat[pp + i..], nam[n + i..], recur))
  }

  /** As many plain characters at the head of the pattern as are left in the name, and more after. */
  ghost predicate Outlasts(pat: Text, pp: nat, nam: Text, n: nat)
    requires pp <= |pat| && n <= |nam|
  {
    |nam| - n < |pat| - pp && forall k :: 0 <= k < |nam| - n ==> !Wild(pat[pp..][k])
  }

  lemma AgreedStart(ct: seq<byte>, pat: Text, pp: nat, nam: Text, n: nat, recur: nat)
    requires IsCaseTable(ct) && pp <= |pat| && n <= |nam|
    ensures Agreed(ct, pat, pp, nam, n, 0, recur)
  {
  }

  lemma AgreedBounds(ct: seq<byte>, pat: Text, pp: nat, nam: Text, n: nat, i: nat, recur: nat)
    requires IsCaseTable(ct) && pp <= |pat| && n <= |nam| && Agreed(ct, pat, pp, nam, n, i, recur)
    ensures pp + i <= |pat| && n + i <= |nam|
  {
  }

  /** A plain character at the place reached. */
  lemma AgreedChar(ct: seq<byte>, pat: Text, pp: nat, nam: Text, n: nat, i: nat, recur: nat)
    requires IsCaseTable(ct) && NoZero(pat) && NoZero(nam) && pp <= |pat| && n <= |nam|
    requires Agreed(ct, pat, pp, nam, n, i, recur) && !Wild(CharAt(pat, pp + i))
    ensures var a, b := Upper(ct, CharAt(pat, pp + i)), Upper(ct, CharAt(nam, n + i));
            && (b == 0 <==> n + i == |nam|)
            && (a == b && a != 0 ==> Agreed(ct, pat, pp, nam, n, i + 1, recur) && pp + i < |pat|)
            && (a == b == 0 ==> Accepts(ct, pat[pp..], nam[n..], recur))
            && (a != b ==> !Accepts(ct, pat[pp..], nam[n..], recur))
            && (a != b && b == 0 ==> Outlasts(pat, pp, nam, n))
  {
    hide Accepts, Upper, Wild, IsCaseTable;
    SuffixOfText(pat, pp + i, 0);
    SuffixOfText(nam, n + i, 0);
    SuffixOfText(pat, pp, i);
    AcceptsEnd(ct, nam[n + i..], recur);
    if pp + i < |pat| { AcceptsChar(ct, pat[pp + i..], nam[n + i..], recur); }
  }

  /** A wildcard term at the place reached. */
  lemma AgreedTerm(ct: seq<byte>, pat: Text, pp: nat, nam: Text, n: nat, i: nat, recur: nat)
    requires IsCaseTable(ct) && NoZero(nam) && pp <= |pat| && n <= |nam|
    requires Agreed(ct, pat, pp, nam, n, i, recur) && Wild(CharAt(pat, pp + i))
    ensures pp + i < |pat| && Wild(pat[pp + i])
    ensures CharAt(nam, n + i) == 0 ==> n + i == |nam| && Outlasts(pat, pp, nam, n)
    ensures n == |nam| ==> CharAt(nam, n + i) == 0
    ensures recur == 0 ==> Terms(pat[pp..]) > recur && !Accepts(ct, pat[pp..], nam[n..], recur)
    ensures recur > 0 ==>
      var t := pat[pp + i..];
      var q := pp + i + TermLen(t);
      q <= |pat| && (Accepts(ct, pat[pp..], nam[n..], recur) <==>
        AfterSkip(ct, pat[q..], nam[n + i..], Questions(t) % 256, Starred(t) || Questions(t) >= 256, recur - 1))
  {
    hide Accepts, AfterSkip, Terms, TermLen, Questions, Starred, Upper, IsCaseTable;
    WildAt(pat, pp + i);
    SuffixTerms(pat[pp..], i);
    SuffixOfText(pat, pp, i);
    AcceptsTerm(ct, pat[pp + i..], nam[n + i..], recur);
    SuffixOfText(pat, pp + i, TermLen(pat[pp + i..]));
    if recur == 0 { TooManyTerms(ct, pat[pp..], nam[n..], recur); }
  }

  /** One comparison of the pattern from pp with the name from n: accepted; or given up for having
      too many terms; or not, with the name read to its end or not. */
  method Attempt(ct: seq<byte>, pat: Text, pp: nat, nam: Text, n: nat, recur: nat)
    returns (matched: bool, giveUp: bool, nchr: byte)
    requires IsCaseTable(ct) && NoZero(pat) && NoZero(nam) && pp <= |pat| && n <= |nam|
    ensures matched == Accepts(ct, pat[pp..], nam[n..], recur)
    ensures giveUp ==> Terms(pat[pp..]) > recur
    ensures !matched && !giveUp && n == |nam| ==> nchr == 0
    ensures !matched && !giveUp && nchr == 0 ==> Outlasts(pat, pp, nam, n)
    decreases recur, 0
  {
    hide *;
    AgreedStart(ct, pat, pp, nam, n, recur);
    matched, giveUp, nchr := false, false, 0;
    var i := 0;
    while true
      invariant Agreed(ct, pat, pp, nam, n, i, recur)
      invariant !matched && !giveUp
      decreases |pat| - i
    {
      AgreedBounds(ct, pat, pp, nam, n, i, recur);
      if Wild(CharAt(pat, pp + i)) {
        AgreedTerm(ct, pat, pp, nam, n, i, recur);
        if recur == 0 {
          giveUp := true;
          break;
        }
        var q, sk := ScanTerm(pat, pp + i);
        matched := PatternMatch(ct, pat, q, nam, n + i, sk, recur - 1);
        nchr := CharAt(nam, n + i);
        break;
      }
      AgreedChar(ct, pat, pp, nam, n, i, recur);
      var pchr := Upper(ct, CharAt(pat, pp + i));
      nchr := Upper(ct, CharAt(nam, n + i));
      if pchr != nchr { break; }
      if pchr == 0 {
        matched := true;
        break;
      }
      i := i + 1;
    }
  }

  lemma AfterSkipIs(ct: seq<byte>, p: Text, n: Text, k: nat, anywhere: bool, recur: nat)
    requires IsCaseTable(ct)
    ensures k > |n| ==> !AfterSkip(ct, p, n, k, anywhere, recur)
    ensures k <= |n| && !anywhere ==> (AfterSkip(ct, p, n, k, anywhere, recur) <==> Accepts(ct, p, n[k..], recur))
    ensures p == [] && anywhere && k <= |n| ==> AfterSkip(ct, p, n, k, anywhere, recur)
  {
    assert n[|n|..] == [];
  }

  lemma Found(ct: seq<byte>, p: Text, nam: Text, np: nat, n: nat, k: nat, anywhere: bool, recur: nat)
    requires IsCaseTable(ct) && np + k <= n <= |nam| && Accepts(ct, p, nam[n..], recur)
    requires anywhere || n == np + k
    ensures AfterSkip(ct, p, nam[np..], k, anywhere, recur)
  {
    assert nam[np..][n - np..] == nam[n..];
  }

  /** No place from lo on in the name is accepted. */
  ghost predicate NoneFrom(ct: seq<byte>, p: Text, nam: Text, lo: nat, hi: nat, recur: nat)
    requires IsCaseTable(ct)
  {
    forall j :: lo <= j < hi && j <= |nam| ==> !Accepts(ct, p, nam[j..], recur)
  }

  lemma NoneYet(ct: seq<byte>, p: Text, nam: Text, lo: nat, recur: nat)
    requires IsCaseTable(ct)
    ensures NoneFrom(ct, p, nam, lo, lo, recur)
  {
  }

  lemma NoneMore(ct: seq<byte>, pat: Text, pp: nat, nam: Text, lo: nat, n: nat, giveUp: bool, nchr: byte, recur: nat)
    requires IsCaseTable(ct) && pp <= |pat| && lo <= n <= |nam|
    requires NoneFrom(ct, pat[pp..], nam, lo, n, recur) && !Accepts(ct, pat[pp..], nam[n..], recur)
    requires giveUp ==> Terms(pat[pp..]) > recur
    requires !giveUp && nchr == 0 ==> Outlasts(pat, pp, nam, n)
    ensures NoneFrom(ct, pat[pp..], nam, lo, n + 1, recur)
    ensures giveUp || nchr == 0 ==> NoneFrom(ct, pat[pp..], nam, lo, |nam| + 1, recur)
  {
    hide Accepts, Terms, Wild, IsCaseTable;
    var p := pat[pp..];
    if giveUp || nchr == 0 {
      forall j | n < j <= |nam|
        ensures !Accepts(ct, p, nam[j..], recur)
      {
        if giveUp {
          TooManyTerms(ct, p, nam[j..], recur);
        } else {
          TooShort(ct, p, nam[j..], |nam| - n, recur);
        }
      }
    }
  }

  lemma NotFound(ct: seq<byte>, p: Text, nam: Text, np: nat, k: nat, n: nat, anywhere: bool, recur: nat)
    requires IsCaseTable(ct) && np + k < n <= |nam| + 1
    requires NoneFrom(ct, p, nam, np + k, n, recur) && (anywhere ==> n == |nam| + 1)
    ensures !AfterSkip(ct, p, nam[np..], k, anywhere, recur)
  {
    hide Accepts, IsCaseTable;
    assert nam[np..][k..] == nam[np + k..];
    forall j | k <= j <= |nam| - np
      ensures nam[np..][j..] == nam[np + j..]
    {
    }
  }

  /** The retries: from n on if the skip has no end, at n alone otherwise. */
  method Retry(ct: seq<byte>, pat: Text, pp: nat, nam: Text, np: nat, k: nat, anywhere: bool, recur: nat)
    returns (r: bool)
    requires IsCaseTable(ct) && NoZero(pat) && NoZero(nam) && pp <= |pat| && np + k <= |nam|
    ensures r == AfterSkip(ct, pat[pp..], nam[np..], k, anywhere, recur)
    decreases recur, 1
  {
    hide *;
    var n := np + k;
    ghost var upTo := n;
    NoneYet(ct, pat[pp..], nam, n, recur);
    r := false;
    var more := true;
    while more
      invariant np + k <= upTo <= |nam| + 1
      invariant more ==> n == upTo <= |nam| && (!anywhere ==> n == np + k)
      invariant !more ==> np + k < upTo && (anywhere ==> upTo == |nam| + 1)
      invariant NoneFrom(ct, pat[pp..], nam, np + k, upTo, recur)
      decreases |nam| + 1 - upTo, more
    {
      var giveUp, nchr;
      r, giveUp, nchr := Attempt(ct, pat, pp, nam, n, recur);
      if r {
        Found(ct, pat[pp..], nam, np, n, k, anywhere, recur);
        return;
      }
      NoneMore(ct, pat, pp, nam, np + k, n, giveUp, nchr, recur);
      n := n + 1;
      more := !giveUp && anywhere && nchr != 0;
      upTo := if giveUp || nchr == 0 then |nam| + 1 else n;
    }
    NotFound(ct, pat[pp..], nam, np, k, upTo, anywhere, recur);
  }

  lemma LowByteOf(skip: nat, sk: nat, k: nat, d: nat)
    requires skip == sk + d && sk % 256 == k - d && k == skip % 256 && d <= k
    ensures sk % 256 != 0 ==> sk > 0 && (sk - 1) % 256 == k - (d + 1) && d + 1 <= k
    ensures sk % 256 == 0 ==> d == k && (sk != 0 <==> skip >= 256)
  {
  }

  /** pattern_match on the pattern from pp and the name from np. */
  method PatternMatch(ct: seq<byte>, pat: Text, pp: nat, nam: Text, np: nat, skip: nat, recur: nat) returns (r: bool)
    requires IsCaseTable(ct) && NoZero(pat) && NoZero(nam) && pp <= |pat| && np <= |nam|
    ensures r == AfterSkip(ct, pat[pp..], nam[np..], skip % 256, skip >= 256, recur)
    decreases recur, 2
  {
    hide *;
    ghost var k := skip % 256;
    AfterSkipIs(ct, pat[pp..], nam[np..], k, skip >= 256, recur);
    var n, sk := np, skip;
    LowByteOf(skip, sk, k, 0);
    while sk % 256 != 0
      invariant np <= n <= |nam| && skip == sk + (n - np) && sk % 256 == k - (n - np) && n - np <= k
      decreases sk
    {
      LowByteOf(skip, sk, k, n - np);
      UpperAt(ct, nam, n);
      if Upper(ct, CharAt(nam, n)) == 0 { return false; }
      n := n + 1;
      sk := sk - 1;
    }
    LowByteOf(skip, sk, k, n - np);
    SuffixOfText(pat, pp, 0);
    if pp == |pat| && sk != 0 { return true; }
    r := Retry(ct, pat, pp, nam, np, n - np, sk != 0, recur);
  }

  lemma UpperAt(ct: seq<byte>, s: Text, i: nat)
    requires IsCaseTable(ct) && NoZero(s)
    ensures Upper(ct, CharAt(s, i)) == 0 <==> i >= |s|
  {
  }

  // ----- when the code keeps the meaning -----

  lemma MatchesEnd(ct: seq<byte>, n: Text)
    requires IsCaseTable(ct)
    ensures Matches(ct, [], n) <==> n == []
  {
  }

  lemma MatchesChar(ct: seq<byte>, p: Text, n: Text)
    requires IsCaseTable(ct) && p != [] && !Wild(p[0])
    ensures Matches(ct, p, n) <==> n != [] && Upper(ct, p[0]) == Upper(ct, n[0]) && Matches(ct, p[1..], n[1..])
  {
  }

  lemma MatchesQuestion(ct: seq<byte>, p: Text, n: Text)
    requires IsCaseTable(ct) && p != [] && p[0] == QUESTION
    ensures Matches(ct, p, n) <==> n != [] && Matches(ct, p[1..], n[1..])
  {
  }

  lemma MatchesStar(ct: seq<byte>, p: Text, n: Text)
    requires IsCaseTable(ct) && p != [] && p[0] == STAR
    ensures Matches(ct, p, n) <==> exists k :: 0 <= k <= |n| && Matches(ct, p[1..], n[k..])
  {
  }

  /** q characters on, or anywhere from there on. */
  ghost predicate Reaches(ct: seq<byte>, rest: Text, n: Text, q: nat, anywhere: bool)
    requires IsCaseTable(ct)
  {
    if anywhere then exists j :: q <= j <= |n| && Matches(ct, rest, n[j..])
    else q <= |n| && Matches(ct, rest, n[q..])
  }

  lemma ReachesMore(ct: seq<byte>, rest: Text, n: Text, q: nat, anywhere: bool)
    requires IsCaseTable(ct) && n != []
    ensures Reaches(ct, rest, n, q + 1, anywhere) <==> Reaches(ct, rest, n[1..], q, anywhere)
  {
    hide Matches;
    if q + 1 <= |n| { SuffixOfText(n, 1, q); }
    forall j | q + 1 <= j <= |n|
      ensures n[1..][j - 1..] == n[j..]
    {
    }
    if anywhere && Reaches(ct, rest, n[1..], q, anywhere) {
      var j :| q <= j <= |n[1..]| && Matches(ct, rest, n[1..][j..]);
      assert n[1..][j..] == n[j + 1..];
    }
  }

  lemma ReachesAnywhere(ct: seq<byte>, rest: Text, n: Text, q: nat, anywhere: bool)
    requires IsCaseTable(ct)
    ensures Reaches(ct, rest, n, q, true) <==> exists k :: 0 <= k <= |n| && Reaches(ct, rest, n[k..], q, anywhere)
  {
    hide Matches;
    if Reaches(ct, rest, n, q, true) {
      var j :| q <= j <= |n| && Matches(ct, rest, n[j..]);
      assert n[j - q..][q..] == n[j..];
      assert Reaches(ct, rest, n[j - q..], q, anywhere);
    }
    if k :| 0 <= k <= |n| && Reaches(ct, rest, n[k..], q, anywhere) {
      if anywhere {
        var j :| q <= j <= |n[k..]| && Matches(ct, rest, n[k..][j..]);
        assert n[k..][j..] == n[k + j..];
      } else {
        assert n[k..][q..] == n[k + q..];
      }
    }
  }

  /** A term asks for as many characters as it has question marks, or more if it has a star,
      whatever their order. */
  lemma {:induction false} TermMeaning(ct: seq<byte>, p: Text, n: Text)
    requires IsCaseTable(ct)
    ensures Matches(ct, p, n) <==> Reaches(ct, p[TermLen(p)..], n, Questions(p), Starred(p))
    decreases |p|
  {
    hide *;
    TermStep(p);
    if p == [] || !Wild(p[0]) {
      NoTerm(p);
      ReachesHere(ct, p, n);
    } else {
      var rest, q, star := p[TermLen(p)..], Questions(p[1..]), Starred(p[1..]);
      WildIs(p[0]);
      if p[0] == QUESTION {
        MatchesQuestion(ct, p, n);
        if n != [] {
          TermMeaning(ct, p[1..], n[1..]);
          ReachesMore(ct, rest, n, q, star);
        } else {
          ReachesNothing(ct, rest, q, star);
        }
      } else {
        MatchesStar(ct, p, n);
        forall k | 0 <= k <= |n|
          ensures Matches(ct, p[1..], n[k..]) <==> Reaches(ct, rest, n[k..], q, star)
        {
          TermMeaning(ct, p[1..], n[k..]);
        }
        ReachesAnywhere(ct, rest, n, q, star);
      }
    }
  }

  lemma WildIs(c: byte)
    ensures Wild(c) <==> c == QUESTION || c == STAR
    ensures QUESTION != STAR
  {
  }

  lemma TermStep(p: Text)
    ensures TermLen(p) <= |p|
    ensures p != [] && Wild(p[0]) ==>
      && TermLen(p) > 0
      && TermLen(p[1..]) == TermLen(p) - 1 && p[1..][TermLen(p[1..])..] == p[TermLen(p)..]
      && Questions(p) == Questions(p[1..]) + (if p[0] == QUESTION then 1 else 0)
      && Starred(p) == (p[0] == STAR || Starred(p[1..]))
  {
  }

  lemma ReachesHere(ct: seq<byte>, p: Text, n: Text)
    requires IsCaseTable(ct)
    ensures Reaches(ct, p[0..], n, 0, false) <==> Matches(ct, p, n)
  {
    assert n[0..] == n && p[0..] == p;
  }

  lemma ReachesNothing(ct: seq<byte>, rest: Text, q: nat, anywhere: bool)
    requires IsCaseTable(ct)
    ensures !Reaches(ct, rest, [], q + 1, anywhere)
  {
  }

  /** With few enough terms, each small enough, the code accepts exactly the names that match. */
  lemma {:induction false} AcceptsMeansMatches(ct: seq<byte>, p: Text, n: Text, recur: nat)
    requires IsCaseTable(ct) && Terms(p) <= recur && SmallTerms(p)
    ensures Accepts(ct, p, n, recur) <==> Matches(ct, p, n)
    decreases |p|
  {
    hide *;
    TermsStep(p);
    if p == [] {
      AcceptsEnd(ct, n, recur);
      MatchesEnd(ct, n);
    } else if Wild(p[0]) {
      TermMeaning(ct, p, n);
      AcceptsTerm(ct, p, n, recur);
      var rest, q, star := p[TermLen(p)..], Questions(p), Starred(p);
      forall j | 0 <= j <= |n|
        ensures Accepts(ct, rest, n[j..], recur - 1) <==> Matches(ct, rest, n[j..])
      {
        AcceptsMeansMatches(ct, rest, n[j..], recur - 1);
      }
      SameReach(ct, rest, n, q, star, recur - 1);
    } else {
      AcceptsChar(ct, p, n, recur);
      MatchesChar(ct, p, n);
      if n != [] {
        AcceptsMeansMatches(ct, p[1..], n[1..], recur);
      }
    }
  }

  lemma SameReach(ct: seq<byte>, rest: Text, n: Text, q: nat, star: bool, recur: nat)
    requires IsCaseTable(ct) && q < 256
    requires forall j :: 0 <= j <= |n| ==> (Accepts(ct, rest, n[j..], recur) <==> Matches(ct, rest, n[j..]))
    ensures AfterSkip(ct, rest, n, q % 256, star || q >= 256, recur) <==> Reaches(ct, rest, n, q, star)
  {
    hide Accepts, Matches;
  }

  lemma TermsStep(p: Text)
    ensures p != [] && Wild(p[0]) ==>
      && 0 < TermLen(p) <= |p|
      && Terms(p) == 1 + Terms(p[TermLen(p)..])
      && (SmallTerms(p) <==> Questions(p) < 256 && SmallTerms(p[TermLen(p)..]))
    ensures p != [] && !Wild(p[0]) ==> Terms(p) == Terms(p[1..]) && (SmallTerms(p) <==> SmallTerms(p[1..]))
    ensures p == [] ==> Terms(p) == 0 && SmallTerms(p)
  {
  }

  // ----- and when it does not -----

  /** The shortest name of a pattern: A for every question mark, nothing for a star. */
  function Instance(p: Text): (n: Text)
    ensures NoZero(p) ==> NoZero(n)
  {
    if p == [] then []
    else if p[0] == STAR then Instance(p[1..])
    else if p[0] == QUESTION then [0x41] + Instance(p[1..])
    else [p[0]] + Instance(p[1..])
  }

  lemma {:induction false} InstanceMatches(ct: seq<byte>, p: Text)
    requires IsCaseTable(ct)
    ensures Matches(ct, p, Instance(p))
  {
    if p != [] {
      InstanceMatches(ct, p[1..]);
      var n := Instance(p);
      if p[0] == STAR {
        assert n[0..] == n;
      } else {
        assert n[1..] == Instance(p[1..]);
      }
    }
  }

  lemma {:induction false} InstanceShortest(ct: seq<byte>, p: Text, n: Text)
    requires IsCaseTable(ct) && Matches(ct, p, n)
    ensures |n| >= |Instance(p)|
    decreases |p|
  {
    hide Upper, IsCaseTable;
    if p != [] {
      if p[0] == STAR {
        var k :| 0 <= k <= |n| && Matches(ct, p[1..], n[k..]);
        InstanceShortest(ct, p[1..], n[k..]);
      } else {
        InstanceShortest(ct, p[1..], n[1..]);
      }
    }
  }

  lemma NoShorterMatch(ct: seq<byte>, p: Text, n: Text)
    requires IsCaseTable(ct) && |n| < |Instance(p)|
    ensures !Matches(ct, p, n)
  {
    if Matches(ct, p, n) {
      InstanceShortest(ct, p, n);
    }
  }

  function As(k: nat): (n: Text)
    ensures |n| == k && NoZero(n)
  {
    seq(k, i => 0x41)
  }

  /** A name the code accepts: it takes the question marks of a term modulo 256. */
  function Shortened(p: Text): (n: Text)
    ensures NoZero(p) ==> NoZero(n)
    decreases |p|
  {
    if p == [] then []
    else if Wild(p[0]) then As(Questions(p) % 256) + Shortened(p[TermLen(p)..])
    else [p[0]] + Shortened(p[1..])
  }

  lemma {:induction false} ShortenedAccepted(ct: seq<byte>, p: Text, recur: nat)
    requires IsCaseTable(ct) && Terms(p) <= recur
    ensures Accepts(ct, p, Shortened(p), recur)
    decreases |p|
  {
    hide *;
    TermsStep(p);
    ShortenedStep(p);
    if p == [] {
      AcceptsEnd(ct, [], recur);
    } else if Wild(p[0]) {
      var rest, q := p[TermLen(p)..], Questions(p) % 256;
      AcceptsTerm(ct, p, Shortened(p), recur);
      ShortenedAccepted(ct, rest, recur - 1);
      assert Shortened(p)[q..] == Shortened(rest);
      Found(ct, rest, Shortened(p), 0, q, q, Starred(p) || Questions(p) >= 256, recur - 1);
      assert Shortened(p)[0..] == Shortened(p);
    } else {
      AcceptsChar(ct, p, Shortened(p), recur);
      ShortenedAccepted(ct, p[1..], recur);
    }
  }

  lemma ShortenedStep(p: Text)
    ensures p == [] ==> Shortened(p) == []
    ensures p != [] && Wild(p[0]) ==>
      && 0 < TermLen(p) <= |p|
      && Shortened(p) == As(Questions(p) % 256) + Shortened(p[TermLen(p)..])
      && |As(Questions(p) % 256)| == Questions(p) % 256
    ensures p != [] && !Wild(p[0]) ==>
      Shortened(p) != [] && Shortened(p)[0] == p[0] && Shortened(p)[1..] == Shortened(p[1..])
  {
  }

  lemma {:induction false} InstanceOfTerm(p: Text)
    ensures |Instance(p)| == Questions(p) + |Instance(p[TermLen(p)..])|
    decreases |p|
  {
    hide *;
    TermStep(p);
    if p != [] && Wild(p[0]) {
      InstanceOfTerm(p[1..]);
      InstanceStep(p);
    } else {
      NoTerm(p);
      assert p[0..] == p;
    }
  }

  lemma InstanceStep(p: Text)
    ensures p != [] ==> |Instance(p)| == |Instance(p[1..])| + (if p[0] == STAR then 0 else 1)
    ensures p == [] ==> Instance(p) == []
    ensures QUESTION != STAR && (p != [] && Wild(p[0]) ==> p[0] == QUESTION || p[0] == STAR)
    ensures p != [] && !Wild(p[0]) ==> p[0] != STAR
  {
  }

  /** With a term of 256 question marks or more it is shorter than any name that matches. */
  lemma {:induction false} ShortenedShorter(p: Text)
    ensures |Shortened(p)| <= |Instance(p)|
    ensures !SmallTerms(p) ==> |Shortened(p)| < |Instance(p)|
    decreases |p|
  {
    hide *;
    TermsStep(p);
    ShortenedStep(p);
    InstanceStep(p);
    if p == [] {
    } else if Wild(p[0]) {
      InstanceOfTerm(p);
      ShortenedShorter(p[TermLen(p)..]);
    } else {
      ShortenedShorter(p[1..]);
    }
  }

  /** What f_findnext asks: the pattern from its head, four terms deep. */
  ghost predicate Finds(ct: seq<byte>, p: Text, n: Text)
    requires IsCaseTable(ct)
  {
    AfterSkip(ct, p, n, 0, false, FIND_RECURS)
  }

  /** The call in f_findnext. */
  method TestName(ct: seq<byte>, pat: Text, nam: Text) returns (r: bool)
    requires IsCaseTable(ct) && NoZero(pat) && NoZero(nam)
    ensures r <==> Finds(ct, pat, nam)
  {
    hide AfterSkip;
    r := PatternMatch(ct, pat, 0, nam, 0, 0, FIND_RECURS);
    assert pat[0..] == pat && nam[0..] == nam;
  }

  lemma FindsIs(ct: seq<byte>, p: Text, n: Text)
    requires IsCaseTable(ct)
    ensures Finds(ct, p, n) <==> Accepts(ct, p, n, FIND_RECURS)
  {
    assert n[0..] == n;
  }

  // ----- upper and lower case -----

  /** One ASCII character, or the two cases of one ASCII letter. */
  predicate SameLetter(a: int, b: int) {
    || a == b
    || (0x41 <= a <= 0x5A && b == a + 0x20)
    || (0x41 <= b <= 0x5A && a == b + 0x20)
  }

  /** Characters that no pattern should tell apart: equal up to case, above ASCII by the code page's table. */
  predicate SameChar(ct: seq<byte>, a: byte, b: byte)
    requires IsCaseTable(ct)
  {
    if a < 0x80 && b < 0x80 then SameLetter(a, b) else a >= 0x80 && b >= 0x80 && ct[a - 0x80] == ct[b - 0x80]
  }

  ghost predicate SameText(ct: seq<byte>, s: Text, t: Text)
    requires IsCaseTable(ct)
  {
    |s| == |t| && forall i :: 0 <= i < |s| ==> SameChar(ct, s[i], t[i])
  }

  lemma SameCharIs(ct: seq<byte>, a: byte, b: byte)
    requires IsCaseTable(ct) && SameChar(ct, a, b)
    ensures Upper(ct, a) == Upper(ct, b) && (a == STAR <==> b == STAR) && (a == QUESTION <==> b == QUESTION)
    ensures Wild(a) <==> Wild(b)
  {
  }

  lemma SameTail(ct: seq<byte>, s: Text, t: Text, i: nat)
    requires IsCaseTable(ct) && SameText(ct, s, t) && i <= |s|
    ensures |s| == |t| && SameText(ct, s[i..], t[i..])
    ensures i < |s| ==> SameChar(ct, s[i], t[i])
  {
    hide SameChar;
  }

  lemma {:induction false} SameTerm(ct: seq<byte>, p: Text, q: Text)
    requires IsCaseTable(ct) && SameText(ct, p, q)
    ensures TermLen(p) == TermLen(q) && Questions(p) == Questions(q) && Starred(p) == Starred(q)
  {
    if p != [] {
      SameTail(ct, p, q, 0);
      SameTail(ct, p, q, 1);
      SameCharIs(ct, p[0], q[0]);
      SameTerm(ct, p[1..], q[1..]);
    }
  }

  lemma {:induction false} AcceptsSame(ct: seq<byte>, p: Text, q: Text, n: Text, m: Text, recur: nat)
    requires IsCaseTable(ct) && SameText(ct, p, q) && SameText(ct, n, m)
    ensures Accepts(ct, p, n, recur) <==> Accepts(ct, q, m, recur)
    decreases |p|
  {
    hide *;
    SameTail(ct, p, q, 0);
    SameTail(ct, n, m, 0);
    if p == [] {
      AcceptsEnd(ct, n, recur);
      AcceptsEnd(ct, m, recur);
    } else {
      SameCharIs(ct, p[0], q[0]);
      if !Wild(p[0]) {
        AcceptsChar(ct, p, n, recur);
        AcceptsChar(ct, q, m, recur);
        if n != [] {
          SameCharIs(ct, n[0], m[0]);
          SameTail(ct, p, q, 1);
          SameTail(ct, n, m, 1);
          AcceptsSame(ct, p[1..], q[1..], n[1..], m[1..], recur);
        }
      } else if recur == 0 {
        AcceptsTerm(ct, p, n, recur);
        AcceptsTerm(ct, q, m, recur);
        TooManyTerms(ct, p, n, 0);
        TooManyTerms(ct, q, m, 0);
      } else {
        AcceptsTerm(ct, p, n, recur);
        AcceptsTerm(ct, q, m, recur);
        SameTerm(ct, p, q);
        TermsStep(p);
        var t := TermLen(p);
        SameTail(ct, p, q, t);
        forall j | 0 <= j <= |n|
          ensures Accepts(ct, p[t..], n[j..], recur - 1) <==> Accepts(ct, q[t..], m[j..], recur - 1)
        {
          SameTail(ct, n, m, j);
          AcceptsSame(ct, p[t..], q[t..], n[j..], m[j..], recur - 1);
        }
        SameSkip(ct, p[t..], q[t..], n, m, Questions(p) % 256, Starred(p) || Questions(p) >= 256, recur - 1);
      }
    }
  }

  lemma SameSkip(ct: seq<byte>, p: Text, q: Text, n: Text, m: Text, k: nat, anywhere: bool, recur: nat)
    requires IsCaseTable(ct) && |n| == |m|
    requires forall j :: 0 <= j <= |n| ==> (Accepts(ct, p, n[j..], recur) <==> Accepts(ct, q, m[j..], recur))
    ensures AfterSkip(ct, p, n, k, anywhere, recur) <==> AfterSkip(ct, q, m, k, anywhere, recur)
  {
    hide Accepts;
  }

  /** Case makes no difference, in the pattern or in the name: with any characters of either replaced
      by their other case, the answer is the same. */
  lemma CaseDoesNotMatter(ct: seq<byte>, p: Text, q: Text, n: Text, m: Text)
    requires IsCaseTable(ct) && SameText(ct, p, q) && SameText(ct, n, m)
    ensures Finds(ct, p, n) <==> Finds(ct, q, m)
  {
    AcceptsSame(ct, p, q, n, m, FIND_RECURS);
    FindsIs(ct, p, n);
    FindsIs(ct, q, m);
  }

  /** x, which is not a small ASCII letter, is c or its capital. */
  predicate SameCapital(c: byte, x: byte) {
    SameLetter(c, x) && !(0x61 <= x <= 0x7A)
  }

  /** And nothing else is taken for equal: a pattern of one plain character finds just the names of one
      character that is the same up to case, the code page's table telling which letters above ASCII
      have which capitals. */
  lemma OneCharFinds(ct: seq<byte>, a: byte, n: Text)
    requires IsCaseTable(ct) && a != 0 && a != 0x3F && a != 0x2A
    ensures Finds(ct, [a], n) <==>
      && |n| == 1
      && if a < 0x80 <= n[0] then SameCapital(a, ct[n[0] - 0x80])
         else if n[0] < 0x80 <= a then SameCapital(n[0], ct[a - 0x80])
         else SameChar(ct, a, n[0])
  {
    FindsIs(ct, [a], n);
    AcceptsChar(ct, [a], n, FIND_RECURS);
    if n != [] { AcceptsEnd(ct, n[1..], FIND_RECURS); }
    assert [a][1..] == [];
    hide Accepts, Finds;
  }

  /** A question mark alone finds the names of one character, a star alone finds every name. */
  lemma OneWildFinds(ct: seq<byte>, n: Text)
    requires IsCaseTable(ct)
    ensures Finds(ct, [0x3F], n) <==> |n| == 1
    ensures Finds(ct, [0x2A], n)
  {
    forall c: byte | Wild(c)
      ensures Finds(ct, [c], n) <==> if c == QUESTION then |n| == 1 else true
    {
      FindsIs(ct, [c], n);
      AcceptsTerm(ct, [c], n, FIND_RECURS);
      OneTerm(c);
      AcceptsEnd(ct, if |n| > 0 then n[1..] else [], FIND_RECURS - 1);
      AfterSkipIs(ct, [], n, Questions([c]) % 256, Starred([c]), FIND_RECURS - 1);
      hide Finds, Accepts, AfterSkip;
    }
  }

  lemma OneTerm(c: byte)
    requires Wild(c)
    ensures TermLen([c]) == 1 && [c][1..] == []
    ensures Questions([c]) == (if c == QUESTION then 1 else 0) && (Starred([c]) <==> c == STAR)
  {
    TermStep([c]);
    NoTerm([]);
    assert [c][1..] == [];
  }

  /** A name with which the code and the meaning of the pattern disagree, for a pattern with too
      many terms or too large a term: the shortest match in the first case, a name that is
      accepted and too short to match in the second. */
  function Disagreement(p: Text): (n: Text)
    ensures NoZero(p) ==> NoZero(n)
  {
    if Terms(p) > FIND_RECURS then Instance(p)
    else if Shortened(p) == [] then [0x41]
    else Shortened(p)
  }

  lemma OneMoreTerm(p: Text)
    requires Terms(p) > 1
    ensures Instance(p) != []
    decreases |p|
  {
    if Wild(p[0]) {
      InstanceOfTerm(p);
      TermEnds(p);
    }
  }

  /** After a term there is a plain character, or nothing. */
  lemma TermEnds(p: Text)
    requires p != [] && Wild(p[0]) && Terms(p) > 1
    ensures Instance(p[TermLen(p)..]) != []
  {
    var rest := p[TermLen(p)..];
    assert Terms(rest) > 0 && rest != [] && !Wild(rest[0]);
  }

  lemma {:induction false} NothingLeft(p: Text)
    requires Shortened(p) == []
    ensures p == [] || (Wild(p[0]) && TermLen(p) == |p| && Questions(p) % 256 == 0)
  {
    if p != [] && Wild(p[0]) {
      var rest := p[TermLen(p)..];
      assert Shortened(rest) == [];
    }
  }

  /** The whole pattern is one term of a multiple of 256 question marks: any one character is found. */
  lemma OneTermWraps(ct: seq<byte>, p: Text)
    requires IsCaseTable(ct) && !SmallTerms(p) && Shortened(p) == []
    ensures Accepts(ct, p, [0x41], FIND_RECURS)
    ensures |Instance(p)| > 1
  {
    NothingLeft(p);
    TermsStep(p);
    InstanceOfTerm(p);
    hide *;
    WholePattern(p);
    AcceptsTerm(ct, p, [0x41], FIND_RECURS);
    AcceptsEnd(ct, [], FIND_RECURS - 1);
    Found(ct, [], [0x41], 0, 1, 0, true, FIND_RECURS - 1);
    assert [0x41][0..] == [0x41];
  }

  lemma WholePattern(p: Text)
    requires p != [] ==> TermLen(p) == |p|
    ensures p != [] ==> p[TermLen(p)..] == []
    ensures FIND_RECURS == 4 && [0x41][1..] == []
    ensures SmallTerms([])
  {
  }

  /** On it the code and the meaning of the pattern disagree. It is never empty. */
  lemma Disagrees(ct: seq<byte>, p: Text)
    requires IsCaseTable(ct) && (Terms(p) > FIND_RECURS || !SmallTerms(p))
    ensures Disagreement(p) != []
    ensures Finds(ct, p, Disagreement(p)) <==> !Matches(ct, p, Disagreement(p))
  {
    var n := Disagreement(p);
    FindsIs(ct, p, n);
    if Terms(p) > FIND_RECURS {
      OneMoreTerm(p);
      InstanceMatches(ct, p);
      TooManyTerms(ct, p, n, FIND_RECURS);
    } else if Shortened(p) == [] {
      OneTermWraps(ct, p);
      NoShorterMatch(ct, p, n);
    } else {
      ShortenedAccepted(ct, p, FIND_RECURS);
      ShortenedShorter(p);
      NoShorterMatch(ct, p, n);
    }
  }

  /** The test f_findnext makes agrees with the meaning of the pattern on every name it can be given
      (none is empty) if and only if the pattern has at most four wildcard terms, each of fewer
      than 256 question marks. */
  lemma FindsExactly(ct: seq<byte>, p: Text)
    requires IsCaseTable(ct) && NoZero(p)
    ensures (forall n: Text :: NoZero(n) && n != [] ==> (Finds(ct, p, n) <==> Matches(ct, p, n)))
            <==> Terms(p) <= 4 && SmallTerms(p)
  {
    hide *;
    WholePattern(p[..0]);
    if Terms(p) > FIND_RECURS || !SmallTerms(p) {
      Disagrees(ct, p);
    } else {
      forall n: Text | NoZero(n) && n != []
        ensures Finds(ct, p, n) <==> Matches(ct, p, n)
      {
        AcceptsMeansMatches(ct, p, n, FIND_RECURS);
        FindsIs(ct, p, n);
      }
    }
  }

  /** A name that is found although it does not match: A, by 256 question marks. */
  lemma QuestionMarksWrap(ct: seq<byte>)
    requires IsCaseTable(ct)
    ensures var p := seq(256, i => QUESTION); NoZero(p) && Finds(ct, p, [0x41]) && !Matches(ct, p, [0x41])
  {
    var p := seq(256, i => QUESTION);
    AllQuestions(p);
    hide *;
    TermsStep(p);
    TermsStep([]);
    WholePattern(p);
    ShortenedStep(p);
    ShortenedStep([]);
    OneTermWraps(ct, p);
    FindsIs(ct, p, [0x41]);
    NoShorterMatch(ct, p, [0x41]);
  }

  lemma {:induction false} AllQuestions(p: Text)
    requires forall i :: 0 <= i < |p| ==> p[i] == QUESTION
    ensures TermLen(p) == |p| == Questions(p)
    ensures p != [] ==> Wild(p[0])
  {
    if p != [] { AllQuestions(p[1..]); }
  }
}
