/** Cluster chains in a FAT seen as a table: f[c] is 0 for a free cluster, the next cluster,
    or a value of |f| and above at the end of a chain. */
module Chains {

  type Table = seq<nat>

  ghost predicate InTable(f: Table, c: int) {
    2 <= c < |f|
  }

  /** s lists the clusters of a chain from its first to the one with the end mark. */
  ghost predicate IsChain(f: Table, s: seq<nat>) {
    && |s| > 0
    && (forall i :: 0 <= i < |s| ==> InTable(f, s[i]))
    && (forall i :: 0 <= i < |s| - 1 ==> f[s[i]] == s[i + 1])
    && f[s[|s| - 1]] >= |f|
  }

  /** Following the links from c reaches an end mark. */
  ghost predicate Ends(f: Table, c: nat) {
    exists s :: IsChain(f, s) && s[0] == c
  }

  ghost predicate Links(f: Table, c: int, d: int) {
    InTable(f, c) && InTable(f, d) && f[c] == d
  }

  /** No cluster links to c: it can only be reached from a directory entry. */
  ghost predicate IsHead(f: Table, c: nat) {
    forall d :: !Links(f, d, c)
  }

  ghost predicate OnePredecessor(f: Table) {
    forall c, d, e :: Links(f, c, e) && Links(f, d, e) ==> c == d
  }

  /** Links go to clusters in use, never two to the same one, and no entry holds 1. */
  ghost predicate Shaped(f: Table) {
    && (forall c :: InTable(f, c) ==> f[c] != 1)
    && (forall c, d :: Links(f, c, d) ==> f[d] != 0)
    && OnePredecessor(f)
  }

  ghost predicate AllEnd(f: Table) {
    forall c :: InTable(f, c) && f[c] != 0 ==> Ends(f, c)
  }

  /** The FAT is a set of disjoint, acyclic, terminated chains; everything else is free. */
  ghost predicate WellFormed(f: Table) {
    |f| >= 3 && Shaped(f) && AllEnd(f)
  }

  // ----- chains as lists -----

  lemma ChainTail(f: Table, s: seq<nat>, i: nat)
    requires IsChain(f, s) && i < |s|
    ensures IsChain(f, s[i..])
  {
    var t := s[i..];
    forall k | 0 <= k < |t| - 1
      ensures f[t[k]] == t[k + 1]
    {
      assert f[s[i + k]] == s[i + k + 1];
    }
  }

  lemma ChainNotFree(f: Table, s: seq<nat>)
    requires IsChain(f, s)
    ensures forall i :: 0 <= i < |s| ==> f[s[i]] != 0
  {
    forall i | 0 <= i < |s|
      ensures f[s[i]] != 0
    {
      if i < |s| - 1 { assert f[s[i]] == s[i + 1]; }
    }
  }

  /** A chain is determined by where it starts. */
  lemma {:induction false} ChainUnique(f: Table, s: seq<nat>, t: seq<nat>)
    requires IsChain(f, s) && IsChain(f, t) && s[0] == t[0]
    ensures s == t
  {
    assert |s| > 1 ==> f[s[0]] == s[1];
    assert |t| > 1 ==> f[t[0]] == t[1];
    if |s| > 1 && |t| > 1 {
      ChainTail(f, s, 1);
      ChainTail(f, t, 1);
      ChainUnique(f, s[1..], t[1..]);
      assert s == [s[0]] + s[1..] && t == [t[0]] + t[1..];
    }
  }

  /** Following the FAT from c, k times. */
  ghost function Follow(f: Table, c: nat, k: nat): nat {
    if k == 0 then c
    else var p := Follow(f, c, k - 1); if p < |f| then f[p] else 0
  }

  lemma {:induction false} FollowChain(f: Table, s: seq<nat>, k: nat)
    requires IsChain(f, s) && k < |s|
    ensures Follow(f, s[0], k) == s[k]
  {
    if k > 0 {
      FollowChain(f, s, k - 1);
    }
  }

  /** A terminated chain visits no cluster twice. */
  lemma ChainDistinct(f: Table, s: seq<nat>, i: nat, j: nat)
    requires IsChain(f, s) && i < |s| && j < |s| && s[i] == s[j]
    ensures i == j
  {
    ChainTail(f, s, i);
    ChainTail(f, s, j);
    ChainUnique(f, s[i..], s[j..]);
  }

  lemma SamePredecessor(f: Table, s: seq<nat>, i: nat, t: seq<nat>, j: nat)
    requires OnePredecessor(f) && IsChain(f, s) && IsChain(f, t)
    requires 0 < i < |s| && 0 < j < |t| && s[i] == t[j]
    ensures s[i - 1] == t[j - 1]
  {
    assert Links(f, s[i - 1], s[i]) && Links(f, t[j - 1], t[j]);
  }

  /** Two chains that meet are one the tail of the other. */
  lemma {:induction false} ChainsMeet(f: Table, s: seq<nat>, i: nat, t: seq<nat>, j: nat)
    requires OnePredecessor(f) && IsChain(f, s) && IsChain(f, t)
    requires i < |s| && j < |t| && s[i] == t[j] && i <= j
    ensures s == t[j - i..]
  {
    hide OnePredecessor;
    if i == 0 {
      ChainTail(f, t, j);
      ChainUnique(f, s, t[j..]);
    } else {
      SamePredecessor(f, s, i, t, j);
      ChainsMeet(f, s, i - 1, t, j - 1);
    }
  }

  /** Chains that start at different heads share no cluster. */
  lemma ChainsDisjoint(f: Table, s: seq<nat>, t: seq<nat>)
    requires OnePredecessor(f) && IsChain(f, s) && IsChain(f, t)
    requires s[0] != t[0] && IsHead(f, s[0]) && IsHead(f, t[0])
    ensures forall i, j :: 0 <= i < |s| && 0 <= j < |t| ==> s[i] != t[j]
  {
    forall i, j | 0 <= i < |s| && 0 <= j < |t|
      ensures s[i] != t[j]
    {
      if s[i] == t[j] {
        if i <= j {
          ChainsMeet(f, s, i, t, j);
          assert s[0] == t[j - i];
          assert j - i > 0 ==> Links(f, t[j - i - 1], t[j - i]);
          assert false;
        } else {
          ChainsMeet(f, t, j, s, i);
          assert t[0] == s[i - j];
          assert Links(f, s[i - j - 1], s[i - j]);
          assert false;
        }
      }
    }
  }

  /** A chain stays a chain when entries off it change. */
  lemma ChainKept(f: Table, f': Table, s: seq<nat>)
    requires IsChain(f, s) && |f'| == |f|
    requires forall i :: 0 <= i < |s| ==> f'[s[i]] == f[s[i]]
    ensures IsChain(f', s)
  {
  }

  lemma EndsKept(f: Table, f': Table, s: seq<nat>)
    requires IsChain(f, s) && |f'| == |f|
    requires forall i :: 0 <= i < |s| ==> f'[s[i]] == f[s[i]]
    ensures Ends(f', s[0])
  {
    ChainKept(f, f', s);
  }

  // ----- what the allocator and the freer do to the table -----

  lemma AllocateShape(f: Table, c: nat, e: nat)
    requires Shaped(f) && InTable(f, c) && f[c] == 0 && e >= |f|
    ensures Shaped(f[c := e]) && IsHead(f[c := e], c)
  {
    var f' := f[c := e];
    assert forall x, y :: Links(f', x, y) ==> Links(f, x, y);
  }

  lemma AllocateEnds(f: Table, c: nat, e: nat)
    requires AllEnd(f) && InTable(f, c) && f[c] == 0 && e >= |f|
    ensures AllEnd(f[c := e]) && IsChain(f[c := e], [c])
  {
    var f' := f[c := e];
    assert IsChain(f', [c]) && [c][0] == c;
    forall d | InTable(f', d) && f'[d] != 0
      ensures Ends(f', d)
    {
      if d != c {
        var s :| IsChain(f, s) && s[0] == d;
        ChainNotFree(f, s);
        EndsKept(f, f', s);
      }
    }
  }

  /** A free cluster takes an end mark. */
  lemma AllocateKeeps(f: Table, c: nat, e: nat)
    requires WellFormed(f) && InTable(f, c) && f[c] == 0 && e >= |f|
    ensures WellFormed(f[c := e]) && IsHead(f[c := e], c) && IsChain(f[c := e], [c])
  {
    hide Shaped, AllEnd, IsHead, IsChain;
    AllocateShape(f, c, e);
    AllocateEnds(f, c, e);
  }

  lemma LinkShape(f: Table, t: nat, c: nat)
    requires Shaped(f) && InTable(f, t) && InTable(f, c) && t != c
    requires f[t] >= |f| && f[c] >= |f| && IsHead(f, c)
    ensures Shaped(f[t := c])
  {
    var f' := f[t := c];
    assert forall x, y :: Links(f', x, y) ==> Links(f, x, y) || (x == t && y == c);
  }

  /** The last cluster t of a chain is linked to the chain that starts at c. */
  lemma LinkKeeps(f: Table, t: nat, c: nat)
    requires WellFormed(f) && InTable(f, t) && InTable(f, c) && t != c
    requires f[t] >= |f| && f[c] >= |f| && IsHead(f, c)
    ensures WellFormed(f[t := c])
  {
    LinkShape(f, t, c);
    hide Shaped, IsHead, IsChain;
    var f' := f[t := c];
    forall d | InTable(f', d) && f'[d] != 0
      ensures Ends(f', d)
    {
      var s :| IsChain(f, s) && s[0] == d;
      LinkedChain(f, s, t, c);
    }
  }

  /** Linking lengthens the chain that ended at t and no other. */
  lemma LinkedChain(f: Table, s: seq<nat>, t: nat, c: nat)
    requires IsChain(f, s) && InTable(f, t) && InTable(f, c) && t != c
    requires f[t] >= |f| && f[c] >= |f|
    ensures IsChain(f[t := c], if s[|s| - 1] == t then s + [c] else s)
    ensures Ends(f[t := c], s[0])
  {
    var f' := f[t := c];
    forall i | 0 <= i < |s| - 1
      ensures s[i] != t
    {
      assert f[s[i]] == s[i + 1];
    }
    if s[|s| - 1] == t {
      assert IsChain(f', s + [c]) && (s + [c])[0] == s[0];
    } else {
      EndsKept(f, f', s);
    }
  }

  lemma CutShape(f: Table, p: nat, e: nat)
    requires Shaped(f) && InTable(f, p) && f[p] != 0 && e >= |f|
    ensures Shaped(f[p := e])
    ensures InTable(f, f[p]) ==> IsHead(f[p := e], f[p])
  {
    var f' := f[p := e];
    assert forall x, y :: Links(f', x, y) ==> Links(f, x, y) && x != p;
    assert InTable(f, f[p]) ==> Links(f, p, f[p]);
  }

  /** An end mark at p cuts the chain after p; what follows becomes a chain of its own. */
  lemma CutKeeps(f: Table, p: nat, e: nat)
    requires WellFormed(f) && InTable(f, p) && f[p] != 0 && e >= |f|
    ensures WellFormed(f[p := e])
    ensures InTable(f, f[p]) ==> IsHead(f[p := e], f[p])
  {
    CutShape(f, p, e);
    hide Shaped, IsHead, IsChain;
    var f' := f[p := e];
    forall d | InTable(f', d) && f'[d] != 0
      ensures Ends(f', d)
    {
      var s :| IsChain(f, s) && s[0] == d;
      CutChain(f, s, p, e);
    }
  }

  lemma CutChain(f: Table, s: seq<nat>, p: nat, e: nat)
    requires IsChain(f, s) && InTable(f, p) && e >= |f|
    ensures Ends(f[p := e], s[0])
    ensures forall i :: 0 <= i < |s| && s[i] == p ==> IsChain(f[p := e], s[..i + 1])
  {
    var f' := f[p := e];
    forall i | 0 <= i < |s| && s[i] == p
      ensures IsChain(f', s[..i + 1]) && s[..i + 1][0] == s[0]
    {
      forall k | 0 <= k < i
        ensures s[k] != p
      {
        if s[k] == p { ChainDistinct(f, s, k, i); }
      }
    }
    if forall i :: 0 <= i < |s| ==> s[i] != p {
      EndsKept(f, f', s);
    }
  }

  lemma FreeHeadShape(f: Table, c: nat)
    requires Shaped(f) && InTable(f, c) && f[c] != 0 && IsHead(f, c)
    ensures Shaped(f[c := 0])
    ensures InTable(f, f[c]) ==> IsHead(f[c := 0], f[c]) && f[c] != c && f[f[c]] != 0
  {
    var f' := f[c := 0];
    forall x, y | Links(f', x, y)
      ensures Links(f, x, y) && x != c && y != c
    {
      assert x != c;
      assert Links(f, x, y);
    }
    if InTable(f, f[c]) {
      assert Links(f, c, f[c]);
    }
  }

  /** The first cluster of a chain is freed; the next one becomes a head. */
  lemma FreeHeadKeeps(f: Table, c: nat)
    requires WellFormed(f) && InTable(f, c) && f[c] != 0 && IsHead(f, c)
    ensures WellFormed(f[c := 0])
    ensures InTable(f, f[c]) ==> IsHead(f[c := 0], f[c]) && f[c] != c && f[f[c]] != 0
  {
    FreeHeadShape(f, c);
    hide Shaped;
    var f' := f[c := 0];
    forall d | InTable(f', d) && f'[d] != 0
      ensures Ends(f', d)
    {
      var s :| IsChain(f, s) && s[0] == d;
      forall i | 0 <= i < |s|
        ensures s[i] != c
      {
        if i > 0 { assert Links(f, s[i - 1], s[i]); }
      }
      EndsKept(f, f', s);
    }
  }

  // ----- counting free clusters -----

  ghost function FreeBetween(f: Table, lo: nat, hi: nat): (n: nat)
    requires lo <= hi <= |f|
    ensures n <= hi - lo
  {
    if lo == hi then 0 else FreeBetween(f, lo, hi - 1) + (if f[hi - 1] == 0 then 1 else 0)
  }

  /** Number of free clusters. */
  ghost function FreeCount(f: Table): (n: nat)
    requires |f| >= 2
    ensures n <= |f| - 2
  {
    FreeBetween(f, 2, |f|)
  }

  lemma {:induction false} FreeBetweenUpdate(f: Table, lo: nat, hi: nat, c: nat, v: nat)
    requires lo <= hi <= |f| && c < |f|
    ensures FreeBetween(f[c := v], lo, hi) ==
            if lo <= c < hi then FreeBetween(f, lo, hi) - (if f[c] == 0 then 1 else 0) + (if v == 0 then 1 else 0)
            else FreeBetween(f, lo, hi)
  {
    if lo < hi {
      FreeBetweenUpdate(f, lo, hi - 1, c, v);
    }
  }

  lemma FreeCountUpdate(f: Table, c: nat, v: nat)
    requires InTable(f, c)
    ensures FreeCount(f[c := v]) == FreeCount(f) - (if f[c] == 0 then 1 else 0) + (if v == 0 then 1 else 0)
  {
    FreeBetweenUpdate(f, 2, |f|, c, v);
  }

  /** The count is zero exactly when no cluster is free. */
  lemma {:induction false} FreeBetweenZero(f: Table, lo: nat, hi: nat)
    requires lo <= hi <= |f|
    ensures FreeBetween(f, lo, hi) == 0 <==> forall c :: lo <= c < hi ==> f[c] != 0
  {
    if lo < hi {
      FreeBetweenZero(f, lo, hi - 1);
    }
  }

  lemma FreeCountZero(f: Table)
    requires |f| >= 2
    ensures FreeCount(f) == 0 <==> forall c :: InTable(f, c) ==> f[c] != 0
  {
    FreeBetweenZero(f, 2, |f|);
  }
}
