/** The link map of a file: its runs of adjacent clusters, from which a cluster is found without reading
    the FAT. */
module LinkMap {
  import opened Chains
  import opened Geometry

  // ----- what a link map means -----

  /** n clusters from number a on follow one another on the drive. */
  ghost predicate Adjacent(s: seq<nat>, a: nat, n: nat) {
    a + n <= |s| && forall i :: a <= i < a + n ==> s[i] == s[a] + (i - a)
  }

  /** A fragment starts at number a of the chain. */
  ghost predicate Breaks(s: seq<nat>, a: nat) {
    0 < a < |s| ==> s[a] != s[a - 1] + 1
  }

  /** Number of fragments: runs of clusters that follow one another. */
  ghost function Fragments(s: seq<nat>): nat {
    if |s| <= 1 then |s|
    else Fragments(s[..|s| - 1]) + (if s[|s| - 1] == s[|s| - 2] + 1 then 0 else 1)
  }

  /** Clusters in the first m entries of the map. */
  ghost function Covered(t: seq<nat>, m: nat): nat
    requires 2 * m < |t|
  {
    if m == 0 then 0 else Covered(t, m - 1) + t[2 * m - 1]
  }

  /** Entry j of the map gives the length and the first cluster of a part of the chain s. */
  ghost predicate SpanAt(t: seq<nat>, j: nat, s: seq<nat>)
    requires 2 * j + 2 < |t|
  {
    var a := Covered(t, j);
    && t[2 * j + 1] > 0
    && Adjacent(s, a, t[2 * j + 1])
    && s[a] == t[2 * j + 2]
  }

  /** The first m entries of the map are the chain s. */
  ghost predicate Spans(t: seq<nat>, m: nat, s: seq<nat>) {
    && 2 * m < |t|
    && Covered(t, m) == |s|
    && forall j :: 0 <= j < m ==> SpanAt(t, j, s)
  }

  /** t is a complete link map of the chain s. */
  ghost predicate IsMap(t: seq<nat>, s: seq<nat>) {
    var m := Fragments(s);
    && Spans(t, m, s)
    && 2 * m + 1 < |t| && t[2 * m + 1] == 0
    && t[0] == 2 + 2 * m
  }

  /** The map a file object uses, if any, is one of its chain. */
  ghost predicate MapOk(t: seq<nat>, s: seq<nat>) {
    t == [] || (s != [] && IsMap(t, s))
  }

  lemma MapOkIs(t: seq<nat>, s: seq<nat>)
    ensures MapOk(t, s) <==> t == [] || (s != [] && IsMap(t, s))
  {
  }

  // ----- using the map -----

  /** Looking for number k: it is in entry j, or after it. */
  lemma LookUp(t: seq<nat>, s: seq<nat>, j: nat, k: nat)
    requires IsMap(t, s) && j <= Fragments(s) && Covered(t, j) <= k
    ensures 2 * j + 1 < |t|
    ensures t[2 * j + 1] == 0 <==> j == Fragments(s)
    ensures j == Fragments(s) ==> |s| <= k
    ensures j < Fragments(s) ==> 2 * j + 2 < |t| && Covered(t, j + 1) == Covered(t, j) + t[2 * j + 1]
    ensures j < Fragments(s) && k - Covered(t, j) < t[2 * j + 1] ==> k < |s| && s[k] == k - Covered(t, j) + t[2 * j + 2]
  {
    if j < Fragments(s) {
      assert SpanAt(t, j, s);
      var a := Covered(t, j);
      assert k - a < t[2 * j + 1] ==> s[k] == s[a] + (k - a);
    }
  }

  /** clmt_clust: the cluster of a byte offset, or 0 past the last cluster. */
  method ClmtClust(g: Geo, tbl: seq<nat>, ofs: nat, ghost s: seq<nat>) returns (clst: nat)
    requires g.csize > 0 && IsMap(tbl, s)
    ensures clst == if ofs / 512 / g.csize < |s| then s[ofs / 512 / g.csize] else 0
  {
    var cl := ofs / 512 / g.csize;
    ghost var k := cl;
    var at := 1;
    ghost var j := 0;
    MapStarts(tbl, s);
    hide *;
    LookUp(tbl, s, 0, k);
    while tbl[at] != 0 && cl >= tbl[at]
      invariant j <= Fragments(s) && at == 2 * j + 1 < |tbl|
      invariant Covered(tbl, j) <= k && cl == k - Covered(tbl, j)
      decreases Fragments(s) - j
    {
      LookUp(tbl, s, j, k);
      cl := cl - tbl[at];
      at := at + 2;
      j := j + 1;
      LookUp(tbl, s, j, k);
    }
    LookUp(tbl, s, j, k);
    clst := 0;
    if tbl[at] != 0 {
      clst := cl + tbl[at + 1];
    }
  }

  lemma MapStarts(t: seq<nat>, s: seq<nat>)
    requires IsMap(t, s)
    ensures 1 < |t| && Covered(t, 0) == 0
  {
  }

  /** The map answers what the FAT answers: the chain's links followed once per cluster before
      the offset, and nothing past the end mark. */
  lemma MapIsWalk(f: Table, s: seq<nat>, k: nat, clst: nat)
    requires IsChain(f, s)
    requires clst == if k < |s| then s[k] else 0
    ensures clst != 0 <==> k < |s|
    ensures clst != 0 ==> clst == Follow(f, s[0], k)
    ensures forall t :: IsChain(f, t) && t[0] == s[0] ==> t == s
  {
    if k < |s| { FollowChain(f, s, k); }
    forall t | IsChain(f, t) && t[0] == s[0]
      ensures t == s
    {
      ChainUnique(f, t, s);
    }
  }
}
