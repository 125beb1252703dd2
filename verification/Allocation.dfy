/** What create_chain chooses and what remove_chain leaves, as functions on the table. */
module Allocation {
  import opened Chains
  import opened Results

  // ----- remove_chain -----

  datatype Removal = Removal(table: Table, res: FResult)

  /** The do-while loop of remove_chain. Each turn lowers the number of nonzero entries, so it
      ends on any contents, cyclic ones included. */
  ghost function Removed(f: Table, c: nat): (r: Removal)
    requires InTable(f, c)
    ensures |r.table| == |f|
    decreases |f| - FreeCount(f)
  {
    if f[c] == 0 then Removal(f, FR_OK)
    else if f[c] == 1 then Removal(f, FR_INT_ERR)
    else
      FreeCountUpdate(f, c, 0);
      if f[c] < |f| then Removed(f[c := 0], f[c]) else Removal(f[c := 0], FR_OK)
  }

  /** One turn of the loop. */
  lemma RemovedStep(f: Table, c: nat)
    requires InTable(f, c)
    ensures f[c] == 0 ==> Removed(f, c) == Removal(f, FR_OK)
    ensures f[c] == 1 ==> Removed(f, c) == Removal(f, FR_INT_ERR)
    ensures f[c] >= |f| ==> Removed(f, c) == Removal(f[c := 0], FR_OK)
    ensures 1 < f[c] < |f| ==> InTable(f[c := 0], f[c]) && Removed(f, c) == Removed(f[c := 0], f[c])
    ensures f[c] > 1 ==> FreeCount(f) < FreeCount(f[c := 0]) <= |f|
  {
    FreeCountUpdate(f, c, 0);
  }

  /** The table with every cluster of s free. */
  ghost function Freed(f: Table, s: seq<nat>): (r: Table)
    ensures |r| == |f|
    ensures forall c :: 0 <= c < |f| ==> r[c] == if c in s then 0 else f[c]
  {
    seq(|f|, c requires 0 <= c < |f| => if c in s then 0 else f[c])
  }

  /** With its first cluster freed, the rest of a chain is a chain. */
  lemma RestKept(f: Table, s: seq<nat>)
    requires IsChain(f, s) && |s| > 1
    ensures f[s[0]] == s[1] == s[1..][0] && 1 < s[1] < |f| && IsChain(f[s[0] := 0], s[1..])
  {
    ChainTail(f, s, 1);
    forall i | 1 <= i < |s|
      ensures s[i] != s[0]
    {
      if s[i] == s[0] { ChainDistinct(f, s, i, 0); }
    }
    ChainKept(f, f[s[0] := 0], s[1..]);
  }

  lemma FreedNone(f: Table)
    ensures Freed(f, []) == f
  {
  }

  lemma FreedRest(f: Table, s: seq<nat>)
    requires |s| > 0 && s[0] < |f|
    ensures Freed(f[s[0] := 0], s[1..]) == Freed(f, s)
  {
    assert s == [s[0]] + s[1..];
  }

  /** On a chain the loop frees all of it and nothing else. */
  lemma {:induction false} RemovedIsFreed(f: Table, s: seq<nat>)
    requires IsChain(f, s)
    ensures Removed(f, s[0]) == Removal(Freed(f, s), FR_OK)
    ensures FreeCount(Freed(f, s)) == FreeCount(f) + |s|
    decreases |s|
  {
    var c := s[0];
    ChainNotFree(f, s);
    FreeCountUpdate(f, c, 0);
    FreedRest(f, s);
    if |s| == 1 {
      FreedNone(f[c := 0]);
    } else {
      RestKept(f, s);
      RemovedIsFreed(f[c := 0], s[1..]);
    }
  }

  /** Removing a whole chain keeps the table well formed. */
  lemma {:induction false} RemovedKeeps(f: Table, c: nat)
    requires WellFormed(f) && InTable(f, c) && f[c] != 0 && IsHead(f, c)
    ensures WellFormed(Removed(f, c).table) && Removed(f, c).res == FR_OK
    decreases |f| - FreeCount(f)
  {
    FreeHeadKeeps(f, c);
    FreeCountUpdate(f, c, 0);
    if f[c] < |f| {
      assert f[c] != 1;
      RemovedKeeps(f[c := 0], f[c]);
    }
  }

  // ----- create_chain -----

  /** The first cluster of [lo, hi) whose entry is 0 or 1, or hi. */
  ghost function FirstStop(f: Table, lo: nat, hi: nat): (c: nat)
    requires lo <= hi <= |f|
    ensures lo <= c <= hi
    decreases hi - lo
  {
    if lo == hi || f[lo] <= 1 then lo else FirstStop(f, lo + 1, hi)
  }

  lemma {:induction false} FirstStopIsFirst(f: Table, lo: nat, hi: nat)
    requires lo <= hi <= |f|
    ensures FirstStop(f, lo, hi) < hi ==> f[FirstStop(f, lo, hi)] <= 1
    ensures forall d :: lo <= d < FirstStop(f, lo, hi) ==> f[d] > 1
    decreases hi - lo
  {
    if lo < hi && f[lo] > 1 {
      FirstStopIsFirst(f, lo + 1, hi);
    }
  }

  /** The answer at a stop: the cluster if it is free, 1 for the error mark. */
  ghost function Verdict(f: Table, c: nat): (r: nat)
    requires 1 < c < |f|
  {
    if f[c] == 0 then c else 1
  }

  lemma FirstStopStep(f: Table, lo: nat, hi: nat)
    requires lo <= hi <= |f|
    ensures lo == hi ==> FirstStop(f, lo, hi) == hi
    ensures lo < hi && f[lo] <= 1 ==> FirstStop(f, lo, hi) == lo
    ensures lo < hi && f[lo] > 1 ==> FirstStop(f, lo, hi) == FirstStop(f, lo + 1, hi)
  {
  }

  /** The circular search from the cluster after scl up to scl itself; 0 if it finds nothing. */
  ghost function Searched(f: Table, scl: nat): (r: nat)
    requires 1 <= scl < |f|
    ensures r < |f|
  {
    var a := FirstStop(f, scl + 1, |f|);
    if a < |f| then Verdict(f, a)
    else if scl < 2 then 0
    else
      var b := FirstStop(f, 2, scl + 1);
      if b <= scl then Verdict(f, b) else 0
  }

  /** The search is complete: without error marks it fails only on a full table. */
  lemma SearchedIsComplete(f: Table, scl: nat)
    requires 1 <= scl < |f| && |f| >= 3
    requires forall c :: InTable(f, c) ==> f[c] != 1
    ensures Searched(f, scl) == 0 <==> FreeCount(f) == 0
    ensures Searched(f, scl) != 0 ==> InTable(f, Searched(f, scl)) && f[Searched(f, scl)] == 0
  {
    FreeCountZero(f);
    FirstStopIsFirst(f, scl + 1, |f|);
    FirstStopIsFirst(f, 2, scl + 1);
    var a := FirstStop(f, scl + 1, |f|);
    if a < |f| {
      assert InTable(f, a);
    } else if scl >= 2 {
      var b := FirstStop(f, 2, scl + 1);
      if b <= scl {
        assert InTable(f, b);
      }
    }
  }

  /** Where the search starts for a new chain. */
  ghost function NewStart(n: nat, last: nat): nat {
    if last == 0 || last >= n then 1 else last
  }

  /** The cluster a new chain gets (clst is 0) or a chain that ends at clst is stretched to. */
  ghost function Chosen(f: Table, clst: nat, last: nat): (r: nat)
    requires |f| >= 3 && (clst == 0 || InTable(f, clst))
    ensures r < |f|
  {
    if clst == 0 then Searched(f, NewStart(|f|, last))
    else
      var next := if clst + 1 >= |f| then 2 else clst + 1;
      if f[next] == 0 then next
      else if f[next] == 1 then 1
      else Searched(f, if 2 <= last < |f| then last else clst)
  }

  /** The choice, case by case, as create_chain makes it. */
  lemma ChosenCases(f: Table, clst: nat, last: nat)
    requires |f| >= 3 && (clst == 0 || InTable(f, clst))
    ensures var next := if clst + 1 >= |f| then 2 else clst + 1;
            && (clst != 0 ==> 2 <= next < |f|)
            && (clst == 0 ==> Chosen(f, clst, last) == Searched(f, if last == 0 || last >= |f| then 1 else last))
            && (clst != 0 && f[next] == 0 ==> Chosen(f, clst, last) == next)
            && (clst != 0 && f[next] == 1 ==> Chosen(f, clst, last) == 1)
            && (clst != 0 && f[next] > 1 ==>
                Chosen(f, clst, last) == Searched(f, if 2 <= last < |f| then last else clst))
    ensures clst == 0 || 2 <= clst < |f|
  {
  }

  lemma SearchedInTable(f: Table, scl: nat)
    requires 1 <= scl < |f|
    ensures Searched(f, scl) >= 2 ==> InTable(f, Searched(f, scl)) && f[Searched(f, scl)] == 0
  {
  }

  /** Whatever the table holds, a chosen cluster was free. */
  lemma ChosenInTable(f: Table, clst: nat, last: nat)
    requires |f| >= 3 && (clst == 0 || InTable(f, clst))
    ensures Chosen(f, clst, last) >= 2 ==> InTable(f, Chosen(f, clst, last)) && f[Chosen(f, clst, last)] == 0
  {
    if clst == 0 {
      SearchedInTable(f, NewStart(|f|, last));
    } else {
      SearchedInTable(f, if 2 <= last < |f| then last else clst);
    }
  }

  /** Without error marks the choice is a free cluster, or 0 exactly on a full table. */
  lemma ChosenIsFree(f: Table, clst: nat, last: nat)
    requires |f| >= 3 && (clst == 0 || InTable(f, clst))
    requires forall c :: InTable(f, c) ==> f[c] != 1
    ensures Chosen(f, clst, last) == 0 <==> FreeCount(f) == 0
    ensures Chosen(f, clst, last) != 0 ==> InTable(f, Chosen(f, clst, last)) && f[Chosen(f, clst, last)] == 0
  {
    if clst == 0 {
      SearchedIsComplete(f, NewStart(|f|, last));
    } else {
      SearchedIsComplete(f, if 2 <= last < |f| then last else clst);
      var next := if clst + 1 >= |f| then 2 else clst + 1;
      assert InTable(f, next);
      FreeCountZero(f);
    }
  }

  /** The value create_chain returns, for any table and any cached free count. */
  ghost function Created(f: Table, clst: nat, last: nat, free: nat): (r: nat)
    requires |f| >= 3
    ensures r < |f|
  {
    if clst != 0 && (!InTable(f, clst) || f[clst] < 2) then 1
    else if clst != 0 && f[clst] < |f| then f[clst]
    else if free == 0 then 0
    else Chosen(f, clst, last)
  }

  /** Whether the call takes a cluster from the free ones. */
  ghost predicate Allocates(f: Table, clst: nat, last: nat, free: nat)
    requires |f| >= 3
  {
    && (clst == 0 || (InTable(f, clst) && f[clst] >= |f|))
    && Created(f, clst, last, free) >= 2
  }

  /** The table after the call. */
  ghost function Stretched(f: Table, clst: nat, ncl: nat, eoc: nat): (r: Table)
    requires ncl < |f| && clst < |f|
    ensures |r| == |f|
  {
    var f1 := f[ncl := eoc];
    if clst == 0 then f1 else f1[clst := ncl]
  }

  /** A cached count is unknown (out of range) or right. */
  ghost predicate CountTracks(f: Table, free: nat)
    requires |f| >= 3
  {
    free > |f| - 2 || free == FreeCount(f)
  }

  lemma CreatedOnWellFormed(f: Table, clst: nat, last: nat, free: nat)
    requires WellFormed(f) && CountTracks(f, free)
    requires clst == 0 || (InTable(f, clst) && f[clst] != 0)
    ensures Created(f, clst, last, free) == 0 || InTable(f, Created(f, clst, last, free))
    ensures Created(f, clst, last, free) == 0 <==> (FreeCount(f) == 0 && (clst == 0 || f[clst] >= |f|))
    ensures Allocates(f, clst, last, free) ==> f[Created(f, clst, last, free)] == 0
  {
    ChosenIsFree(f, clst, last);
  }

  /** Stretching keeps the chains apart, terminated and, but for the one stretched, the same. */
  lemma StretchedKeeps(f: Table, clst: nat, ncl: nat, eoc: nat)
    requires WellFormed(f) && InTable(f, ncl) && f[ncl] == 0 && eoc >= |f|
    requires clst == 0 || (InTable(f, clst) && f[clst] >= |f|)
    ensures WellFormed(f[ncl := eoc])
    ensures WellFormed(Stretched(f, clst, ncl, eoc))
    ensures FreeCount(Stretched(f, clst, ncl, eoc)) == FreeCount(f) - 1
    ensures FreeCount(f[ncl := eoc]) == FreeCount(f) - 1
  {
    AllocateKeeps(f, ncl, eoc);
    FreeCountUpdate(f, ncl, eoc);
    if clst != 0 {
      LinkKeeps(f[ncl := eoc], clst, ncl);
      FreeCountUpdate(f[ncl := eoc], clst, ncl);
    }
  }

  /** The chain that ended at clst now ends at the new cluster. */
  lemma StretchedChain(f: Table, s: seq<nat>, ncl: nat, eoc: nat)
    requires IsChain(f, s) && InTable(f, ncl) && f[ncl] == 0 && eoc >= |f|
    ensures IsChain(Stretched(f, s[|s| - 1], ncl, eoc), s + [ncl])
  {
    var f1 := f[ncl := eoc];
    ChainNotFree(f, s);
    ChainKept(f, f1, s);
    LinkedChain(f1, s, s[|s| - 1], ncl);
  }
}
