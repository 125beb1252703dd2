/** Runs of long-name entries before a short entry, and the variables that track them. */
module LongRuns {
  import opened Bytes
  import opened Lfn

  type Entry = e: seq<byte> | |e| == 32 witness seq(32, i => 0)

  /** The attribute bits that count. */
  function Attr(e: Entry): nat {
    e[11] as int % 64
  }

  predicate Long(e: Entry) {
    Attr(e) == AM_LFN as int
  }

  /** A run from its flagged entry on: long entries that are accepted, orders falling by one, all
      with one checksum. */
  ghost predicate Partial(p: Entry -> bool, es: seq<Entry>) {
    && |es| > 0
    && forall j :: 0 <= j < |es| ==> InRun(p, es[0], es[j], j)
  }

  ghost predicate InRun(p: Entry -> bool, first: Entry, e: Entry, j: nat) {
    && Long(e) && p(e)
    && (Flagged(e) <==> j == 0)
    && OrderOf(e) == OrderOf(first) - j
    && e[13] == first[13]
  }

  /** The last m entries are a run. */
  ghost predicate RunOf(p: Entry -> bool, es: seq<Entry>, m: nat) {
    0 < m <= |es| && Partial(p, es[|es| - m..])
  }

  /** A run down to order 1 with the checksum: it belongs to the short entry that follows. */
  ghost predicate Named(p: Entry -> bool, es: seq<Entry>, sum: byte, m: nat) {
    && RunOf(p, es, m)
    && OrderOf(es[|es| - 1]) == 1
    && es[|es| - 1][13] == sum
  }

  const DEAD: nat := 0xFF

  /** ord and sum while entries are read: DEAD when no run is open, otherwise the order and the
      checksum the next entry of the run must have; m is the length of the open run. */
  ghost predicate Tracks(p: Entry -> bool, es: seq<Entry>, ord: nat, sum: byte, m: nat) {
    if ord == DEAD then forall i :: !RunOf(p, es, i)
    else RunOf(p, es, m) && OrderOf(es[|es| - 1]) == ord + 1 && sum == es[|es| - 1][13]
  }

  lemma TracksNothing(p: Entry -> bool, sum: byte)
    ensures Tracks(p, [], DEAD, sum, 0)
  {
  }

  /** Two runs that end at the same entry begin at the same entry. */
  lemma OneRun(p: Entry -> bool, es: seq<Entry>, m: nat, i: nat)
    requires RunOf(p, es, m) && RunOf(p, es, i)
    ensures m == i
  {
    hide InRun, Flagged;
    var a, b := es[|es| - m..], es[|es| - i..];
    assert InRun(p, a[0], a[0], 0) && InRun(p, b[0], b[0], 0);
    if m < i {
      assert b[i - m] == a[0] && InRun(p, b[0], b[i - m], i - m);
      FlagOf(p, a[0], a[0], 0);
      FlagOf(p, b[0], a[0], i - m);
    } else if i < m {
      assert a[m - i] == b[0] && InRun(p, a[0], a[m - i], m - i);
      FlagOf(p, b[0], b[0], 0);
      FlagOf(p, a[0], b[0], m - i);
    }
  }

  lemma FlagOf(p: Entry -> bool, first: Entry, e: Entry, j: nat)
    requires InRun(p, first, e, j)
    ensures Flagged(e) <==> j == 0
    ensures Long(e) && p(e)
  {
  }

  /** A run with one entry more is a run if the entry continues it; a run of one is a flagged entry. */
  lemma RunMore(p: Entry -> bool, es: seq<Entry>, e: Entry, m: nat)
    ensures RunOf(p, es + [e], m + 1) <==>
            if m == 0 then Long(e) && p(e) && Flagged(e)
            else RunOf(p, es, m) && Long(e) && p(e) && !Flagged(e)
                 && OrderOf(e) == OrderOf(es[|es| - 1]) - 1 && e[13] == es[|es| - 1][13]
  {
    var w := es + [e];
    if m == 0 {
      var b := w[|w| - 1..];
      assert b == [e];
      assert Partial(p, b) <==> InRun(p, b[0], b[0], 0);
    } else if m <= |es| {
      var a, b := es[|es| - m..], w[|w| - (m + 1)..];
      assert b == a + [e];
      hide InRun;
      RunMoreParts(p, a, e);
    }
  }

  lemma RunMoreParts(p: Entry -> bool, a: seq<Entry>, e: Entry)
    requires |a| > 0
    ensures Partial(p, a + [e]) <==>
            Partial(p, a) && Long(e) && p(e) && !Flagged(e) && OrderOf(e) == OrderOf(a[|a| - 1]) - 1
              && e[13] == a[|a| - 1][13]
  {
    hide InRun;
    var b := a + [e];
    assert forall j :: 0 <= j < |a| ==> b[j] == a[j];
    if Partial(p, b) {
      assert InRun(p, b[0], b[|a|], |a|) && InRun(p, b[0], b[|a| - 1], |a| - 1);
      assert forall j :: 0 <= j < |a| ==> InRun(p, a[0], b[j], j);
      ContinuesRun(p, a[0], a[|a| - 1], e, |a|);
    } else if Partial(p, a) {
      assert InRun(p, a[0], a[|a| - 1], |a| - 1);
      ContinuesRun(p, a[0], a[|a| - 1], e, |a|);
    }
  }

  lemma ContinuesRun(p: Entry -> bool, first: Entry, last: Entry, e: Entry, j: nat)
    requires j > 0 && InRun(p, first, last, j - 1)
    ensures InRun(p, first, e, j) <==>
            Long(e) && p(e) && !Flagged(e) && OrderOf(e) == OrderOf(last) - 1 && e[13] == last[13]
  {
  }

  /** An entry that is not long ends every run. */
  lemma TracksOther(p: Entry -> bool, es: seq<Entry>, e: Entry, sum: byte)
    requires !Long(e)
    ensures Tracks(p, es + [e], DEAD, sum, 0)
  {
    forall i: nat
      ensures !RunOf(p, es + [e], i)
    {
      if i > 0 { RunMore(p, es, e, i - 1); }
    }
  }

  /** A long entry no accept condition holds of ends every run too. */
  lemma TracksRefused(p: Entry -> bool, es: seq<Entry>, e: Entry, sum: byte)
    requires !p(e)
    ensures Tracks(p, es + [e], DEAD, sum, 0)
  {
    forall i: nat
      ensures !RunOf(p, es + [e], i)
    {
      if i > 0 { RunMore(p, es, e, i - 1); }
    }
  }

  /** The flagged entry of a run opens it. */
  lemma TracksFlagged(p: Entry -> bool, es: seq<Entry>, e: Entry)
    requires Long(e) && Flagged(e)
    requires p(e) ==> 0 < OrderOf(e)
    ensures Tracks(p, es + [e], if p(e) then OrderOf(e) - 1 else DEAD, e[13], 1)
  {
    forall i: nat
      ensures RunOf(p, es + [e], i) <==> i == 1 && p(e)
    {
      if i > 0 { RunMore(p, es, e, i - 1); }
    }
  }

  /** Any other long entry continues the open run or ends it. */
  lemma TracksNext(p: Entry -> bool, es: seq<Entry>, e: Entry, ord: nat, sum: byte, m: nat)
    requires Tracks(p, es, ord, sum, m) && Long(e) && !Flagged(e) && ord <= DEAD && OrderOf(e) > 0
    ensures if OrderOf(e) == ord && sum == e[13] && p(e) then Tracks(p, es + [e], ord - 1, sum, m + 1)
            else Tracks(p, es + [e], DEAD, sum, 0)
  {
    UnflaggedOrder(e);
    hide RunOf, Long, Flagged, OrderOf;
    forall i: nat
      ensures RunOf(p, es + [e], i) ==> OrderOf(e) == ord && sum == e[13] && p(e) && i == m + 1
      ensures OrderOf(e) == ord && sum == e[13] && p(e) && i == m + 1 ==> RunOf(p, es + [e], i)
    {
      NoEmptyRun(p, es);
      NoEmptyRun(p, es + [e]);
      if i > 0 {
        RunMore(p, es, e, i - 1);
        if RunOf(p, es + [e], i) { OneRun(p, es, m, i - 1); }
      }
    }
  }

  lemma NoEmptyRun(p: Entry -> bool, es: seq<Entry>)
    ensures !RunOf(p, es, 0)
  {
  }

  lemma UnflaggedOrder(e: Entry)
    requires !Flagged(e)
    ensures OrderOf(e) < DEAD
  {
  }

  /** At a short entry: the run belongs to it exactly when ord is 0 and the checksum is right. */
  lemma TracksShort(p: Entry -> bool, es: seq<Entry>, ord: nat, sum: byte, m: nat, want: byte)
    requires Tracks(p, es, ord, sum, m)
    ensures ord == 0 && sum == want ==> Named(p, es, want, m)
    ensures !(ord == 0 && sum == want) ==> forall i :: !Named(p, es, want, i)
  {
    hide RunOf, OrderOf;
    forall i: nat | Named(p, es, want, i)
      ensures ord == 0 && sum == want
    {
      if ord != DEAD { OneRun(p, es, m, i); }
    }
  }

  // ----- the runs of stored names -----

  /** The entries of a stored name are a run of their short entry. */
  lemma StoredRun(p: Entry -> bool, before: seq<Entry>, es: seq<Entry>, name: Name, sum: byte)
    requires IsName(name) && StoredFrom(es, name, EntryCount(|name|), sum)
    requires forall j :: 0 <= j < |es| ==> p(es[j])
    ensures Named(p, before + es, sum, |es|)
  {
    var n := EntryCount(|name|);
    assert (before + es)[|before|..] == es;
    forall j | 0 <= j < n
      ensures InRun(p, es[0], es[j], j)
    {
      PartInRun(es[0], name, n, sum);
      PartInRun(es[j], name, n - j, sum);
    }
    PartInRun(es[n - 1], name, 1, sum);
  }

  lemma PartInRun(e: Entry, name: Name, ord: nat, sum: byte)
    requires IsName(name) && IsPart(e, name, ord, sum) && 13 * (ord - 1) < |name|
    ensures Long(e) && OrderOf(e) == ord && e[13] == sum && (Flagged(e) <==> ord == EntryCount(|name|))
  {
    OrdBytes(e, name, ord, sum);
  }
}
