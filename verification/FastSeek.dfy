/** f_lseek with a link map: the map is made by walking the chain once, and then a cluster is
    found from an offset without reading the FAT. */
module FastSeek {
  import opened Chains
  import opened FileLayout
  import opened FileRead
  import opened FileSeek
  import opened FileWrite
  import opened Files
  import opened Geometry
  import opened LinkMap
  import opened Numbers
  import opened Results

  /** The chain ends in the last cluster of the volume with the number after it as end mark. */
  ghost predicate EndsOnNext(g: Geo, f: Table, s: seq<nat>) {
    |s| > 0 && s[|s| - 1] == g.nFatent - 1 && s[|s| - 1] < |f| && f[s[|s| - 1]] == g.nFatent
  }

  // ----- making the map -----

  lemma CoveredSame(t: seq<nat>, t': seq<nat>, m: nat)
    requires 2 * m < |t| <= |t'| && forall i :: 1 <= i <= 2 * m ==> t'[i] == t[i]
    ensures Covered(t', m) == Covered(t, m)
  {
  }

  lemma {:induction false} RunAddsOne(s: seq<nat>, a: nat, n: nat)
    requires n > 0 && Adjacent(s, a, n) && Breaks(s, a)
    ensures Fragments(s[..a + n]) == Fragments(s[..a]) + 1
  {
    var p := s[..a + n];
    assert p[..|p| - 1] == s[..a + n - 1];
    if n > 1 {
      assert s[a + n - 1] == s[a] + (n - 1) && s[a + n - 2] == s[a] + (n - 2);
      RunAddsOne(s, a, n - 1);
    }
  }

  /** The table while the map is made, after the clusters s. */
  ghost predicate Mapped(t: seq<nat>, tlen: nat, ulen: nat, at: nat, s: seq<nat>) {
    && |t| > 0 && t[0] == tlen <= |t|
    && ulen == 2 + 2 * Fragments(s)
    && at > 0
    && (ulen <= tlen ==> at == ulen - 1 && Spans(t, Fragments(s), s))
  }

  lemma SpansGrow(t: seq<nat>, m: nat, s: seq<nat>, a: nat, n: nat)
    requires n > 0 && Adjacent(s, a, n) && 2 * m + 2 < |t| && Spans(t, m, s[..a])
    ensures Spans(t[2 * m + 1 := n][2 * m + 2 := s[a]], m + 1, s[..a + n])
  {
    var t' := t[2 * m + 1 := n][2 * m + 2 := s[a]];
    CoveredSame(t, t', m);
    var p := s[..a + n];
    assert SpanAt(t', m, p);
    forall j | 0 <= j < m
      ensures SpanAt(t', j, p)
    {
      assert SpanAt(t, j, s[..a]);
      CoveredSame(t, t', j);
    }
  }

  lemma MappedRun(t: seq<nat>, tlen: nat, ulen: nat, at: nat, s: seq<nat>, a: nat, n: nat)
    requires n > 0 && Adjacent(s, a, n) && Breaks(s, a) && Mapped(t, tlen, ulen, at, s[..a])
    ensures ulen + 2 <= tlen ==>
            0 < at && at + 1 < |t| && Mapped(t[at := n][at + 1 := s[a]], tlen, ulen + 2, at + 2, s[..a + n])
    ensures ulen + 2 > tlen ==> Mapped(t, tlen, ulen + 2, at, s[..a + n])
  {
    hide Spans, Fragments;
    RunAddsOne(s, a, n);
    if ulen + 2 <= tlen {
      SpansGrow(t, Fragments(s[..a]), s, a, n);
    }
  }

  /** One link of a chain: the next cluster, or the mark at the end. */
  lemma LinkCases(g: Geo, f: Table, s: seq<nat>, k: nat)
    requires IsChain(f, s) && WellFormed(f) && |f| == g.nFatent && k < |s|
    ensures g.IsCluster(s[k]) && f[s[k]] > 1
    ensures k + 1 < |s| ==> f[s[k]] == s[k + 1] && f[s[k]] < g.nFatent
    ensures k + 1 == |s| ==> f[s[k]] >= g.nFatent && (f[s[k]] == s[k] + 1 <==> EndsOnNext(g, f, s))
    ensures !g.IsCluster(g.nFatent)
  {
    ChainNotFree(f, s);
  }

  lemma AdjacentOne(s: seq<nat>, a: nat)
    requires a < |s|
    ensures Adjacent(s, a, 0) && Adjacent(s, a, 1)
  {
  }

  lemma AdjacentMore(s: seq<nat>, a: nat, n: nat)
    requires n > 0 && Adjacent(s, a, n) && a + n < |s|
    ensures if s[a + n] == s[a + n - 1] + 1 then Adjacent(s, a, n + 1) else Breaks(s, a + n)
  {
    assert s[a + n - 1] == s[a] + (n - 1);
  }

  lemma BreaksAtEnds(s: seq<nat>)
    ensures Breaks(s, 0) && Breaks(s, |s|) && s[..|s|] == s && s[..0] == []
  {
  }

  lemma FileChain(f: File)
    requires f.Base()
    ensures f.fs.Valid()
    ensures f.chain != [] ==> IsChain(f.fs.Fat(), f.chain) && f.chain[0] == f.sclust
    ensures WellFormed(f.fs.Fat()) && |f.fs.Fat()| == f.fs.geo.nFatent
    ensures f.sclust == 0 <==> f.chain == []
  {
  }

  /** The fragment that starts with cluster tcl, number a of the chain: its length and the link
      after it. It fails only past an end mark that looks like the next cluster. */
  method FollowRun(f: File, tcl: nat, ghost a: nat) returns (ok: bool, cl: nat, ncl: nat)
    requires f.Valid() && a < |f.chain| && tcl == f.chain[a]
    modifies f.fs`winsect, f.fs`wflag, f.fs.win, f.fs.disk
    ensures f.Valid() && f.Bytes() == old(f.Bytes())
    ensures f.fs.Img() == old(f.fs.Img()) && f.fs.Fat() == old(f.fs.Fat())
    ensures !ok ==> EndsOnNext(f.fs.geo, f.fs.Fat(), f.chain)
    ensures ok ==> ncl > 0 && Adjacent(f.chain, a, ncl) && Breaks(f.chain, a + ncl) && a + ncl <= |f.chain|
    ensures ok && a + ncl < |f.chain| ==> cl < f.fs.geo.nFatent && cl == f.chain[a + ncl]
    ensures ok && a + ncl == |f.chain| ==> cl >= f.fs.geo.nFatent && !EndsOnNext(f.fs.geo, f.fs.Fat(), f.chain)
  {
    hide *;
    UnfoldValid(f);
    FileChain(f);
    ghost var g, ft, img, s, bytes := f.fs.geo, f.fs.Fat(), f.fs.Img(), f.chain, f.Bytes();
    AdjacentOne(s, a);
    BreaksAtEnds(s);
    LinkCases(g, ft, s, a);
    ok, cl, ncl := true, tcl, 0;
    var more := true;
    while more
      invariant f.Valid() && f.fs.Valid() && f.Base() && f.Bytes() == bytes && f.fs.Img() == img && f.fs.Fat() == ft
      invariant more ==> ok
      invariant more && a + ncl < |s| ==> cl == s[a + ncl] && Adjacent(s, a, ncl + 1)
      invariant more && a + ncl >= |s| ==> a + ncl == |s| && cl == g.nFatent && EndsOnNext(g, ft, s)
      invariant !ok ==> EndsOnNext(g, ft, s)
      invariant !more && ok ==> ncl > 0 && Adjacent(s, a, ncl) && Breaks(s, a + ncl) && a + ncl <= |s|
      invariant !more && ok && a + ncl < |s| ==> cl < g.nFatent && cl == s[a + ncl]
      invariant !more && ok && a + ncl == |s| ==> cl >= g.nFatent && !EndsOnNext(g, ft, s)
      decreases |s| + 1 - a - ncl, more
    {
      if a + ncl < |s| {
        LinkCases(g, ft, s, a + ncl);
        if a + ncl + 1 < |s| { AdjacentMore(s, a, ncl + 1); }
      }
      var pcl := cl;
      ncl := ncl + 1;
      UnfoldValid(f);
      cl := NextLink(f, cl);
      UnfoldValid(f);
      FileChain(f);
      if cl <= 1 {
        ok, more := false, false;
      } else {
        more := cl == pcl + 1;
      }
    }
  }

  /** There is such a chain in a well-formed FAT: four entries, cluster 3 ended by the number 4. */
  lemma LinkMapCanFail(g: Geo)
    requires g.nFatent == 4
    ensures var f: Table := [0xFFF8, 0xFFFF, 0, 4];
            WellFormed(f) && IsChain(f, [3]) && IsHead(f, 3) && EndsOnNext(g, f, [3])
  {
    var f: Table := [0xFFF8, 0xFFFF, 0, 4];
    assert IsChain(f, [3]) && [3][0] == 3;
  }

  /** Store a fragment if there is room for it. */
  method StoreRun(tbl: array<nat>, tlen: nat, ulen: nat, at: nat, ncl: nat, tcl: nat, ghost s: seq<nat>, ghost a: nat)
    returns (next: nat)
    requires ncl > 0 && Adjacent(s, a, ncl) && a < |s| && Breaks(s, a) && tcl == s[a] && ulen >= 2
    requires Mapped(tbl[..], tlen, ulen - 2, at, s[..a])
    modifies tbl
    ensures a + ncl <= |s| && Mapped(tbl[..], tlen, ulen, next, s[..a + ncl])
  {
    MappedRun(tbl[..], tlen, ulen - 2, at, s, a, ncl);
    hide *;
    next := at;
    if ulen <= tlen {
      tbl[at] := ncl;
      tbl[at + 1] := tcl;
      next := at + 2;
    }
  }

  lemma MappedStart(t: seq<nat>)
    requires |t| > 0 && t[0] <= |t|
    ensures Mapped(t, t[0], 2, 1, [])
  {
  }

  /** What is left of the map when it was made: complete, or only its size. */
  lemma MappedEnd(t: seq<nat>, tlen: nat, ulen: nat, at: nat, s: seq<nat>)
    requires Mapped(t, tlen, ulen, at, s)
    ensures ulen == 2 + 2 * Fragments(s) && |t| > 0
    ensures ulen <= tlen ==> 0 < at < |t| && IsMap(t[0 := ulen][at := 0], s)
  {
    if ulen <= tlen {
      var t', m := t[0 := ulen][at := 0], Fragments(s);
      CoveredSame(t, t', m);
      forall j | 0 <= j < m
        ensures SpanAt(t', j, s)
      {
        assert SpanAt(t, j, s);
        CoveredSame(t, t', j);
      }
    }
  }

  /** The walk over the whole chain. */
  method WalkFragments(f: File, tbl: array<nat>, tlen: nat) returns (ok: bool, ulen: nat, at: nat)
    requires f.Valid() && f.sclust != 0 && tbl.Length > 0 && tbl[0] == tlen <= tbl.Length
    modifies tbl, f.fs`winsect, f.fs`wflag, f.fs.win, f.fs.disk
    ensures f.Valid() && f.Bytes() == old(f.Bytes())
    ensures f.fs.Img() == old(f.fs.Img()) && f.fs.Fat() == old(f.fs.Fat())
    ensures ok <==> !EndsOnNext(f.fs.geo, f.fs.Fat(), f.chain)
    ensures ok ==> Mapped(tbl[..], tlen, ulen, at, f.chain)
  {
    hide *;
    UnfoldValid(f);
    FileChain(f);
    ghost var g, ft, img, s, bytes := f.fs.geo, f.fs.Fat(), f.fs.Img(), f.chain, f.Bytes();
    BreaksAtEnds(s);
    MappedStart(tbl[..]);
    ghost var a := 0;
    var cl := f.sclust;
    ok, ulen, at := true, 2, 1;
    var more := true;
    while more
      invariant f.Valid() && f.fs.Valid() && f.Base() && f.Bytes() == bytes && f.fs.Img() == img && f.fs.Fat() == ft
      invariant a <= |s| && ulen >= 2
      invariant more ==> ok && a < |s| && cl == s[a] && Breaks(s, a)
      invariant ok ==> Mapped(tbl[..], tlen, ulen, at, s[..a])
      invariant !ok ==> EndsOnNext(g, ft, s)
      invariant !more && ok ==> a == |s| && !EndsOnNext(g, ft, s)
      decreases |s| - a, more
    {
      var tcl, ncl := cl, 0;
      ulen := ulen + 2;
      ok, cl, ncl := FollowRun(f, tcl, a);
      UnfoldValid(f);
      FileChain(f);
      if !ok {
        more := false;
      } else {
        at := StoreRun(tbl, tlen, ulen, at, ncl, tcl, s, a);
        a := a + ncl;
        more := cl < f.fs.geo.nFatent;
      }
    }
  }

  lemma NoFragments(t: seq<nat>, g: Geo, f: Table)
    requires |t| > 0 && t[0] <= |t|
    ensures Mapped(t, t[0], 2, 1, []) && !EndsOnNext(g, f, [])
  {
  }

  /** CREATE_LINKMAP: the map is made if it fits; its size is stored whether it fits or not. It
      fails with FR_INT_ERR exactly on a chain whose end mark could be taken for a next cluster. */
  method CreateLinkMap(f: File, tbl: array<nat>) returns (res: FResult)
    requires f.Valid() && tbl.Length > 0 && tbl[0] <= tbl.Length
    modifies tbl, f.fs`winsect, f.fs`wflag, f.fs.win, f.fs.disk
    ensures f.Valid() && f.Bytes() == old(f.Bytes())
    ensures f.fs.Img() == old(f.fs.Img()) && f.fs.Fat() == old(f.fs.Fat())
    ensures res == if EndsOnNext(f.fs.geo, f.fs.Fat(), f.chain) then FR_INT_ERR
                   else if 2 + 2 * Fragments(f.chain) <= old(tbl[0]) then FR_OK else FR_NOT_ENOUGH_CORE
    ensures res != FR_INT_ERR ==> tbl[0] == 2 + 2 * Fragments(f.chain)
    ensures res == FR_OK ==> IsMap(tbl[..], f.chain)
  {
    hide *;
    UnfoldValid(f);
    FileChain(f);
    NoFragments(tbl[..], f.fs.geo, f.fs.Fat());
    var tlen := tbl[0];
    var ulen, at, ok := 2, 1, true;
    if f.sclust != 0 {
      ok, ulen, at := WalkFragments(f, tbl, tlen);
    }
    if !ok {
      res := FR_INT_ERR;
    } else {
      MappedEnd(tbl[..], tlen, ulen, at, f.chain);
      res := FR_OK;
      tbl[0] := ulen;
      if ulen <= tlen {
        tbl[at] := 0;
      } else {
        res := FR_NOT_ENOUGH_CORE;
      }
    }
  }

  // ----- the seek -----

  /** The byte before a position inside a sector is in the sector of the position. */
  lemma ByteBefore(g: Geo, nsect: nat, chain: seq<nat>, size: nat, ofs: nat)
    requires g.Valid(nsect) && OwnClusters(g, chain) && Covers(g, chain, size) && 0 < ofs <= size
    ensures (ofs - 1) / 512 / g.csize < |chain|
    ensures AtPrev(g, chain, ofs, chain[(ofs - 1) / 512 / g.csize])
    ensures g.ClstSect(chain[(ofs - 1) / 512 / g.csize]) != 0
    ensures ofs % 512 != 0 ==>
      && HasSector(g, chain, ofs / 512)
      && Lba(g, chain, ofs / 512) == g.ClstSect(chain[(ofs - 1) / 512 / g.csize]) + (ofs - 1) / 512 % g.csize
  {
    DivMonotone(g.csize, (ofs - 1) / 512, (size - 1) / 512);
    ClusterInDataArea(g, nsect, chain[(ofs - 1) / 512 / g.csize]);
  }

  /** f_lseek with a link map in use: the position asked for, clipped at the file size. */
  method SeekFast(f: File, ofs: nat) returns (res: FResult)
    requires f.Valid() && f.cltbl != []
    modifies f`fptr, f`clust, f`dirty, f`sect, f.buf, f.fs.disk
    ensures f.dirty ==> old(f.dirty)
    ensures f.Valid() && res == FR_OK
    ensures f.fptr == if ofs > f.objsize then f.objsize else ofs
    ensures f.Bytes() == old(f.Bytes()) && f.fs.Fat() == old(f.fs.Fat())
    ensures KeepsOthers(f.fs.geo, old(f.fs.Img()), f.fs.Img(), f.chain)
    ensures NotMoved(f.fs.geo, f.chain, f.fptr, old(f.sect)) ==> Stays(f, old(f.sect), old(f.dirty), old(f.buf[..]))
  {
    hide *;
    UnfoldValid(f);
    Unfold(f);
    MapOkIs(f.cltbl, f.chain);
    KeepsOthersRefl(f.fs.geo, f.fs.Img(), f.chain);
    StaysIs(f, f.sect, f.dirty, f.buf[..]);
    res := FR_OK;
    var target := if ofs > f.objsize then f.objsize else ofs;
    if target > 0 {
      ByteBefore(f.fs.geo, |f.fs.disk.sectors|, f.chain, f.objsize, target);
      f.clust := ClmtClust(f.fs.geo, f.cltbl, target - 1, f.chain);
      var dsc := f.fs.geo.ClstSect(f.clust);
      if dsc == 0 {
        assert false;
      } else {
        dsc := dsc + (target - 1) / 512 % f.fs.geo.csize;
        f.fptr := target;
        ShowMapped(f, dsc);
      }
    } else {
      f.fptr := 0;
      AtStart(f.fs.geo, f.chain, f.clust, f.sect);
      UnfoldValid(f);
    }
  }

  lemma AtStart(g: Geo, chain: seq<nat>, clust: nat, sect: nat)
    ensures AtPrev(g, chain, 0, clust) && InSect(g, chain, 0, sect)
  {
  }

  /** Refill the buffer if the position is inside a sector it does not show. */
  method ShowMapped(f: File, dsc: nat)
    requires f.trust == Resized(f.trust, f.objsize) && MapOk(f.cltbl, f.chain)
    requires f.Base() && f.fptr <= f.objsize && AtPrev(f.fs.geo, f.chain, f.fptr, f.clust)
    requires f.fptr % 512 != 0 ==>
             HasSector(f.fs.geo, f.chain, f.fptr / 512) && Lba(f.fs.geo, f.chain, f.fptr / 512) == dsc
    modifies f`dirty, f`sect, f.buf, f.fs.disk
    ensures f.dirty ==> old(f.dirty)
    ensures f.Valid() && f.Bytes() == old(f.Bytes()) && f.fs.Fat() == old(f.fs.Fat())
    ensures KeepsOthers(f.fs.geo, old(f.fs.Img()), f.fs.Img(), f.chain)
    ensures NotMoved(f.fs.geo, f.chain, f.fptr, old(f.sect)) ==> Stays(f, old(f.sect), old(f.dirty), old(f.buf[..]))
  {
    hide *;
    Unfold(f);
    KeepsOthersRefl(f.fs.geo, f.fs.Img(), f.chain);
    NotMovedIs(f.fs.geo, f.chain, f.fptr, f.sect);
    StaysIs(f, f.sect, f.dirty, f.buf[..]);
    if f.fptr % 512 != 0 {
      LbaIsOwn(f.fs.geo, f.chain, f.fptr / 512);
      ToSector(f, dsc);
      InSectFrom(f.fs.geo, f.chain, f.fptr, f.sect);
    } else {
      OnBoundary(f.fs.geo, f.chain, f.fptr, f.sect);
    }
    UnfoldValid(f);
  }

  // ----- using the map -----

  /** The file uses the map from now on; it changes nothing of the file. */
  method UseLinkMap(f: File, tbl: array<nat>)
    requires f.Valid() && f.chain != [] && IsMap(tbl[..], f.chain)
    modifies f`cltbl
    ensures f.Valid() && f.cltbl == tbl[..] != [] && f.Bytes() == old(f.Bytes())
  {
    hide *;
    UnfoldValid(f);
    NotEmptyMap(tbl[..], f.chain);
    f.cltbl := tbl[..];
    MapOkIs(f.cltbl, f.chain);
    UnfoldValid(f);
  }

  lemma NotEmptyMap(t: seq<nat>, s: seq<nat>)
    requires IsMap(t, s)
    ensures t != []
  {
  }
}
