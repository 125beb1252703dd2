/** remove_chain, create_chain and the free-cluster scan of f_getfree, on a volume. */
module ChainOps {
  import opened Allocation
  import opened Chains
  import opened FatAccess
  import opened Geometry
  import opened Results
  import opened Sectors
  import opened Volume

  /** Every drive state written since the log was `before` long holds a well-formed FAT: no
      interruption can leave a link to a free cluster, a loop or two links to one cluster. */
  ghost predicate LoggedWellFormed(g: Geo, before: nat, log: seq<Image>) {
    forall i :: before <= i < |log| ==> g.Valid(|log[i]|) && WellFormed(FatView(g, log[i]))
  }

  lemma LoggedExtends(g: Geo, before: nat, log0: seq<Image>, log1: seq<Image>, f: Table)
    requires before <= |log0| && LogGrew(log0, log1)
    requires LoggedWellFormed(g, before, log0) && LoggedFat(g, |log0|, log1, f) && WellFormed(f)
    ensures LoggedWellFormed(g, before, log1)
  {
    hide WellFormed, FatView;
  }

  /** The end mark that 0xFFFFFFFF becomes lies above every cluster number. */
  lemma EocIsEnd(g: Geo, nsect: nat)
    requires g.Valid(nsect)
    ensures 0xFFFF_FFFF % EntryMod(g.fsType) == g.Eoc()
    ensures g.nFatent <= g.Eoc() < EntryMod(g.fsType)
  {
  }

  lemma ZeroEntry(g: Geo)
    ensures 0 % EntryMod(g.fsType) == 0
  {
  }

  // ----- remove_chain -----

  lemma TableRange(f: Table, c: int)
    ensures InTable(f, c) <==> 2 <= c < |f|
  {
  }

  lemma NothingBroken(g: Geo, log: seq<Image>)
    ensures LoggedWellFormed(g, |log|, log)
  {
  }

  lemma RemovesInTable(f: Table, clst: nat, pclst: nat)
    requires RemovesChain(f, clst, pclst)
    ensures InTable(f, clst) && (pclst != 0 ==> InTable(f, pclst)) && WellFormed(f)
  {
  }

  /** Cutting the chain first, when the caller names the cluster before it. */
  ghost function CutFirst(f: Table, pclst: nat, eoc: nat): (r: Table)
    ensures |r| == |f|
  {
    if 0 < pclst < |f| then f[pclst := eoc] else f
  }

  /** The call frees a whole chain: clst is in use, and either no cluster links to it or the
      one that does is the one to be cut. */
  ghost predicate RemovesChain(f: Table, clst: nat, pclst: nat) {
    && WellFormed(f) && InTable(f, clst) && f[clst] != 0
    && (if pclst == 0 then IsHead(f, clst) else Links(f, pclst, clst))
  }

  /** f' is f with cluster c freed; the other way round, f is f' with c taken. */
  ghost predicate OneFreed(f: Table, f': Table, c: nat) {
    |f'| == |f| >= 3 && InTable(f, c) && f[c] != 0 && f' == f[c := 0]
  }

  /** A cluster has become free. The count stays known or unknown, never passes the number of
      clusters, and if it was right for a table it is right for the table with one cluster of it
      freed. */
  method CountFreed(fs: FatFs)
    requires fs.geo.nFatent >= 3
    modifies fs`freeClst, fs`fsiFlag
    ensures fs.freeClst == if old(fs.freeClst) < fs.geo.nFatent - 2 then old(fs.freeClst) + 1 else old(fs.freeClst)
    ensures fs.freeClst <= fs.geo.nFatent - 2 <==> old(fs.freeClst) <= fs.geo.nFatent - 2
    ensures fs.fsiFlag <==> old(fs.fsiFlag) || fs.freeClst != old(fs.freeClst)
    ensures forall f, f', c :: OneFreed(f, f', c) && |f| == fs.geo.nFatent && CountTracks(f, old(fs.freeClst))
              ==> CountTracks(f', fs.freeClst)
  {
    if fs.freeClst < fs.geo.nFatent - 2 {
      fs.freeClst := fs.freeClst + 1;
      fs.fsiFlag := true;
    }
    forall f, f', c | OneFreed(f, f', c) && |f| == fs.geo.nFatent && CountTracks(f, old(fs.freeClst))
      ensures CountTracks(f', fs.freeClst)
    {
      CountTracksFree(f, c, old(fs.freeClst));
    }
  }

  /** Free one cluster and move on: nxt <= 1 reports that the loop stops before changing anything. */
  method FreeOne(fs: FatFs, clst: nat) returns (nxt: nat)
    requires fs.Valid() && fs.geo.IsCluster(clst)
    modifies fs`winsect, fs`wflag, fs.win, fs.disk, fs`freeClst, fs`fsiFlag
    ensures fs.Valid() && FatWritten(fs.geo, old(fs.Now()), fs.Now())
    ensures nxt == old(fs.Fat())[clst]
    ensures fs.Fat() == if nxt <= 1 then old(fs.Fat()) else old(fs.Fat())[clst := 0]
    ensures fs.freeClst == if nxt > 1 && old(fs.freeClst) < fs.geo.nFatent - 2
                           then old(fs.freeClst) + 1 else old(fs.freeClst)
    ensures fs.fsiFlag <==> old(fs.fsiFlag) || fs.freeClst != old(fs.freeClst)
    ensures fs.geo.fsType != FAT12 ==> LoggedFat(fs.geo, old(|fs.disk.log|), fs.disk.log, old(fs.Fat()))
  {
    hide *;
    VolumeFacts(fs);
    ghost var s0 := fs.Now();
    nxt := GetFat(fs, clst);
    ghost var s1 := fs.Now();
    VolumeFacts(fs);
    LookedFacts(fs.geo, s0, s1);
    if nxt <= 1 {
      return;
    }
    ZeroEntry(fs.geo);
    var res := PutFat(fs, clst, 0);
    ghost var s2 := fs.Now();
    FatWrittenTrans(fs.geo, s0, s1, s2);
    FatWrittenLog(fs.geo, s1, s2);
    if fs.geo.fsType != FAT12 {
      LoggedFatTrans(fs.geo, |s0.log|, s1.log, s2.log, FatView(fs.geo, s0.img));
    }
    CountFreed(fs);
  }

  lemma CountTracksFree(f: Table, c: nat, free: nat)
    requires |f| >= 3 && InTable(f, c) && f[c] != 0 && CountTracks(f, free)
    ensures CountTracks(f[c := 0], if free < |f| - 2 then free + 1 else free)
  {
    FreeCountUpdate(f, c, 0);
  }

  /** Freeing the head of a chain leaves a well-formed table and, if it went on, a new head. */
  lemma RemovesNext(f: Table, c: nat)
    requires RemovesChain(f, c, 0)
    ensures f[c] > 1 && WellFormed(f) && WellFormed(f[c := 0])
    ensures f[c] < |f| ==> RemovesChain(f[c := 0], f[c], 0)
  {
    FreeHeadKeeps(f, c);
    assert f[c] != 1;
  }

  /** One turn of the loop of remove_chain, in a run of turns that began at s0. A safe run frees
      a chain from its head on a 16- or 32-bit FAT. */
  method FreeTurn(fs: FatFs, c: nat, ghost s0: Snap, ghost safe: bool) returns (nxt: nat)
    requires fs.Valid() && InTable(fs.Fat(), c)
    requires FatWritten(fs.geo, s0, fs.Now())
    requires safe ==> fs.geo.fsType != FAT12 && RemovesChain(fs.Fat(), c, 0)
    requires safe ==> LoggedWellFormed(fs.geo, |s0.log|, fs.disk.log)
    modifies fs`winsect, fs`wflag, fs.win, fs.disk, fs`freeClst, fs`fsiFlag
    ensures fs.Valid() && FatWritten(fs.geo, s0, fs.Now())
    ensures nxt == old(fs.Fat())[c]
    ensures fs.Fat() == if nxt <= 1 then old(fs.Fat()) else old(fs.Fat())[c := 0]
    ensures CountTracks(old(fs.Fat()), old(fs.freeClst)) ==> CountTracks(fs.Fat(), fs.freeClst)
    ensures fs.freeClst == old(fs.freeClst) || old(fs.freeClst) < fs.freeClst <= fs.geo.nFatent - 2
    ensures fs.fsiFlag <==> old(fs.fsiFlag) || fs.freeClst != old(fs.freeClst)
    ensures safe ==> (nxt < fs.geo.nFatent ==> RemovesChain(fs.Fat(), nxt, 0))
    ensures safe ==> LoggedWellFormed(fs.geo, |s0.log|, fs.disk.log)
  {
    hide *;
    VolumeFacts(fs);
    ClusterRange(fs.geo, c);
    TableRange(fs.Fat(), c);
    ghost var s1, f1 := fs.Now(), fs.Fat();
    FatWrittenLog(fs.geo, s0, s1);
    if CountTracks(f1, fs.freeClst) && f1[c] != 0 { CountTracksFree(f1, c, fs.freeClst); }
    if safe { RemovesNext(f1, c); }
    nxt := FreeOne(fs, c);
    ghost var s2 := fs.Now();
    FatWrittenTrans(fs.geo, s0, s1, s2);
    FatWrittenLog(fs.geo, s1, s2);
    if safe { LoggedExtends(fs.geo, |s0.log|, s1.log, s2.log, f1); }
  }

  /** The loop of remove_chain, on any table. */
  method FreeLoop(fs: FatFs, clst: nat) returns (res: FResult)
    requires fs.Valid() && InTable(fs.Fat(), clst)
    modifies fs`winsect, fs`wflag, fs.win, fs.disk, fs`freeClst, fs`fsiFlag
    ensures fs.Valid() && FatWritten(fs.geo, old(fs.Now()), fs.Now())
    ensures Removal(fs.Fat(), res) == Removed(old(fs.Fat()), clst)
    ensures CountTracks(old(fs.Fat()), old(fs.freeClst)) ==> CountTracks(fs.Fat(), fs.freeClst)
    ensures fs.freeClst == old(fs.freeClst) || old(fs.freeClst) < fs.freeClst <= fs.geo.nFatent - 2
    ensures fs.fsiFlag <==> old(fs.fsiFlag) || fs.freeClst != old(fs.freeClst)
    ensures fs.geo.fsType != FAT12 && RemovesChain(old(fs.Fat()), clst, 0)
            ==> LoggedWellFormed(fs.geo, old(|fs.disk.log|), fs.disk.log)
  {
    hide *;
    VolumeFacts(fs);
    ghost var s0, f0, free0 := fs.Now(), fs.Fat(), fs.freeClst;
    ghost var safe := RemovesChain(f0, clst, 0) && fs.geo.fsType != FAT12;
    FatWrittenRefl(fs.geo, s0);
    NothingLogged(fs.geo, s0.log, f0);
    NothingBroken(fs.geo, s0.log);
    var c: nat := clst;
    res := FR_OK;
    while true
      invariant fs.Valid() && InTable(fs.Fat(), c) && |fs.Fat()| == |f0|
      invariant FatWritten(fs.geo, s0, fs.Now())
      invariant Removed(fs.Fat(), c) == Removed(f0, clst)
      invariant CountTracks(f0, free0) ==> CountTracks(fs.Fat(), fs.freeClst)
      invariant fs.freeClst == free0 || free0 < fs.freeClst <= fs.geo.nFatent - 2
      invariant fs.fsiFlag <==> old(fs.fsiFlag) || fs.freeClst != free0
      invariant safe ==> RemovesChain(fs.Fat(), c, 0) && LoggedWellFormed(fs.geo, |s0.log|, fs.disk.log)
      decreases |f0| - FreeCount(fs.Fat())
    {
      RemovedStep(fs.Fat(), c);
      var nxt := FreeTurn(fs, c, s0, safe);
      res := if nxt == 1 then FR_INT_ERR else FR_OK;
      if nxt <= 1 || nxt >= fs.geo.nFatent {
        break;
      }
      c := nxt;
    }
  }

  lemma CutLinkFacts(g: Geo, nsect: nat, f: Table, clst: nat, pclst: nat, free: nat)
    requires g.Valid(nsect) && |f| == g.nFatent && InTable(f, clst) && (pclst == 0 || InTable(f, pclst))
    ensures var f1 := CutFirst(f, pclst, g.Eoc());
            && InTable(f1, clst)
            && f1 == (if pclst == 0 then f else f[pclst := 0xFFFF_FFFF % EntryMod(g.fsType)])
            && (RemovesChain(f, clst, pclst) ==>
                  && WellFormed(f) && RemovesChain(f1, clst, 0)
                  && WellFormed(Removed(f1, clst).table) && Removed(f1, clst).res == FR_OK)
            && (CountTracks(f, free) && (pclst == 0 || f[pclst] != 0) ==> CountTracks(f1, free))
  {
    EocIsEnd(g, nsect);
    if pclst != 0 {
      if RemovesChain(f, clst, pclst) {
        CutKeeps(f, pclst, g.Eoc());
      }
      FreeCountUpdate(f, pclst, g.Eoc());
    }
    if RemovesChain(f, clst, pclst) {
      RemovesIsRemoved(CutFirst(f, pclst, g.Eoc()), clst);
    }
  }

  /** A freed chain leaves a well-formed table. */
  lemma RemovesIsRemoved(f: Table, clst: nat)
    requires RemovesChain(f, clst, 0)
    ensures WellFormed(Removed(f, clst).table) && Removed(f, clst).res == FR_OK
  {
    RemovedKeeps(f, clst);
  }

  /** Put the end mark on the cluster before the removed part, if there is one. */
  method CutBefore(fs: FatFs, pclst: nat) returns (res: FResult)
    requires fs.Valid()
    modifies fs`winsect, fs`wflag, fs.win, fs.disk
    ensures fs.Valid() && FatWritten(fs.geo, old(fs.Now()), fs.Now())
    ensures res == if pclst == 0 || fs.geo.IsCluster(pclst) then FR_OK else FR_INT_ERR
    ensures fs.Fat() == if fs.geo.IsCluster(pclst)
                        then old(fs.Fat())[pclst := 0xFFFF_FFFF % EntryMod(fs.geo.fsType)] else old(fs.Fat())
    ensures fs.geo.fsType != FAT12 ==> LoggedFat(fs.geo, old(|fs.disk.log|), fs.disk.log, old(fs.Fat()))
  {
    hide *;
    VolumeFacts(fs);
    FatWrittenRefl(fs.geo, fs.Now());
    NothingLogged(fs.geo, fs.disk.log, fs.Fat());
    NothingBroken(fs.geo, fs.disk.log);
    ClusterRange(fs.geo, pclst);
    res := FR_OK;
    if pclst != 0 {
      res := PutFat(fs, pclst, 0xFFFF_FFFF);
    }
  }

  /** remove_chain: what it does on any FAT contents, and that removing a chain is safe at every
      point where it may be interrupted. */
  method RemoveChain(fs: FatFs, clst: nat, pclst: nat) returns (res: FResult)
    requires fs.Valid()
    modifies fs`winsect, fs`wflag, fs.win, fs.disk, fs`freeClst, fs`fsiFlag
    ensures fs.Valid() && FatWritten(fs.geo, old(fs.Now()), fs.Now())
    ensures var f := old(fs.Fat());
            if !InTable(f, clst) || (pclst != 0 && !InTable(f, pclst)) then
              res == FR_INT_ERR && fs.Fat() == f && fs.freeClst == old(fs.freeClst)
            else
              Removal(fs.Fat(), res) == Removed(CutFirst(f, pclst, fs.geo.Eoc()), clst)
    ensures var f := old(fs.Fat());
            CountTracks(f, old(fs.freeClst)) && (InTable(f, pclst) ==> f[pclst] != 0)
            ==> CountTracks(fs.Fat(), fs.freeClst)
    ensures fs.freeClst == old(fs.freeClst) || old(fs.freeClst) < fs.freeClst <= fs.geo.nFatent - 2
    ensures fs.fsiFlag <==> old(fs.fsiFlag) || fs.freeClst != old(fs.freeClst)
    ensures RemovesChain(old(fs.Fat()), clst, pclst) ==> res == FR_OK && WellFormed(fs.Fat())
    ensures RemovesChain(old(fs.Fat()), clst, pclst) && fs.geo.fsType != FAT12
            ==> LoggedWellFormed(fs.geo, old(|fs.disk.log|), fs.disk.log)
  {
    hide *;
    VolumeFacts(fs);
    ghost var s0, f0 := fs.Now(), fs.Fat();
    FatWrittenRefl(fs.geo, s0);
    NothingLogged(fs.geo, s0.log, f0);
    NothingBroken(fs.geo, s0.log);
    TableRange(f0, clst);
    TableRange(f0, pclst);
    ClusterRange(fs.geo, pclst);
    if RemovesChain(f0, clst, pclst) { RemovesInTable(f0, clst, pclst); }
    res := FR_INT_ERR;
    if clst >= 2 && clst < fs.geo.nFatent {
      res := CutBefore(fs, pclst);
      if res == FR_OK {
        ghost var s1 := fs.Now();
        CutLinkFacts(fs.geo, |s0.img|, f0, clst, pclst, fs.freeClst);
        FatWrittenLog(fs.geo, s0, s1);
        res := FreeLoop(fs, clst);
        ghost var s2 := fs.Now();
        FatWrittenTrans(fs.geo, s0, s1, s2);
        FatWrittenLog(fs.geo, s1, s2);
        if RemovesChain(f0, clst, pclst) && fs.geo.fsType != FAT12 {
          JoinLogs(fs.geo, |s0.log|, s1.log, s2.log, f0);
        }
      }
    }
  }

  lemma JoinLogs(g: Geo, before: nat, log0: seq<Image>, log1: seq<Image>, f: Table)
    requires before <= |log0| && LogGrew(log0, log1) && WellFormed(f)
    requires LoggedFat(g, before, log0, f) && LoggedWellFormed(g, |log0|, log1)
    ensures LoggedWellFormed(g, before, log1)
  {
    hide WellFormed, FatView;
  }

  // ----- create_chain -----

  /** Where the circular search stands: everything after scl up to c has been passed, and after
      the wrap also everything up to c. */
  ghost predicate Searching(f: Table, scl: nat, c: nat, wrapped: bool) {
    && 1 <= scl < |f|
    && (if wrapped then
          && 2 <= c < scl
          && FirstStop(f, scl + 1, |f|) == |f|
          && FirstStop(f, 2, scl + 1) == FirstStop(f, c + 1, scl + 1)
        else
          && scl <= c < |f|
          && FirstStop(f, scl + 1, |f|) == FirstStop(f, c + 1, |f|))
  }

  lemma SearchStart(f: Table, scl: nat)
    requires 1 <= scl < |f|
    ensures Searching(f, scl, scl, false)
  {
  }

  /** One turn of the search: what the entry looked at means for the answer. */
  lemma SearchTurn(f: Table, scl: nat, c: nat, wrapped: bool)
    requires |f| >= 3 && Searching(f, scl, c, wrapped)
    ensures var wraps := c + 1 >= |f|;
            var next := if wraps then 2 else c + 1;
            && (wraps ==> !wrapped)
            && c < |f|
            && if wraps && 2 > scl then Searched(f, scl) == 0
            else
              && 2 <= next < |f|
              && (f[next] == 0 ==> Searched(f, scl) == next)
              && (f[next] == 1 ==> Searched(f, scl) == 1)
              && (f[next] > 1 && next == scl ==> Searched(f, scl) == 0)
              && (f[next] > 1 && next != scl ==> Searching(f, scl, next, wrapped || wraps))
  {
    hide FirstStop;
    FirstStopStep(f, c + 1, |f|);
    FirstStopStep(f, 2, scl + 1);
    if wrapped {
      FirstStopStep(f, c + 1, scl + 1);
      FirstStopStep(f, c + 2, scl + 1);
    } else if scl >= 2 {
      FirstStopStep(f, 3, scl + 1);
    }
  }

  /** get_fat of a cluster, in a run of reads that began at s0. */
  method Probe(fs: FatFs, c: nat, ghost s0: Snap) returns (cs: nat)
    requires fs.Valid() && 2 <= c < fs.geo.nFatent
    requires fs.geo.Valid(|s0.img|) && Looked(fs.geo, s0, fs.Now()) && fs.Img() == s0.img
    modifies fs`winsect, fs`wflag, fs.win, fs.disk
    ensures fs.Valid() && Looked(fs.geo, s0, fs.Now()) && fs.Img() == s0.img
    ensures cs == FatView(fs.geo, s0.img)[c]
  {
    hide *;
    VolumeFacts(fs);
    ClusterRange(fs.geo, c);
    ghost var s1 := fs.Now();
    cs := GetFat(fs, c);
    VolumeFacts(fs);
    LookedTrans(fs.geo, s0, s1, fs.Now());
  }

  /** The search loop of create_chain. */
  method SearchFree(fs: FatFs, scl: nat) returns (ncl: nat)
    requires fs.Valid() && 1 <= scl < fs.geo.nFatent
    modifies fs`winsect, fs`wflag, fs.win, fs.disk
    ensures fs.Valid() && Looked(fs.geo, old(fs.Now()), fs.Now())
    ensures ncl == Searched(old(fs.Fat()), scl)
  {
    hide *;
    VolumeFacts(fs);
    ghost var s0, f := fs.Now(), fs.Fat();
    ghost var wrapped := false;
    LookedRefl(fs.geo, s0);
    SearchStart(f, scl);
    ncl := scl;
    while true
      invariant fs.Valid() && Looked(fs.geo, s0, fs.Now()) && fs.Img() == s0.img
      invariant Searching(f, scl, ncl, wrapped) && ncl < |f|
      decreases !wrapped, |f| - ncl
    {
      SearchTurn(f, scl, ncl, wrapped);
      ncl := ncl + 1;
      if ncl >= fs.geo.nFatent {
        ncl := 2;
        if ncl > scl {
          ncl := 0;
          break;
        }
        wrapped := true;
      }
      var cs := Probe(fs, ncl, s0);
      if cs == 0 {
        break;
      }
      if cs == 1 || ncl == scl {
        ncl := if cs == 1 then 1 else 0;
        break;
      }
    }
  }

  /** Is the cluster after the end of the chain free? Its number, 1 for an error, 0 if it is not. */
  method NextIfFree(fs: FatFs, clst: nat, ghost s0: Snap) returns (ncl: nat)
    requires fs.Valid() && 2 <= clst < fs.geo.nFatent
    requires fs.geo.Valid(|s0.img|) && Looked(fs.geo, s0, fs.Now()) && fs.Img() == s0.img
    modifies fs`winsect, fs`wflag, fs.win, fs.disk
    ensures fs.Valid() && Looked(fs.geo, s0, fs.Now()) && fs.Img() == s0.img
    ensures var next := if clst + 1 >= fs.geo.nFatent then 2 else clst + 1;
            var cs := FatView(fs.geo, s0.img)[next];
            ncl == if cs == 0 then next else if cs == 1 then 1 else 0
  {
    hide *;
    VolumeFacts(fs);
    ncl := clst + 1;
    if ncl >= fs.geo.nFatent {
      ncl := 2;
    }
    var cs := Probe(fs, ncl, s0);
    ncl := if cs == 0 then ncl else if cs == 1 then 1 else 0;
  }

  /** The cluster a chain gets next: the one after its end if that is free, or what the search finds. */
  method ChooseCluster(fs: FatFs, clst: nat) returns (ncl: nat)
    requires fs.Valid() && (clst == 0 || InTable(fs.Fat(), clst))
    modifies fs`winsect, fs`wflag, fs.win, fs.disk
    ensures fs.Valid() && Looked(fs.geo, old(fs.Now()), fs.Now()) && fs.Img() == old(fs.Img())
    ensures ncl == Chosen(old(fs.Fat()), clst, fs.lastClst)
  {
    hide *;
    VolumeFacts(fs);
    ghost var s0, f := fs.Now(), fs.Fat();
    LookedRefl(fs.geo, s0);
    ChosenCases(f, clst, fs.lastClst);
    var scl := fs.lastClst;
    ncl := 0;
    if clst == 0 {
      if scl == 0 || scl >= fs.geo.nFatent {
        scl := 1;
      }
    } else {
      ncl := NextIfFree(fs, clst, s0);
      if scl < 2 || scl >= fs.geo.nFatent {
        scl := clst;
      }
    }
    if ncl == 0 {
      VolumeFacts(fs);
      ghost var s1 := fs.Now();
      ncl := SearchFree(fs, scl);
      LookedTrans(fs.geo, s0, s1, fs.Now());
    }
  }

  /** The cluster has been allocated: remember it. The count stays known or unknown, and if it was
      right for a table it is right for the table with one free cluster of it taken. */
  method CountAllocated(fs: FatFs, ncl: nat)
    requires fs.freeClst > 0 && fs.geo.nFatent >= 3
    modifies fs`lastClst, fs`freeClst, fs`fsiFlag
    ensures fs.lastClst == ncl
    ensures fs.freeClst == if old(fs.freeClst) <= fs.geo.nFatent - 2 then old(fs.freeClst) - 1 else old(fs.freeClst)
    ensures fs.freeClst <= fs.geo.nFatent - 2 <==> old(fs.freeClst) <= fs.geo.nFatent - 2
    ensures fs.fsiFlag
    ensures forall f, f', c :: OneFreed(f', f, c) && |f| == fs.geo.nFatent && CountTracks(f, old(fs.freeClst))
              ==> CountTracks(f', fs.freeClst)
  {
    fs.lastClst := ncl;
    if fs.freeClst <= fs.geo.nFatent - 2 {
      fs.freeClst := fs.freeClst - 1;
    }
    fs.fsiFlag := true;
    forall f, f', c | OneFreed(f', f, c) && |f| == fs.geo.nFatent && CountTracks(f, old(fs.freeClst))
      ensures CountTracks(f', fs.freeClst)
    {
      FreeCountUpdate(f', c, 0);
    }
  }

  /** The new cluster may be put at the end of the chain that stops at clst (0: start a chain). */
  ghost predicate CanTake(f: Table, clst: nat, ncl: nat) {
    InTable(f, ncl) && f[ncl] == 0 && (clst == 0 || (InTable(f, clst) && f[clst] >= |f|))
  }

  lemma StretchedFacts(g: Geo, nsect: nat, f: Table, clst: nat, ncl: nat)
    requires g.Valid(nsect) && |f| == g.nFatent && CanTake(f, clst, ncl)
    ensures var f1 := f[ncl := 0xFFFF_FFFF % EntryMod(g.fsType)];
            && g.IsCluster(ncl) && (clst != 0 ==> g.IsCluster(clst) && clst != ncl)
            && Stretched(f, clst, ncl, g.Eoc()) == (if clst == 0 then f1 else f1[clst := ncl % EntryMod(g.fsType)])
            && (WellFormed(f) ==> WellFormed(f1) && WellFormed(Stretched(f, clst, ncl, g.Eoc())))
  {
    EocIsEnd(g, nsect);
    ClusterFits(g, nsect, ncl);
    hide WellFormed, EntryMod, Geo.Valid;
    if WellFormed(f) {
      StretchedKeeps(f, clst, ncl, g.Eoc());
    }
  }

  /** A cluster number is stored without loss. */
  lemma ClusterFits(g: Geo, nsect: nat, c: nat)
    requires g.Valid(nsect) && c < g.nFatent
    ensures c % EntryMod(g.fsType) == c
  {
    match g.fsType
    case FAT12 => assert c < 0x1000;
    case FAT16 => assert c < 0x1_0000;
    case FAT32 => assert c < 0x1000_0000;
  }

  /** Mark the new cluster as an end, then link it: at no moment does a link lead to a free cluster. */
  method LinkNew(fs: FatFs, clst: nat, ncl: nat) returns (res: FResult)
    requires fs.Valid() && CanTake(fs.Fat(), clst, ncl)
    modifies fs`winsect, fs`wflag, fs.win, fs.disk
    ensures fs.Valid() && FatWritten(fs.geo, old(fs.Now()), fs.Now())
    ensures res == FR_OK && fs.geo.InFat1(fs.winsect)
    ensures fs.Fat() == Stretched(old(fs.Fat()), clst, ncl, fs.geo.Eoc())
    ensures WellFormed(old(fs.Fat())) ==> WellFormed(fs.Fat())
    ensures WellFormed(old(fs.Fat())) && fs.geo.fsType != FAT12
            ==> LoggedWellFormed(fs.geo, old(|fs.disk.log|), fs.disk.log)
  {
    hide *;
    VolumeFacts(fs);
    ghost var s0, f0 := fs.Now(), fs.Fat();
    ghost var safe := WellFormed(f0) && fs.geo.fsType != FAT12;
    StretchedFacts(fs.geo, |s0.img|, f0, clst, ncl);
    res := PutFat(fs, ncl, 0xFFFF_FFFF);
    ghost var s1, f1 := fs.Now(), fs.Fat();
    FatWrittenLog(fs.geo, s0, s1);
    if safe { FatIsWellFormed(fs.geo, |s0.log|, s1.log, f0); }
    if res == FR_OK && clst != 0 {
      VolumeFacts(fs);
      res := PutFat(fs, clst, ncl);
      ghost var s2 := fs.Now();
      FatWrittenTrans(fs.geo, s0, s1, s2);
      FatWrittenLog(fs.geo, s1, s2);
      if safe { LoggedExtends(fs.geo, |s0.log|, s1.log, s2.log, f1); }
    }
  }

  lemma FatIsWellFormed(g: Geo, before: nat, log: seq<Image>, f: Table)
    requires LoggedFat(g, before, log, f) && WellFormed(f)
    ensures LoggedWellFormed(g, before, log)
  {
  }

  /** The existing answers of create_chain: an error, the next cluster, or 0 to go on. */
  method FollowLink(fs: FatFs, clst: nat) returns (cs: nat)
    requires fs.Valid()
    modifies fs`winsect, fs`wflag, fs.win, fs.disk
    ensures fs.Valid() && Looked(fs.geo, old(fs.Now()), fs.Now()) && fs.Img() == old(fs.Img())
    ensures cs == if clst == 0 then 0 else if !InTable(old(fs.Fat()), clst) || old(fs.Fat())[clst] < 2 then 1
                  else if old(fs.Fat())[clst] < fs.geo.nFatent then old(fs.Fat())[clst] else 0
  {
    hide *;
    VolumeFacts(fs);
    LookedRefl(fs.geo, fs.Now());
    ClusterRange(fs.geo, clst);
    TableRange(fs.Fat(), clst);
    cs := 0;
    if clst != 0 {
      cs := GetFat(fs, clst);
      if cs < 2 {
        cs := 1;
      } else if cs >= fs.geo.nFatent {
        cs := 0;
      }
    }
  }

  lemma CreatedCases(f: Table, clst: nat, last: nat, free: nat)
    requires |f| >= 3
    ensures var follow := if clst == 0 then 0 else if !InTable(f, clst) || f[clst] < 2 then 1
                          else if f[clst] < |f| then f[clst] else 0;
            && (follow != 0 ==> Created(f, clst, last, free) == follow && !Allocates(f, clst, last, free))
            && (follow == 0 ==> clst == 0 || InTable(f, clst))
            && (follow == 0 && free == 0 ==> Created(f, clst, last, free) == 0 && !Allocates(f, clst, last, free))
            && (follow == 0 && free != 0 ==>
                  var ncl := Chosen(f, clst, last);
                  && Created(f, clst, last, free) == ncl
                  && (ncl < 2 ==> !Allocates(f, clst, last, free))
                  && (ncl >= 2 ==> Allocates(f, clst, last, free) && CanTake(f, clst, ncl)))
  {
    if clst == 0 || InTable(f, clst) {
      ChosenInTable(f, clst, last);
    }
  }

  lemma ChosenCanBeTaken(f: Table, clst: nat, last: nat)
    requires |f| >= 3 && (clst == 0 || (InTable(f, clst) && f[clst] >= |f|))
    ensures Chosen(f, clst, last) >= 2 ==> CanTake(f, clst, Chosen(f, clst, last))
  {
    ChosenInTable(f, clst, last);
  }

  /** The part of create_chain that takes a cluster, when the count does not forbid it. */
  method TakeCluster(fs: FatFs, clst: nat) returns (ncl: nat)
    requires fs.Valid() && fs.freeClst != 0
    requires clst == 0 || (InTable(fs.Fat(), clst) && fs.Fat()[clst] >= fs.geo.nFatent)
    modifies fs`winsect, fs`wflag, fs.win, fs.disk, fs`lastClst, fs`freeClst, fs`fsiFlag
    ensures fs.Valid() && FatWritten(fs.geo, old(fs.Now()), fs.Now())
    ensures ncl == Chosen(old(fs.Fat()), clst, old(fs.lastClst))
    ensures ncl >= 2 ==> fs.geo.InFat1(fs.winsect)
    ensures fs.Fat() == if ncl >= 2 then Stretched(old(fs.Fat()), clst, ncl, fs.geo.Eoc()) else old(fs.Fat())
    ensures fs.lastClst == if ncl >= 2 then ncl else old(fs.lastClst)
    ensures fs.fsiFlag <==> old(fs.fsiFlag) || ncl >= 2
    ensures fs.freeClst == if ncl >= 2 && old(fs.freeClst) <= fs.geo.nFatent - 2
                           then old(fs.freeClst) - 1 else old(fs.freeClst)
    ensures WellFormed(old(fs.Fat())) ==> WellFormed(fs.Fat())
    ensures WellFormed(old(fs.Fat())) && fs.geo.fsType != FAT12
            ==> LoggedWellFormed(fs.geo, old(|fs.disk.log|), fs.disk.log)
  {
    hide *;
    VolumeFacts(fs);
    ghost var s0, f0 := fs.Now(), fs.Fat();
    ghost var wf := WellFormed(f0);
    ChosenCanBeTaken(f0, clst, fs.lastClst);
    ncl := ChooseCluster(fs, clst);
    ghost var s1 := fs.Now();
    VolumeFacts(fs);
    LookedFacts(fs.geo, s0, s1);
    if wf { FatIsWellFormed(fs.geo, |s0.log|, s1.log, f0); }
    if ncl >= 2 {
      var res := LinkNew(fs, clst, ncl);
      ghost var s2 := fs.Now();
      FatWrittenTrans(fs.geo, s0, s1, s2);
      FatWrittenLog(fs.geo, s1, s2);
      if wf && fs.geo.fsType != FAT12 { JoinLogs(fs.geo, |s0.log|, s1.log, s2.log, f0); }
      if res == FR_OK {
        CountAllocated(fs, ncl);
      }
    }
  }

  lemma CreatedCount(g: Geo, f: Table, clst: nat, last: nat, free: nat)
    requires |f| >= 3 && WellFormed(f) && CountTracks(f, free) && g.Eoc() >= |f|
    requires Allocates(f, clst, last, free)
    ensures var ncl := Created(f, clst, last, free);
            && ncl < |f| && clst < |f|
            && CountTracks(Stretched(f, clst, ncl, g.Eoc()), if free <= |f| - 2 then free - 1 else free)
  {
    CreatedCases(f, clst, last, free);
    StretchedKeeps(f, clst, Created(f, clst, last, free), g.Eoc());
  }

  /** create_chain. On any table the answer is that of Created; on a well-formed one the table
      stays well formed, on the drive as well at every moment, and the count stays right. */
  method CreateChain(fs: FatFs, clst: nat) returns (ncl: nat)
    requires fs.Valid()
    modifies fs`winsect, fs`wflag, fs.win, fs.disk, fs`lastClst, fs`freeClst, fs`fsiFlag
    ensures fs.Valid() && FatWritten(fs.geo, old(fs.Now()), fs.Now())
    ensures ncl == Created(old(fs.Fat()), clst, old(fs.lastClst), old(fs.freeClst))
    ensures Allocates(old(fs.Fat()), clst, old(fs.lastClst), old(fs.freeClst)) ==> fs.geo.InFat1(fs.winsect)
    ensures fs.Fat() == if Allocates(old(fs.Fat()), clst, old(fs.lastClst), old(fs.freeClst))
                        then Stretched(old(fs.Fat()), clst, ncl, fs.geo.Eoc()) else old(fs.Fat())
    ensures fs.lastClst == if Allocates(old(fs.Fat()), clst, old(fs.lastClst), old(fs.freeClst))
                           then ncl else old(fs.lastClst)
    ensures fs.fsiFlag <==> old(fs.fsiFlag) || Allocates(old(fs.Fat()), clst, old(fs.lastClst), old(fs.freeClst))
    ensures fs.freeClst == if Allocates(old(fs.Fat()), clst, old(fs.lastClst), old(fs.freeClst))
                              && old(fs.freeClst) <= fs.geo.nFatent - 2
                           then old(fs.freeClst) - 1 else old(fs.freeClst)
    ensures WellFormed(old(fs.Fat())) ==> WellFormed(fs.Fat())
    ensures WellFormed(old(fs.Fat())) && CountTracks(old(fs.Fat()), old(fs.freeClst)) ==>
            CountTracks(fs.Fat(), fs.freeClst)
    ensures WellFormed(old(fs.Fat())) && fs.geo.fsType != FAT12
            ==> LoggedWellFormed(fs.geo, old(|fs.disk.log|), fs.disk.log)
  {
    hide *;
    VolumeFacts(fs);
    ghost var s0, f0, last0, free0 := fs.Now(), fs.Fat(), fs.lastClst, fs.freeClst;
    CreatedCases(f0, clst, last0, free0);
    EocIsEnd(fs.geo, |s0.img|);
    if WellFormed(f0) && CountTracks(f0, free0) && Allocates(f0, clst, last0, free0) {
      CreatedCount(fs.geo, f0, clst, last0, free0);
    }
    ncl := FollowLink(fs, clst);
    ghost var s1 := fs.Now();
    VolumeFacts(fs);
    LookedFacts(fs.geo, s0, s1);
    if WellFormed(f0) { FatIsWellFormed(fs.geo, |s0.log|, s1.log, f0); }
    if ncl == 0 && fs.freeClst != 0 {
      ncl := TakeCluster(fs, clst);
      FatWrittenTrans(fs.geo, s0, s1, fs.Now());
      FatWrittenLog(fs.geo, s1, fs.Now());
      if WellFormed(f0) && fs.geo.fsType != FAT12 { JoinLogs(fs.geo, |s0.log|, s1.log, fs.Now().log, f0); }
    }
  }
}
