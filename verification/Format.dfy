/** f_mkfs: the choice of a layout for a volume, with its retries, and the boot sector that states
    it. The erase block size is 1. All sums are taken in 32 bits, as the code takes them. */
module Format {
  import opened Bytes
  import opened Directory
  import opened Geometry
  import opened Mount
  import opened Numbers
  import opened Results

  // ----- the pieces of a layout -----

  /** Cluster size boundaries, in units of 4096 and of 131072 sectors. */
  const CST: seq<nat> := [1, 4, 16, 64, 256, 512, 0]
  const CST32: seq<nat> := [1, 2, 4, 8, 16, 32, 0]

  /** Clusters that fit if there were nothing but clusters. */
  function Pre(szVol: nat, pau: nat): nat
    requires pau > 0
  {
    Quotient(szVol, pau)
  }

  /** Sectors of one FAT for that many clusters. */
  function FatSectors(t: FsType, pre: nat): nat {
    match t
    case FAT32 => (pre * 4 + 8 + 511) % WRAP / 512
    case FAT16 => ((pre * 2 + 4) % WRAP + 511) % WRAP / 512
    case FAT12 => ((pre * 3 + 1) / 2 + 3 + 511) / 512
  }

  function Reserved(t: FsType): nat { if t == FAT32 then 32 else 1 }

  function RootSectors(t: FsType, nRoot: nat): nat { if t == FAT32 then 0 else nRoot / 16 }

  /** Everything before the data area. */
  function Before(t: FsType, pre: nat, nFat: nat, nRoot: nat): nat {
    Reserved(t) + Times(FatSectors(t, pre), nFat) + RootSectors(t, nRoot)
  }

  /** A layout the loop accepts: n clusters of pau sectors. */
  ghost predicate Plan(szVol: nat, nFat: nat, nRoot: nat, t: FsType, pau: nat, n: nat) {
    && IsClusterSize(pau)
    && var pre := Pre(szVol, pau);
       var before := Before(t, pre, nFat, nRoot);
       && before + pau * 16 <= szVol
       && n == Quotient(szVol - before, pau)
       && (match t
           case FAT32 => MAX_FAT16 < pre <= MAX_FAT32 && MAX_FAT16 < n
           case FAT16 => MAX_FAT12 < pre && MAX_FAT12 < n <= MAX_FAT16
           case FAT12 => pre <= MAX_FAT12 && n <= MAX_FAT12)
  }

  ghost predicate Options(szVol: nat, nFat: nat, nRoot: nat) {
    && 128 <= szVol <= MAX_DWORD && (nFat == 1 || nFat == 2)
    && 0 < nRoot <= 32768 && nRoot % 16 == 0
  }

  lemma FatSectorsBound(t: FsType, pre: nat)
    requires pre <= MAX_DWORD && (t == FAT12 ==> pre <= MAX_FAT12)
    ensures FatSectors(t, pre) <= 0x80_0000
  {
  }

  lemma BeforeBound(szVol: nat, t: FsType, pre: nat, nFat: nat, nRoot: nat)
    requires Options(szVol, nFat, nRoot) && pre <= MAX_DWORD && (t == FAT12 ==> pre <= MAX_FAT12)
    ensures Before(t, pre, nFat, nRoot) <= 0x100_0000 + 2080
    ensures Before(t, pre, nFat, nRoot) ==
            Reserved(t) + (if nFat == 2 then 2 * FatSectors(t, pre) else FatSectors(t, pre)) + RootSectors(t, nRoot)
  {
    FatSectorsBound(t, pre);
    hide FatSectors;
  }

  // ----- which layout is chosen -----

  /** Clusters left when everything before the data area is taken off. */
  function Count(szVol: nat, nFat: nat, nRoot: nat, t: FsType, pau: nat): nat
    requires pau > 0
  {
    var before := Before(t, Pre(szVol, pau), nFat, nRoot);
    if before <= szVol then Quotient(szVol - before, pau) else 0
  }

  /** FAT12 or FAT16, by the clusters there would be if there were nothing else. */
  function SmallType(szVol: nat, pau: nat): FsType
    requires pau > 0
  {
    if Pre(szVol, pau) > MAX_FAT12 then FAT16 else FAT12
  }

  /** There is a layout with this sub-type and cluster size. */
  ghost predicate Good(szVol: nat, nFat: nat, nRoot: nat, t: FsType, pau: nat) {
    pau > 0 && Plan(szVol, nFat, nRoot, t, pau, Count(szVol, nFat, nRoot, t, pau))
  }

  /** Automatic cluster size of FAT12 and FAT16. */
  function Unit16(szVol: nat): (pau: nat)
    ensures IsClusterSize(pau) && pau <= 64
  {
    if szVol < 0x1000 then 1 else if szVol < 0x4000 then 2 else if szVol < 0x1_0000 then 4
    else if szVol < 0x4_0000 then 8 else if szVol < 0x10_0000 then 16 else if szVol < 0x20_0000 then 32 else 64
  }

  /** And of FAT32: the least with fewer than 0x20000 clusters, and at most 64. */
  function Unit32(szVol: nat): (pau: nat)
    ensures IsClusterSize(pau) && pau <= 64
    ensures pau < 64 ==> szVol < 0x2_0000 * pau
    ensures pau > 1 ==> szVol >= 0x1_0000 * pau
  {
    if szVol < 0x2_0000 then 1 else if szVol < 0x4_0000 then 2 else if szVol < 0x8_0000 then 4
    else if szVol < 0x10_0000 then 8 else if szVol < 0x20_0000 then 16 else if szVol < 0x40_0000 then 32 else 64
  }

  /** f_mkfs finds a layout. With a cluster size asked for: there is one with that size, of a sub-type
      that is allowed. Otherwise: of FAT12 and FAT16, the volume must have room for the root directory
      and, if FAT32 is not allowed, not too many clusters of the largest size; for FAT32 alone, it must
      have enough clusters of one sector. */
  ghost predicate Feasible(szVol: nat, nFat: nat, nRoot: nat, fat: bool, fat32: bool, au: nat) {
    if au > 0 then
      (fat && Good(szVol, nFat, nRoot, SmallType(szVol, au), au)) || (fat32 && Good(szVol, nFat, nRoot, FAT32, au))
    else if fat then
      && (Pre(szVol, Unit16(szVol)) > 4085 || Good(szVol, nFat, nRoot, FAT12, Unit16(szVol)))
      && (fat32 || Count(szVol, nFat, nRoot, FAT16, 128) <= 65525)
    else
      fat32 && (szVol >= 0x2_0000 || Good(szVol, nFat, nRoot, FAT32, 1))
  }

  /** The unit of a FAT32 volume when it is chosen automatically: half of it if it would give too few
      clusters. */
  ghost function Picked32(szVol: nat, nFat: nat, nRoot: nat): nat {
    var b := Unit32(szVol);
    if b == 1 || Good(szVol, nFat, nRoot, FAT32, b) then b else b / 2
  }

  /** And which layout that is. A retry doubles the cluster size of a FAT16 volume once, or goes on to
      FAT32. */
  ghost predicate Picked(szVol: nat, nFat: nat, nRoot: nat, fat: bool, fat32: bool, au: nat, t: FsType, pau: nat) {
    if au > 0 then
      && pau == au
      && t == if fat && Good(szVol, nFat, nRoot, SmallType(szVol, au), au) then SmallType(szVol, au) else FAT32
    else if fat then
      var a := Unit16(szVol);
      var n := Count(szVol, nFat, nRoot, FAT16, a);
      if Pre(szVol, a) <= 4085 then t == FAT12 && pau == a
      else if n <= 4085 then t == FAT12 && pau == 2 * a
      else if n <= 65525 then t == FAT16 && pau == a
      else if a < 64 then t == FAT16 && pau == 2 * a
      else if fat32 then t == FAT32 && pau == Picked32(szVol, nFat, nRoot)
      else t == FAT16 && pau == 128
    else
      t == FAT32 && pau == Picked32(szVol, nFat, nRoot)
  }

  /** A choice within the limits: only sub-types that are allowed, the unit that was asked for, and
      otherwise no more than one step from the automatic one. */
  lemma PickedWithin(szVol: nat, nFat: nat, nRoot: nat, fat: bool, fat32: bool, au: nat, t: FsType, pau: nat)
    requires Picked(szVol, nFat, nRoot, fat, fat32, au, t, pau) && Feasible(szVol, nFat, nRoot, fat, fat32, au)
    requires fat || fat32
    ensures (!fat ==> t == FAT32) && (!fat32 ==> t != FAT32)
    ensures au > 0 ==> pau == au
    ensures au == 0 && t != FAT32 ==> pau == Unit16(szVol) || pau == 2 * Unit16(szVol)
    ensures au == 0 && t == FAT32 ==> pau == Unit32(szVol) || 2 * pau == Unit32(szVol)
  {
    hide Good, Count, Pre;
  }

  // ----- the turns of the loop -----

  /** What one turn decides. */
  datatype LoopTurn = Accept | Abort | Retry(t: FsType, szAu: nat)

  /** Cluster size of a turn. */
  function TurnUnit(szVol: nat, t0: FsType, szAu: nat): (pau: nat)
    ensures pau > 0 && (IsClusterSize(szAu) || szAu == 0 ==> IsClusterSize(pau)) && (szAu == 0 ==> pau <= 64)
  {
    if szAu > 0 then szAu else if t0 == FAT32 then Unit32(szVol) else Unit16(szVol)
  }

  ghost predicate Roomy(szVol: nat, nFat: nat, nRoot: nat, t: FsType, pau: nat)
    requires pau > 0
  {
    && (t == FAT32 ==> MAX_FAT16 < Pre(szVol, pau) <= MAX_FAT32)
    && Before(t, Pre(szVol, pau), nFat, nRoot) + pau * 16 <= szVol
  }

  /** The end of a turn: too few or too many clusters lead to another cluster size or sub-type. */
  ghost function Decision(t: FsType, szAu: nat, pau: nat, n: nat, fat32: bool): LoopTurn {
    match t
    case FAT32 =>
      if n > MAX_FAT16 then Accept else if szAu == 0 && pau > 1 then Retry(FAT32, pau / 2) else Abort
    case FAT16 =>
      if n > MAX_FAT16 then
        if szAu == 0 && (pau <= 32 || !fat32) then Retry(FAT16, pau * 2) else if fat32 then Retry(FAT32, szAu)
          else Abort
      else if n > MAX_FAT12 then Accept
      else if szAu == 0 then Retry(FAT16, pau * 2) else Abort
    case FAT12 => if n <= MAX_FAT12 then Accept else Abort
  }

  ghost function Turn(szVol: nat, nFat: nat, nRoot: nat, fat32: bool, t0: FsType, szAu: nat): (d: LoopTurn)
    requires t0 != FAT12
    ensures d.Retry? ==> (t0 == FAT16 && d.t == FAT32) || (d.t == t0 && szAu == 0 && d.szAu > 0)
  {
    var pau := TurnUnit(szVol, t0, szAu);
    var t := if t0 == FAT32 then FAT32 else SmallType(szVol, pau);
    if Roomy(szVol, nFat, nRoot, t, pau) then Decision(t, szAu, pau, Count(szVol, nFat, nRoot, t, pau), fat32)
      else Abort
  }

  /** What the loop comes to from a turn on. */
  datatype Choice = Unable | Takes(t: FsType, pau: nat)

  ghost function Outcome(szVol: nat, nFat: nat, nRoot: nat, fat32: bool, t0: FsType, szAu: nat): Choice
    requires t0 != FAT12
    decreases t0 == FAT16, szAu == 0
  {
    match Turn(szVol, nFat, nRoot, fat32, t0, szAu)
    case Accept =>
      var pau := TurnUnit(szVol, t0, szAu);
      Takes(if t0 == FAT32 then FAT32 else SmallType(szVol, pau), pau)
    case Abort => Unable
    case Retry(t, au) => Outcome(szVol, nFat, nRoot, fat32, t, au)
  }

  // ----- the code of the loop -----

  /** Automatic cluster size: the table entry the volume reaches. */
  method AutoUnit(table: seq<nat>, n: nat) returns (pau: nat, ghost i: nat)
    requires |table| == 7 && table[6] == 0
    ensures i <= 6 && pau == [1, 2, 4, 8, 16, 32, 64][i]
    ensures (forall j :: 0 <= j < i ==> 0 < table[j] <= n) && (table[i] == 0 || table[i] > n)
  {
    var k := 0;
    pau := 1;
    while table[k] != 0 && table[k] <= n
      invariant 0 <= k <= 6
      invariant pau == [1, 2, 4, 8, 16, 32, 64][k] && forall j :: 0 <= j < k ==> 0 < table[j] <= n
      decreases 6 - k
    {
      pau := pau * 2;
      k := k + 1;
    }
    i := k;
  }

  lemma Tables()
    ensures |CST| == 7 && CST[6] == 0 && |CST32| == 7 && CST32[6] == 0
  {
  }

  /** The unit the tables give. */
  lemma TableUnits(szVol: nat, i: nat, pau: nat)
    requires i <= 6 && pau == [1, 2, 4, 8, 16, 32, 64][i]
    ensures (forall j :: 0 <= j < i ==> 0 < CST[j] <= szVol / 0x1000) && (CST[i] == 0 || CST[i] > szVol / 0x1000) ==>
            pau == Unit16(szVol)
    ensures (forall j :: 0 <= j < i ==> 0 < CST32[j] <= szVol / 0x2_0000)
            && (CST32[i] == 0 || CST32[i] > szVol / 0x2_0000)
            ==> pau == Unit32(szVol)
  {
    if (forall j :: 0 <= j < i ==> 0 < CST[j] <= szVol / 0x1000) && i > 0 { assert CST[i - 1] <= szVol / 0x1000; }
    if (forall j :: 0 <= j < i ==> 0 < CST32[j] <= szVol / 0x2_0000) && i > 0 {
      assert CST32[i - 1] <= szVol / 0x2_0000;
    }
  }

  lemma PreBound(szVol: nat, pau: nat)
    requires IsClusterSize(pau) && szVol <= MAX_DWORD
    ensures pau > 0 && pau <= 128 && Pre(szVol, pau) == szVol / pau <= MAX_DWORD
  {
  }

  lemma TurnUnitIs(szVol: nat, t0: FsType, szAu: nat)
    ensures TurnUnit(szVol, t0, szAu) ==
            if szAu > 0 then szAu else if t0 == FAT32 then Unit32(szVol) else Unit16(szVol)
  {
  }

  lemma SmallTypeIs(szVol: nat, pau: nat)
    requires pau > 0
    ensures SmallType(szVol, pau) == if Pre(szVol, pau) > MAX_FAT12 then FAT16 else FAT12
  {
  }

  /** Cluster size, cluster count before anything is taken off, and sub-type, for one turn. */
  method TurnSizes(t0: FsType, szAu: nat, szVol: nat) returns (t: FsType, pau: nat, pre: nat)
    requires (szAu == 0 || IsClusterSize(szAu)) && szVol <= MAX_DWORD && t0 != FAT12
    ensures pau == TurnUnit(szVol, t0, szAu) > 0 && IsClusterSize(pau) && pre == Pre(szVol, pau) <= MAX_DWORD
    ensures t == if t0 == FAT32 then FAT32 else SmallType(szVol, pau)
  {
    hide *;
    Tables();
    TurnUnitIs(szVol, t0, szAu);
    pau := szAu;
    if szAu == 0 {
      ghost var i;
      if t0 == FAT32 {
        pau, i := AutoUnit(CST32, szVol / 0x2_0000);
      } else {
        pau, i := AutoUnit(CST, szVol / 0x1000);
      }
      TableUnits(szVol, i, pau);
    }
    PreBound(szVol, pau);
    SmallTypeIs(szVol, pau);
    pre := szVol / pau;
    t := t0;
    if t0 != FAT32 && !(pre > MAX_FAT12) {
      t := FAT12;
    }
  }

  /** The end of a turn: accept the layout, give up, or retry with another cluster size or sub-type. */
  method Decide(t: FsType, szAu: nat, pau: nat, n: nat, fat32: bool) returns (d: LoopTurn)
    requires (szAu == 0 ==> IsClusterSize(pau) && pau <= 64) && (szAu > 0 ==> pau == szAu)
    ensures d == Decision(t, szAu, pau, n, fat32)
  {
    d := Accept;
    if t == FAT32 {
      if n <= MAX_FAT16 {
        d := if szAu == 0 && pau / 2 != 0 then Retry(t, pau / 2) else Abort;
      }
    } else if t == FAT16 {
      if n > MAX_FAT16 {
        if szAu == 0 && pau * 2 <= 64 {
          d := Retry(t, pau * 2);
        } else if fat32 {
          d := Retry(FAT32, szAu);
        } else if szAu == 0 && pau * 2 <= 128 {
          d := Retry(t, pau * 2);
        } else {
          d := Abort;
        }
      } else if n <= MAX_FAT12 {
        d := if szAu == 0 && pau * 2 <= 128 then Retry(t, pau * 2) else Abort;
      }
    } else {
      if n > MAX_FAT12 { d := Abort; }
    }
  }

  /** The test for the smallest volume, in 32 bits, means what it says. */
  lemma SizeTest(bVol: nat, rsv: nat, fats: nat, dir: nat, pau: nat)
    requires bVol <= MAX_DWORD && rsv + fats + dir + pau * 16 < WRAP
    ensures (((bVol + rsv) % WRAP + fats + dir) % WRAP + pau * 16 + WRAP - bVol) % WRAP == rsv + fats + dir + pau * 16
  {
    var x := rsv + fats + dir + pau * 16;
    var b := ((bVol + rsv) % WRAP + fats + dir) % WRAP;
    assert b == (bVol + rsv + fats + dir) % WRAP by { WrapSum(0, bVol + rsv, fats + dir); }
    var q := (bVol + rsv + fats + dir) / WRAP;
    assert b + pau * 16 + WRAP - bVol == x + WRAP * (1 - q);
  }

  /** The FAT's size in the turn's own steps. */
  method FatSize(t: FsType, pre: nat) returns (szFat: nat)
    requires pre <= MAX_DWORD && (t == FAT12 ==> pre <= MAX_FAT12)
    ensures szFat == FatSectors(t, pre)
  {
    if t == FAT32 {
      szFat := (pre * 4 + 8 + 512 - 1) % WRAP / 512;
    } else {
      var n;
      if t == FAT16 {
        n := (pre * 2 + 4) % WRAP;
      } else {
        n := (pre * 3 + 1) / 2 + 3;
      }
      szFat := (n + 512 - 1) % WRAP / 512;
    }
  }

  /** A layout, as the code holds it in its variables. */
  datatype Volume = Volume(t: FsType, pau: nat, szRsv: nat, szFat: nat, szDir: nat, n: nat)

  ghost predicate IsPlan(v: Volume, szVol: nat, nFat: nat, nRoot: nat) {
    && Plan(szVol, nFat, nRoot, v.t, v.pau, v.n)
    && v.pau > 0
    && v.szRsv == Reserved(v.t) && v.szFat == FatSectors(v.t, Pre(szVol, v.pau)) && v.szDir == RootSectors(v.t, nRoot)
  }

  /** One turn of the loop. */
  method OneTurn(t0: FsType, szAu: nat, bVol: nat, szVol: nat, nFat: nat, nRoot: nat, fat32: bool)
    returns (d: LoopTurn, v: Volume)
    requires Options(szVol, nFat, nRoot) && bVol <= MAX_DWORD && t0 != FAT12 && (szAu == 0 || IsClusterSize(szAu))
    ensures d == Turn(szVol, nFat, nRoot, fat32, t0, szAu)
    ensures d == Accept ==>
      && IsPlan(v, szVol, nFat, nRoot) && v.pau == TurnUnit(szVol, t0, szAu)
      && v.t == if t0 == FAT32 then FAT32 else SmallType(szVol, v.pau)
  {
    hide *;
    OptionFacts(szVol, nFat, nRoot);
    d, v := Abort, Volume(FAT12, 1, 0, 0, 0, 0);
    var t, pau, pre := TurnSizes(t0, szAu, szVol);
    TypeFacts(t, pre);
    SmallTypeIs(szVol, pau);
    TurnUnitIs(szVol, t0, szAu);
    TurnIs(szVol, nFat, nRoot, fat32, t0, szAu);
    if !(t == FAT32 && (pre <= MAX_FAT16 || pre > MAX_FAT32)) {
      var szFat := FatSize(t, pre);
      var szRsv := if t == FAT32 then 32 else 1;
      var szDir := if t == FAT32 then 0 else nRoot * 32 / 512;
      BeforeIs(szVol, t, pre, nFat, nRoot, szRsv, szFat, szDir);
      PreBound(szVol, pau);
      SizeTest(bVol, szRsv, Times(szFat, nFat), szDir, pau);
      var bFat := (bVol + szRsv) % WRAP;
      var bData := (bFat + Times(szFat, nFat) + szDir) % WRAP;
      if !(szVol < (bData + pau * 16 + WRAP - bVol) % WRAP) {
        var n := Quotient(szVol - szRsv - Times(szFat, nFat) - szDir, pau);
        CountIs(szVol, nFat, nRoot, t, pau, n);
        d := Decide(t, szAu, pau, n, fat32);
        v := Volume(t, pau, szRsv, szFat, szDir, n);
        DecisionIs(t, szAu, pau, n, fat32);
        if d == Accept { PlanFrom(szVol, nFat, nRoot, v, pre); }
      }
    }
  }

  lemma CountIs(szVol: nat, nFat: nat, nRoot: nat, t: FsType, pau: nat, n: nat)
    requires pau > 0 && Before(t, Pre(szVol, pau), nFat, nRoot) <= szVol
    ensures Count(szVol, nFat, nRoot, t, pau) == Quotient(szVol - Before(t, Pre(szVol, pau), nFat, nRoot), pau)
  {
  }

  lemma DecisionIs(t: FsType, szAu: nat, pau: nat, n: nat, fat32: bool)
    ensures Decision(t, szAu, pau, n, fat32) == Accept <==>
      match t
      case FAT32 => n > MAX_FAT16
      case FAT16 => MAX_FAT12 < n <= MAX_FAT16
      case FAT12 => n <= MAX_FAT12
  {
  }

  lemma TurnIs(szVol: nat, nFat: nat, nRoot: nat, fat32: bool, t0: FsType, szAu: nat)
    requires t0 != FAT12
    ensures var pau := TurnUnit(szVol, t0, szAu);
            var t := if t0 == FAT32 then FAT32 else SmallType(szVol, pau);
      && pau > 0
      && (Roomy(szVol, nFat, nRoot, t, pau) <==>
            && (t == FAT32 ==> MAX_FAT16 < Pre(szVol, pau) <= MAX_FAT32)
            && Before(t, Pre(szVol, pau), nFat, nRoot) + pau * 16 <= szVol)
      && Turn(szVol, nFat, nRoot, fat32, t0, szAu) ==
           if Roomy(szVol, nFat, nRoot, t, pau) then Decision(t, szAu, pau, Count(szVol, nFat, nRoot, t, pau), fat32)
           else Abort
    ensures szAu == 0 ==> TurnUnit(szVol, t0, szAu) <= 64
    ensures szAu > 0 ==> TurnUnit(szVol, t0, szAu) == szAu
  {
    hide Before, Pre, Count, Decision, Roomy, TurnUnit;
    RoomyIs(szVol, nFat, nRoot, if t0 == FAT32 then FAT32 else SmallType(szVol, TurnUnit(szVol, t0, szAu)),
            TurnUnit(szVol, t0, szAu));
    TurnUnitIs(szVol, t0, szAu);
  }

  lemma RoomyIs(szVol: nat, nFat: nat, nRoot: nat, t: FsType, pau: nat)
    requires pau > 0
    ensures Roomy(szVol, nFat, nRoot, t, pau) <==>
            && (t == FAT32 ==> MAX_FAT16 < Pre(szVol, pau) <= MAX_FAT32)
            && Before(t, Pre(szVol, pau), nFat, nRoot) + pau * 16 <= szVol
  {
  }

  lemma OptionFacts(szVol: nat, nFat: nat, nRoot: nat)
    requires Options(szVol, nFat, nRoot)
    ensures szVol <= MAX_DWORD && (nFat == 1 || nFat == 2) && nRoot * 32 / 512 == nRoot / 16
    ensures WRAP == 0x1_0000_0000 && MAX_DWORD == WRAP - 1
  {
  }

  lemma TypeFacts(t: FsType, pre: nat)
    ensures MAX_FAT12 < MAX_FAT16 < MAX_FAT32 <= MAX_DWORD
  {
  }

  lemma BeforeIs(szVol: nat, t: FsType, pre: nat, nFat: nat, nRoot: nat, szRsv: nat, szFat: nat, szDir: nat)
    requires Options(szVol, nFat, nRoot) && pre <= MAX_DWORD && (t == FAT12 ==> pre <= MAX_FAT12)
    requires szRsv == (if t == FAT32 then 32 else 1) && szFat == FatSectors(t, pre)
             && szDir == (if t == FAT32 then 0 else nRoot / 16)
    ensures szRsv == Reserved(t) && szDir == RootSectors(t, nRoot)
    ensures Before(t, pre, nFat, nRoot) == szRsv + Times(szFat, nFat) + szDir <= 0x100_0000 + 2080
  {
    BeforeBound(szVol, t, pre, nFat, nRoot);
    hide FatSectors, Times;
  }

  lemma PlanFrom(szVol: nat, nFat: nat, nRoot: nat, v: Volume, pre: nat)
    requires IsClusterSize(v.pau) && v.pau > 0 && pre == Pre(szVol, v.pau)
    requires v.szRsv == Reserved(v.t) && v.szFat == FatSectors(v.t, pre) && v.szDir == RootSectors(v.t, nRoot)
    requires Before(v.t, pre, nFat, nRoot) == v.szRsv + Times(v.szFat, nFat) + v.szDir
    requires v.szRsv + Times(v.szFat, nFat) + v.szDir + v.pau * 16 <= szVol
    requires v.n == Quotient(szVol - v.szRsv - Times(v.szFat, nFat) - v.szDir, v.pau)
    requires match v.t
             case FAT32 => MAX_FAT16 < pre <= MAX_FAT32 && MAX_FAT16 < v.n
             case FAT16 => MAX_FAT12 < pre && MAX_FAT12 < v.n <= MAX_FAT16
             case FAT12 => pre <= MAX_FAT12 && v.n <= MAX_FAT12
    ensures IsPlan(v, szVol, nFat, nRoot)
  {
    hide FatSectors, Times, Quotient, Pre, Reserved, RootSectors, Before;
  }

  /** The retry loop ends: each retry switches from FAT16 to FAT32, or fixes the cluster size. */
  method ChooseLayout(t0: FsType, szAu0: nat, bVol: nat, szVol: nat, nFat: nat, nRoot: nat, fat32: bool)
    returns (ok: bool, v: Volume)
    requires Options(szVol, nFat, nRoot) && bVol <= MAX_DWORD && t0 != FAT12 && (szAu0 == 0 || IsClusterSize(szAu0))
    ensures ok ==> IsPlan(v, szVol, nFat, nRoot)
    ensures Outcome(szVol, nFat, nRoot, fat32, t0, szAu0) == if ok then Takes(v.t, v.pau) else Unable
  {
    hide *;
    ghost var c := Outcome(szVol, nFat, nRoot, fat32, t0, szAu0);
    var t, szAu := t0, szAu0;
    var d;
    OutcomeIs(szVol, nFat, nRoot, fat32, t, szAu);
    d, v := OneTurn(t, szAu, bVol, szVol, nFat, nRoot, fat32);
    while d.Retry?
      invariant t != FAT12 && (szAu == 0 || IsClusterSize(szAu)) && d == Turn(szVol, nFat, nRoot, fat32, t, szAu)
      invariant d == Accept ==> IsPlan(v, szVol, nFat, nRoot)
      invariant d == Accept ==> c == Takes(v.t, v.pau)
      invariant d == Abort ==> c == Unable
      invariant d.Retry? ==> d.t != FAT12 && c == Outcome(szVol, nFat, nRoot, fat32, d.t, d.szAu)
      decreases t == FAT16, szAu == 0
    {
      RetryIs(szVol, nFat, nRoot, fat32, t, szAu);
      t, szAu := d.t, d.szAu;
      OutcomeIs(szVol, nFat, nRoot, fat32, t, szAu);
      d, v := OneTurn(t, szAu, bVol, szVol, nFat, nRoot, fat32);
    }
    ok := d == Accept;
  }

  lemma RetryIs(szVol: nat, nFat: nat, nRoot: nat, fat32: bool, t0: FsType, szAu: nat)
    requires t0 != FAT12 && (szAu == 0 || IsClusterSize(szAu))
    ensures var d := Turn(szVol, nFat, nRoot, fat32, t0, szAu);
      d.Retry? ==> ((t0 == FAT16 && d.t == FAT32) || (d.t == t0 && szAu == 0 && d.szAu > 0))
                   && (d.szAu == 0 || IsClusterSize(d.szAu))
  {
    hide Roomy, Count, SmallType, Unit16, Unit32;
  }

  lemma OutcomeIs(szVol: nat, nFat: nat, nRoot: nat, fat32: bool, t0: FsType, szAu: nat)
    requires t0 != FAT12
    ensures var d := Turn(szVol, nFat, nRoot, fat32, t0, szAu);
            var pau := TurnUnit(szVol, t0, szAu);
      && pau > 0 && (d.Retry? ==> d.t != FAT12)
      && Outcome(szVol, nFat, nRoot, fat32, t0, szAu) ==
           match d
           case Accept => Takes(if t0 == FAT32 then FAT32 else SmallType(szVol, pau), pau)
           case Abort => Unable
           case Retry(t, au) => Outcome(szVol, nFat, nRoot, fat32, t, au)
  {
    hide Turn, TurnUnit, SmallType;
  }

  // ----- what the loop comes to -----

  /** How much of the volume a layout leaves for clusters. */
  lemma Sizes(szVol: nat, nFat: nat, nRoot: nat, t: FsType, pau: nat)
    requires Options(szVol, nFat, nRoot) && IsClusterSize(pau)
    ensures var pre, before := Pre(szVol, pau), Before(t, Pre(szVol, pau), nFat, nRoot);
            var n := Count(szVol, nFat, nRoot, t, pau);
      && pau > 0 && pre == szVol / pau
      && (t == FAT32 && pre <= MAX_FAT32 ==> before <= 32 + 2 * ((4 * pre + 519) / 512))
      && (t == FAT16 ==> before <= 2049 + 2 * ((2 * pre + 515) / 512))
      && (t == FAT16 && pre <= MAX_FAT32 ==> before > (2 * pre + 515) / 512)
      && (t == FAT12 && pre <= MAX_FAT12 ==> before <= 2049 + 2 * (((3 * pre + 1) / 2 + 514) / 512))
      && (before > szVol ==> n == 0)
      && (before <= szVol ==> n * pau <= szVol - before < n * pau + pau)
      && n <= pre
  {
    PreBound(szVol, pau);
    hide *;
    var pre := Pre(szVol, pau);
    BeforeMost(szVol, nFat, nRoot, t, pre);
    CountBounds(szVol, nFat, nRoot, t, pau);
  }

  lemma BeforeMost(szVol: nat, nFat: nat, nRoot: nat, t: FsType, pre: nat)
    requires Options(szVol, nFat, nRoot) && pre <= MAX_DWORD
    ensures var before := Before(t, pre, nFat, nRoot);
      && (t == FAT32 && pre <= MAX_FAT32 ==> before <= 32 + 2 * ((4 * pre + 519) / 512))
      && (t == FAT16 ==> before <= 2049 + 2 * ((2 * pre + 515) / 512))
      && (t == FAT16 && pre <= MAX_FAT32 ==> before > (2 * pre + 515) / 512)
      && (t == FAT12 && pre <= MAX_FAT12 ==> before <= 2049 + 2 * (((3 * pre + 1) / 2 + 514) / 512))
  {
    if t != FAT12 || pre <= MAX_FAT12 { BeforeBound(szVol, t, pre, nFat, nRoot); }
    FatSectorsMost(t, pre);
    hide FatSectors, Before, Times;
  }

  lemma CountBounds(szVol: nat, nFat: nat, nRoot: nat, t: FsType, pau: nat)
    requires pau > 0
    ensures var before, n := Before(t, Pre(szVol, pau), nFat, nRoot), Count(szVol, nFat, nRoot, t, pau);
      && (before > szVol ==> n == 0)
      && (before <= szVol ==> n * pau <= szVol - before < n * pau + pau)
      && n <= szVol / pau
  {
    hide Before, Pre;
    var before := Before(t, Pre(szVol, pau), nFat, nRoot);
    if before <= szVol {
      var q, r := DivModDef(pau, szVol - before);
      DivMonotone(pau, szVol - before, szVol);
      assert q * pau == pau * q;
    }
  }

  lemma FatSectorsMost(t: FsType, pre: nat)
    requires pre <= MAX_DWORD
    ensures t == FAT32 && pre <= MAX_FAT32 ==> FatSectors(t, pre) == (4 * pre + 519) / 512
    ensures t == FAT16 ==> FatSectors(t, pre) <= (2 * pre + 515) / 512
    ensures t == FAT16 && pre <= MAX_FAT32 ==> FatSectors(t, pre) == (2 * pre + 515) / 512
    ensures t == FAT12 ==> FatSectors(t, pre) == ((3 * pre + 1) / 2 + 514) / 512
  {
    if t == FAT16 {
      var a := (pre * 2 + 4) % WRAP;
      Wrapped(pre * 2 + 4);
      Wrapped(a + 511);
      hide FatSectors;
      Sectors16(pre, a, (a + 511) % WRAP);
    }
  }

  lemma Sectors16(pre: nat, a: nat, b: nat)
    requires a == (pre * 2 + 4) % WRAP && b == (a + 511) % WRAP && a <= pre * 2 + 4 && b <= a + 511
    requires pre <= MAX_FAT32 ==> a == pre * 2 + 4 && b == a + 511
    ensures FatSectors(FAT16, pre) <= (2 * pre + 515) / 512
    ensures pre <= MAX_FAT32 ==> FatSectors(FAT16, pre) == (2 * pre + 515) / 512
  {
  }

  lemma Wrapped(x: nat)
    ensures x % WRAP <= x && (x < WRAP ==> x % WRAP == x)
  {
  }

  lemma GoodIs(szVol: nat, nFat: nat, nRoot: nat, t: FsType, pau: nat)
    requires IsClusterSize(pau)
    ensures var n := Count(szVol, nFat, nRoot, t, pau);
      && pau > 0
      && (Good(szVol, nFat, nRoot, t, pau) <==>
            && Roomy(szVol, nFat, nRoot, t, pau)
            && (match t
                case FAT32 => n > MAX_FAT16
                case FAT16 => Pre(szVol, pau) > MAX_FAT12 && MAX_FAT12 < n <= MAX_FAT16
                case FAT12 => Pre(szVol, pau) <= MAX_FAT12 && n <= MAX_FAT12))
  {
    hide Pre, Quotient, Before;
  }

  lemma Limits()
    ensures MAX_FAT12 == 4085 && MAX_FAT16 == 65525 && MAX_FAT32 == 0x0FFF_FFF5 && MAX_DWORD == 0xFFFF_FFFF
  {
  }

  /** FAT32 with a given cluster size. */
  lemma Fixed32(szVol: nat, nFat: nat, nRoot: nat, fat32: bool, au: nat)
    requires Options(szVol, nFat, nRoot) && IsClusterSize(au)
    ensures Outcome(szVol, nFat, nRoot, fat32, FAT32, au) ==
            if Good(szVol, nFat, nRoot, FAT32, au) then Takes(FAT32, au) else Unable
  {
    hide *;
    GoodIs(szVol, nFat, nRoot, FAT32, au);
    OutcomeIs(szVol, nFat, nRoot, fat32, FAT32, au);
    TurnIs(szVol, nFat, nRoot, fat32, FAT32, au);
    Decision32(au, au, Count(szVol, nFat, nRoot, FAT32, au), fat32);
  }

  lemma Decision32(szAu: nat, pau: nat, n: nat, fat32: bool)
    ensures Decision(FAT32, szAu, pau, n, fat32) ==
            if n > MAX_FAT16 then Accept else if szAu == 0 && pau > 1 then Retry(FAT32, pau / 2) else Abort
  {
  }

  lemma Decision16(szAu: nat, pau: nat, n: nat, fat32: bool)
    ensures Decision(FAT16, szAu, pau, n, fat32) ==
            if n > MAX_FAT16 then
              if szAu == 0 && (pau <= 32 || !fat32) then Retry(FAT16, pau * 2)
              else if fat32 then Retry(FAT32, szAu) else Abort
            else if n > MAX_FAT12 then Accept
            else if szAu == 0 then Retry(FAT16, pau * 2) else Abort
    ensures Decision(FAT12, szAu, pau, n, fat32) == if n <= MAX_FAT12 then Accept else Abort
  {
  }

  /** FAT32 with an automatic one: from 0x20000 sectors on, the unit of the table or half of it will do. */
  lemma Auto32(szVol: nat, nFat: nat, nRoot: nat, fat32: bool)
    requires Options(szVol, nFat, nRoot)
    ensures Outcome(szVol, nFat, nRoot, fat32, FAT32, 0) ==
            if szVol >= 0x2_0000 || Good(szVol, nFat, nRoot, FAT32, 1) then Takes(FAT32, Picked32(szVol, nFat, nRoot))
            else Unable
  {
    var b := Unit32(szVol);
    UnitSizes(szVol);
    if b > 1 { Half32(szVol, nFat, nRoot, b); }
    hide *;
    Limits();
    GoodIs(szVol, nFat, nRoot, FAT32, b);
    OutcomeIs(szVol, nFat, nRoot, fat32, FAT32, 0);
    TurnIs(szVol, nFat, nRoot, fat32, FAT32, 0);
    TurnUnitIs(szVol, FAT32, 0);
    Decision32(0, b, Count(szVol, nFat, nRoot, FAT32, b), fat32);
    PickedIs(szVol, nFat, nRoot);
    if b > 1 { Fixed32(szVol, nFat, nRoot, fat32, b / 2); }
  }

  lemma PickedIs(szVol: nat, nFat: nat, nRoot: nat)
    ensures var b := Unit32(szVol);
            Picked32(szVol, nFat, nRoot) == if b == 1 || Good(szVol, nFat, nRoot, FAT32, b) then b else b / 2
  {
  }

  lemma UnitSizes(szVol: nat)
    ensures var b := Unit32(szVol);
      && IsClusterSize(b) && b <= 64 && (b > 1 ==> IsClusterSize(b / 2)) && (b > 1 <==> szVol >= 0x2_0000)
      && (b > 1 ==> szVol >= 0x1_0000 * b) && (b < 64 ==> szVol < 0x2_0000 * b)
  {
  }

  /** With the unit of the table or half of it there are enough clusters. */
  lemma Half32(szVol: nat, nFat: nat, nRoot: nat, b: nat)
    requires Options(szVol, nFat, nRoot) && 1 < b <= 64 && IsClusterSize(b) && szVol >= 0x1_0000 * b
    requires b < 64 ==> szVol < 0x2_0000 * b
    ensures IsClusterSize(b / 2)
    ensures Roomy(szVol, nFat, nRoot, FAT32, b) && Good(szVol, nFat, nRoot, FAT32, b / 2)
  {
    Limits();
    hide Roomy, Good;
    match b
    case 2 => Enough32(szVol, nFat, nRoot, 2); Enough32(szVol, nFat, nRoot, 1);
    case 4 => Enough32(szVol, nFat, nRoot, 4); Enough32(szVol, nFat, nRoot, 2);
    case 8 => Enough32(szVol, nFat, nRoot, 8); Enough32(szVol, nFat, nRoot, 4);
    case 16 => Enough32(szVol, nFat, nRoot, 16); Enough32(szVol, nFat, nRoot, 8);
    case 32 => Enough32(szVol, nFat, nRoot, 32); Enough32(szVol, nFat, nRoot, 16);
    case _ => Enough32(szVol, nFat, nRoot, 64); Enough32(szVol, nFat, nRoot, 32);
  }

  /** If no more than half of the clusters' number is taken off, there is room, and half of them are left. */
  lemma RoomLeft(pau: nat, pre: nat, szVol: nat, before: nat, n: nat)
    requires pau > 0 && pau * pre <= szVol && before <= pre / 2 && szVol - before < n * pau + pau
    ensures n >= pre / 2
    ensures pre >= 32 ==> before + pau * 16 <= szVol
  {
    var h := pre / 2;
    assert pau * pre == pau * (pre - h) + pau * h;
    MulMono(h, 1, pau);
    assert h * pau == pau * h && n * pau + pau == pau * (n + 1);
    if n + 1 <= pre - h { MulMono(pau, n + 1, pre - h); }
    if pre >= 32 { MulMono(pau, 16, pre - h); }
  }

  /** From 0x10000 clusters on there is room, from 0x20000 on there are enough. */
  lemma Enough32(szVol: nat, nFat: nat, nRoot: nat, pau: nat)
    requires Options(szVol, nFat, nRoot) && IsClusterSize(pau) && pau > 0 && szVol / pau <= 0x0FFF_FFF5
    ensures szVol >= 0x1_0000 * pau ==> Roomy(szVol, nFat, nRoot, FAT32, pau)
    ensures szVol >= 0x2_0000 * pau ==> Good(szVol, nFat, nRoot, FAT32, pau)
  {
    hide *;
    Limits();
    Sizes(szVol, nFat, nRoot, FAT32, pau);
    GoodIs(szVol, nFat, nRoot, FAT32, pau);
    RoomyIs(szVol, nFat, nRoot, FAT32, pau);
    var pre, before := Pre(szVol, pau), Before(FAT32, Pre(szVol, pau), nFat, nRoot);
    AtLeast(szVol, pau, 0x1_0000);
    AtLeast(szVol, pau, 0x2_0000);
    if pre >= 0x1_0000 {
      assert before <= pre / 2 <= szVol;
      RoomLeft(pau, pre, szVol, before, Count(szVol, nFat, nRoot, FAT32, pau));
    }
  }

  lemma AtLeast(szVol: nat, pau: nat, k: nat)
    requires pau > 0
    ensures szVol >= k * pau <==> szVol / pau >= k
    ensures pau * (szVol / pau) <= szVol && szVol / pau <= szVol
  {
    var q, r := DivModDef(pau, szVol);
    assert k * pau == pau * k;
    if q >= k { MulMono(pau, k, q); } else { MulMono(pau, q + 1, k); assert pau * (q + 1) == pau * q + pau; }
    MulMono(q, 1, pau);
    assert q * pau == pau * q;
  }

  /** FAT16 has room from the first cluster number on that is not FAT12, and from 4200 clusters on half of
      them are left. */
  lemma Enough16(szVol: nat, nFat: nat, nRoot: nat, pau: nat)
    requires Options(szVol, nFat, nRoot) && IsClusterSize(pau)
    ensures pau > 0
    ensures Pre(szVol, pau) > 4085 ==> Roomy(szVol, nFat, nRoot, FAT16, pau)
    ensures Pre(szVol, pau) >= 4200 ==> Count(szVol, nFat, nRoot, FAT16, pau) >= Pre(szVol, pau) / 2
  {
    hide *;
    Sizes(szVol, nFat, nRoot, FAT16, pau);
    RoomyIs(szVol, nFat, nRoot, FAT16, pau);
    var pre, before := Pre(szVol, pau), Before(FAT16, Pre(szVol, pau), nFat, nRoot);
    AtLeast(szVol, pau, 0);
    if pre > 4085 {
      MulMono(pre - 16, 1, pau);
      assert pau * pre == (pre - 16) * pau + 16 * pau;
    }
    if pre >= 4200 {
      assert before <= pre / 2 <= szVol;
      RoomLeft(pau, pre, szVol, before, Count(szVol, nFat, nRoot, FAT16, pau));
    }
  }

  /** FAT12 or FAT16 with a given cluster size, or FAT32 with it. */
  lemma Fixed16(szVol: nat, nFat: nat, nRoot: nat, fat32: bool, au: nat)
    requires Options(szVol, nFat, nRoot) && IsClusterSize(au)
    ensures au > 0
    ensures var t := SmallType(szVol, au);
            Outcome(szVol, nFat, nRoot, fat32, FAT16, au) ==
              if Good(szVol, nFat, nRoot, t, au) then Takes(t, au)
              else if fat32 && Good(szVol, nFat, nRoot, FAT32, au) then Takes(FAT32, au) else Unable
  {
    hide *;
    Limits();
    Enough16(szVol, nFat, nRoot, au);
    var t := SmallType(szVol, au);
    SmallTypeIs(szVol, au);
    Sizes(szVol, nFat, nRoot, t, au);
    GoodIs(szVol, nFat, nRoot, t, au);
    GoodIs(szVol, nFat, nRoot, FAT32, au);
    RoomyIs(szVol, nFat, nRoot, FAT32, au);
    OutcomeIs(szVol, nFat, nRoot, fat32, FAT16, au);
    TurnIs(szVol, nFat, nRoot, fat32, FAT16, au);
    Decision16(au, au, Count(szVol, nFat, nRoot, t, au), fat32);
    if fat32 { Fixed32(szVol, nFat, nRoot, fat32, au); }
  }

  /** A FAT16 volume with too few clusters is a FAT12 volume with clusters of twice the size. */
  lemma TooFew(szVol: nat, nFat: nat, nRoot: nat, a: nat)
    requires Options(szVol, nFat, nRoot) && IsClusterSize(a) && a <= 64
    requires Pre(szVol, a) > 4085 && Count(szVol, nFat, nRoot, FAT16, a) <= 4085
    ensures IsClusterSize(2 * a) && SmallType(szVol, 2 * a) == FAT12 && Good(szVol, nFat, nRoot, FAT12, 2 * a)
  {
    assert IsClusterSize(2 * a);
    hide *;
    Limits();
    Enough16(szVol, nFat, nRoot, a);
    Sizes(szVol, nFat, nRoot, FAT16, a);
    AtLeast(szVol, a, 8172);
    AtLeast(szVol, a, 4086);
    AtLeast(szVol, 2 * a, 4086);
    SmallTypeIs(szVol, 2 * a);
    Sizes(szVol, nFat, nRoot, FAT12, 2 * a);
    GoodIs(szVol, nFat, nRoot, FAT12, 2 * a);
    RoomyIs(szVol, nFat, nRoot, FAT12, 2 * a);
  }

  /** One with too many is a FAT16 volume with clusters of twice the size, if that is not above 64. */
  lemma TooMany(szVol: nat, nFat: nat, nRoot: nat, a: nat)
    requires Options(szVol, nFat, nRoot) && IsClusterSize(a) && a <= 64
    requires Count(szVol, nFat, nRoot, FAT16, a) > 65525
    ensures IsClusterSize(2 * a) && SmallType(szVol, 2 * a) == FAT16 && szVol >= 65526 * a
    ensures Good(szVol, nFat, nRoot, FAT16, 2 * a) <==> Count(szVol, nFat, nRoot, FAT16, 2 * a) <= 65525
    ensures szVol < 0x1_0000 * a ==> Good(szVol, nFat, nRoot, FAT16, 2 * a)
  {
    assert IsClusterSize(2 * a);
    hide *;
    Limits();
    Sizes(szVol, nFat, nRoot, FAT16, a);
    AtLeast(szVol, a, 65526);
    AtLeast(szVol, 2 * a, 32763);
    AtLeast(szVol, 2 * a, 32768);
    SmallTypeIs(szVol, 2 * a);
    Enough16(szVol, nFat, nRoot, 2 * a);
    Sizes(szVol, nFat, nRoot, FAT16, 2 * a);
    GoodIs(szVol, nFat, nRoot, FAT16, 2 * a);
  }

  /** Automatic units below the largest are those of volumes with fewer than 65536 clusters. */
  lemma UnitLimits(szVol: nat)
    ensures var a := Unit16(szVol);
            IsClusterSize(a) && 0 < a <= 64 && (a < 64 ==> szVol < 0x1_0000 * a) && (a < 64 <==> szVol < 0x20_0000)
  {
  }

  /** With clusters of 128 sectors there are never too many, unless there are with 64. */
  lemma Largest(szVol: nat, nFat: nat, nRoot: nat)
    requires Options(szVol, nFat, nRoot)
    ensures szVol < 0x20_0000 ==> Count(szVol, nFat, nRoot, FAT16, 128) <= 65525
    ensures Count(szVol, nFat, nRoot, FAT16, 64) <= 65525 ==> Count(szVol, nFat, nRoot, FAT16, 128) <= 65525
  {
    assert IsClusterSize(64) && IsClusterSize(128);
    hide *;
    Sizes(szVol, nFat, nRoot, FAT16, 64);
    Sizes(szVol, nFat, nRoot, FAT16, 128);
    Enough16(szVol, nFat, nRoot, 64);
  }

  /** FAT12 or FAT16 with an automatic one. */
  lemma Auto16(szVol: nat, nFat: nat, nRoot: nat, fat32: bool)
    requires Options(szVol, nFat, nRoot)
    ensures var a := Unit16(szVol);
            var n := Count(szVol, nFat, nRoot, FAT16, a);
            Outcome(szVol, nFat, nRoot, fat32, FAT16, 0) ==
              if Pre(szVol, a) <= 4085 then
                if Good(szVol, nFat, nRoot, FAT12, a) then Takes(FAT12, a) else Unable
              else if n <= 4085 then Takes(FAT12, 2 * a)
              else if n <= 65525 then Takes(FAT16, a)
              else if a < 64 then Takes(FAT16, 2 * a)
              else if fat32 then Takes(FAT32, Picked32(szVol, nFat, nRoot))
              else if Count(szVol, nFat, nRoot, FAT16, 128) <= 65525 then Takes(FAT16, 128) else Unable
  {
    UnitLimits(szVol);
    var a := Unit16(szVol);
    var n := Count(szVol, nFat, nRoot, FAT16, a);
    hide *;
    Limits();
    SmallTypeIs(szVol, a);
    Sizes(szVol, nFat, nRoot, FAT12, a);
    GoodIs(szVol, nFat, nRoot, FAT12, a);
    Enough16(szVol, nFat, nRoot, a);
    OutcomeIs(szVol, nFat, nRoot, fat32, FAT16, 0);
    TurnIs(szVol, nFat, nRoot, fat32, FAT16, 0);
    TurnUnitIs(szVol, FAT16, 0);
    Decision16(0, a, if Pre(szVol, a) > 4085 then n else Count(szVol, nFat, nRoot, FAT12, a), fat32);
    if Pre(szVol, a) > 4085 && n <= 4085 {
      TooFew(szVol, nFat, nRoot, a);
      Fixed16(szVol, nFat, nRoot, fat32, 2 * a);
    } else if Pre(szVol, a) > 4085 && n > 65525 {
      TooMany(szVol, nFat, nRoot, a);
      if a < 64 || !fat32 { Fixed16(szVol, nFat, nRoot, fat32, 2 * a); } else { Auto32(szVol, nFat, nRoot, fat32); }
    }
  }

  /** For every volume size and every option the loop finds a layout if and only if that is feasible,
      and which one. */
  lemma OutcomeExactly(szVol: nat, nFat: nat, nRoot: nat, fat: bool, fat32: bool, au: nat)
    requires Options(szVol, nFat, nRoot) && (fat || fat32) && (au == 0 || IsClusterSize(au))
    ensures var c := Outcome(szVol, nFat, nRoot, fat32, if fat then FAT16 else FAT32, au);
      && (c == Unable <==> !Feasible(szVol, nFat, nRoot, fat, fat32, au))
      && (c.Takes? ==> Picked(szVol, nFat, nRoot, fat, fat32, au, c.t, c.pau))
  {
    hide Outcome, Good, Picked32, Pre, Count, SmallType, Unit16, Unit32, Options;
    if au > 0 {
      if fat { Fixed16(szVol, nFat, nRoot, fat32, au); } else { Fixed32(szVol, nFat, nRoot, fat32, au); }
    } else if fat {
      Auto16(szVol, nFat, nRoot, fat32);
      UnitLimits(szVol);
      Largest(szVol, nFat, nRoot);
      SmallVolume(szVol);
    } else {
      Auto32(szVol, nFat, nRoot, fat32);
    }
  }

  lemma SmallVolume(szVol: nat)
    ensures Pre(szVol, Unit16(szVol)) <= 4085 ==> szVol < 0x20_0000
  {
  }

  /** With every sub-type allowed, the unit left to f_mkfs and a root directory of 512 entries or fewer,
      there is a layout for every volume of 128 sectors or more. */
  lemma AlwaysFeasible(szVol: nat, nFat: nat, nRoot: nat)
    requires Options(szVol, nFat, nRoot) && nRoot <= 512
    ensures Feasible(szVol, nFat, nRoot, true, true, 0)
  {
    UnitLimits(szVol);
    var a := Unit16(szVol);
    if Pre(szVol, a) <= 4085 {
      BeforeBound(szVol, FAT12, Pre(szVol, a), nFat, nRoot);
      SmallUnit(szVol);
      FatSectorsMost(FAT12, Pre(szVol, a));
      hide Good, Count, Before, FatSectors, Pre, Unit16, Feasible;
      Limits();
      Sizes(szVol, nFat, nRoot, FAT12, a);
      GoodIs(szVol, nFat, nRoot, FAT12, a);
    }
  }

  lemma SmallUnit(szVol: nat)
    requires Pre(szVol, Unit16(szVol)) <= 4085
    ensures Unit16(szVol) == 1 || (Unit16(szVol) == 2 && szVol >= 0x1000)
  {
  }

  // ----- the boot sector says the layout -----

  /** What the boot sector of a layout has to say. */
  ghost predicate Describes(b: Bpb, v: Volume, szVol: nat, nFat: nat, nRoot: nat) {
    && b.bytsPerSec == 512 && b.secPerClus == v.pau % 256 && b.rsvdSecCnt == v.szRsv % 0x1_0000 && b.numFats == nFat
    && b.rootEntCnt == (if v.t == FAT32 then 0 else nRoot)
    && b.totSec16 == (if szVol < 0x1_0000 then szVol else 0)
    && (szVol >= 0x1_0000 ==> b.totSec32 == szVol)
    && b.fatSz16 == (if v.t == FAT32 then 0 else v.szFat % 0x1_0000)
    && (v.t == FAT32 ==> b.fatSz32 == v.szFat && b.fsVer32 == 0 && b.rootClus32 == 2)
  }

  lemma ShareBound(m: nat, before: nat, szVol: nat, pau: nat)
    requires pau > 0 && before <= szVol && m == Quotient(szVol - before, pau)
    ensures m <= Pre(szVol, pau) <= m + before + 1
  {
    var p := szVol / pau;
    var r := szVol - before;
    DivMonotone(pau, r, szVol);
    assert szVol == pau * p + szVol % pau;
    if p > before {
      assert pau * (p - before) == pau * p - pau * before;
      MulMono(before, 1, pau);
      assert before * pau == pau * before;
      DivMonotone(pau, pau * (p - before), r);
      DivModIs(pau, pau * (p - before), p - before, 0);
    }
  }

  /** The FAT holds an entry for every cluster, and its size fits the field it is stored in. */
  lemma FatFits(v: Volume, szVol: nat, nFat: nat, nRoot: nat)
    requires IsPlan(v, szVol, nFat, nRoot) && Options(szVol, nFat, nRoot)
    ensures FatBytesNeeded(v.t, v.n + 2) <= 512 * v.szFat && v.szFat > 0
    ensures v.t != FAT32 ==> v.szFat <= 0xFFFF
    ensures v.n <= MaxClusters(v.t) && TypeOf(v.n) == v.t
  {
    var pre := Pre(szVol, v.pau);
    var before := Before(v.t, pre, nFat, nRoot);
    PreBound(szVol, v.pau);
    BeforeBound(szVol, v.t, pre, nFat, nRoot);
    ShareBound(v.n, before, szVol, v.pau);
    hide Quotient, Times, Before, Pre;
    match v.t
    case FAT32 => Fat32Fits(pre, v.n);
    case FAT16 => Fat16Fits(pre, v.n, before, nFat, nRoot);
    case FAT12 => Fat12Fits(pre, v.n);
  }

  lemma Fat32Fits(pre: nat, n: nat)
    requires n <= pre <= MAX_FAT32
    ensures (n + 2) * 4 <= 512 * FatSectors(FAT32, pre) && FatSectors(FAT32, pre) > 0
  {
  }

  lemma Fat12Fits(pre: nat, n: nat)
    requires n <= pre <= MAX_FAT12
    ensures (n + 2) * 3 / 2 + (n + 2) % 2 <= 512 * FatSectors(FAT12, pre) && 0 < FatSectors(FAT12, pre) <= 0xFFFF
  {
  }

  lemma Fat16Fits(pre: nat, n: nat, before: nat, nFat: nat, nRoot: nat)
    requires n <= pre <= n + before + 1 && n <= MAX_FAT16 && pre <= MAX_DWORD && nRoot <= 32768
    requires before == 1 + (if nFat == 2 then 2 * FatSectors(FAT16, pre) else FatSectors(FAT16, pre)) + nRoot / 16
    ensures (n + 2) * 2 <= 512 * FatSectors(FAT16, pre) && 0 < FatSectors(FAT16, pre) <= 0xFFFF
  {
    var x := pre * 2 + 4;
    if x + 511 >= WRAP {
      FatSectorsBound(FAT16, pre);
    } else {
      assert FatSectors(FAT16, pre) == (x + 511) / 512;
    }
  }

  /** The layout f_mkfs made, as mounting should see it. */
  function Made(v: Volume, bVol: nat, nFat: nat, nRoot: nat): Geo {
    var fatbase := bVol + v.szRsv;
    var area := Times(v.szFat, nFat);
    Geo(v.t, nFat, if v.t == FAT32 then 0 else nRoot, v.pau, v.n + 2, v.szFat, bVol, fatbase,
        if v.t == FAT32 then 2 else fatbase + area, fatbase + area + v.szDir)
  }

  /** The numbers of the boot sector, unpacked. */
  lemma DescribedFields(b: Bpb, v: Volume, szVol: nat, nFat: nat, nRoot: nat)
    requires IsPlan(v, szVol, nFat, nRoot) && Options(szVol, nFat, nRoot) && Describes(b, v, szVol, nFat, nRoot)
    ensures b.bytsPerSec == 512 && b.secPerClus == v.pau && b.rsvdSecCnt == v.szRsv && b.numFats == nFat
    ensures IsClusterSize(v.pau) && (nFat == 1 || nFat == 2) && v.szRsv > 0
    ensures b.rootEntCnt == (if v.t == FAT32 then 0 else nRoot) && b.rootEntCnt % 16 == 0
            && (v.t != FAT32 ==> b.rootEntCnt != 0)
    ensures b.rootEntCnt / 16 == v.szDir
    ensures b.FatSize() == v.szFat && b.Total() == szVol && b.FatArea() == Times(v.szFat, nFat)
    ensures v.t == FAT32 ==> b.fsVer32 == 0 && b.rootClus32 == 2
    ensures b.Overhead() == v.szRsv + Times(v.szFat, nFat) + v.szDir <= szVol && v.pau > 0
    ensures v.n == Quotient(szVol - b.Overhead(), v.pau)
  {
    hide *;
    FatFits(v, szVol, nFat, nRoot);
    PlanFacts(v, szVol, nFat, nRoot);
    FieldFacts(b, v, szVol, nFat, nRoot);
    OptionFacts(szVol, nFat, nRoot);
  }

  lemma PlanFacts(v: Volume, szVol: nat, nFat: nat, nRoot: nat)
    requires IsPlan(v, szVol, nFat, nRoot) && Options(szVol, nFat, nRoot)
    ensures IsClusterSize(v.pau) && 0 < v.pau <= 128 && v.szRsv == (if v.t == FAT32 then 32 else 1)
    ensures v.szDir == (if v.t == FAT32 then 0 else nRoot / 16)
    ensures v.szRsv + Times(v.szFat, nFat) + v.szDir <= szVol
    ensures v.n == Quotient(szVol - (v.szRsv + Times(v.szFat, nFat) + v.szDir), v.pau)
    ensures 0 < nRoot <= 32768 && nRoot % 16 == 0 && 128 <= szVol
  {
    hide FatSectors, Times, Quotient, Pre;
    PreBound(szVol, v.pau);
  }

  lemma FieldFacts(b: Bpb, v: Volume, szVol: nat, nFat: nat, nRoot: nat)
    requires Describes(b, v, szVol, nFat, nRoot) && v.pau <= 128 && v.szRsv <= 32 && szVol > 0
    requires 0 < v.szFat && (v.t != FAT32 ==> v.szFat <= 0xFFFF)
    ensures b.bytsPerSec == 512 && b.secPerClus == v.pau && b.rsvdSecCnt == v.szRsv && b.numFats == nFat
    ensures b.rootEntCnt == (if v.t == FAT32 then 0 else nRoot)
    ensures b.FatSize() == v.szFat && b.Total() == szVol && b.FatArea() == Times(v.szFat, nFat)
    ensures b.Overhead() == v.szRsv + Times(v.szFat, nFat) + b.rootEntCnt / 16
    ensures v.t == FAT32 ==> b.fsVer32 == 0 && b.rootClus32 == 2
  {
    hide Times;
  }

  /** A volume laid out by f_mkfs is mounted with that layout: sub-type, cluster count, start of the
      FAT, start of the data area and all the rest; and the layout is a valid one on the drive. */
  lemma FormattedMounts(b: Bpb, v: Volume, bVol: nat, szVol: nat, nFat: nat, nRoot: nat, nsect: nat)
    requires IsPlan(v, szVol, nFat, nRoot) && Options(szVol, nFat, nRoot) && Describes(b, v, szVol, nFat, nRoot)
    requires b.InWidth() && bVol + szVol <= nsect <= MAX_DWORD
    ensures Accepted(b) && Layout(b, bVol) == Made(v, bVol, nFat, nRoot)
    ensures Layout(b, bVol).Valid(nsect) && RootFits(Layout(b, bVol))
  {
    hide *;
    DescribedFields(b, v, szVol, nFat, nRoot);
    FatFits(v, szVol, nFat, nRoot);
    ClustersFit(b, v);
    EnoughClusters(v, szVol, nFat, nRoot);
    AcceptedFrom(b, v, szVol);
    LayoutIs(b, bVol);
    MaxDword();
    QuotientTimes(szVol - b.Overhead(), v.pau);
    MadeIs(b, v, bVol, szVol, nFat, nRoot);
    MountedIsValid(b, bVol, nsect);
    TrueEndIs(b, bVol);
    TimesIs(v.pau, v.n);
  }

  lemma TrueEndIs(b: Bpb, bVol: nat)
    requires Accepted(b)
    ensures TrueEnd(b, bVol) == bVol + b.Overhead() + Times(b.secPerClus, ClusterCount(b))
  {
  }

  /** At least sixteen clusters, and no more than the sub-type allows. */
  lemma EnoughClusters(v: Volume, szVol: nat, nFat: nat, nRoot: nat)
    requires IsPlan(v, szVol, nFat, nRoot) && Options(szVol, nFat, nRoot)
    ensures 16 <= v.n <= MAX_FAT32
  {
    FatFits(v, szVol, nFat, nRoot);
    hide FatSectors, Times, FatBytesNeeded, TypeOf, Pre, Before;
    var r := szVol - Before(v.t, Pre(szVol, v.pau), nFat, nRoot);
    DivMonotone(v.pau, v.pau * 16, r);
    DivModIs(v.pau, v.pau * 16, 16, 0);
  }

  lemma MadeIs(b: Bpb, v: Volume, bVol: nat, szVol: nat, nFat: nat, nRoot: nat)
    requires Accepted(b) && ClusterCount(b) == v.n && TypeOf(v.n) == v.t && bVol + szVol <= MAX_DWORD
    requires b.secPerClus == v.pau && b.rsvdSecCnt == v.szRsv && b.numFats == nFat && b.rootEntCnt / 16 == v.szDir
    requires b.rootEntCnt == (if v.t == FAT32 then 0 else nRoot) && (v.t == FAT32 ==> b.rootClus32 == 2)
    requires b.FatSize() == v.szFat && b.FatArea() == Times(v.szFat, nFat)
    requires b.Overhead() == v.szRsv + Times(v.szFat, nFat) + v.szDir <= szVol
    ensures Layout(b, bVol) == Made(v, bVol, nFat, nRoot)
  {
    NoWrap(bVol, b.rsvdSecCnt, b.FatArea(), b.rootEntCnt / 16);
    hide Accepted, ClusterCount, TypeOf, Times, Bpb.FatSize, Bpb.FatArea;
  }

  lemma TimesIs(a: nat, b: nat)
    ensures Times(a, b) == a * b
  {
  }

  lemma ClustersFit(b: Bpb, v: Volume)
    requires FatBytesNeeded(v.t, v.n + 2) <= 512 * v.szFat
    ensures (FatBytesNeeded(v.t, v.n + 2) + 511) / 512 <= v.szFat
  {
    hide FatBytesNeeded;
    CeilingCovers(FatBytesNeeded(v.t, v.n + 2), v.szFat);
  }

  lemma AcceptedFrom(b: Bpb, v: Volume, szVol: nat)
    requires b.bytsPerSec == 512 && b.secPerClus == v.pau > 0 && (b.numFats == 1 || b.numFats == 2)
             && IsClusterSize(v.pau)
    requires b.rootEntCnt % 16 == 0 && b.rsvdSecCnt != 0 && b.Overhead() <= szVol == b.Total() <= MAX_DWORD
    requires v.n == Quotient(szVol - b.Overhead(), v.pau) && TypeOf(v.n) == v.t && 0 < v.n <= MAX_FAT32
    requires if v.t == FAT32 then b.fsVer32 == 0 && b.rootEntCnt == 0 else b.rootEntCnt != 0
    requires b.FatSize() == v.szFat && (FatBytesNeeded(v.t, v.n + 2) + 511) / 512 <= v.szFat
    ensures Accepted(b) && ClusterCount(b) == v.n && SysArea(b) == b.Overhead()
  {
    hide FatBytesNeeded, Quotient, TypeOf, IsClusterSize, Bpb.Overhead, Bpb.Total, Bpb.FatSize;
  }

  // ----- writing the boot sector -----

  method Put(buf: array<byte>, o: nat, bs: seq<byte>)
    requires buf.Length == 512 && o + |bs| <= 512
    modifies buf
    ensures forall k :: o <= k < o + |bs| ==> buf[k] == bs[k - o]
    ensures forall k :: 0 <= k < 512 && !(o <= k < o + |bs|) ==> buf[k] == old(buf[k])
  {
    forall k | o <= k < o + |bs| { buf[k] := bs[k - o]; }
  }

  /** The bytes of a number, lowest first. */
  function B0(v: nat): byte { v % 256 }

  function B1(v: nat): byte { v / 256 % 256 }

  function B2(v: nat): byte { v / 256 / 256 % 256 }

  function B3(v: nat): byte { v / 256 / 256 / 256 % 256 }

  method StWord(buf: array<byte>, o: nat, v: nat)
    requires o + 2 <= buf.Length
    modifies buf
    ensures buf[o] == B0(v) && buf[o + 1] == B1(v)
    ensures forall k :: 0 <= k < buf.Length && !(o <= k < o + 2) ==> buf[k] == old(buf[k])
  {
    hide *;
    buf[o] := B0(v);
    buf[o + 1] := B1(v);
  }

  method StDword(buf: array<byte>, o: nat, v: nat)
    requires o + 4 <= buf.Length
    modifies buf
    ensures buf[o] == B0(v) && buf[o + 1] == B1(v) && buf[o + 2] == B2(v) && buf[o + 3] == B3(v)
    ensures forall k :: 0 <= k < buf.Length && !(o <= k < o + 4) ==> buf[k] == old(buf[k])
  {
    hide *;
    StWord(buf, o, v);
    buf[o + 2] := B2(v);
    buf[o + 3] := B3(v);
  }

  function Ascii(s: string): (t: seq<byte>)
    ensures |t| == |s|
  {
    seq(|s|, i requires 0 <= i < |s| => s[i] as int % 256)
  }

  /** What the boot sector says to others: jump, name of the maker, medium, disk parameters, serial
      number and label, and the places of FSINFO and of the second boot sector. */
  ghost predicate Decorated(s: seq<byte>, t: FsType, bVol: nat, vsn: nat)
    requires |s| == 512
  {
    && s[..3] == [0xEB, 0xFE, 0x90] && s[3..11] == Ascii("MSDOS5.0")
    && s[21] == 0xF8 && LdWord(s, 24) == 63 && LdWord(s, 26) == 255 && LdDword(s, 28) == bVol
    && LdWord(s, 510) == 0xAA55
    && (t == FAT32 ==>
          && LdWord(s, 48) == 1 && LdWord(s, 50) == 6
          && s[64] == 0x80 && s[66] == 0x29 && LdDword(s, 67) == vsn
          && s[71..82] == Ascii("NO NAME    ") && s[82..90] == Ascii("FAT32   "))
    && (t != FAT32 ==>
          && s[36] == 0x80 && s[38] == 0x29 && LdDword(s, 39) == vsn
          && s[43..54] == Ascii("NO NAME    ") && s[54..62] == Ascii("FAT     "))
  }

  function RootEntries(t: FsType, nRoot: nat): nat { if t == FAT32 then 0 else nRoot }

  function Small(szVol: nat): nat { if szVol < 0x1_0000 then szVol else 0 }

  /** Clear the sector and store the boot code's jump and the sizes. */
  method StoreSizes(buf: array<byte>, v: Volume, nFat: byte, nRoot: nat)
    requires buf.Length == 512
    modifies buf
    ensures buf[11] == B0(512) && buf[12] == B1(512) && buf[13] == B0(v.pau) && buf[14] == B0(v.szRsv)
            && buf[15] == B1(v.szRsv)
    ensures buf[16] == nFat && buf[17] == B0(RootEntries(v.t, nRoot)) && buf[18] == B1(RootEntries(v.t, nRoot))
    ensures forall k :: 0 <= k < 3 ==> buf[k] == [0xEB, 0xFE, 0x90][k]
    ensures forall k :: 3 <= k < 11 ==> buf[k] == Ascii("MSDOS5.0")[k - 3]
    ensures forall k :: 19 <= k < 512 ==> buf[k] == 0
  {
    hide *;
    forall k | 0 <= k < 512 { buf[k] := 0; }
    Put(buf, 0, [0xEB, 0xFE, 0x90, 0x4D, 0x53, 0x44, 0x4F, 0x53, 0x35, 0x2E, 0x30]);
    MakerIs();
    StWord(buf, 11, 512);
    buf[13] := B0(v.pau);
    StWord(buf, 14, v.szRsv);
    buf[16] := nFat;
    StWord(buf, 17, RootEntries(v.t, nRoot));
  }

  lemma MakerIs()
    ensures Ascii("MSDOS5.0") == [0x4D, 0x53, 0x44, 0x4F, 0x53, 0x35, 0x2E, 0x30]
  {
  }

  /** The volume size and the disk parameters. */
  method StoreVolume(buf: array<byte>, bVol: nat, szVol: nat)
    requires buf.Length == 512 && buf[19] == 0 && buf[20] == 0
    modifies buf
    ensures szVol < 0x1_0000 ==> buf[19] == B0(szVol) && buf[20] == B1(szVol)
    ensures szVol >= 0x1_0000 ==>
      buf[19] == 0 && buf[20] == 0 && buf[32] == B0(szVol) && buf[33] == B1(szVol) && buf[34] == B2(szVol)
        && buf[35] == B3(szVol)
    ensures buf[21] == 0xF8 && buf[24] == B0(63) && buf[25] == B1(63) && buf[26] == B0(255) && buf[27] == B1(255)
    ensures buf[28] == B0(bVol) && buf[29] == B1(bVol) && buf[30] == B2(bVol) && buf[31] == B3(bVol)
    ensures forall k :: 0 <= k < 512 && !(19 <= k < 22) && !(24 <= k < 36) ==> buf[k] == old(buf[k])
  {
    hide *;
    if szVol < 0x1_0000 {
      StWord(buf, 19, szVol);
    } else {
      StDword(buf, 32, szVol);
    }
    buf[21] := 0xF8;
    StWord(buf, 24, 63);
    StWord(buf, 26, 255);
    StDword(buf, 28, bVol);
  }

  /** The fields of a FAT32 volume. */
  method StoreFat32(buf: array<byte>, szFat: nat, vsn: nat)
    requires buf.Length == 512
    modifies buf
    ensures buf[36] == B0(szFat) && buf[37] == B1(szFat) && buf[38] == B2(szFat) && buf[39] == B3(szFat)
    ensures buf[44] == B0(2) && buf[45] == B1(2) && buf[46] == B2(2) && buf[47] == B3(2)
    ensures buf[48] == B0(1) && buf[49] == B1(1) && buf[50] == B0(6) && buf[51] == B1(6)
    ensures buf[64] == 0x80 && buf[66] == 0x29
    ensures buf[67] == B0(vsn) && buf[68] == B1(vsn) && buf[69] == B2(vsn) && buf[70] == B3(vsn)
    ensures forall k :: 71 <= k < 90 ==> buf[k] == Ascii("NO NAME    FAT32   ")[k - 71]
    ensures forall k :: 0 <= k < 512 && !(36 <= k < 40) && !(44 <= k < 90) ==> buf[k] == old(buf[k])
  {
    hide B0, B1, B2, B3;
    StDword(buf, 67, vsn);
    StDword(buf, 36, szFat);
    StDword(buf, 44, 2);
    StWord(buf, 48, 1);
    StWord(buf, 50, 6);
    buf[64] := 0x80;
    buf[66] := 0x29;
    Put(buf, 71, Ascii("NO NAME    FAT32   "));
  }

  /** The fields of a FAT12 or FAT16 volume. */
  method StoreFat16(buf: array<byte>, szFat: nat, vsn: nat)
    requires buf.Length == 512
    modifies buf
    ensures buf[22] == B0(szFat) && buf[23] == B1(szFat)
    ensures buf[36] == 0x80 && buf[38] == 0x29
    ensures buf[39] == B0(vsn) && buf[40] == B1(vsn) && buf[41] == B2(vsn) && buf[42] == B3(vsn)
    ensures forall k :: 43 <= k < 62 ==> buf[k] == Ascii("NO NAME    FAT     ")[k - 43]
    ensures forall k :: 0 <= k < 512 && !(22 <= k < 24) && !(36 <= k < 62) ==> buf[k] == old(buf[k])
  {
    hide B0, B1, B2, B3;
    StDword(buf, 39, vsn);
    StWord(buf, 22, szFat);
    buf[36] := 0x80;
    buf[38] := 0x29;
    Put(buf, 43, Ascii("NO NAME    FAT     "));
  }

  lemma WordOfBytes(v: nat)
    ensures B0(v) as int + 256 * B1(v) as int == v % 0x1_0000
    ensures B0(0) == 0 && B1(0) == 0
  {
    var q := v / 256;
    assert v == 256 * q + v % 256 && q == 256 * (q / 256) + q % 256;
    assert v == 0x1_0000 * (q / 256) + (256 * (q % 256) + v % 256);
  }

  lemma DwordOfBytes(v: nat)
    requires v <= MAX_DWORD
    ensures B0(v) as int + 0x100 * B1(v) as int + 0x1_0000 * B2(v) as int + 0x100_0000 * B3(v) as int == v
  {
    var q := v / 256;
    var r := q / 256;
    var t := r / 256;
    assert v == 256 * q + v % 256 && q == 256 * r + q % 256 && r == 256 * t + r % 256;
    assert t < 256;
  }

  lemma WordRead(s: seq<byte>, o: nat, v: nat)
    requires |s| == 512 && o + 2 <= 512 && s[o] == B0(v) && s[o + 1] == B1(v)
    ensures LdWord(s, o) == v % 0x1_0000
  {
    WordOfBytes(v);
    hide B0, B1;
  }

  lemma DwordRead(s: seq<byte>, o: nat, v: nat)
    requires |s| == 512 && o + 4 <= 512 && v <= MAX_DWORD
    requires s[o] == B0(v) && s[o + 1] == B1(v) && s[o + 2] == B2(v) && s[o + 3] == B3(v)
    ensures LdDword(s, o) == v
  {
    DwordOfBytes(v);
    hide B0, B1, B2, B3;
  }

  lemma FieldsRead(s: seq<byte>, v: Volume, szVol: nat, nFat: nat, nRoot: nat)
    requires |s| == 512 && Options(szVol, nFat, nRoot) && v.szFat <= MAX_DWORD
    requires s[11] == B0(512) && s[12] == B1(512) && s[13] == B0(v.pau) && s[14] == B0(v.szRsv) && s[15] == B1(v.szRsv)
    requires s[16] as int == nFat && s[17] == B0(RootEntries(v.t, nRoot)) && s[18] == B1(RootEntries(v.t, nRoot))
    requires szVol < 0x1_0000 ==> s[19] == B0(szVol) && s[20] == B1(szVol)
    requires szVol >= 0x1_0000 ==>
      s[19] == 0 && s[20] == 0 && s[32] == B0(szVol) && s[33] == B1(szVol) && s[34] == B2(szVol) && s[35] == B3(szVol)
    requires v.t == FAT32 ==>
      && s[22] == 0 && s[23] == 0 && s[42] == 0 && s[43] == 0
      && s[36] == B0(v.szFat) && s[37] == B1(v.szFat) && s[38] == B2(v.szFat) && s[39] == B3(v.szFat)
      && s[44] == B0(2) && s[45] == B1(2) && s[46] == B2(2) && s[47] == B3(2)
    requires v.t != FAT32 ==> s[22] == B0(v.szFat) && s[23] == B1(v.szFat)
    ensures Describes(ReadBpb(s), v, szVol, nFat, nRoot)
  {
    WordOfBytes(0);
    B0Is(v.pau);
    hide B0, B1, B2, B3, LdWord, LdDword;
    OptionFacts(szVol, nFat, nRoot);
    WordRead(s, 11, 512);
    WordRead(s, 14, v.szRsv);
    WordRead(s, 17, RootEntries(v.t, nRoot));
    WordRead(s, 19, Small(szVol));
    WordRead(s, 22, if v.t == FAT32 then 0 else v.szFat);
    if szVol >= 0x1_0000 { DwordRead(s, 32, szVol); }
    if v.t == FAT32 {
      DwordRead(s, 36, v.szFat);
      DwordRead(s, 44, 2);
      WordRead(s, 42, 0);
    }
  }

  lemma DecorationsRead(s: seq<byte>, t: FsType, bVol: nat, vsn: nat)
    requires |s| == 512 && bVol <= MAX_DWORD && vsn <= MAX_DWORD
    requires forall k :: 0 <= k < 3 ==> s[k] == [0xEB, 0xFE, 0x90][k]
    requires forall k :: 3 <= k < 11 ==> s[k] == Ascii("MSDOS5.0")[k - 3]
    requires s[21] == 0xF8 && s[24] == B0(63) && s[25] == B1(63) && s[26] == B0(255) && s[27] == B1(255)
    requires s[28] == B0(bVol) && s[29] == B1(bVol) && s[30] == B2(bVol) && s[31] == B3(bVol)
    requires s[510] == B0(0xAA55) && s[511] == B1(0xAA55)
    requires t == FAT32 ==>
      && s[48] == B0(1) && s[49] == B1(1) && s[50] == B0(6) && s[51] == B1(6) && s[64] == 0x80 && s[66] == 0x29
      && s[67] == B0(vsn) && s[68] == B1(vsn) && s[69] == B2(vsn) && s[70] == B3(vsn)
      && forall k :: 71 <= k < 90 ==> s[k] == Ascii("NO NAME    FAT32   ")[k - 71]
    requires t != FAT32 ==>
      && s[36] == 0x80 && s[38] == 0x29
      && s[39] == B0(vsn) && s[40] == B1(vsn) && s[41] == B2(vsn) && s[42] == B3(vsn)
      && forall k :: 43 <= k < 62 ==> s[k] == Ascii("NO NAME    FAT     ")[k - 43]
    ensures Decorated(s, t, bVol, vsn)
  {
    hide B0, B1, B2, B3, LdWord, LdDword, Ascii;
    WordRead(s, 24, 63);
    WordRead(s, 26, 255);
    DwordRead(s, 28, bVol);
    WordRead(s, 510, 0xAA55);
    Labels();
    if t == FAT32 {
      WordRead(s, 48, 1);
      WordRead(s, 50, 6);
      DwordRead(s, 67, vsn);
      assert s[71..82] == Ascii("NO NAME    FAT32   ")[..11] && s[82..90] == Ascii("NO NAME    FAT32   ")[11..];
    } else {
      DwordRead(s, 39, vsn);
      assert s[43..54] == Ascii("NO NAME    FAT     ")[..11] && s[54..62] == Ascii("NO NAME    FAT     ")[11..];
    }
  }

  lemma Labels()
    ensures Ascii("NO NAME    FAT32   ")[..11] == Ascii("NO NAME    ")
    ensures Ascii("NO NAME    FAT32   ")[11..] == Ascii("FAT32   ")
    ensures Ascii("NO NAME    FAT     ")[..11] == Ascii("NO NAME    ")
    ensures Ascii("NO NAME    FAT     ")[11..] == Ascii("FAT     ")
  {
  }

  lemma B0Is(v: nat)
    ensures B0(v) as int == v % 256
  {
  }

  /** The boot sector of a layout. */
  method StoreBootSector(buf: array<byte>, v: Volume, bVol: nat, szVol: nat, nFat: nat, nRoot: nat, vsn: nat)
    requires buf.Length == 512 && Options(szVol, nFat, nRoot) && v.szFat <= MAX_DWORD
    requires bVol <= MAX_DWORD && vsn <= MAX_DWORD
    modifies buf
    ensures Describes(ReadBpb(buf[..]), v, szVol, nFat, nRoot) && Decorated(buf[..], v.t, bVol, vsn)
  {
    hide *;
    OptionFacts(szVol, nFat, nRoot);
    StoreSizes(buf, v, nFat, nRoot);
    StoreVolume(buf, bVol, szVol);
    if v.t == FAT32 {
      StoreFat32(buf, v.szFat, vsn);
    } else {
      StoreFat16(buf, v.szFat, vsn);
    }
    StWord(buf, 510, 0xAA55);
    FieldsRead(buf[..], v, szVol, nFat, nRoot);
    DecorationsRead(buf[..], v.t, bVol, vsn);
  }

  /** The boot sector of a layout passes for one of a FAT volume. */
  lemma PassesForFat(s: seq<byte>, v: Volume, bVol: nat, szVol: nat, nFat: nat, nRoot: nat, vsn: nat)
    requires |s| == 512 && IsPlan(v, szVol, nFat, nRoot) && Options(szVol, nFat, nRoot)
    requires Describes(ReadBpb(s), v, szVol, nFat, nRoot) && Decorated(s, v.t, bVol, vsn)
    ensures IsFatSector(s)
  {
    hide *;
    DescribedFields(ReadBpb(s), v, szVol, nFat, nRoot);
    FatFits(v, szVol, nFat, nRoot);
    OptionFacts(szVol, nFat, nRoot);
    Marks(s, v.t, bVol, vsn);
    if v.t != FAT32 {
      SizeFields(ReadBpb(s), v, szVol, nFat, nRoot);
      FieldsPass(s);
    }
  }

  lemma Marks(s: seq<byte>, t: FsType, bVol: nat, vsn: nat)
    requires |s| == 512 && Decorated(s, t, bVol, vsn)
    ensures s[0] == 0xEB && (t == FAT32 ==> IsFatSector(s))
  {
    hide LdDword, LdWord, ReadBpb;
    assert s[0] == s[..3][0];
    assert Ascii("FAT32   ") == [0x46, 0x41, 0x54, 0x33, 0x32, 0x20, 0x20, 0x20];
  }

  lemma SizeFields(b: Bpb, v: Volume, szVol: nat, nFat: nat, nRoot: nat)
    requires Describes(b, v, szVol, nFat, nRoot) && Options(szVol, nFat, nRoot) && v.t != FAT32 && 0 < v.szFat <= 0xFFFF
    ensures b.rootEntCnt != 0 && b.fatSz16 != 0 && (b.totSec16 >= 128 || b.totSec32 >= 0x1_0000)
  {
  }

  lemma FieldsPass(s: seq<byte>)
    requires |s| == 512 && s[0] == 0xEB
    requires var b := ReadBpb(s);
      && b.bytsPerSec == 512 && IsClusterSize(b.secPerClus) && b.rsvdSecCnt != 0 && 1 <= b.numFats <= 2
      && b.rootEntCnt != 0 && (b.totSec16 >= 128 || b.totSec32 >= 0x1_0000) && b.fatSz16 != 0
    ensures IsFatSector(s)
  {
    hide ReadBpb, IsClusterSize, LdWord;
  }

  // ----- f_mkfs -----

  /** A power of two, as the test x & (x - 1) finds it; 0 passes it too. */
  predicate IsPower(x: nat) {
    x == 1 || (x > 0 && x % 2 == 0 && IsPower(x / 2))
  }

  /** The powers of two pass the test, and nothing else but 0. */
  lemma {:induction false} PowersPass(x: nat)
    ensures IsPower(x) <==> exists k: nat :: x == Pow2(k)
  {
    if IsPower(x) {
      PowerOf(x);
    }
    if k: nat :| x == Pow2(k) { PowerPasses(k); }
  }

  lemma {:induction false} PowerOf(x: nat)
    requires IsPower(x)
    ensures exists k: nat :: x == Pow2(k)
  {
    if x == 1 {
      assert Pow2(0) == 1;
    } else {
      PowerOf(x / 2);
      var k: nat :| x / 2 == Pow2(k);
      assert Pow2(k + 1) == x;
    }
  }

  lemma {:induction false} PowerPasses(k: nat)
    ensures IsPower(Pow2(k))
  {
    if k > 0 { PowerPasses(k - 1); }
  }

  /** Divided by eight, a power of two is one, or 0. */
  lemma Eighth(x: nat)
    requires x == 0 || IsPower(x)
    ensures x / 8 == 0 || IsPower(x / 8)
  {
    var a := x / 2;
    var b := a / 2;
    assert x / 8 == b / 2;
    assert a == 0 || IsPower(a);
    assert b == 0 || IsPower(b);
  }

  lemma SmallPower(x: nat)
    requires IsPower(x) && x <= 128
    ensures IsClusterSize(x)
  {
    if x > 1 {
      SmallPower(x / 2);
    }
  }

  /** The allocation unit asked for, in sectors; 0 leaves the choice to the loop. */
  function UnitOf(auSize: nat): nat {
    var au := if auSize <= 0x100_0000 && (auSize == 0 || IsPower(auSize)) then auSize / 512 else 0;
    if au > 128 then 128 else au
  }

  lemma UnitOfIs(auSize: nat)
    ensures UnitOf(auSize) == 0 || IsClusterSize(UnitOf(auSize))
  {
    if auSize > 0 && IsPower(auSize) {
      Eighth(auSize);
      Eighth(auSize / 8);
      Eighth(auSize / 8 / 8);
      assert auSize / 8 / 8 / 8 == auSize / 512;
      if 0 < auSize / 512 <= 128 { SmallPower(auSize / 512); }
    }
  }

  function FatsOf(nFat: nat): nat { if 1 <= nFat <= 2 then nFat else 1 }

  function RootOf(nRoot: nat): nat { if 1 <= nRoot <= 32768 && nRoot % 16 == 0 then nRoot else 512 }

  /** Where the volume starts: behind the first track unless the whole drive is asked for. */
  function BaseOf(szDrv: nat, sfd: bool): nat { if !sfd && szDrv > 63 then 63 else 0 }

  /** f_mkfs up to the boot sector, on a drive of szDrv sectors. fat and fat32 say which sub-types
      are wanted, sfd that the drive is not to be partitioned. */
  method Mkfs(szDrv: nat, fat: bool, fat32: bool, sfd: bool, nFatOpt: nat, nRootOpt: nat, auSize: nat, vsn: nat,
              buf: array<byte>)
    returns (res: FResult, v: Volume)
    requires szDrv <= MAX_DWORD && vsn <= MAX_DWORD && buf.Length == 512
    modifies buf
    ensures res == FR_OK || res == FR_MKFS_ABORTED || res == FR_INVALID_PARAMETER
    ensures res == FR_INVALID_PARAMETER <==> szDrv - BaseOf(szDrv, sfd) >= 128 && !fat && !fat32
    ensures var szVol := szDrv - BaseOf(szDrv, sfd);
            res == FR_MKFS_ABORTED <==>
              szVol < 128 || ((fat || fat32)
                && !Feasible(szVol, FatsOf(nFatOpt), RootOf(nRootOpt), fat, fat32, UnitOf(auSize)))
    ensures res == FR_OK ==>
      Picked(szDrv - BaseOf(szDrv, sfd), FatsOf(nFatOpt), RootOf(nRootOpt), fat, fat32, UnitOf(auSize), v.t, v.pau)
    ensures res == FR_OK ==> (!fat ==> v.t == FAT32) && (!fat32 ==> v.t != FAT32)
    ensures res == FR_OK && UnitOf(auSize) > 0 ==> v.pau == UnitOf(auSize)
    ensures res == FR_OK ==>
      var bVol := BaseOf(szDrv, sfd);
      && IsPlan(v, szDrv - bVol, FatsOf(nFatOpt), RootOf(nRootOpt))
      && Accepted(ReadBpb(buf[..]))
         && Layout(ReadBpb(buf[..]), bVol) == Made(v, bVol, FatsOf(nFatOpt), RootOf(nRootOpt))
      && Layout(ReadBpb(buf[..]), bVol).Valid(szDrv) && RootFits(Layout(ReadBpb(buf[..]), bVol))
      && Decorated(buf[..], v.t, bVol, vsn) && IsFatSector(buf[..])
  {
    hide *;
    v := Volume(FAT12, 1, 0, 0, 0, 0);
    MkfsOptions(szDrv, nFatOpt, nRootOpt, auSize, sfd);
    var nFat := if nFatOpt >= 1 && nFatOpt <= 2 then nFatOpt else 1;
    var nRoot := if nRootOpt >= 1 && nRootOpt <= 32768 && nRootOpt % 16 == 0 then nRootOpt else 512;
    var szAu := if auSize <= 0x100_0000 && (auSize == 0 || IsPower(auSize)) then auSize else 0;
    szAu := szAu / 512;
    if szAu > 128 { szAu := 128; }
    var bVol, szVol := 0, szDrv;
    if !sfd {
      if szVol > 63 { bVol, szVol := 63, szVol - 63; }
    }
    res := FR_MKFS_ABORTED;
    if szVol >= 128 {
      if !fat && !fat32 {
        res := FR_INVALID_PARAMETER;
      } else {
        OptionsHold(szVol, nFatOpt, nRootOpt);
        var ok, vol := ChooseLayout(if fat then FAT16 else FAT32, szAu, bVol, szVol, nFat, nRoot, fat32);
        OutcomeExactly(szVol, nFat, nRoot, fat, fat32, szAu);
        if ok {
          v := vol;
          PickedWithin(szVol, nFat, nRoot, fat, fat32, szAu, v.t, v.pau);
          PlanWidth(vol, szVol, nFat, nRoot);
          StoreBootSector(buf, vol, bVol, szVol, nFat, nRoot, vsn);
          FormattedMounts(ReadBpb(buf[..]), vol, bVol, szVol, nFat, nRoot, szDrv);
          PassesForFat(buf[..], vol, bVol, szVol, nFat, nRoot, vsn);
          res := FR_OK;
        }
      }
    }
  }

  lemma MkfsOptions(szDrv: nat, nFatOpt: nat, nRootOpt: nat, auSize: nat, sfd: bool)
    ensures UnitOf(auSize) == 0 || IsClusterSize(UnitOf(auSize))
    ensures var au := if auSize <= 0x100_0000 && (auSize == 0 || IsPower(auSize)) then auSize / 512 else 0;
            UnitOf(auSize) == if au > 128 then 128 else au
    ensures FatsOf(nFatOpt) == if 1 <= nFatOpt <= 2 then nFatOpt else 1
    ensures RootOf(nRootOpt) == if 1 <= nRootOpt <= 32768 && nRootOpt % 16 == 0 then nRootOpt else 512
    ensures BaseOf(szDrv, sfd) == (if !sfd && szDrv > 63 then 63 else 0)
    ensures MAX_DWORD == 0xFFFF_FFFF
  {
    UnitOfIs(auSize);
  }

  lemma OptionsHold(szVol: nat, nFatOpt: nat, nRootOpt: nat)
    requires 128 <= szVol <= MAX_DWORD
    ensures Options(szVol, FatsOf(nFatOpt), RootOf(nRootOpt))
  {
  }

  lemma PlanWidth(v: Volume, szVol: nat, nFat: nat, nRoot: nat)
    requires IsPlan(v, szVol, nFat, nRoot) && Options(szVol, nFat, nRoot)
    ensures v.szFat <= MAX_DWORD
  {
    PreBound(szVol, v.pau);
    FatSectorsBound(v.t, Pre(szVol, v.pau));
    hide FatSectors, Pre;
  }

  /** And mount_volume, on that boot sector, returns the layout f_mkfs made. */
  method MountFormatted(buf: array<byte>, v: Volume, bVol: nat, szVol: nat, nFat: nat, nRoot: nat)
    returns (res: FResult, g: Geo)
    requires buf.Length == 512 && IsPlan(v, szVol, nFat, nRoot) && Options(szVol, nFat, nRoot)
             && bVol + szVol <= MAX_DWORD
    requires Describes(ReadBpb(buf[..]), v, szVol, nFat, nRoot)
    ensures res == FR_OK && g == Made(v, bVol, nFat, nRoot)
  {
    hide *;
    MaxDword();
    FormattedMounts(ReadBpb(buf[..]), v, bVol, szVol, nFat, nRoot, bVol + szVol);
    res, g := MountVolume(buf[..], bVol);
  }
}
