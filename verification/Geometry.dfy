/** The layout fields of FATFS, as mount_volume leaves them (FatFs/ff.c:3460-3509). */
module Geometry {
  import opened Bytes
  import opened Numbers

  datatype FsType = FAT12 | FAT16 | FAT32

  const MAX_FAT12: nat := 0xFF5
  const MAX_FAT16: nat := 0xFFF5
  const MAX_FAT32: nat := 0x0FFF_FFF5

  /** Cluster sizes in sectors: the powers of two that fit the BYTE field of the BPB. */
  predicate IsClusterSize(c: nat) {
    c == 1 || c == 2 || c == 4 || c == 8 || c == 16 || c == 32 || c == 64 || c == 128
  }

  /** Number of bytes the FAT needs for n entries. */
  function FatBytesNeeded(t: FsType, n: nat): nat {
    match t
    case FAT12 => n * 3 / 2 + n % 2
    case FAT16 => n * 2
    case FAT32 => n * 4
  }

  function MaxClusters(t: FsType): nat {
    match t
    case FAT12 => MAX_FAT12
    case FAT16 => MAX_FAT16
    case FAT32 => MAX_FAT32
  }

  /** One more than the largest value an entry can hold. */
  function EntryMod(t: FsType): nat {
    match t
    case FAT12 => 0x1000
    case FAT16 => 0x1_0000
    case FAT32 => 0x1000_0000
  }

  datatype Geo = Geo(
    fsType: FsType,
    nFats: nat,
    nRootdir: nat,
    csize: nat,
    nFatent: nat,
    fsize: nat,
    volbase: nat,
    fatbase: nat,
    dirbase: nat,
    database: nat
  )
  {
    /** The layout fits a drive of nsect sectors and no layout sum wraps. */
    predicate Valid(nsect: nat) {
      && nsect <= MAX_DWORD
      && (nFats == 1 || nFats == 2)
      && IsClusterSize(csize)
      && 3 <= nFatent <= MaxClusters(fsType) + 2
      && FatBytesNeeded(fsType, nFatent) <= 512 * fsize
      && volbase < fatbase
      && FatEnd() <= database
      && database + csize * (nFatent - 2) <= nsect
    }

    /** First sector after the last FAT copy. */
    function FatEnd(): nat {
      fatbase + (if nFats == 2 then 2 * fsize else fsize)
    }

    predicate InFat1(s: int) {
      fatbase <= s < fatbase + fsize
    }

    /** The value put_fat stores when it is asked to store 0xFFFFFFFF. */
    function Eoc(): nat {
      EntryMod(fsType) - 1
    }

    predicate IsCluster(c: nat) {
      2 <= c < nFatent
    }

    /** clst2sect: 0 stands for an invalid cluster number. */
    function ClstSect(c: nat): (s: nat)
    {
      if c < 2 || c - 2 >= nFatent - 2 then 0 else database + csize * (c - 2)
    }
  }

  /** Every cluster lies wholly inside the data area, and clusters do not overlap. */
  lemma ClusterInDataArea(g: Geo, nsect: nat, c: nat)
    requires g.Valid(nsect) && g.IsCluster(c)
    ensures g.database <= g.ClstSect(c)
    ensures g.ClstSect(c) + g.csize <= nsect
    ensures g.ClstSect(c) != 0
  {
    assert g.csize * (c - 2) + g.csize == g.csize * (c - 1);
    MulMono(g.csize, c - 1, g.nFatent - 2);
    assert 0 <= g.csize * (c - 2);
  }

  /** A sector of the data area belongs to one cluster, at one offset. */
  lemma SectorIsInOneCluster(g: Geo, c: nat, i: nat, d: nat, j: nat)
    requires g.IsCluster(c) && g.IsCluster(d)
    requires i < g.csize && j < g.csize
    requires g.ClstSect(c) + i == g.ClstSect(d) + j
    ensures c == d && i == j
  {
    if c < d {
      MulStep(g.csize, c - 2, d - 2);
      assert false;
    } else if d < c {
      MulStep(g.csize, d - 2, c - 2);
      assert false;
    }
  }
}
