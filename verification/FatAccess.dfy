/** get_fat and put_fat: FAT entries read and written through the window. */
module FatAccess {
  import opened Bytes
  import opened Geometry
  import opened FatTable
  import opened Results
  import opened Sectors
  import opened Volume

  /** The table as a list of values: entry c of the image's FAT. */
  lemma FatAt(g: Geo, img: Image, c: nat)
    requires g.Valid(|img|) && c < g.nFatent
    ensures FatBytesNeeded(g.fsType, c + 1) <= 512 * g.fsize
    ensures FatView(g, img)[c] == Entry(g.fsType, Fat1(g, img), c)
  {
    EntryFits(g.fsType, g.nFatent, c);
    EntriesAt(g.fsType, g.nFatent, Fat1(g, img), c);
  }

  /** A field of n bytes at byte k of the FAT that does not leave its sector, seen in the window. */
  lemma WindowIsFat(fs: FatFs, k: nat, n: nat)
    requires fs.Valid() && k + n <= 512 * fs.geo.fsize
    requires fs.winsect == fs.geo.fatbase + k / 512 && k % 512 + n <= 512
    ensures fs.win[k % 512..k % 512 + n] == Fat1(fs.geo, fs.Img())[k..k + n]
  {
    var seen, stored := fs.win[k % 512..k % 512 + n], Fat1(fs.geo, fs.Img())[k..k + n];
    forall i | 0 <= i < n
      ensures seen[i] == stored[i]
    {
      SameSector(k, i);
    }
  }

  lemma SameSector(k: nat, i: nat)
    requires k % 512 + i < 512
    ensures (k + i) / 512 == k / 512 && (k + i) % 512 == k % 512 + i
  {
  }

  /** Bring the sector of byte k of the FAT into the window. */
  method MoveToByte(fs: FatFs, k: nat)
    requires fs.Valid() && k < 512 * fs.geo.fsize
    modifies fs`winsect, fs`wflag, fs.win, fs.disk
    ensures fs.Valid() && Looked(fs.geo, old(fs.Now()), fs.Now()) && fs.Img() == old(fs.Img())
    ensures fs.winsect == fs.geo.fatbase + k / 512 && fs.geo.InFat1(fs.winsect)
  {
    MoveWindow(fs, fs.geo.fatbase + k / 512);
  }

  lemma ByteInWindow(fs: FatFs, k: nat)
    requires fs.Valid() && k < 512 * fs.geo.fsize && fs.winsect == fs.geo.fatbase + k / 512
    ensures fs.win.Length == 512 && fs.win[k % 512] == Fat1(fs.geo, fs.Img())[k]
  {
  }

  method FetchFatByte(fs: FatFs, k: nat) returns (b: byte)
    requires fs.Valid() && k < 512 * fs.geo.fsize
    modifies fs`winsect, fs`wflag, fs.win, fs.disk
    ensures fs.Valid() && Looked(fs.geo, old(fs.Now()), fs.Now()) && fs.Img() == old(fs.Img())
    ensures fs.winsect == fs.geo.fatbase + k / 512 && fs.geo.InFat1(fs.winsect)
    ensures b == Fat1(fs.geo, old(fs.Img()))[k]
  {
    hide *;
    MoveToByte(fs, k);
    ByteInWindow(fs, k);
    b := fs.win[k % 512];
  }

  method GetFat12(fs: FatFs, clst: nat) returns (val: nat)
    requires fs.Valid() && clst + clst / 2 + 2 <= 512 * fs.geo.fsize
    modifies fs`winsect, fs`wflag, fs.win, fs.disk
    ensures fs.Valid() && Looked(fs.geo, old(fs.Now()), fs.Now()) && fs.Img() == old(fs.Img())
    ensures val == Entry12(Fat1(fs.geo, old(fs.Img())), clst)
  {
    hide *;
    VolumeFacts(fs);
    Entry12Is(Fat1(fs.geo, fs.Img()), clst);
    ghost var s0 := fs.Now();
    var bc := clst + clst / 2;
    var lo := FetchFatByte(fs, bc);
    ghost var s1 := fs.Now();
    bc := bc + 1;
    var hi := FetchFatByte(fs, bc);
    LookedTrans(fs.geo, s0, s1, fs.Now());
    var wc := lo as int + 256 * hi as int;
    val := if clst % 2 == 1 then wc / 16 else wc % 0x1000;
  }

  lemma Entry12Is(b: seq<byte>, c: nat)
    requires c + c / 2 + 2 <= |b|
    ensures var wc := b[c + c / 2] as int + 256 * b[c + c / 2 + 1] as int;
            Entry12(b, c) == if c % 2 == 1 then wc / 16 else wc % 0x1000
  {
  }

  /** Bring a sector of the FAT into the window, in a run of reads that began at s0. */
  method MoveInFat(fs: FatFs, s: nat, ghost s0: Snap)
    requires fs.Valid() && fs.geo.InFat1(s) && s < |fs.disk.sectors|
    requires fs.geo.Valid(|s0.img|) && Looked(fs.geo, s0, fs.Now()) && fs.Img() == s0.img
    modifies fs`winsect, fs`wflag, fs.win, fs.disk
    ensures fs.Valid() && fs.winsect == s
    ensures Looked(fs.geo, s0, fs.Now()) && fs.Img() == s0.img
  {
    VolumeFacts(fs);
    ghost var s1 := fs.Now();
    MoveWindow(fs, s);
    LookedTrans(fs.geo, s0, s1, fs.Now());
  }

  /** A 16-bit and a 32-bit entry lie within one sector. */
  lemma WordInSector(c: nat)
    ensures 2 * c / 512 == c / 256 == (2 * c + 1) / 512
    ensures c * 2 % 512 == 2 * c % 512 && 2 * c % 512 + 2 <= 512
  {
    assert 2 * c == 512 * (c / 256) + 2 * (c % 256);
  }

  lemma DwordInSector(c: nat)
    ensures 4 * c / 512 == c / 128 == (4 * c + 1) / 512 == (4 * c + 2) / 512 == (4 * c + 3) / 512
    ensures c * 4 % 512 == 4 * c % 512 && 4 * c % 512 + 4 <= 512
  {
    assert 4 * c == 512 * (c / 128) + 4 * (c % 128);
  }

  lemma LdWordOfSlice(s: seq<byte>, o: nat)
    requires o + 2 <= |s|
    ensures LdWord(s, o) == LdWord(s[o..o + 2], 0)
  {
  }

  lemma LdDwordOfSlice(s: seq<byte>, o: nat)
    requires o + 4 <= |s|
    ensures LdDword(s, o) == LdDword(s[o..o + 4], 0)
  {
  }

  lemma WordInWindow(fs: FatFs, c: nat)
    requires fs.Valid() && 2 * c + 2 <= 512 * fs.geo.fsize
    requires fs.winsect == fs.geo.fatbase + 2 * c / 512
    ensures 2 * c % 512 + 2 <= 512 == fs.win.Length
    ensures LdWord(fs.win[..], 2 * c % 512) == LdWord(Fat1(fs.geo, fs.Img()), 2 * c)
  {
    hide FatFs.Img, Fat1;
    WordInSector(c);
    WindowIsFat(fs, 2 * c, 2);
    LdWordOfSlice(fs.win[..], 2 * c % 512);
    LdWordOfSlice(Fat1(fs.geo, fs.Img()), 2 * c);
    assert fs.win[..][2 * c % 512..2 * c % 512 + 2] == fs.win[2 * c % 512..2 * c % 512 + 2];
  }

  lemma DwordInWindow(fs: FatFs, c: nat)
    requires fs.Valid() && 4 * c + 4 <= 512 * fs.geo.fsize
    requires fs.winsect == fs.geo.fatbase + 4 * c / 512
    ensures 4 * c % 512 + 4 <= 512 == fs.win.Length
    ensures LdDword(fs.win[..], 4 * c % 512) == LdDword(Fat1(fs.geo, fs.Img()), 4 * c)
  {
    hide FatFs.Img, Fat1;
    DwordInSector(c);
    WindowIsFat(fs, 4 * c, 4);
    LdDwordOfSlice(fs.win[..], 4 * c % 512);
    LdDwordOfSlice(Fat1(fs.geo, fs.Img()), 4 * c);
    assert fs.win[..][4 * c % 512..4 * c % 512 + 4] == fs.win[4 * c % 512..4 * c % 512 + 4];
  }

  method GetFat16(fs: FatFs, clst: nat) returns (val: nat)
    requires fs.Valid() && 2 * clst + 2 <= 512 * fs.geo.fsize
    modifies fs`winsect, fs`wflag, fs.win, fs.disk
    ensures fs.Valid() && Looked(fs.geo, old(fs.Now()), fs.Now()) && fs.Img() == old(fs.Img())
    ensures val == LdWord(Fat1(fs.geo, old(fs.Img())), 2 * clst)
  {
    hide *;
    WordInSector(clst);
    MoveToByte(fs, 2 * clst);
    WordInWindow(fs, clst);
    val := LdWord(fs.win[..], clst * 2 % 512);
  }

  method GetFat32(fs: FatFs, clst: nat) returns (val: nat)
    requires fs.Valid() && 4 * clst + 4 <= 512 * fs.geo.fsize
    modifies fs`winsect, fs`wflag, fs.win, fs.disk
    ensures fs.Valid() && Looked(fs.geo, old(fs.Now()), fs.Now()) && fs.Img() == old(fs.Img())
    ensures val == LdDword(Fat1(fs.geo, old(fs.Img())), 4 * clst) % 0x1000_0000
  {
    hide *;
    DwordInSector(clst);
    MoveToByte(fs, 4 * clst);
    DwordInWindow(fs, clst);
    val := LdDword(fs.win[..], clst * 4 % 512) % 0x1000_0000;
  }

  /** The entry of a cluster, by the kind of FAT, and where its bytes are. */
  lemma EntryCases(g: Geo, img: Image, c: nat)
    requires g.Valid(|img|) && g.IsCluster(c)
    ensures g.fsType == FAT12 ==> c + c / 2 + 2 <= 512 * g.fsize && FatView(g, img)[c] == Entry12(Fat1(g, img), c)
    ensures g.fsType == FAT16 ==> 2 * c + 2 <= 512 * g.fsize && FatView(g, img)[c] == LdWord(Fat1(g, img), 2 * c)
    ensures g.fsType == FAT32 ==>
            4 * c + 4 <= 512 * g.fsize && FatView(g, img)[c] == LdDword(Fat1(g, img), 4 * c) % 0x1000_0000
  {
    FatAt(g, img, c);
    Fits12(c);
  }

  /** 1 for a number that is no cluster, the entry otherwise. Reading leaves the image alone. */
  method GetFat(fs: FatFs, clst: nat) returns (val: nat)
    requires fs.Valid()
    modifies fs`winsect, fs`wflag, fs.win, fs.disk
    ensures fs.Valid() && Looked(fs.geo, old(fs.Now()), fs.Now()) && fs.Img() == old(fs.Img())
    ensures val == if fs.geo.IsCluster(clst) then old(fs.Fat())[clst] else 1
  {
    hide *;
    VolumeFacts(fs);
    LookedRefl(fs.geo, fs.Now());
    ClusterRange(fs.geo, clst);
    val := 1;
    if clst >= 2 && clst < fs.geo.nFatent {
      EntryCases(fs.geo, fs.Img(), clst);
      match fs.geo.fsType
      case FAT12 => val := GetFat12(fs, clst);
      case FAT16 => val := GetFat16(fs, clst);
      case FAT32 => val := GetFat32(fs, clst);
    }
  }

  lemma ClusterRange(g: Geo, c: nat)
    ensures g.IsCluster(c) <==> 2 <= c < g.nFatent
  {
  }

  /** Store byte k of the FAT, whose sector is in the window, and mark the window dirty. */
  method PokeFat(fs: FatFs, k: nat, v: byte)
    requires fs.Valid() && k < 512 * fs.geo.fsize
    requires fs.winsect == fs.geo.fatbase + k / 512
    modifies fs`wflag, fs.win
    ensures fs.Valid() && FatWritten(fs.geo, old(fs.Now()), fs.Now())
    ensures Fat1(fs.geo, fs.Img()) == Fat1(fs.geo, old(fs.Img()))[k := v]
  {
    ghost var image := fs.Img();
    PokeIsUpdate(fs.geo, image, k, v);
    fs.win[k % 512] := v;
    fs.wflag := true;
    assert fs.win[..] == image[fs.winsect][k % 512 := v];
    assert fs.Img() == Overlay(fs.geo, image, fs.winsect, fs.win[..]);
    OverlayKeepsRest(fs.geo, image, fs.winsect, fs.win[..]);
  }

  /** Bring byte k of the FAT into the window and replace the part of it that entry clst owns. */
  method StoreHalf12(fs: FatFs, k: nat, clst: nat, val: nat, first: bool)
    requires fs.Valid() && k < 512 * fs.geo.fsize
    modifies fs`winsect, fs`wflag, fs.win, fs.disk
    ensures fs.Valid() && FatWritten(fs.geo, old(fs.Now()), fs.Now()) && fs.geo.InFat1(fs.winsect)
    ensures var b := Fat1(fs.geo, old(fs.Img()));
            Fat1(fs.geo, fs.Img()) ==
              b[k := if first then FirstByte12(clst, b[k], val) else SecondByte12(clst, b[k], val)]
  {
    hide *;
    VolumeFacts(fs);
    ghost var s0 := fs.Now();
    var was := FetchFatByte(fs, k);
    ghost var s1 := fs.Now();
    LookedFacts(fs.geo, s0, s1);
    PokeFat(fs, k, if first then FirstByte12(clst, was, val) else SecondByte12(clst, was, val));
    FatWrittenTrans(fs.geo, s0, s1, fs.Now());
  }

  method PutFat12(fs: FatFs, clst: nat, val: nat)
    requires fs.Valid() && clst + clst / 2 + 2 <= 512 * fs.geo.fsize
    modifies fs`winsect, fs`wflag, fs.win, fs.disk
    ensures fs.Valid() && FatWritten(fs.geo, old(fs.Now()), fs.Now()) && fs.geo.InFat1(fs.winsect)
    ensures Fat1(fs.geo, fs.Img()) == Put12(Fat1(fs.geo, old(fs.Img())), clst, val)
  {
    hide *;
    VolumeFacts(fs);
    Put12Is(Fat1(fs.geo, fs.Img()), clst, val);
    ghost var s0 := fs.Now();
    var bc := clst + clst / 2;
    StoreHalf12(fs, bc, clst, val, true);
    ghost var s1 := fs.Now();
    bc := bc + 1;
    StoreHalf12(fs, bc, clst, val, false);
    FatWrittenTrans(fs.geo, s0, s1, fs.Now());
  }

  lemma Put12Is(b: seq<byte>, c: nat, val: nat)
    requires c + c / 2 + 2 <= |b|
    ensures var k := c + c / 2;
            var b1 := b[k := FirstByte12(c, b[k], val)];
            Put12(b, c, val) == b1[k + 1 := SecondByte12(c, b1[k + 1], val)]
  {
  }

  /** Two stores in the sector that is in the window. */
  method PokeTwo(fs: FatFs, k: nat, lo: byte, hi: byte, ghost s0: Snap)
    requires fs.Valid() && k + 1 < 512 * fs.geo.fsize && FatWritten(fs.geo, s0, fs.Now())
    requires fs.winsect == fs.geo.fatbase + k / 512 == fs.geo.fatbase + (k + 1) / 512
    modifies fs`wflag, fs.win
    ensures fs.Valid() && FatWritten(fs.geo, s0, fs.Now()) && fs.disk.log == old(fs.disk.log)
    ensures Fat1(fs.geo, fs.Img()) == Fat1(fs.geo, old(fs.Img()))[k := lo][k + 1 := hi]
  {
    hide *;
    VolumeFacts(fs);
    ghost var s1 := fs.Now();
    PokeFat(fs, k, lo);
    ghost var s2 := fs.Now();
    FatWrittenTrans(fs.geo, s0, s1, s2);
    PokeFat(fs, k + 1, hi);
    FatWrittenTrans(fs.geo, s0, s2, fs.Now());
  }

  method PutFat16(fs: FatFs, clst: nat, val: nat)
    requires fs.Valid() && 2 * clst + 2 <= 512 * fs.geo.fsize
    modifies fs`winsect, fs`wflag, fs.win, fs.disk
    ensures fs.Valid() && FatWritten(fs.geo, old(fs.Now()), fs.Now()) && fs.geo.InFat1(fs.winsect)
    ensures LoggedFat(fs.geo, old(|fs.disk.log|), fs.disk.log, old(fs.Fat()))
    ensures Fat1(fs.geo, fs.Img()) ==
            Fat1(fs.geo, old(fs.Img()))[2 * clst := val % 256][2 * clst + 1 := val / 256 % 256]
  {
    hide *;
    VolumeFacts(fs);
    WordInSector(clst);
    ghost var s0 := fs.Now();
    MoveToByte(fs, 2 * clst);
    LookedFacts(fs.geo, s0, fs.Now());
    PokeTwo(fs, 2 * clst, val % 256, val / 256 % 256, s0);
  }

  method PutFat32(fs: FatFs, clst: nat, val: nat)
    requires fs.Valid() && 4 * clst + 4 <= 512 * fs.geo.fsize
    modifies fs`winsect, fs`wflag, fs.win, fs.disk
    ensures fs.Valid() && FatWritten(fs.geo, old(fs.Now()), fs.Now()) && fs.geo.InFat1(fs.winsect)
    ensures LoggedFat(fs.geo, old(|fs.disk.log|), fs.disk.log, old(fs.Fat()))
    ensures Fat1(fs.geo, fs.Img()) == Put32(Fat1(fs.geo, old(fs.Img())), clst, val)
  {
    hide *;
    VolumeFacts(fs);
    DwordInSector(clst);
    Put32Is(Fat1(fs.geo, fs.Img()), clst, val);
    ghost var s0 := fs.Now();
    var was := FetchFatByte(fs, 4 * clst + 3);
    LookedFacts(fs.geo, s0, fs.Now());
    PokeTwo(fs, 4 * clst, val % 256, val / 0x100 % 256, s0);
    PokeTwo(fs, 4 * clst + 2, val / 0x1_0000 % 256, TopByte32(was, val), s0);
  }

  lemma Put32Is(b: seq<byte>, c: nat, val: nat)
    requires 4 * c + 4 <= |b|
    ensures Put32(b, c, val) ==
            b[4 * c := val % 256][4 * c + 1 := val / 0x100 % 256][4 * c + 2 := val / 0x1_0000 % 256]
             [4 * c + 3 := TopByte32(b[4 * c + 3], val)]
  {
  }

  /** put_fat, byte by byte, is the update of PutEntry, which is a map update. */
  lemma PutCases(g: Geo, img: Image, c: nat, val: nat)
    requires g.Valid(|img|) && g.IsCluster(c)
    ensures var b := Fat1(g, img);
            var b' := PutEntry(g.fsType, b, c, val);
            && (g.fsType == FAT12 ==> c + c / 2 + 2 <= |b| && b' == Put12(b, c, val))
            && (g.fsType == FAT16 ==> 2 * c + 2 <= |b| && b' == b[2 * c := val % 256][2 * c + 1 := val / 256 % 256])
            && (g.fsType == FAT32 ==> 4 * c + 4 <= |b| && b' == Put32(b, c, val))
    ensures forall after: Image :: g.Valid(|after|) && Fat1(g, after) == PutEntry(g.fsType, Fat1(g, img), c, val)
              ==> FatView(g, after) == FatView(g, img)[c := val % EntryMod(g.fsType)]
  {
    PutEntryIsUpdate(g.fsType, g.nFatent, Fat1(g, img), c, val);
    Fits12(c);
  }

  method PutFatEntry(fs: FatFs, clst: nat, val: nat)
    requires fs.Valid() && fs.geo.IsCluster(clst)
    modifies fs`winsect, fs`wflag, fs.win, fs.disk
    ensures fs.Valid() && FatWritten(fs.geo, old(fs.Now()), fs.Now()) && fs.geo.InFat1(fs.winsect)
    ensures fs.Fat() == old(fs.Fat())[clst := val % EntryMod(fs.geo.fsType)]
    ensures fs.geo.fsType != FAT12 ==> LoggedFat(fs.geo, old(|fs.disk.log|), fs.disk.log, old(fs.Fat()))
  {
    hide *;
    VolumeFacts(fs);
    PutCases(fs.geo, fs.Img(), clst, val);
    match fs.geo.fsType {
      case FAT12 => PutFat12(fs, clst, val);
      case FAT16 => PutFat16(fs, clst, val);
      case FAT32 => PutFat32(fs, clst, val);
    }
    VolumeFacts(fs);
  }

  /** FR_INT_ERR for a number that is no cluster. Otherwise the table is updated at clst, and in
      the 16- and 32-bit FATs the drive never sees half of the update. */
  method PutFat(fs: FatFs, clst: nat, val: nat) returns (res: FResult)
    requires fs.Valid()
    modifies fs`winsect, fs`wflag, fs.win, fs.disk
    ensures fs.Valid() && FatWritten(fs.geo, old(fs.Now()), fs.Now())
    ensures res == FR_OK ==> fs.geo.InFat1(fs.winsect)
    ensures res == if fs.geo.IsCluster(clst) then FR_OK else FR_INT_ERR
    ensures fs.Fat() == if res == FR_OK then old(fs.Fat())[clst := val % EntryMod(fs.geo.fsType)] else old(fs.Fat())
    ensures fs.geo.fsType != FAT12 ==> LoggedFat(fs.geo, old(|fs.disk.log|), fs.disk.log, old(fs.Fat()))
  {
    hide *;
    VolumeFacts(fs);
    ClusterRange(fs.geo, clst);
    FatWrittenRefl(fs.geo, fs.Now());
    NothingLogged(fs.geo, fs.disk.log, fs.Fat());
    res := FR_INT_ERR;
    if clst >= 2 && clst < fs.geo.nFatent {
      PutFatEntry(fs, clst, val);
      res := FR_OK;
    }
  }
}
