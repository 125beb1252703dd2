/** FAT entries packed in bytes: 12, 16 or the low 28 of 32 bits each. */
module FatTable {
  import opened Bytes
  import opened Geometry

  /** An odd FAT12 entry ends with the byte it starts sharing; in both cases two bytes are touched. */
  lemma Fits12(c: nat)
    ensures FatBytesNeeded(FAT12, c + 1) == c + c / 2 + 2
  {
    var k := c / 2;
    if c == 2 * k {
    } else {
      assert c == 2 * k + 1;
    }
  }

  function Entry12(b: seq<byte>, c: nat): (v: nat)
    requires c + c / 2 + 2 <= |b|
    ensures v < 0x1000
  {
    var bc := c + c / 2;
    var wc := b[bc] as int + 256 * b[bc + 1] as int;
    if c % 2 == 1 then wc / 16 else wc % 0x1000
  }

  /** Entry c of a FAT held in the bytes b, as get_fat assembles it. */
  function Entry(t: FsType, b: seq<byte>, c: nat): (v: nat)
    requires FatBytesNeeded(t, c + 1) <= |b|
    ensures v < EntryMod(t)
  {
    match t
    case FAT12 => Fits12(c); Entry12(b, c)
    case FAT16 => LdWord(b, 2 * c)
    case FAT32 => LdDword(b, 4 * c) % 0x1000_0000
  }

  /** An odd entry starts in the high half of its first byte, an even one fills it. */
  function FirstByte12(c: nat, was: byte, val: nat): byte {
    if c % 2 == 1 then was as int % 16 + val % 16 * 16 else val % 256
  }

  function SecondByte12(c: nat, was: byte, val: nat): byte {
    if c % 2 == 1 then val / 16 % 256 else was as int / 16 * 16 + val / 256 % 16
  }

  /** The upper four bits of a FAT32 entry are kept. */
  function TopByte32(was: byte, val: nat): byte {
    was as int / 16 * 16 + val / 0x100_0000 % 16
  }

  function Put12(b: seq<byte>, c: nat, val: nat): (r: seq<byte>)
    requires c + c / 2 + 2 <= |b|
    ensures |r| == |b|
  {
    var bc := c + c / 2;
    b[bc := FirstByte12(c, b[bc], val)][bc + 1 := SecondByte12(c, b[bc + 1], val)]
  }

  function Put32(b: seq<byte>, c: nat, val: nat): (r: seq<byte>)
    requires 4 * c + 4 <= |b|
    ensures |r| == |b|
  {
    b[4 * c := val % 256][4 * c + 1 := val / 0x100 % 256][4 * c + 2 := val / 0x1_0000 % 256]
     [4 * c + 3 := TopByte32(b[4 * c + 3], val)]
  }

  /** The bytes after put_fat(c, val): each one is written as the code writes it. */
  function PutEntry(t: FsType, b: seq<byte>, c: nat, val: nat): (r: seq<byte>)
    requires FatBytesNeeded(t, c + 1) <= |b|
    ensures |r| == |b|
  {
    match t
    case FAT12 => Fits12(c); Put12(b, c, val)
    case FAT16 => b[2 * c := val % 256][2 * c + 1 := val / 256 % 256]
    case FAT32 => Put32(b, c, val)
  }

  lemma EntryFits(t: FsType, n: nat, c: nat)
    requires c < n
    ensures FatBytesNeeded(t, c + 1) <= FatBytesNeeded(t, n)
  {
  }

  /** All n entries. */
  function Entries(t: FsType, n: nat, b: seq<byte>): (f: seq<nat>)
    requires FatBytesNeeded(t, n) <= |b|
    ensures |f| == n
  {
    if n == 0 then [] else EntryFits(t, n, n - 1); Entries(t, n - 1, b) + [Entry(t, b, n - 1)]
  }

  lemma {:induction false} EntriesAt(t: FsType, n: nat, b: seq<byte>, c: nat)
    requires c < n && FatBytesNeeded(t, n) <= |b|
    ensures FatBytesNeeded(t, c + 1) <= |b|
    ensures Entries(t, n, b)[c] == Entry(t, b, c)
  {
    EntryFits(t, n, n - 1);
    if c < n - 1 {
      EntriesAt(t, n - 1, b, c);
    }
  }

  lemma Digit(v: nat) returns (q: nat, r: nat)
    ensures v == 256 * q + r && r < 256 && q == v / 256 && r == v % 256
  {
    q, r := v / 256, v % 256;
  }

  lemma Nibble(v: nat) returns (q: nat, r: nat)
    ensures v == 16 * q + r && r < 16 && q == v / 16 && r == v % 16
  {
    q, r := v / 16, v % 16;
  }

  lemma LowPart(v: nat, q: nat, r: nat)
    requires v == 0x1000 * q + r && r < 0x1000
    ensures v % 0x1000 == r
  {
  }

  lemma Nibbles(val: nat)
    ensures val % 256 + 256 * (val / 256 % 16) == val % 0x1000
    ensures val % 16 + 16 * (val / 16 % 256) == val % 0x1000
  {
    var q, r := Digit(val);
    var a, b := Nibble(q);
    LowPart(val, a, 256 * b + r);
    var q', r' := Nibble(val);
    var a', b' := Digit(q');
    LowPart(val, a', 16 * b' + r');
  }

  /** A byte split in two halves and put together again. */
  lemma Halves(lo: nat, hi: nat)
    requires lo < 16
    ensures (lo + hi * 16) % 16 == lo && (lo + hi * 16) / 16 == hi
  {
  }

  /** What a two-byte field reads as, whole, without its low half or without its high half. */
  lemma Field12(lo: byte, hi: byte)
    ensures (lo as int + 256 * hi as int) % 0x1000 == lo as int + 256 * (hi as int % 16)
    ensures (lo as int + 256 * hi as int) / 16 == lo as int / 16 + 16 * hi as int
  {
  }

  lemma PutGet12Same(b: seq<byte>, c: nat, val: nat)
    requires c + c / 2 + 2 <= |b|
    ensures Entry12(Put12(b, c, val), c) == val % 0x1000
  {
    var bc := c + c / 2;
    var after := Put12(b, c, val);
    Field12(after[bc], after[bc + 1]);
    Nibbles(val);
    if c % 2 == 1 {
      Halves(b[bc] as int % 16, val % 16);
    } else {
      Halves(val / 256 % 16, b[bc + 1] as int / 16);
    }
  }

  /** An even entry and the odd one after it share a byte; each keeps its own half of it. */
  lemma PutGet12Right(b: seq<byte>, c: nat, val: nat)
    requires c + c / 2 + 3 <= |b| && c % 2 == 0
    ensures Entry12(Put12(b, c, val), c + 1) == Entry12(b, c + 1)
  {
    var k := c + c / 2 + 1;
    var after := Put12(b, c, val);
    assert after[k] == SecondByte12(c, b[k], val) && after[k + 1] == b[k + 1];
    Halves(val / 256 % 16, b[k] as int / 16);
    Field12(b[k], b[k + 1]);
    Field12(after[k], after[k + 1]);
  }

  lemma PutGet12Left(b: seq<byte>, c: nat, val: nat)
    requires c + c / 2 + 2 <= |b| && c % 2 == 1
    ensures Entry12(Put12(b, c, val), c - 1) == Entry12(b, c - 1)
  {
    var k := c + c / 2;
    var after := Put12(b, c, val);
    assert after[k - 1] == b[k - 1] && after[k] == FirstByte12(c, b[k], val);
    Halves(b[k] as int % 16, val % 16);
    Field12(b[k - 1], b[k]);
    Field12(after[k - 1], after[k]);
  }

  lemma TwoApart(c: nat, d: nat)
    requires c + 1 < d || (c + 1 == d && c % 2 == 1)
    ensures c + c / 2 + 1 < d + d / 2
  {
    if c + 1 == d {
      assert d == 2 * (c / 2) + 2;
    }
  }

  lemma PutGet12Other(b: seq<byte>, c: nat, val: nat, d: nat)
    requires c + c / 2 + 2 <= |b| && d + d / 2 + 2 <= |b| && c != d
    ensures Entry12(Put12(b, c, val), d) == Entry12(b, d)
  {
    if d == c + 1 && c % 2 == 0 {
      PutGet12Right(b, c, val);
    } else if c == d + 1 && d % 2 == 0 {
      PutGet12Left(b, c, val);
    } else if c < d {
      TwoApart(c, d);
    } else {
      TwoApart(d, c);
    }
  }

  lemma PutGet12(b: seq<byte>, c: nat, val: nat, d: nat)
    requires FatBytesNeeded(FAT12, c + 1) <= |b| && FatBytesNeeded(FAT12, d + 1) <= |b|
    ensures Entry(FAT12, PutEntry(FAT12, b, c, val), d) == if d == c then val % 0x1000 else Entry(FAT12, b, d)
  {
    Fits12(c);
    Fits12(d);
    if d == c {
      PutGet12Same(b, c, val);
    } else {
      PutGet12Other(b, c, val, d);
    }
  }

  lemma PutGet16(b: seq<byte>, c: nat, val: nat, d: nat)
    requires FatBytesNeeded(FAT16, c + 1) <= |b| && FatBytesNeeded(FAT16, d + 1) <= |b|
    ensures Entry(FAT16, PutEntry(FAT16, b, c, val), d) == if d == c then val % 0x1_0000 else Entry(FAT16, b, d)
  {
  }

  /** The low 28 bits and the top byte of a dword given by its bytes. */
  lemma Dword28(b: seq<byte>, o: nat)
    requires o + 4 <= |b|
    ensures LdDword(b, o) % 0x1000_0000 ==
            b[o] as int + 0x100 * b[o + 1] as int + 0x1_0000 * b[o + 2] as int + 0x100_0000 * (b[o + 3] as int % 16)
    ensures LdDword(b, o) / 0x1000_0000 == b[o + 3] as int / 16
  {
  }

  lemma DivOfDiv(v: nat)
    ensures v / 0x1_0000 == v / 256 / 256
    ensures v / 0x100_0000 == v / 0x1_0000 / 256
  {
  }

  /** Four base-256 digits with the top one cut to four bits. */
  lemma Low28(b3: nat, rest: nat)
    requires rest < 0x100_0000
    ensures (0x100_0000 * b3 + rest) % 0x1000_0000 == 0x100_0000 * (b3 % 16) + rest
  {
    var q, r := b3 / 16, b3 % 16;
    assert 0x100_0000 * b3 + rest == 0x1000_0000 * q + (0x100_0000 * r + rest);
  }

  lemma Bytes28(val: nat)
    ensures val % 256 + 0x100 * (val / 0x100 % 256) + 0x1_0000 * (val / 0x1_0000 % 256)
            + 0x100_0000 * (val / 0x100_0000 % 16) == val % 0x1000_0000
  {
    DivOfDiv(val);
    var b1, d0 := Digit(val);
    var b2, d1 := Digit(b1);
    var b3, d2 := Digit(b2);
    Low28(b3, d0 + 0x100 * d1 + 0x1_0000 * d2);
  }

  lemma PutGet32(b: seq<byte>, c: nat, val: nat, d: nat)
    requires FatBytesNeeded(FAT32, c + 1) <= |b| && FatBytesNeeded(FAT32, d + 1) <= |b|
    ensures Entry(FAT32, PutEntry(FAT32, b, c, val), d) == if d == c then val % 0x1000_0000 else Entry(FAT32, b, d)
  {
    var after := PutEntry(FAT32, b, c, val);
    Dword28(after, 4 * d);
    if d == c {
      Bytes28(val);
      Halves(val / 0x100_0000 % 16, b[4 * c + 3] as int / 16);
    } else {
      Dword28(b, 4 * d);
    }
  }

  /** Storing never changes the reserved bits of any FAT32 entry. */
  lemma ReservedBitsKept(b: seq<byte>, c: nat, val: nat, d: nat)
    requires FatBytesNeeded(FAT32, c + 1) <= |b| && FatBytesNeeded(FAT32, d + 1) <= |b|
    ensures LdDword(PutEntry(FAT32, b, c, val), 4 * d) / 0x1000_0000 == LdDword(b, 4 * d) / 0x1000_0000
  {
    Dword28(b, 4 * d);
    Dword28(PutEntry(FAT32, b, c, val), 4 * d);
    Halves(val / 0x100_0000 % 16, b[4 * c + 3] as int / 16);
  }

  /** put_fat then get_fat, on the whole table: a map update. */
  lemma PutEntryIsUpdate(t: FsType, n: nat, b: seq<byte>, c: nat, val: nat)
    requires c < n && FatBytesNeeded(t, n) <= |b|
    ensures FatBytesNeeded(t, c + 1) <= |b|
    ensures Entries(t, n, PutEntry(t, b, c, val)) == Entries(t, n, b)[c := val % EntryMod(t)]
  {
    EntryFits(t, n, c);
    var after := PutEntry(t, b, c, val);
    forall d | 0 <= d < n
      ensures Entries(t, n, after)[d] == Entries(t, n, b)[c := val % EntryMod(t)][d]
    {
      EntriesAt(t, n, after, d);
      EntriesAt(t, n, b, d);
      match t
      case FAT12 => PutGet12(b, c, val, d);
      case FAT16 => PutGet16(b, c, val, d);
      case FAT32 => PutGet32(b, c, val, d);
    }
  }
}
