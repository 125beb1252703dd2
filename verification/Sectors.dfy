/** Images of the drive, and the runs of sectors that disk_read and disk_write transfer. */
module Sectors {
  import opened Bytes

  type Image = seq<Sector>

  function GetSectors(d: Image, s: nat, n: nat): (r: seq<byte>)
    requires s + n <= |d|
    ensures |r| == 512 * n
    decreases n
  {
    if n == 0 then [] else d[s] + GetSectors(d, s + 1, n - 1)
  }

  lemma {:induction false} GetSectorsAt(d: Image, s: nat, n: nat, k: nat)
    requires s + n <= |d| && k < 512 * n
    ensures GetSectors(d, s, n)[k] == d[s + k / 512][k % 512]
    decreases n
  {
    if k >= 512 {
      GetSectorsAt(d, s + 1, n - 1, k - 512);
    }
  }

  function PutSectors(d: Image, s: nat, data: seq<byte>): (r: Image)
    requires |data| % 512 == 0 && s + |data| / 512 <= |d|
    ensures |r| == |d|
    decreases |data|
  {
    if data == [] then d else PutSectors(d[s := data[..512]], s + 1, data[512..])
  }

  lemma {:induction false} PutSectorsAt(d: Image, s: nat, data: seq<byte>, t: nat)
    requires |data| % 512 == 0 && s + |data| / 512 <= |d| && t < |d|
    ensures PutSectors(d, s, data)[t] ==
            if s <= t < s + |data| / 512 then data[512 * (t - s)..512 * (t - s) + 512] else d[t]
    decreases |data|
  {
    if data != [] {
      var rest := data[512..];
      PutSectorsAt(d[s := data[..512]], s + 1, rest, t);
      if s < t < s + |data| / 512 {
        assert rest[512 * (t - s - 1)..512 * (t - s - 1) + 512] == data[512 * (t - s)..512 * (t - s) + 512];
      }
    }
  }

  lemma PutSectorsStep(d: Image, s: nat, data: seq<byte>)
    requires |data| % 512 == 0 && s + |data| / 512 <= |d|
    ensures data == [] ==> PutSectors(d, s, data) == d
    ensures |data| == 512 ==> PutSectors(d, s, data) == d[s := data]
    ensures data != [] ==>
            |data| >= 512 && PutSectors(d, s, data) == PutSectors(d[s := data[..512]], s + 1, data[512..])
  {
    if |data| == 512 {
      assert data[..512] == data && data[512..] == [];
    }
  }

  /** A dirty buffer laid over the sectors read from the drive. */
  lemma PatchedRead(d: Image, s: nat, n: nat, t: nat, sec: Sector)
    requires s + n <= |d| && t < |d|
    ensures GetSectors(d[t := sec], s, n) ==
            if s <= t < s + n then
              GetSectors(d, s, n)[..512 * (t - s)] + sec + GetSectors(d, s, n)[512 * (t - s) + 512..]
            else GetSectors(d, s, n)
  {
    var was, now := GetSectors(d, s, n), GetSectors(d[t := sec], s, n);
    var patched := if s <= t < s + n then was[..512 * (t - s)] + sec + was[512 * (t - s) + 512..] else was;
    hide GetSectors;
    forall k | 0 <= k < 512 * n
      ensures now[k] == patched[k]
    {
      GetSectorsAt(d, s, n, k);
      GetSectorsAt(d[t := sec], s, n, k);
    }
  }
}
