/** Memory as bytes: 32-bit numbers in it, and copying into it. */
module Bytes {

  type Byte = b: int | 0 <= b < 256
  type U32 = x: int | 0 <= x < 0x1_0000_0000

  /** A 32-bit number in memory, low byte first. */
  function ToBytes(x: U32): (b: seq<Byte>)
    ensures |b| == 4
  {
    [x % 256, x / 256 % 256, x / 0x1_0000 % 256, x / 0x100_0000]
  }

  function Number(b: seq<Byte>): U32
    requires |b| == 4
  {
    b[0] as int + 256 * (b[1] as int) + 0x1_0000 * (b[2] as int) + 0x100_0000 * (b[3] as int)
  }

  lemma NumberOfBytes(x: U32)
    ensures Number(ToBytes(x)) == x
  {
    LowByte(x);
    LowByte(x / 256);
    LowByte(x / 0x1_0000);
  }

  lemma LowByte(x: nat)
    ensures x == 256 * (x / 256) + x % 256
    ensures x / 256 / 256 == x / 0x1_0000 && x / 0x1_0000 / 256 == x / 0x100_0000
  {
  }

  lemma SliceOfSlice<T>(s: seq<T>, at: nat, end: nat, i: nat, j: nat)
    requires at <= end <= |s| && i <= j <= end - at
    ensures s[at..end][i..j] == s[at + i..at + j]
  {
    var a, b := s[at..end][i..j], s[at + i..at + j];
    assert |a| == |b|;
    assert forall k | 0 <= k < j - i :: a[k] == s[at..end][i + k] && b[k] == s[at + i + k];
  }

  /** memcpy: data takes the place of as many bytes from at on. */
  method CopyInto(b: array<Byte>, at: nat, data: seq<Byte>)
    requires at + |data| <= b.Length
    modifies b
    ensures b[..] == old(b[..at]) + data + old(b[at + |data|..])
  {
    for i := 0 to |data|
      invariant forall k | 0 <= k < b.Length :: b[k] == if at <= k < at + i then data[k - at] else old(b[k])
    {
      b[at + i] := data[i];
    }
  }
}
