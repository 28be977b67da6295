/** Bytes and the little-endian integers the packer, the firmware and the WAV encoder write. */
module Bytes {

  type byte = x: int | 0 <= x < 0x100
  type uint16 = x: int | 0 <= x < 0x1_0000
  type uint32 = x: int | 0 <= x < 0x1_0000_0000

  /** The byte of weight `scale`. */
  function Digit(n: nat, scale: nat): byte
    requires scale > 0
  {
    var shifted: int := n / scale;
    shifted % 0x100
  }

  function Le16(v: uint16): (bytes: seq<byte>)
    ensures |bytes| == 2
  {
    [Digit(v, 1), Digit(v, 0x100)]
  }

  function Le32(v: uint32): (bytes: seq<byte>)
    ensures |bytes| == 4
  {
    [Digit(v, 1), Digit(v, 0x100), Digit(v, 0x1_0000), Digit(v, 0x100_0000)]
  }

  function U16(bytes: seq<byte>): uint16
    requires |bytes| == 2
  {
    var b: seq<int> := bytes;
    b[0] + 0x100 * b[1]
  }

  function U32(bytes: seq<byte>): uint32
    requires |bytes| == 4
  {
    var b: seq<int> := bytes;
    b[0] + 0x100 * b[1] + 0x1_0000 * b[2] + 0x100_0000 * b[3]
  }

  /** The lowest byte comes first; with the two lemmas below that fixes all of them. */
  lemma LittleEndian(a: byte, b: byte, c: byte, d: byte)
    ensures U16([a, b]) == a + 256 * b && U32([a, b, c, d]) == a + 256 * b + 65_536 * c + 16_777_216 * d
  {
  }

  lemma U16OfLe16(v: uint16)
    ensures U16(Le16(v)) == v
  {
  }

  lemma U32OfLe32(v: uint32)
    ensures U32(Le32(v)) == v
  {
    var a, b, c := v / 0x100, v / 0x1_0000, v / 0x100_0000;
    assert b == a / 0x100 && c == b / 0x100;
  }

  function Sum(bytes: seq<byte>): nat {
    if bytes == [] then 0 else Sum(bytes[..|bytes| - 1]) + bytes[|bytes| - 1]
  }

  lemma {:induction false} SumUpdate(bytes: seq<byte>, i: nat, value: byte)
    requires i < |bytes|
    ensures Sum(bytes[i := value]) == Sum(bytes) - bytes[i] + value
  {
    var n := |bytes| - 1;
    if i < n {
      SumUpdate(bytes[..n], i, value);
      assert bytes[i := value][..n] == bytes[..n][i := value];
    } else {
      assert bytes[i := value][..n] == bytes[..n];
    }
  }
}
