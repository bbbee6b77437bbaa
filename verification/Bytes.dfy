/** Unsigned integers of the wire format and their big-endian forms. */
module Bytes {

  type byte = b: int | 0 <= b < 0x100
  type uint32 = n: int | 0 <= n < 0x1_0000_0000

  const TWO_TO_THE_24: int := 0x100_0000
  const TWO_TO_THE_32: int := 0x1_0000_0000

  /** The four bytes pushed for a 32-bit field. */
  function Be32(n: uint32): (r: seq<byte>)
    ensures |r| == 4
  {
    [n / 0x100_0000, n / 0x1_0000 % 0x100, n / 0x100 % 0x100, n % 0x100]
  }

  /** The three bytes pushed for a 24-bit field; higher bits of `n` are cut off by the casts. */
  function Be24(n: nat): (r: seq<byte>)
    ensures |r| == 3
  {
    [n / 0x1_0000 % 0x100, n / 0x100 % 0x100, n % 0x100]
  }

  function U32(s: seq<byte>, pos: nat): uint32
    requires pos + 4 <= |s|
  {
    var a: int, b: int, c: int := s[pos], s[pos + 1], s[pos + 2];
    a * 0x100_0000 + b * 0x1_0000 + c * 0x100 + s[pos + 3]
  }

  function U24(s: seq<byte>, pos: nat): (r: nat)
    requires pos + 3 <= |s|
    ensures r < TWO_TO_THE_24
  {
    var a: int, b: int := s[pos], s[pos + 1];
    a * 0x1_0000 + b * 0x100 + s[pos + 2]
  }

  /** The number some bytes spell in base 256, the most significant first. */
  function Number(s: seq<byte>): nat {
    if s == [] then 0
    else
      var low: int := s[|s| - 1];
      Number(s[..|s| - 1]) * 0x100 + low
  }

  /** Fields are read in network byte order. */
  lemma NetworkOrder(s: seq<byte>, pos: nat)
    ensures pos + 3 <= |s| ==> U24(s, pos) == Number(s[pos..pos + 3])
    ensures pos + 4 <= |s| ==> U32(s, pos) == Number(s[pos..pos + 4])
  {
    if pos + 3 <= |s| {
      var t := s[pos..pos + 3];
      assert t[..2] == [s[pos], s[pos + 1]] && t[..2][..1] == [s[pos]] && t[..1][..0] == [];
      assert Number(t[..2]) == Number([s[pos]]) * 0x100 + s[pos + 1] as int;
      assert Number([s[pos]]) == s[pos] as int;
    }
    if pos + 4 <= |s| {
      var t := s[pos..pos + 4];
      assert t[..3] == s[pos..pos + 3];
      assert Number(t) == Number(s[pos..pos + 3]) * 0x100 + s[pos + 3] as int;
      assert U32(s, pos) == U24(s, pos) * 0x100 + s[pos + 3] as int;
    }
  }

  lemma U32OfBe32(s: seq<byte>, pos: nat, n: uint32)
    requires pos + 4 <= |s| && s[pos..pos + 4] == Be32(n)
    ensures U32(s, pos) == n
  {
    var t := s[pos..pos + 4];
    assert t[0] == s[pos] && t[1] == s[pos + 1] && t[2] == s[pos + 2] && t[3] == s[pos + 3];
    assert n / 0x100 == n / 0x1_0000 * 0x100 + n / 0x100 % 0x100;
    assert n / 0x1_0000 == n / 0x100_0000 * 0x100 + n / 0x1_0000 % 0x100;
  }

  lemma U24OfBe24(s: seq<byte>, pos: nat, n: nat)
    requires pos + 3 <= |s| && s[pos..pos + 3] == Be24(n)
    ensures U24(s, pos) == n % TWO_TO_THE_24
  {
    var t := s[pos..pos + 3];
    assert t[0] == s[pos] && t[1] == s[pos + 1] && t[2] == s[pos + 2];
    assert n / 0x100 == n / 0x1_0000 * 0x100 + n / 0x100 % 0x100;
    assert n / 0x1_0000 == n / 0x100_0000 * 0x100 + n / 0x1_0000 % 0x100;
    assert n == n / 0x100_0000 * 0x100_0000 + U24(s, pos);
  }

  /** Reading back is injective: four bytes are determined by their value. */
  lemma Be32OfU32(s: seq<byte>, pos: nat)
    requires pos + 4 <= |s|
    ensures Be32(U32(s, pos)) == s[pos..pos + 4]
  {
    var n := U32(s, pos);
    var a: int, b: int, c: int, d: int := s[pos], s[pos + 1], s[pos + 2], s[pos + 3];
    assert n / 0x100 == a * 0x1_0000 + b * 0x100 + c;
    assert n / 0x1_0000 == a * 0x100 + b;
    assert n / 0x100_0000 == a;
    assert Be32(n) == [a, b, c, d];
  }
}
