/** Byte strings and their hexadecimal text. */
module Bytes {
  type Byte = n: int | 0 <= n < 256

  const HEX_DIGITS := "0123456789abcdef"

  function Hex(data: seq<Byte>): (r: string)
    ensures |r| == 2 * |data|
  {
    if |data| == 0 then ""
    else [HEX_DIGITS[data[0] / 16], HEX_DIGITS[data[0] % 16]] + Hex(data[1..])
  }

  lemma HexByteInjective(a: Byte, b: Byte)
    requires HEX_DIGITS[a / 16] == HEX_DIGITS[b / 16] && HEX_DIGITS[a % 16] == HEX_DIGITS[b % 16]
    ensures a == b
  {
    assert a / 16 == b / 16 && a % 16 == b % 16;
  }

  /** One text is a prefix of another exactly when the bytes are. */
  lemma {:induction false} HexPrefix(a: seq<Byte>, b: seq<Byte>)
    ensures Hex(a) <= Hex(b) <==> a <= b
  {
    if |a| > 0 && |b| > 0 {
      var x, y := Hex(a), Hex(b);
      HexPrefix(a[1..], b[1..]);
      assert x[2..] == Hex(a[1..]) && y[2..] == Hex(b[1..]);
      if x <= y {
        assert x[0] == y[0] && x[1] == y[1];
        HexByteInjective(a[0], b[0]);
        assert x[2..] <= y[2..];
        assert a == [a[0]] + a[1..] && b == [b[0]] + b[1..];
      }
    }
  }
}
