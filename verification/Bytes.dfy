/** Bytes, machine words and their layout in memory and on the wire. */
module Bytes {

  type byte = x: int | 0 <= x < 256
  type uint16 = x: int | 0 <= x < 0x1_0000
  type uint32 = x: int | 0 <= x < 0x1_0000_0000
  type int32 = x: int | -0x8000_0000 <= x < 0x8000_0000

  const TWO32 := 0x1_0000_0000

  datatype Option<+T> = None | Some(value: T)

  // ----------------------------------------------------------- network byte order

  function Be16(n: uint16): (b: seq<byte>)
    ensures |b| == 2
  {
    [n / 256, n % 256]
  }

  function Be32(n: uint32): (b: seq<byte>)
    ensures |b| == 4
  {
    [n / 256 / 256 / 256, n / 256 / 256 % 256, n / 256 % 256, n % 256]
  }

  /** The big-endian value of the bytes from `i` to `j`, at most four of them. */
  function BeAt(d: seq<byte>, i: nat, j: nat): (r: uint32)
    requires i <= j <= |d| && j - i <= 4
    ensures j - i <= 1 ==> r < 0x100
    ensures j - i <= 2 ==> r < 0x1_0000
    ensures j - i <= 3 ==> r < 0x100_0000
    decreases j - i
  {
    if i == j then 0 else BeAt(d, i, j - 1) * 256 + d[j - 1]
  }

  /** ntohl undoes htonl. */
  lemma Be32RoundTrip(n: uint32, d: seq<byte>, i: nat)
    requires i + 4 <= |d| && d[i..i + 4] == Be32(n)
    ensures BeAt(d, i, i + 4) == n
  {
    var b := d[i..i + 4];
    assert d[i] == b[0] && d[i + 1] == b[1] && d[i + 2] == b[2] && d[i + 3] == b[3];
    assert BeAt(d, i, i) == 0;
    assert BeAt(d, i, i + 1) == n / 256 / 256 / 256;
    assert BeAt(d, i, i + 2) == n / 256 / 256;
    assert BeAt(d, i, i + 3) == n / 256;
  }

  /** htonl undoes ntohl: four bytes are the encoding of their value. */
  lemma Be32Inverse(d: seq<byte>, i: nat)
    requires i + 4 <= |d|
    ensures d[i..i + 4] == Be32(BeAt(d, i, i + 4))
  {
    var n := BeAt(d, i, i + 4);
    assert BeAt(d, i, i) == 0;
    assert n / 256 == BeAt(d, i, i + 3);
    assert n / 256 / 256 == BeAt(d, i, i + 2);
    assert n / 256 / 256 / 256 == BeAt(d, i, i + 1);
  }

  lemma Be16RoundTrip(n: uint16, d: seq<byte>, i: nat)
    requires i + 2 <= |d| && d[i..i + 2] == Be16(n)
    ensures BeAt(d, i, i + 2) == n
  {
    var b := d[i..i + 2];
    assert d[i] == b[0] && d[i + 1] == b[1];
    assert BeAt(d, i, i) == 0;
    assert BeAt(d, i, i + 1) == n / 256;
  }

  lemma Be16Inverse(d: seq<byte>, i: nat)
    requires i + 2 <= |d|
    ensures d[i..i + 2] == Be16(BeAt(d, i, i + 2))
  {
    assert BeAt(d, i, i) == 0;
    assert BeAt(d, i, i + 1) == d[i];
  }

  // ------------------------------------------------------------- little endian

  function Le32(n: uint32): (b: seq<byte>)
    ensures |b| == 4
  {
    [n % 256, n / 256 % 256, n / 256 / 256 % 256, n / 256 / 256 / 256]
  }

  /** The little-endian value of the bytes from `i` to `j`. */
  function WordAt(d: seq<byte>, i: nat, j: nat): nat
    requires i <= j <= |d|
    decreases j - i
  {
    if i == j then 0 else d[i] + 256 * WordAt(d, i + 1, j)
  }

  lemma {:induction false} SameWord(d: seq<byte>, e: seq<byte>, i: nat, j: nat)
    requires i <= j <= |d| && j <= |e|
    requires d[i..j] == e[i..j]
    ensures WordAt(d, i, j) == WordAt(e, i, j)
    decreases j - i
  {
    if i < j {
      assert d[i] == d[i..j][0] && e[i] == e[i..j][0];
      assert d[i + 1..j] == d[i..j][1..] && e[i + 1..j] == e[i..j][1..];
      SameWord(d, e, i + 1, j);
    }
  }

  lemma Le32RoundTrip(n: uint32, d: seq<byte>, i: nat)
    requires i + 4 <= |d| && d[i..i + 4] == Le32(n)
    ensures WordAt(d, i, i + 4) == n
  {
    var b := d[i..i + 4];
    assert WordAt(d, i + 4, i + 4) == 0;
    assert d[i + 3] == b[3] && d[i + 2] == b[2] && d[i + 1] == b[1] && d[i] == b[0];
    assert WordAt(d, i + 3, i + 4) == n / 256 / 256 / 256;
    assert WordAt(d, i + 2, i + 4) == n / 256 / 256;
    assert WordAt(d, i + 1, i + 4) == n / 256;
  }

  /** The bytes of a little-endian word are those of its value. */
  lemma Le32Inverse(d: seq<byte>, i: nat, n: nat)
    requires i + 4 <= |d| && n == WordAt(d, i, i + 4)
    ensures n < TWO32 && d[i..i + 4] == Le32(n)
  {
    assert WordAt(d, i + 4, i + 4) == 0;
    assert WordAt(d, i + 3, i + 4) == d[i + 3];
    assert n / 256 == WordAt(d, i + 1, i + 4);
    assert n / 256 / 256 == WordAt(d, i + 2, i + 4);
    assert n / 256 / 256 / 256 == WordAt(d, i + 3, i + 4);
  }

  // ----------------------------------------------------- signed and unsigned casts

  function AsUnsigned(v: int32): uint32 {
    if v < 0 then v + TWO32 else v
  }

  function AsSigned(n: uint32): int32 {
    if n >= 0x8000_0000 then n - TWO32 else n
  }

  lemma CastRoundTrip(v: int32, n: uint32)
    ensures AsSigned(AsUnsigned(v)) == v
    ensures AsUnsigned(AsSigned(n)) == n
  {
  }
}
