/** The bytes on the wire, place by place: what each message and argument looks like, and what
    becomes of bytes that are none. Everything here is said of numbered bytes alone. */
module WireLayout {
  import opened Bytes
  import opened Codec
  import opened Framing
  import opened Events
  import opened Handshake

  /** Four digits to the base 256, most significant first. */
  function Digits(p: nat, q: nat, r: nat, s: nat): nat {
    0x100_0000 * p + 0x1_0000 * q + 0x100 * r + s
  }

  /** The four bytes at `i` spell `n`. */
  predicate Spells(b: seq<byte>, i: nat, n: int) {
    i + 4 <= |b| && Digits(b[i], b[i + 1], b[i + 2], b[i + 3]) == n
  }

  predicate SpellsShort(b: seq<byte>, i: nat, n: int) {
    i + 2 <= |b| && Digits(0, 0, b[i], b[i + 1]) == n
  }

  // -------------------------------------------------------------------------- words

  /** The words are read and written most significant byte first. */
  lemma BigEndian(d: seq<byte>, i: nat)
    requires i + 4 <= |d|
    ensures Spells(d, i, BeAt(d, i, i + 4)) && SpellsShort(d, i, BeAt(d, i, i + 2))
  {
    assert BeAt(d, i, i) == 0;
    assert BeAt(d, i, i + 1) == d[i];
    assert BeAt(d, i, i + 3) == BeAt(d, i, i + 2) * 256 + d[i + 2];
  }

  lemma WordBytes(n: uint32)
    ensures |Be32(n)| == 4 && Spells(Be32(n), 0, n)
  {
    var b := Be32(n);
    assert n / 256 == n / 256 / 256 * 256 + b[2];
    assert n / 256 / 256 == n / 256 / 256 / 256 * 256 + b[1];
  }

  lemma ShortBytes(n: uint16)
    ensures |Be16(n)| == 2 && SpellsShort(Be16(n), 0, n)
  {
  }

  /** In the ELF file words are least significant byte first. */
  lemma LittleEndian(d: seq<byte>, i: nat)
    requires i + 4 <= |d|
    ensures WordAt(d, i, i + 4) == Digits(d[i + 3], d[i + 2], d[i + 1], d[i])
    ensures WordAt(d, i, i + 2) == Digits(0, 0, d[i + 1], d[i])
  {
    assert WordAt(d, i + 4, i + 4) == 0 && WordAt(d, i + 2, i + 2) == 0;
    assert WordAt(d, i + 3, i + 4) == d[i + 3];
    assert WordAt(d, i + 1, i + 4) == d[i + 1] + 256 * WordAt(d, i + 2, i + 4);
    assert WordAt(d, i + 1, i + 2) == d[i + 1];
  }

  /** Signed numbers are in two's complement. */
  lemma TwosComplement(v: int32, n: uint32)
    ensures AsUnsigned(v) == v % TWO32 && AsSigned(n) % TWO32 == n
  {
  }

  lemma Place(b: seq<byte>, i: nat, n: uint32)
    requires i + 4 <= |b| && b[i..i + 4] == Be32(n)
    ensures Spells(b, i, n)
  {
    WordBytes(n);
    var w := b[i..i + 4];
    assert b[i] == w[0] && b[i + 1] == w[1] && b[i + 2] == w[2] && b[i + 3] == w[3];
  }

  lemma PlaceShort(b: seq<byte>, i: nat, n: uint16)
    requires i + 2 <= |b| && b[i..i + 2] == Be16(n)
    ensures SpellsShort(b, i, n)
  {
    ShortBytes(n);
    var w := b[i..i + 2];
    assert b[i] == w[0] && b[i + 1] == w[1];
  }

  // ---------------------------------------------------------------------- arguments

  lemma ArgLayout(a: Arg)
    requires Encodable(a)
    ensures var b := EncodeArg(a);
      match a
      case Int32(i) => |b| == 5 && b[0] == 1 && Spells(b, 1, i % TWO32)
      case Uint32(u) => |b| == 5 && b[0] == 2 && Spells(b, 1, u)
      case Handle(h) => |b| == 5 && b[0] == 3 && Spells(b, 1, h)
      case Str(s) => |b| == 5 + |s| && b[0] == 4 && Spells(b, 1, |s|) && b[5..] == s
      case Buf(s) => |b| == 5 + |s| && b[0] == 5 && Spells(b, 1, |s|) && b[5..] == s
      case Null => b == [6]
  {
    var b := EncodeArg(a);
    match a {
      case Int32(i) =>
        assert b[1..5] == Be32(AsUnsigned(i));
        Place(b, 1, AsUnsigned(i));
      case Uint32(u) =>
        assert b[1..5] == Be32(u);
        Place(b, 1, u);
      case Handle(h) =>
        assert b[1..5] == Be32(h);
        Place(b, 1, h);
      case Str(s) => BlockLayout(4, s);
      case Buf(s) => BlockLayout(5, s);
      case Null =>
    }
  }

  lemma BlockLayout(tag: byte, s: seq<byte>)
    requires |s| < TWO32
    ensures var b := EncodeBlock(tag, s); |b| == 5 + |s| && b[0] == tag && Spells(b, 1, |s|) && b[5..] == s
  {
    var b := EncodeBlock(tag, s);
    assert b[1..5] == Be32(|s|);
    Place(b, 1, |s|);
  }

  /** Where a decoder that fails leaves the cursor: behind the length of a block that is too
      long or cut short, and else where it was. */
  lemma FailedDecode(buf: seq<byte>, pos: uint32, k: Kind)
    requires Frame(buf) && pos <= |buf| && DecodeKind(buf, pos, k).value.None?
    ensures DecodeKind(buf, pos, k).pos
         == if pos + 5 <= |buf| && ((k.KStr? && buf[pos] == 4) || (k.KBuf? && buf[pos] == 5)) then pos + 5 else pos
  {
    NoSumWraps(buf, pos, 1);
    NoSumWraps(buf, pos, 5);
  }

  /** Skip moves over a word only when all of it is there, over a null, and over no tag that is
      not one of the six. */
  lemma SkipOfOthers(buf: seq<byte>, pos: uint32)
    requires Frame(buf) && pos < |buf| && buf[pos] !in {4, 5}
    ensures buf[pos] in {1, 2, 3} ==> Skip(buf, pos) == (pos + 5, pos + 5 <= |buf|)
    ensures buf[pos] == 6 ==> Skip(buf, pos) == (pos + 1, true)
    ensures buf[pos] !in {1, 2, 3, 6} ==> Skip(buf, pos) == (pos, false)
    ensures !Skip(buf, |buf|).1 && Skip(buf, |buf|).0 == |buf|
  {
    NoSumWraps(buf, pos, 1);
    NoSumWraps(buf, pos + 1, 4);
    NoSumWraps(buf, |buf|, 1);
  }

  // ------------------------------------------------------------------------ headers

  lemma HeaderLayout(number: uint32, fn: uint16, retval: int32, error: uint16)
    ensures var q := RequestHeader(number, fn); |q| == 6 && Spells(q, 0, number) && SpellsShort(q, 4, fn)
    ensures var r := ResponseHeader(number, retval, error);
      |r| == 10 && Spells(r, 0, number) && Spells(r, 4, retval % TWO32) && SpellsShort(r, 8, error)
  {
    var q, r := RequestHeader(number, fn), ResponseHeader(number, retval, error);
    assert q[0..4] == Be32(number) && q[4..6] == Be16(fn);
    assert r[0..4] == Be32(number) && r[4..8] == Be32(AsUnsigned(retval)) && r[8..10] == Be16(error);
    Place(q, 0, number);
    PlaceShort(q, 4, fn);
    Place(r, 0, number);
    Place(r, 4, AsUnsigned(retval));
    PlaceShort(r, 8, error);
  }

  /** A header is read exactly where six, or ten, bytes are left. */
  lemma HeaderDecodesIff(buf: seq<byte>, pos: uint32)
    requires Frame(buf) && pos <= |buf|
    ensures var g := DecodeRequestHeader(buf, pos);
      if pos + 6 <= |buf| then
        g.pos == pos + 6 && g.value.Some? && Spells(buf, pos, g.value.value.number) && SpellsShort(buf, pos + 4, g.value.value.fn)
      else g == Got(None, pos)
    ensures var g := DecodeResponseHeader(buf, pos);
      if pos + 10 <= |buf| then
        && g.pos == pos + 10 && g.value.Some? && Spells(buf, pos, g.value.value.number)
        && Spells(buf, pos + 4, g.value.value.retval % TWO32) && SpellsShort(buf, pos + 8, g.value.value.error)
      else g == Got(None, pos)
  {
    NoSumWraps(buf, pos, 6);
    NoSumWraps(buf, pos, 10);
    if pos + 6 <= |buf| {
      BigEndian(buf, pos);
      TwoBytes(buf, pos + 4);
    }
    if pos + 10 <= |buf| {
      BigEndian(buf, pos + 4);
      TwoBytes(buf, pos + 8);
      TwosComplement(0, BeAt(buf, pos + 4, pos + 8));
    }
  }

  lemma TwoBytes(d: seq<byte>, i: nat)
    requires i + 2 <= |d|
    ensures SpellsShort(d, i, BeAt(d, i, i + 2))
  {
    assert BeAt(d, i, i) == 0;
    assert BeAt(d, i, i + 1) == d[i];
  }

  // ----------------------------------------------------------------------- messages

  lemma FrameLayout(m: Msg)
    requires |m.data| < TWO32
    ensures var b := FrameBytes(m);
      |b| == 5 + |m.data| && Spells(b, 0, (1 + |m.data|) % TWO32) && b[4] == m.kind && b[5..] == m.data
  {
    var b := FrameBytes(m);
    assert b[0..4] == Be32((1 + |m.data|) % TWO32);
    Place(b, 0, (1 + |m.data|) % TWO32);
  }

  lemma EventLayout(e: Event)
    requires |e.data| < TWO32
    ensures var m := EventMsg(e);
      && m.kind == 3 && |m.data| == 16 + |e.data| && m.data[16..] == e.data
      && Spells(m.data, 0, e.handle) && Spells(m.data, 4, e.msg % TWO32)
      && Spells(m.data, 8, e.lparam % TWO32) && Spells(m.data, 12, |e.data|)
  {
    var b, h := EventMsg(e).data, EventHeader(e);
    EventHeaderLayout(e);
    assert forall i :: 0 <= i < 16 ==> b[i] == h[i];
  }

  lemma EventHeaderLayout(e: Event)
    requires |e.data| < TWO32
    ensures var h := EventHeader(e);
      && Spells(h, 0, e.handle) && Spells(h, 4, e.msg % TWO32) && Spells(h, 8, e.lparam % TWO32) && Spells(h, 12, |e.data|)
  {
    var h := EventHeader(e);
    assert h[0..4] == Be32(e.handle) && h[4..8] == Be32(AsUnsigned(e.msg));
    assert h[8..12] == Be32(AsUnsigned(e.lparam)) && h[12..16] == Be32(|e.data|);
    Place(h, 0, e.handle);
    Place(h, 4, AsUnsigned(e.msg));
    Place(h, 8, AsUnsigned(e.lparam));
    Place(h, 12, |e.data|);
  }

  lemma ReturnLayout(handle: uint32, ret: int32)
    ensures var m := ReturnMsg(handle, ret);
      m.kind == 4 && |m.data| == 8 && Spells(m.data, 0, handle) && Spells(m.data, 4, ret % TWO32)
  {
    var b := ReturnMsg(handle, ret).data;
    assert b[0..4] == Be32(handle) && b[4..8] == Be32(AsUnsigned(ret));
    Place(b, 0, handle);
    Place(b, 4, AsUnsigned(ret));
  }

  lemma HandshakeLayout(id: uint32)
    ensures Hello(id).kind == 5 && Ack(id).kind == 6 && Ack(id).data == Hello(id).data
    ensures |Hello(id).data| == 4 && Spells(Hello(id).data, 0, id)
  {
    WordBytes(id);
  }

  /** The callback thread takes up exactly the messages of kind 3 with 16 bytes at least. */
  lemma EventReadIff(m: Msg)
    ensures if m.kind == 3 && |m.data| >= 16 then
        ReadEvent(m).Some? && var a := ReadEvent(m).value;
        && Spells(m.data, 0, a.handle) && Spells(m.data, 4, a.msg % TWO32) && Spells(m.data, 8, a.lparam % TWO32)
        && Spells(m.data, 12, a.length) && a.rest == m.data[16..]
      else ReadEvent(m).None?
  {
    if m.kind == 3 && |m.data| >= 16 {
      BigEndian(m.data, 0);
      BigEndian(m.data, 4);
      BigEndian(m.data, 8);
      BigEndian(m.data, 12);
      TwosComplement(0, BeAt(m.data, 4, 8));
      TwosComplement(0, BeAt(m.data, 8, 12));
    }
  }

  /** The bridge reads the number in a message of kind 4 with 8 bytes at least, and makes
      "data processed", which is 1, of any other. */
  lemma ReturnReadIff(m: Msg)
    ensures if m.kind == 4 && |m.data| >= 8 then Spells(m.data, 4, ReadReturn(m) % TWO32) else ReadReturn(m) == 1
  {
    if m.kind == 4 && |m.data| >= 8 {
      BigEndian(m.data, 4);
      TwosComplement(0, BeAt(m.data, 4, 8));
    }
  }

  /** A handshake message has the kind asked for and four bytes at least. */
  lemma HandshakeReadIff(m: Msg, kind: byte)
    ensures if m.kind == kind && |m.data| >= 4 then
        NumberIn(m, kind).Some? && Spells(m.data, 0, NumberIn(m, kind).value)
      else NumberIn(m, kind).None?
  {
    if |m.data| >= 4 {
      BigEndian(m.data, 0);
    }
  }
}
