/** The tagged argument codec and the message headers. Encoders are described by the bytes
    they append; decoders by the value they return and where they leave the cursor, on
    failure too. All cursor sums are taken modulo 2^32, as the C code takes them. */
module Codec {
  import opened Bytes

  const MAX_MSG_SIZE := 4 * 1024 * 1024
  const MAX_STRING_LEN := 64 * 1024
  const MAX_BUFFER_SIZE := 2 * 1024 * 1024

  const ARG_INT32: byte := 1
  const ARG_UINT32: byte := 2
  const ARG_HANDLE: byte := 3
  const ARG_STRING: byte := 4
  const ARG_BUFFER: byte := 5
  const ARG_NULL: byte := 6

  datatype Arg =
    | Int32(i: int32)
    | Uint32(u: uint32)
    | Handle(h: uint32)
    | Str(text: seq<byte>)
    | Buf(data: seq<byte>)
    | Null

  // ------------------------------------------------------------------- encoding

  function EncodeWord(tag: byte, n: uint32): (b: seq<byte>)
    ensures |b| == 5
  {
    [tag] + Be32(n)
  }

  function EncodeBlock(tag: byte, s: seq<byte>): (b: seq<byte>)
    requires |s| < TWO32
    ensures |b| == 5 + |s|
  {
    EncodeWord(tag, |s|) + s
  }

  /** Lengths the length field can hold. */
  predicate Encodable(a: Arg) {
    match a
    case Str(s) => |s| < TWO32
    case Buf(s) => |s| < TWO32
    case _ => true
  }

  function EncodeArg(a: Arg): (b: seq<byte>)
    requires Encodable(a)
    ensures |b| >= 1
  {
    match a
    case Int32(i) => EncodeWord(ARG_INT32, AsUnsigned(i))
    case Uint32(u) => EncodeWord(ARG_UINT32, u)
    case Handle(h) => EncodeWord(ARG_HANDLE, h)
    case Str(s) => EncodeBlock(ARG_STRING, s)
    case Buf(s) => EncodeBlock(ARG_BUFFER, s)
    case Null => [ARG_NULL]
  }

  function EncodeArgs(args: seq<Arg>): seq<byte>
    requires forall a :: a in args ==> Encodable(a)
  {
    if args == [] then [] else EncodeArg(args[0]) + EncodeArgs(args[1..])
  }

  function RequestHeader(number: uint32, fn: uint16): (b: seq<byte>)
    ensures |b| == 6
  {
    Be32(number) + Be16(fn)
  }

  function ResponseHeader(number: uint32, retval: int32, error: uint16): (b: seq<byte>)
    ensures |b| == 10
  {
    Be32(number) + Be32(AsUnsigned(retval)) + Be16(error)
  }

  // ------------------------------------------------------------------- decoding

  /** A frame accepted by the framing layer leaves at most this much data. */
  predicate Frame(buf: seq<byte>) {
    |buf| < MAX_MSG_SIZE
  }

  /** What a decoder returns and where it leaves the cursor. */
  datatype Got<T> = Got(value: Option<T>, pos: uint32)

  function Add32(a: uint32, b: uint32): uint32 {
    (a + b) % TWO32
  }

  predicate CheckRemaining(buflen: uint32, pos: uint32, need: uint32) {
    Add32(pos, need) <= buflen
  }

  function DecodeWord(buf: seq<byte>, pos: uint32, tag: byte): (g: Got<uint32>)
    requires Frame(buf) && pos <= |buf|
    ensures pos <= g.pos <= |buf|
  {
    if !CheckRemaining(|buf|, pos, 5) || buf[pos] != tag then Got(None, pos)
    else Got(Some(BeAt(buf, pos + 1, pos + 5)), pos + 5)
  }

  /** Strings and buffers: a null, or a length within `limit` and that many bytes. The
      cursor has passed the length by the time an overlong or cut block is noticed. */
  function DecodeBlock(buf: seq<byte>, pos: uint32, tag: byte, limit: nat): (g: Got<Option<seq<byte>>>)
    requires Frame(buf) && pos <= |buf|
    requires limit <= MAX_BUFFER_SIZE && tag != ARG_NULL
    ensures pos <= g.pos <= |buf|
  {
    if !CheckRemaining(|buf|, pos, 1) then Got(None, pos)
    else if buf[pos] == ARG_NULL then Got(Some(None), pos + 1)
    else if buf[pos] != tag || !CheckRemaining(|buf|, pos, 5) then Got(None, pos)
    else
      var n := BeAt(buf, pos + 1, pos + 5);
      if n > limit || !CheckRemaining(|buf|, pos + 5, n) then Got(None, pos + 5)
      else Got(Some(Some(buf[pos + 5..pos + 5 + n])), pos + 5 + n)
  }

  datatype Kind = KInt32 | KUint32 | KHandle | KStr | KBuf

  function DecodeKind(buf: seq<byte>, pos: uint32, k: Kind): (g: Got<Arg>)
    requires Frame(buf) && pos <= |buf|
    ensures pos <= g.pos <= |buf|
  {
    match k
    case KInt32 => var g := DecodeWord(buf, pos, ARG_INT32);
      Got(if g.value.Some? then Some(Int32(AsSigned(g.value.value))) else None, g.pos)
    case KUint32 => var g := DecodeWord(buf, pos, ARG_UINT32);
      Got(if g.value.Some? then Some(Uint32(g.value.value)) else None, g.pos)
    case KHandle => var g := DecodeWord(buf, pos, ARG_HANDLE);
      Got(if g.value.Some? then Some(Handle(g.value.value)) else None, g.pos)
    case KStr => var g := DecodeBlock(buf, pos, ARG_STRING, MAX_STRING_LEN);
      Got(if g.value.None? then None else if g.value.value.None? then Some(Null) else Some(Str(g.value.value.value)), g.pos)
    case KBuf => var g := DecodeBlock(buf, pos, ARG_BUFFER, MAX_BUFFER_SIZE);
      Got(if g.value.None? then None else if g.value.value.None? then Some(Null) else Some(Buf(g.value.value.value)), g.pos)
  }

  /** A dispatch branch: decode argument after argument, give up at the first failure. */
  function DecodeArgs(buf: seq<byte>, pos: uint32, kinds: seq<Kind>): (g: Got<seq<Arg>>)
    requires Frame(buf) && pos <= |buf|
    ensures pos <= g.pos <= |buf|
    decreases |kinds|
  {
    if kinds == [] then Got(Some([]), pos)
    else
      var a := DecodeKind(buf, pos, kinds[0]);
      if a.value.None? then Got(None, a.pos)
      else
        var rest := DecodeArgs(buf, a.pos, kinds[1..]);
        Got(if rest.value.Some? then Some([a.value.value] + rest.value.value) else None, rest.pos)
  }

  /** rpc_decode_skip checks afterwards, on a sum that may have wrapped. */
  function Skip(buf: seq<byte>, pos: uint32): (uint32, bool)
    requires Frame(buf) && pos <= |buf|
  {
    if !CheckRemaining(|buf|, pos, 1) then (pos, false)
    else
      var tag := buf[pos];
      if tag == ARG_INT32 || tag == ARG_UINT32 || tag == ARG_HANDLE then
        (pos + 5, CheckRemaining(|buf|, pos + 1, 4))
      else if tag == ARG_NULL then (pos + 1, true)
      else if tag == ARG_STRING || tag == ARG_BUFFER then
        if !CheckRemaining(|buf|, pos, 5) then (pos, false)
        else
          var end := Add32(pos, Add32(5, BeAt(buf, pos + 1, pos + 5)));
          (end, CheckRemaining(|buf|, Add32(end, TWO32 - 1), 1))
      else (pos, false)
  }

  // ----------------------------------------------------------------- cursor soundness

  /** In an accepted frame none of the typed decoders' sums wraps. */
  lemma NoSumWraps(buf: seq<byte>, pos: uint32, need: uint32)
    requires Frame(buf) && pos <= |buf| && need <= MAX_BUFFER_SIZE
    ensures Add32(pos, need) == pos + need
    ensures CheckRemaining(|buf|, pos, need) <==> pos + need <= |buf|
  {
  }

  /** The cursor after any sequence of decodes, failed ones included. */
  function CursorAfter(buf: seq<byte>, pos: uint32, kinds: seq<Kind>): (p: uint32)
    requires Frame(buf) && pos <= |buf|
    ensures pos <= p <= |buf|
    decreases |kinds|
  {
    if kinds == [] then pos else CursorAfter(buf, DecodeKind(buf, pos, kinds[0]).pos, kinds[1..])
  }

  /** Whatever a typed decoder accepts, skip steps over alike. */
  lemma SkipFollowsDecode(buf: seq<byte>, pos: uint32, k: Kind)
    requires Frame(buf) && pos <= |buf| && DecodeKind(buf, pos, k).value.Some?
    ensures Skip(buf, pos) == (DecodeKind(buf, pos, k).pos, true)
  {
    NoSumWraps(buf, pos, 1);
    NoSumWraps(buf, pos, 5);
    if k.KStr? || k.KBuf? {
      if buf[pos] != ARG_NULL {
        var n := BeAt(buf, pos + 1, pos + 5);
        NoSumWraps(buf, pos + 5, n);
        SkipExact(buf, pos);
      }
    }
  }

  /** The converse fails: skip accepts a length so large that the sum wraps to where it
      started, and makes no progress. */
  lemma SkipAcceptsWrappedLength()
    ensures var buf := [ARG_STRING, 0xff, 0xff, 0xff, 0xfb];
      Skip(buf, 0) == (0, true) && forall k :: DecodeKind(buf, 0, k).value.None?
  {
    var buf := [ARG_STRING, 0xff, 0xff, 0xff, 0xfb];
    assert buf[1..5] == Be32(0xffff_fffb);
    Be32RoundTrip(0xffff_fffb, buf, 1);
  }

  /** Skip moves the cursor to the end of the block it accepted exactly when that end,
      taken without wrapping, lies in the frame. */
  lemma SkipExact(buf: seq<byte>, pos: uint32)
    requires Frame(buf) && pos + 5 <= |buf| && (buf[pos] == ARG_STRING || buf[pos] == ARG_BUFFER)
    ensures var end := pos + 5 + BeAt(buf, pos + 1, pos + 5);
      Skip(buf, pos) == (end % TWO32, end % TWO32 <= |buf|)
      && (Skip(buf, pos) == (end, true) <==> end <= |buf|)
  {
    var n := BeAt(buf, pos + 1, pos + 5);
    NoSumWraps(buf, pos, 5);
    NoSumWraps(buf, pos, 1);
    SumsTakenModulo(pos, n);
    SkipBlock(buf, pos, n);
    if pos + 5 + n >= TWO32 {
      assert (pos + 5 + n) % TWO32 < pos + 5 + n;
    }
  }

  lemma SkipBlock(buf: seq<byte>, pos: uint32, n: uint32)
    requires Frame(buf) && pos + 5 <= |buf| && (buf[pos] == ARG_STRING || buf[pos] == ARG_BUFFER)
    requires n == BeAt(buf, pos + 1, pos + 5)
    ensures var end := Add32(pos, Add32(5, n)); Skip(buf, pos) == (end, Add32(Add32(end, TWO32 - 1), 1) <= |buf|)
  {
    NoSumWraps(buf, pos, 5);
    NoSumWraps(buf, pos, 1);
  }

  lemma SumsTakenModulo(pos: uint32, n: uint32)
    requires pos < MAX_MSG_SIZE
    ensures Add32(pos, Add32(5, n)) == (pos + 5 + n) % TWO32
    ensures Add32(Add32((pos + 5 + n) % TWO32, TWO32 - 1), 1) == (pos + 5 + n) % TWO32
  {
    Reduced(pos + 5 + n);
    Reduced(5 + n);
    var m := (pos + 5 + n) % TWO32;
    Reduced(m + TWO32 - 1);
  }

  lemma Reduced(x: nat)
    requires x < 2 * TWO32
    ensures x % TWO32 == if x < TWO32 then x else x - TWO32
  {
  }

  // ---------------------------------------------------------------------- round trips

  /** What an argument of each kind may be: a string or buffer argument may be null. */
  predicate OfKind(a: Arg, k: Kind) {
    match k
    case KInt32 => a.Int32?
    case KUint32 => a.Uint32?
    case KHandle => a.Handle?
    case KStr => a.Str? || a.Null?
    case KBuf => a.Buf? || a.Null?
  }

  /** The limits the decoders enforce and the encoders do not. */
  predicate WithinLimits(a: Arg) {
    (a.Str? ==> |a.text| <= MAX_STRING_LEN) && (a.Buf? ==> |a.data| <= MAX_BUFFER_SIZE)
  }

  lemma WordHere(buf: seq<byte>, pos: uint32, tag: byte, n: uint32)
    requires Frame(buf) && pos + 5 <= |buf| && buf[pos..pos + 5] == EncodeWord(tag, n)
    ensures buf[pos] == tag && BeAt(buf, pos + 1, pos + 5) == n
    ensures DecodeWord(buf, pos, tag) == Got(Some(n), pos + 5)
  {
    assert buf[pos] == buf[pos..pos + 5][0];
    assert buf[pos + 1..pos + 5] == buf[pos..pos + 5][1..];
    Be32RoundTrip(n, buf, pos + 1);
  }

  /** An encoded argument decodes back exactly when it is within the limits. */
  lemma ArgDecodesIff(buf: seq<byte>, pos: uint32, a: Arg, k: Kind)
    requires Frame(buf) && Encodable(a) && OfKind(a, k)
    requires pos + |EncodeArg(a)| <= |buf| && buf[pos..pos + |EncodeArg(a)|] == EncodeArg(a)
    ensures WithinLimits(a) ==> DecodeKind(buf, pos, k) == Got(Some(a), pos + |EncodeArg(a)|)
    ensures !WithinLimits(a) ==> DecodeKind(buf, pos, k) == Got(None, pos + 5)
  {
    var b := EncodeArg(a);
    match a {
      case Null => assert buf[pos] == buf[pos..pos + 1][0];
      case Int32(i) =>
        WordHere(buf, pos, ARG_INT32, AsUnsigned(i));
        CastRoundTrip(i, 0);
      case Uint32(u) => WordHere(buf, pos, ARG_UINT32, u);
      case Handle(h) => WordHere(buf, pos, ARG_HANDLE, h);
      case Str(s) => BlockDecodesIff(buf, pos, ARG_STRING, s, MAX_STRING_LEN);
      case Buf(s) => BlockDecodesIff(buf, pos, ARG_BUFFER, s, MAX_BUFFER_SIZE);
    }
  }

  lemma BlockDecodesIff(buf: seq<byte>, pos: uint32, tag: byte, s: seq<byte>, limit: nat)
    requires Frame(buf) && |s| < TWO32 && pos + 5 + |s| <= |buf| && limit <= MAX_BUFFER_SIZE && tag != ARG_NULL
    requires buf[pos..pos + 5 + |s|] == EncodeBlock(tag, s)
    ensures DecodeBlock(buf, pos, tag, limit) == if |s| <= limit then Got(Some(Some(s)), pos + 5 + |s|) else Got(None, pos + 5)
  {
    BlockHere(buf, pos, tag, s);
  }

  lemma BlockHere(buf: seq<byte>, pos: uint32, tag: byte, s: seq<byte>)
    requires Frame(buf) && |s| < TWO32 && pos + 5 + |s| <= |buf|
    requires buf[pos..pos + 5 + |s|] == EncodeBlock(tag, s)
    ensures buf[pos] == tag && BeAt(buf, pos + 1, pos + 5) == |s| && buf[pos + 5..pos + 5 + |s|] == s
  {
    var b := buf[pos..pos + 5 + |s|];
    assert buf[pos..pos + 5] == b[..5] == EncodeWord(tag, |s|);
    assert buf[pos + 5..pos + 5 + |s|] == b[5..];
    WordHere(buf, pos, tag, |s|);
  }

  /** Decoders accept nothing but encodings: the bytes passed over are the argument's. */
  lemma DecodedWasEncoded(buf: seq<byte>, pos: uint32, k: Kind)
    requires Frame(buf) && pos <= |buf| && DecodeKind(buf, pos, k).value.Some?
    ensures var g := DecodeKind(buf, pos, k); var a := g.value.value;
      OfKind(a, k) && WithinLimits(a) && Encodable(a) && buf[pos..g.pos] == EncodeArg(a)
  {
    if k.KStr? {
      DecodedBlock(buf, pos, ARG_STRING, MAX_STRING_LEN);
    } else if k.KBuf? {
      DecodedBlock(buf, pos, ARG_BUFFER, MAX_BUFFER_SIZE);
    } else {
      DecodedWord(buf, pos);
      CastRoundTrip(0, BeAt(buf, pos + 1, pos + 5));
    }
  }

  lemma DecodedWord(buf: seq<byte>, pos: uint32)
    requires pos + 5 <= |buf|
    ensures buf[pos..pos + 5] == EncodeWord(buf[pos], BeAt(buf, pos + 1, pos + 5))
  {
    Be32Inverse(buf, pos + 1);
    assert buf[pos..pos + 5] == [buf[pos]] + buf[pos + 1..pos + 5];
  }

  lemma DecodedBlock(buf: seq<byte>, pos: uint32, tag: byte, limit: nat)
    requires Frame(buf) && pos <= |buf| && limit <= MAX_BUFFER_SIZE && tag != ARG_NULL
    requires DecodeBlock(buf, pos, tag, limit).value.Some?
    ensures var g := DecodeBlock(buf, pos, tag, limit);
      if g.value.value.None? then buf[pos..g.pos] == [ARG_NULL]
      else |g.value.value.value| <= limit && buf[pos..g.pos] == EncodeBlock(tag, g.value.value.value)
  {
    var g := DecodeBlock(buf, pos, tag, limit);
    if g.value.value.Some? {
      DecodedWord(buf, pos);
      assert buf[pos..g.pos] == buf[pos..pos + 5] + buf[pos + 5..g.pos];
    }
  }

  predicate AllOfKind(args: seq<Arg>, kinds: seq<Kind>) {
    |args| == |kinds| && forall i :: 0 <= i < |args| ==> OfKind(args[i], kinds[i])
  }

  predicate AllWithinLimits(args: seq<Arg>) {
    forall a :: a in args ==> WithinLimits(a) && Encodable(a)
  }

  /** Where a concatenation lies, its halves lie. */
  lemma Halves(buf: seq<byte>, pos: nat, x: seq<byte>, y: seq<byte>)
    requires pos + |x| + |y| <= |buf| && buf[pos..pos + |x| + |y|] == x + y
    ensures buf[pos..pos + |x|] == x && buf[pos + |x|..pos + |x| + |y|] == y
  {
    var b := buf[pos..pos + |x| + |y|];
    assert buf[pos..pos + |x|] == b[..|x|];
    assert buf[pos + |x|..pos + |x| + |y|] == b[|x|..];
  }

  lemma EncodeStep(args: seq<Arg>, a: Arg, x: seq<byte>, y: seq<byte>)
    requires AllWithinLimits(args) && args != [] && AllWithinLimits(args[1..])
    requires a == args[0] && WithinLimits(a) && Encodable(a)
    requires x == EncodeArg(a) && y == EncodeArgs(args[1..])
    ensures EncodeArgs(args) == x + y
  {
  }

  /** The bytes `b` lie in the buffer at `pos`. */
  predicate Here(buf: seq<byte>, pos: nat, b: seq<byte>) {
    pos + |b| <= |buf| && buf[pos..pos + |b|] == b
  }

  /** A whole argument list decodes back to itself, with the cursor at its end. */
  lemma ArgsRoundTrip(buf: seq<byte>, pos: uint32, args: seq<Arg>, kinds: seq<Kind>)
    requires Frame(buf) && AllWithinLimits(args) && AllOfKind(args, kinds)
    requires pos + |EncodeArgs(args)| <= |buf| && buf[pos..pos + |EncodeArgs(args)|] == EncodeArgs(args)
    ensures DecodeArgs(buf, pos, kinds) == Got(Some(args), pos + |EncodeArgs(args)|)
  {
    ArgsDecode(buf, pos, args, kinds, EncodeArgs(args), DecodeArgs(buf, pos, kinds));
  }

  lemma {:induction false} ArgsDecode(buf: seq<byte>, pos: uint32, args: seq<Arg>, kinds: seq<Kind>, b: seq<byte>, g: Got<seq<Arg>>)
    requires Frame(buf) && AllWithinLimits(args) && AllOfKind(args, kinds)
    requires b == EncodeArgs(args) && Here(buf, pos, b) && g == DecodeArgs(buf, pos, kinds)
    ensures g == Got(Some(args), pos + |b|)
    decreases |args|
  {
    if args == [] {
      DecodeNone(buf, pos, kinds);
    } else {
      var mid, y := HeadDecodes(buf, pos, args, kinds, b, g);
      RestOf(args, kinds);
      ArgsDecode(buf, mid, args[1..], kinds[1..], y, DecodeArgs(buf, mid, kinds[1..]));
      assert args == [args[0]] + args[1..];
    }
  }

  /** The first argument decodes to itself, and the rest of the bytes lie where it ended. */
  lemma HeadDecodes(buf: seq<byte>, pos: uint32, args: seq<Arg>, kinds: seq<Kind>, b: seq<byte>, g: Got<seq<Arg>>)
    returns (mid: uint32, y: seq<byte>)
    requires Frame(buf) && AllWithinLimits(args) && AllOfKind(args, kinds) && args != []
    requires b == EncodeArgs(args) && Here(buf, pos, b) && g == DecodeArgs(buf, pos, kinds)
    ensures pos <= mid <= |buf| && AllWithinLimits(args[1..])
    ensures y == EncodeArgs(args[1..]) && Here(buf, mid, y) && mid + |y| == pos + |b|
    ensures var rest := DecodeArgs(buf, mid, kinds[1..]);
      g == Got(if rest.value.Some? then Some([args[0]] + rest.value.value) else None, rest.pos)
  {
    RestOf(args, kinds);
    var x := EncodeArg(args[0]);
    y := EncodeArgs(args[1..]);
    mid := pos + |x|;
    BytesSplit(buf, pos, args, b, x, y);
    OneDecodes(buf, pos, args[0], kinds[0], x, DecodeKind(buf, pos, kinds[0]));
    DecodeStep(buf, pos, kinds, Got(Some(args[0]), mid), DecodeArgs(buf, mid, kinds[1..]));
  }

  lemma BytesSplit(buf: seq<byte>, pos: nat, args: seq<Arg>, b: seq<byte>, x: seq<byte>, y: seq<byte>)
    requires AllWithinLimits(args) && args != [] && AllWithinLimits(args[1..])
    requires WithinLimits(args[0]) && Encodable(args[0])
    requires x == EncodeArg(args[0]) && y == EncodeArgs(args[1..]) && b == EncodeArgs(args) && Here(buf, pos, b)
    ensures Here(buf, pos, x) && Here(buf, pos + |x|, y) && |b| == |x| + |y|
  {
    EncodeStep(args, args[0], x, y);
    Halves(buf, pos, x, y);
  }

  lemma OneDecodes(buf: seq<byte>, pos: uint32, a: Arg, k: Kind, x: seq<byte>, g: Got<Arg>)
    requires Frame(buf) && WithinLimits(a) && Encodable(a) && OfKind(a, k) && x == EncodeArg(a) && Here(buf, pos, x)
    requires g == DecodeKind(buf, pos, k)
    ensures g == Got(Some(a), pos + |x|)
  {
    ArgDecodesIff(buf, pos, a, k);
  }

  lemma DecodeNone(buf: seq<byte>, pos: uint32, kinds: seq<Kind>)
    requires Frame(buf) && pos <= |buf| && kinds == []
    ensures DecodeArgs(buf, pos, kinds) == Got(Some([]), pos)
  {
  }

  lemma RestOf(args: seq<Arg>, kinds: seq<Kind>)
    requires AllWithinLimits(args) && AllOfKind(args, kinds) && args != []
    ensures AllWithinLimits(args[1..]) && AllOfKind(args[1..], kinds[1..])
    ensures WithinLimits(args[0]) && Encodable(args[0]) && OfKind(args[0], kinds[0])
  {
    assert args[0] in args && forall x | x in args[1..] :: x in args;
  }

  lemma DecodeStep(buf: seq<byte>, pos: uint32, kinds: seq<Kind>, a: Got<Arg>, rest: Got<seq<Arg>>)
    requires Frame(buf) && pos <= |buf| && kinds != []
    requires a == DecodeKind(buf, pos, kinds[0]) && a.value.Some?
    requires rest == DecodeArgs(buf, a.pos, kinds[1..])
    ensures DecodeArgs(buf, pos, kinds)
         == Got(if rest.value.Some? then Some([a.value.value] + rest.value.value) else None, rest.pos)
  {
  }

  /** No encoded argument is a prefix of another, so a list has one reading. */
  lemma ArgPrefixFree(a: Arg, r: seq<byte>, b: Arg, s: seq<byte>)
    requires Encodable(a) && Encodable(b) && EncodeArg(a) + r == EncodeArg(b) + s
    ensures a == b && r == s
  {
    var x := EncodeArg(a) + r;
    assert x[0] == EncodeArg(a)[0] == EncodeArg(b)[0];
    if !a.Null? {
      WordFields(a, r, x);
      WordFields(b, s, x);
      CastsAreInjective(a, b);
      assert |EncodeArg(a)| == |EncodeArg(b)|;
    }
    var n := |EncodeArg(a)|;
    assert x[..n] == EncodeArg(a) == EncodeArg(b);
    assert x[n..] == r == s;
    if a.Str? || a.Buf? {
      assert EncodeArg(a)[5..] == EncodeArg(b)[5..];
    }
  }

  /** The number in an argument's first word: its value or its length. */
  function FirstWord(a: Arg): uint32
    requires Encodable(a) && !a.Null?
  {
    match a
    case Int32(i) => AsUnsigned(i)
    case Uint32(u) => u
    case Handle(h) => h
    case Str(s) => |s|
    case Buf(s) => |s|
  }

  lemma WordFields(a: Arg, r: seq<byte>, x: seq<byte>)
    requires Encodable(a) && !a.Null? && x == EncodeArg(a) + r
    ensures |x| >= 5 && BeAt(x, 1, 5) == FirstWord(a)
  {
    assert x[1..5] == Be32(FirstWord(a));
    Be32RoundTrip(FirstWord(a), x, 1);
  }

  lemma CastsAreInjective(a: Arg, b: Arg)
    requires a.Int32? && b.Int32? ==> AsUnsigned(a.i) == AsUnsigned(b.i)
    ensures a.Int32? && b.Int32? ==> a == b
  {
    if a.Int32? && b.Int32? {
      CastRoundTrip(a.i, 0);
      CastRoundTrip(b.i, 0);
    }
  }

  /** No two argument lists share an encoding. */
  lemma {:induction false} EncodingInjective(xs: seq<Arg>, ys: seq<Arg>)
    requires (forall a :: a in xs ==> Encodable(a)) && (forall a :: a in ys ==> Encodable(a))
    requires EncodeArgs(xs) == EncodeArgs(ys)
    ensures xs == ys
    decreases |xs|
  {
    if xs != [] && ys != [] {
      assert xs[0] in xs && ys[0] in ys;
      ArgPrefixFree(xs[0], EncodeArgs(xs[1..]), ys[0], EncodeArgs(ys[1..]));
      EncodingInjective(xs[1..], ys[1..]);
      assert xs == [xs[0]] + xs[1..] && ys == [ys[0]] + ys[1..];
    }
  }

  // ------------------------------------------------------------------------- headers

  datatype Request = Request(number: uint32, fn: uint16)
  datatype Response = Response(number: uint32, retval: int32, error: uint16)

  function DecodeRequestHeader(buf: seq<byte>, pos: uint32): (g: Got<Request>)
    requires Frame(buf) && pos <= |buf|
    ensures pos <= g.pos <= |buf|
  {
    if !CheckRemaining(|buf|, pos, 6) then Got(None, pos)
    else Got(Some(Request(BeAt(buf, pos, pos + 4), BeAt(buf, pos + 4, pos + 6))), pos + 6)
  }

  function DecodeResponseHeader(buf: seq<byte>, pos: uint32): (g: Got<Response>)
    requires Frame(buf) && pos <= |buf|
    ensures pos <= g.pos <= |buf|
  {
    if !CheckRemaining(|buf|, pos, 10) then Got(None, pos)
    else
      Got(Some(Response(BeAt(buf, pos, pos + 4), AsSigned(BeAt(buf, pos + 4, pos + 8)), BeAt(buf, pos + 8, pos + 10))),
          pos + 10)
  }

  lemma RequestHeaderRoundTrip(number: uint32, fn: uint16, rest: seq<byte>)
    requires Frame(RequestHeader(number, fn) + rest)
    ensures DecodeRequestHeader(RequestHeader(number, fn) + rest, 0) == Got(Some(Request(number, fn)), 6)
  {
    var buf := RequestHeader(number, fn) + rest;
    assert buf[0..4] == Be32(number) && buf[4..6] == Be16(fn);
    Be32RoundTrip(number, buf, 0);
    Be16RoundTrip(fn, buf, 4);
  }

  lemma ResponseHeaderRoundTrip(number: uint32, retval: int32, error: uint16, rest: seq<byte>)
    requires Frame(ResponseHeader(number, retval, error) + rest)
    ensures DecodeResponseHeader(ResponseHeader(number, retval, error) + rest, 0)
         == Got(Some(Response(number, retval, error)), 10)
  {
    var buf := ResponseHeader(number, retval, error) + rest;
    assert buf[0..4] == Be32(number) && buf[4..8] == Be32(AsUnsigned(retval)) && buf[8..10] == Be16(error);
    Be32RoundTrip(number, buf, 0);
    Be32RoundTrip(AsUnsigned(retval), buf, 4);
    Be16RoundTrip(error, buf, 8);
    CastRoundTrip(retval, 0);
  }
}
