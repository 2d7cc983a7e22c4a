/** The two hand-written halves of every call: which arguments a wrapper of the host library
    encodes, and which arguments the bridge's branch for that function decodes. */
module Signatures {
  import opened Bytes
  import opened Codec
  import opened RpcBuffer

  /** What the wrapper for `fn` passes; no wrapper sends the two voice stubs. */
  function WrapperKinds(fn: uint16): Option<seq<Kind>> {
    if fn in {0x0001, 0x0006, 0x000b} then Some([]) else
    if fn in {0x0002, 0x0202} then Some([KInt32]) else
    if fn in {0x0003, 0x0004, 0x0005, 0x0007, 0x0008, 0x0009, 0x000a, 0x0102, 0x0104, 0x0106, 0x0107, 0x0108, 0x0109, 0x0304, 0x0500, 0x0501} then Some([KHandle]) else
    if fn in {0x0100, 0x0103, 0x0301} then Some([KHandle, KStr]) else
    if fn in {0x0101, 0x0105, 0x0200, 0x0300, 0x0302, 0x0303, 0x0401} then Some([KHandle, KInt32]) else
    if fn in {0x010a} then Some([KStr, KInt32]) else
    if fn in {0x010b} then Some([KStr, KInt32, KInt32]) else
    if fn in {0x0201, 0x0400, 0x0403} then Some([KHandle, KInt32, KInt32]) else
    if fn in {0x0203} then Some([KInt32, KInt32]) else
    if fn in {0x0402} then Some([KHandle, KInt32, KStr]) else
    if fn in {0x0404} then Some([KHandle, KInt32, KInt32, KInt32]) else
    if fn in {0x0502, 0x0503, 0x0701, 0x0702, 0x0703} then Some([KHandle, KHandle]) else
    if fn in {0x0504, 0x0505, 0x0509, 0x050d} then Some([KHandle, KHandle, KInt32, KStr]) else
    if fn in {0x0506} then Some([KHandle, KHandle, KInt32, KStr, KStr]) else
    if fn in {0x0507, 0x0508, 0x050b, 0x050c} then Some([KHandle, KHandle, KInt32]) else
    if fn in {0x050a} then Some([KHandle, KHandle, KInt32, KStr, KStr, KInt32]) else
    if fn in {0x0700} then Some([KHandle, KUint32, KInt32]) else
    if fn in {0x0704} then Some([KHandle, KHandle, KStr, KStr]) else
    if fn in {0x0705} then Some([KHandle, KHandle, KStr]) else
    None
  }

  /** What the branch of dispatch_rpc for `fn` reads; other numbers answer an error. */
  function BranchKinds(fn: uint16): Option<seq<Kind>> {
    if fn == 0x0001 then Some([]) else
    if fn == 0x0002 then Some([KInt32]) else
    if 0x0003 <= fn <= 0x0005 then Some([KHandle]) else
    if fn == 0x0006 then Some([]) else
    if 0x0007 <= fn <= 0x000a then Some([KHandle]) else
    if fn == 0x000b then Some([]) else
    if fn == 0x0100 then Some([KHandle, KStr]) else
    if fn == 0x0101 then Some([KHandle, KInt32]) else
    if fn == 0x0102 then Some([KHandle]) else
    if fn == 0x0103 then Some([KHandle, KStr]) else
    if fn == 0x0104 then Some([KHandle]) else
    if fn == 0x0105 then Some([KHandle, KInt32]) else
    if 0x0106 <= fn <= 0x0109 then Some([KHandle]) else
    if fn == 0x010a then Some([KStr, KInt32]) else
    if fn == 0x010b then Some([KStr, KInt32, KInt32]) else
    if fn == 0x0200 then Some([KHandle, KInt32]) else
    if fn == 0x0201 then Some([KHandle, KInt32, KInt32]) else
    if fn == 0x0202 then Some([KInt32]) else
    if fn == 0x0203 then Some([KInt32, KInt32]) else
    if fn == 0x0300 then Some([KHandle, KInt32]) else
    if fn == 0x0301 then Some([KHandle, KStr]) else
    if 0x0302 <= fn <= 0x0303 then Some([KHandle, KInt32]) else
    if fn == 0x0304 then Some([KHandle]) else
    if fn == 0x0400 then Some([KHandle, KInt32, KInt32]) else
    if fn == 0x0401 then Some([KHandle, KInt32]) else
    if fn == 0x0402 then Some([KHandle, KInt32, KStr]) else
    if fn == 0x0403 then Some([KHandle, KInt32, KInt32]) else
    if fn == 0x0404 then Some([KHandle, KInt32, KInt32, KInt32]) else
    if 0x0500 <= fn <= 0x0501 then Some([KHandle]) else
    if 0x0502 <= fn <= 0x0503 then Some([KHandle, KHandle]) else
    if 0x0504 <= fn <= 0x0505 then Some([KHandle, KHandle, KInt32, KStr]) else
    if fn == 0x0506 then Some([KHandle, KHandle, KInt32, KStr, KStr]) else
    if 0x0507 <= fn <= 0x0508 then Some([KHandle, KHandle, KInt32]) else
    if fn == 0x0509 then Some([KHandle, KHandle, KInt32, KStr]) else
    if fn == 0x050a then Some([KHandle, KHandle, KInt32, KStr, KStr, KInt32]) else
    if 0x050b <= fn <= 0x050c then Some([KHandle, KHandle, KInt32]) else
    if fn == 0x050d then Some([KHandle, KHandle, KInt32, KStr]) else
    if fn == 0x0700 then Some([KHandle, KUint32, KInt32]) else
    if 0x0701 <= fn <= 0x0703 then Some([KHandle, KHandle]) else
    if fn == 0x0704 then Some([KHandle, KHandle, KStr, KStr]) else
    if fn == 0x0705 then Some([KHandle, KHandle, KStr]) else
    None
  }

  /** Every wrapper has a branch, and the branch reads what the wrapper writes. */
  lemma SignaturesAgree(fn: uint16)
    ensures BranchKinds(fn) == WrapperKinds(fn)
  {
  }

  // --------------------------------------------------------------------- the request

  function RequestBytes(number: uint32, fn: uint16, args: seq<Arg>): (b: seq<byte>)
    requires forall a :: a in args ==> Encodable(a)
    ensures |b| == 6 + |EncodeArgs(args)|
  {
    RequestHeader(number, fn) + EncodeArgs(args)
  }

  datatype Call = Call(number: uint32, fn: uint16, args: seq<Arg>)

  /** The request as its branch sees it, or nothing when the header or an argument does not
      decode or there is no such branch. */
  function ReadRequest(buf: seq<byte>): (g: Got<Call>)
    requires Frame(buf)
    ensures g.pos <= |buf|
  {
    var h := DecodeRequestHeader(buf, 0);
    if h.value.None? || BranchKinds(h.value.value.fn).None? then Got(None, h.pos)
    else
      var a := DecodeArgs(buf, h.pos, BranchKinds(h.value.value.fn).value);
      Got(if a.value.None? then None else Some(Call(h.value.value.number, h.value.value.fn, a.value.value)), a.pos)
  }

  predicate WellTyped(c: Call) {
    && WrapperKinds(c.fn).Some? && AllOfKind(c.args, WrapperKinds(c.fn).value)
    && forall a :: a in c.args ==> Encodable(a)
  }

  /** A wrapper's request reaches its branch with the same number, function and argument
      values, and nothing left over. */
  lemma RequestReachesItsBranch(c: Call)
    requires WellTyped(c) && AllWithinLimits(c.args)
    requires Frame(RequestBytes(c.number, c.fn, c.args))
    ensures var buf := RequestBytes(c.number, c.fn, c.args);
      ReadRequest(buf) == Got(Some(c), |buf|)
  {
    var buf, rest := RequestBytes(c.number, c.fn, c.args), EncodeArgs(c.args);
    RequestHeaderRoundTrip(c.number, c.fn, rest);
    SignaturesAgree(c.fn);
    assert buf[6..6 + |rest|] == rest;
    ArgsRoundTrip(buf, 6, c.args, WrapperKinds(c.fn).value);
  }

  /** And only then: a string over 64 KiB is encoded and sent, and refused on arrival. */
  lemma RequestDecodesIff(c: Call)
    requires WellTyped(c) && Frame(RequestBytes(c.number, c.fn, c.args))
    ensures ReadRequest(RequestBytes(c.number, c.fn, c.args)).value == Some(c)
       <==> forall a :: a in c.args ==> WithinLimits(a)
  {
    if ReadRequest(RequestBytes(c.number, c.fn, c.args)).value == Some(c) {
      DecodedArgsWithinLimits(c);
    }
    if forall a :: a in c.args ==> WithinLimits(a) {
      RequestReachesItsBranch(c);
    }
  }

  lemma DecodedArgsWithinLimits(c: Call)
    requires WellTyped(c) && Frame(RequestBytes(c.number, c.fn, c.args))
    requires ReadRequest(RequestBytes(c.number, c.fn, c.args)).value == Some(c)
    ensures forall a :: a in c.args ==> WithinLimits(a)
  {
    var buf := RequestBytes(c.number, c.fn, c.args);
    RequestHeaderRoundTrip(c.number, c.fn, EncodeArgs(c.args));
    ArgsWereEncoded(buf, 6, BranchKinds(c.fn).value);
  }

  /** Whatever a branch accepts is the encoding of what it read. */
  lemma {:induction false} ArgsWereEncoded(buf: seq<byte>, pos: uint32, kinds: seq<Kind>)
    requires Frame(buf) && pos <= |buf| && DecodeArgs(buf, pos, kinds).value.Some?
    ensures var g := DecodeArgs(buf, pos, kinds);
      AllOfKind(g.value.value, kinds) && AllWithinLimits(g.value.value)
      && buf[pos..g.pos] == EncodeArgs(g.value.value)
    decreases |kinds|
  {
    if kinds == [] {
      assert buf[pos..pos] == [];
    } else {
      var a := DecodeKind(buf, pos, kinds[0]);
      var rest := DecodeArgs(buf, a.pos, kinds[1..]);
      DecodeStep(buf, pos, kinds, a, rest);
      DecodedWasEncoded(buf, pos, kinds[0]);
      ArgsWereEncoded(buf, a.pos, kinds[1..]);
      ArgsJoin(buf, pos, a.pos, rest.pos, a.value.value, rest.value.value);
    }
  }

  lemma ArgsJoin(buf: seq<byte>, p: nat, q: nat, r: nat, a: Arg, rest: seq<Arg>)
    requires p <= q <= r <= |buf| && WithinLimits(a) && Encodable(a) && AllWithinLimits(rest)
    requires buf[p..q] == EncodeArg(a) && buf[q..r] == EncodeArgs(rest)
    ensures AllWithinLimits([a] + rest) && buf[p..r] == EncodeArgs([a] + rest)
  {
    var args := [a] + rest;
    assert args[1..] == rest;
    EncodeStep(args, a, buf[p..q], buf[q..r]);
    assert buf[p..r] == buf[p..q] + buf[q..r];
  }

  /** And whatever is read as a request was one a wrapper could have sent, byte for byte. */
  lemma ReadWasRequest(buf: seq<byte>)
    requires Frame(buf) && ReadRequest(buf).value.Some?
    ensures var c, pos := ReadRequest(buf).value.value, ReadRequest(buf).pos;
      WellTyped(c) && AllWithinLimits(c.args) && pos <= |buf| && buf[..pos] == RequestBytes(c.number, c.fn, c.args)
  {
    var h := DecodeRequestHeader(buf, 0);
    var fn := h.value.value.fn;
    NoSumWraps(buf, 0, 6);
    Be32Inverse(buf, 0);
    Be16Inverse(buf, 4);
    SignaturesAgree(fn);
    ArgsWereEncoded(buf, 6, BranchKinds(fn).value);
    var pos := ReadRequest(buf).pos;
    assert buf[..pos] == buf[0..4] + buf[4..6] + buf[6..pos];
  }

  // ------------------------------------------------------------------- the two halves

  lemma EncodeFrom(args: seq<Arg>, i: nat, prefix: seq<byte>)
    requires i < |args| && forall a :: a in args ==> Encodable(a)
    ensures prefix + EncodeArgs(args[i..]) == (prefix + EncodeArg(args[i])) + EncodeArgs(args[i + 1..])
  {
    assert args[i..][1..] == args[i + 1..];
  }

  lemma EncodeFromFits(args: seq<Arg>, i: nat, prefix: seq<byte>, whole: seq<byte>)
    requires i < |args| && forall a :: a in args ==> Encodable(a)
    requires whole == prefix + EncodeArgs(args[i..])
    ensures whole == (prefix + EncodeArg(args[i])) + EncodeArgs(args[i + 1..])
    ensures |prefix| + |EncodeArg(args[i])| <= |whole|
  {
    EncodeFrom(args, i, prefix);
  }

  /** A wrapper fills its argument buffer one argument after the other. */
  method BuildArgs(args: seq<Arg>, ghost whole: seq<byte>) returns (b: Buffer)
    requires (forall a :: a in args ==> Encodable(a)) && whole == EncodeArgs(args) && |whole| <= TOP
    ensures fresh(b) && fresh(b.data) && b.Valid() && b.Contents() == whole
  {
    b := new Buffer();
    assert args[0..] == args && [] + whole == whole;
    for i := 0 to |args|
      invariant fresh(b) && fresh(b.data) && b.Valid()
      invariant whole == b.Contents() + EncodeArgs(args[i..])
    {
      EncodeFromFits(args, i, b.Contents(), whole);
      b.EncodeValue(args[i]);
    }
    assert args[|args|..] == [] && b.Contents() + [] == b.Contents();
  }

  /** shim_rpc puts the header in front of a copy of the arguments. */
  method BuildRequest(c: Call) returns (req: Buffer)
    requires WellTyped(c) && |RequestBytes(c.number, c.fn, c.args)| <= TOP
    ensures fresh(req) && fresh(req.data) && req.Valid()
    ensures req.Contents() == RequestBytes(c.number, c.fn, c.args)
  {
    var args := BuildArgs(c.args, EncodeArgs(c.args));
    var bytes := args.data[..args.len];
    req := new Buffer();
    req.EncodeRaw(RequestHeader(c.number, c.fn));
    req.EncodeRaw(bytes);
  }

  /** The header and then the branch's arguments. */
  method Receive(buf: array<byte>) returns (c: Option<Call>)
    requires Frame(buf[..])
    ensures c == ReadRequest(buf[..]).value
  {
    var r := new Reader(buf);
    var h := r.RequestHeaderIn();
    if h.None? || BranchKinds(h.value.fn).None? {
      return None;
    }
    var a := r.DecodeAll(BranchKinds(h.value.fn).value);
    c := if a.None? then None else Some(Call(h.value.number, h.value.fn, a.value));
  }
}
