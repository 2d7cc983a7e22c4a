/** The three places that talk over the two channels, as they run: the host's shim_rpc, the
    bridge's internal callback and the host's callback thread, over real byte streams. */
module Endpoints {
  import opened Bytes
  import opened Codec
  import opened RpcBuffer
  import opened Framing
  import opened Events
  import opened Slots
  import Host = CallbackTable
  import Protocol

  /** No real read or write error is to come on the stream. */
  predicate Sound(s: Stream)
    reads s
  {
    Broken !in s.turns
  }

  // ---------------------------------------------------------------------- shim_rpc

  datatype Answer = Answer(header: Response, extra: seq<byte>)

  /** The data of a response with this header and trailing bytes. */
  predicate Carries(data: seq<byte>, a: Answer) {
    data == ResponseHeader(a.header.number, a.header.retval, a.header.error) + a.extra
  }

  lemma OneAnswer(data: seq<byte>, a: Answer)
    requires Frame(data) && 10 <= |data|
    ensures Carries(data, a) <==>
      DecodeResponseHeader(data, 0).value == Some(a.header) && a.extra == data[10..]
  {
    var h := a.header;
    if Carries(data, a) {
      ResponseHeaderRoundTrip(h.number, h.retval, h.error, a.extra);
    }
    if DecodeResponseHeader(data, 0).value == Some(h) {
      HeaderWasEncoded(data);
      assert data == data[..10] + data[10..];
    }
  }

  lemma HeaderWasEncoded(data: seq<byte>)
    requires Frame(data) && 10 <= |data|
    ensures var h := DecodeResponseHeader(data, 0).value;
      h.Some? && data[..10] == ResponseHeader(h.value.number, h.value.retval, h.value.error)
  {
    NoSumWraps(data, 0, 10);
    Be32Inverse(data, 0);
    Be32Inverse(data, 4);
    Be16Inverse(data, 8);
    CastRoundTrip(0, BeAt(data, 4, 8));
    assert data[..10] == data[0..4] + data[4..8] + data[8..10];
  }

  /** What a call that leaves the connection up gives its caller: the answer in the first
      message on the stream, or nothing for a response too short to hold one. */
  predicate AnsweredBy(arrived: seq<byte>, left: seq<byte>, r: Option<Answer>) {
    match ParseMsg(arrived)
    case None => false
    case Some(p) =>
      && p.msg.kind == MSG_RPC_RESPONSE && left == p.rest
      && (if |p.msg.data| < 10 then r == None else r.Some? && Carries(p.msg.data, r.value))
  }

  class ShimConn {
    const toBridge: Stream
    const fromBridge: Stream
    var nextSeq: uint32
    var connected: bool

    constructor (toBridge: Stream, fromBridge: Stream)
      ensures this.toBridge == toBridge && this.fromBridge == fromBridge && nextSeq == 1 && connected
    {
      this.toBridge, this.fromBridge := toBridge, fromBridge;
      nextSeq, connected := 1, true;
    }

    /** What lies between taking rpc_lock and returning. A caller that finds the connection
        up has its request framed onto the stream under the next number, and gets the answer
        in the first message that comes back. The connection ends exactly by an error on a
        stream, the end of the stream, or a message that is no response. */
    method Rpc(fn: uint16, args: seq<byte>) returns (r: Option<Answer>)
      requires toBridge != fromBridge && 6 + |args| <= TOP
      modifies this, toBridge, fromBridge
      ensures !old(connected) ==>
        r == None && !connected && toBridge.bytes == old(toBridge.bytes) && fromBridge.bytes == old(fromBridge.bytes) && nextSeq == old(nextSeq)
      ensures old(connected) ==> nextSeq == Add32(old(nextSeq), 1)
      ensures old(connected) && (old(Sound(toBridge)) || connected) ==>
        toBridge.bytes == old(toBridge.bytes) + FrameBytes(Msg(MSG_RPC_REQUEST, RequestHeader(old(nextSeq), fn) + args))
      ensures old(connected) && connected ==> AnsweredBy(old(fromBridge.bytes), fromBridge.bytes, r)
      ensures old(connected) && !connected ==>
        r == None && (old(Sound(toBridge)) && old(Sound(fromBridge)) ==>
          ParseMsg(old(fromBridge.bytes)).None? || ParseMsg(old(fromBridge.bytes)).value.msg.kind != MSG_RPC_RESPONSE)
    {
      if !connected {
        return None;
      }
      var number := nextSeq;
      nextSeq := Add32(nextSeq, 1);
      var data := Request(number, fn, args);
      var ok := WriteMsg(toBridge, Msg(MSG_RPC_REQUEST, data));
      if !ok {
        connected := false;
        return None;
      }
      ghost var arriving := fromBridge.bytes;
      var m := ReadMsg(fromBridge);
      if m.None? || m.value.kind != MSG_RPC_RESPONSE {
        connected := false;
        return None;
      }
      ParsedWasFramed(arriving);
      NoSumWraps(m.value.data, 0, 10);
      var h := DecodeResponseHeader(m.value.data, 0);
      r := if h.value.None? then None else Some(Answer(h.value.value, m.value.data[h.pos..]));
      if |m.value.data| >= 10 {
        OneAnswer(m.value.data, r.value);
      }
    }

    /** A caller whose answer is next on the stream gets that answer, all three numbers and the
        bytes behind them, and what follows is left for the next call. */
    method Answered(fn: uint16, args: seq<byte>, ghost a: Answer, ghost rest: seq<byte>) returns (r: Option<Answer>)
      requires toBridge != fromBridge && 6 + |args| <= TOP && connected && Sound(toBridge) && Sound(fromBridge)
      requires 10 + |a.extra| < MAX_MSG_SIZE
      requires fromBridge.bytes == FrameBytes(Msg(2, ResponseHeader(a.header.number, a.header.retval, a.header.error) + a.extra)) + rest
      modifies this, toBridge, fromBridge
      ensures r == Some(Answer(Response(a.header.number, a.header.retval, a.header.error), a.extra))
      ensures connected && fromBridge.bytes == rest && nextSeq == Add32(old(nextSeq), 1)
      ensures toBridge.bytes == old(toBridge.bytes) + FrameBytes(Msg(1, RequestHeader(old(nextSeq), fn) + args))
    {
      ghost var m := Msg(MSG_RPC_RESPONSE, ResponseHeader(a.header.number, a.header.retval, a.header.error) + a.extra);
      FrameParsesIff(m, rest);
      r := Rpc(fn, args);
      OneAnswer(m.data, a);
      OneAnswer(m.data, r.value);
    }

    /** Any other message gives no answer, and the connection stays up only over a response
        that is too short. */
    method Unanswered(fn: uint16, args: seq<byte>, ghost m: Msg, ghost rest: seq<byte>) returns (r: Option<Answer>)
      requires toBridge != fromBridge && 6 + |args| <= TOP && connected && Sound(toBridge) && Sound(fromBridge)
      requires Fits(m) && (m.kind != 2 || |m.data| < 10) && fromBridge.bytes == FrameBytes(m) + rest
      modifies this, toBridge, fromBridge
      ensures r == None && (connected <==> m.kind == 2)
      ensures connected ==> fromBridge.bytes == rest
    {
      FrameParsesIff(m, rest);
      r := Rpc(fn, args);
    }

    method Request(number: uint32, fn: uint16, args: seq<byte>) returns (data: seq<byte>)
      requires 6 + |args| <= TOP
      ensures data == RequestHeader(number, fn) + args
    {
      var req := new Buffer();
      req.EncodeRaw(RequestHeader(number, fn));
      if |args| > 0 {
        req.EncodeRaw(args);
      }
      data := req.data[..req.len];
    }
  }

  // ------------------------------------------------------- bridge_internal_callback

  /** The event an engine callback amounts to: samples come from the output buffer the handle
      was given, if it has one. */
  function EventOf(s: Slot, msg: int32, lparam: int32, samples: seq<byte>): Event
    requires lparam > 0 ==> 2 * lparam <= |samples|
  {
    Event(s.id, msg, lparam, if msg == WAVEFORM_BUFFER && s.buffer.Some? && lparam > 0 then samples[..2 * lparam] else [])
  }

  /** The engine's callback: send the event, wait for the answer, return what it says. An
      error on a stream counts as "data processed". */
  method InternalCallback(s: Option<Slot>, msg: int32, lparam: int32, samples: seq<byte>, toHost: Stream, fromHost: Stream)
    returns (ret: int32)
    requires toHost != fromHost && (lparam > 0 ==> 2 * lparam <= |samples|) && |samples| <= TOP - 16
    modifies toHost, fromHost
    ensures s.None? || !s.value.hasCallback || s.value.cbFd < 0 ==>
      ret == DATA_PROCESSED && toHost.bytes == old(toHost.bytes) && fromHost.bytes == old(fromHost.bytes)
    ensures s.Some? && s.value.hasCallback && s.value.cbFd >= 0 && (old(Sound(toHost)) || ret != DATA_PROCESSED) ==>
      var data := if msg == WAVEFORM_BUFFER && s.value.buffer.Some? && lparam > 0 then samples[..2 * lparam] else [];
      toHost.bytes == old(toHost.bytes) + FrameBytes(EventMsg(Event(s.value.id, msg, lparam, data)))
    ensures s.Some? && s.value.hasCallback && s.value.cbFd >= 0 && old(Sound(toHost)) && old(Sound(fromHost)) ==>
      match ParseMsg(old(fromHost.bytes))
      case None => ret == DATA_PROCESSED
      case Some(p) => fromHost.bytes == p.rest && ret == ReadReturn(p.msg)
    ensures ret != DATA_PROCESSED ==>
      ParseMsg(old(fromHost.bytes)).Some? && ret == ReadReturn(ParseMsg(old(fromHost.bytes)).value.msg)
  {
    if s.None? || !s.value.hasCallback || s.value.cbFd < 0 {
      return DATA_PROCESSED;
    }
    var e := EventOf(s.value, msg, lparam, samples);
    var b := BuildEvent(e);
    var ok := WriteMsg(toHost, Msg(MSG_CALLBACK_EVENT, b.data[..b.len]));
    if !ok {
      return DATA_PROCESSED;
    }
    var m := ReadMsg(fromHost);
    ret := if m.None? then DATA_PROCESSED else ReadReturn(m.value);
  }

  /** What the engine's callback puts on the stream reads as the event it was about: its
      handle, kind and parameter, and of a block of samples all of it, but nothing else; and what
      comes back to the engine is the number `answer` that awaits it, whatever handle is named. */
  method Announce(s: Slot, msg: int32, lparam: int32, samples: seq<byte>, toHost: Stream, fromHost: Stream,
                  ghost answer: int32, ghost handle: uint32, ghost rest: seq<byte>) returns (ret: int32)
    requires toHost != fromHost && (lparam > 0 ==> 2 * lparam <= |samples|) && |samples| <= TOP - 16
    requires s.hasCallback && s.cbFd >= 0 && Sound(toHost) && toHost.bytes == []
    requires Sound(fromHost) && fromHost.bytes == FrameBytes(ReturnMsg(handle, answer)) + rest
    modifies toHost, fromHost
    ensures ret == answer && fromHost.bytes == rest
    ensures msg == 0 && s.buffer.Some? && 0 < lparam && 17 + 2 * lparam <= MAX_MSG_SIZE ==>
      && ParseMsg(toHost.bytes).Some? && ParseMsg(toHost.bytes).value.rest == []
      && ReadEvent(ParseMsg(toHost.bytes).value.msg) == Some(Arrival(s.id, msg, lparam, 2 * lparam, samples[..2 * lparam]))
    ensures msg != 0 || s.buffer.None? || lparam <= 0 ==>
      && ParseMsg(toHost.bytes).Some? && ParseMsg(toHost.bytes).value.rest == []
      && ReadEvent(ParseMsg(toHost.bytes).value.msg) == Some(Arrival(s.id, msg, lparam, 0, []))
  {
    ghost var e := EventOf(s, msg, lparam, samples);
    EventRoundTrip(e);
    FrameParsesIff(EventMsg(e), []);
    assert FrameBytes(EventMsg(e)) + [] == [] + FrameBytes(EventMsg(e)) == FrameBytes(EventMsg(e));
    FrameParsesIff(ReturnMsg(handle, answer), rest);
    ReturnRoundTrip(handle, answer);
    ret := InternalCallback(Some(s), msg, lparam, samples, toHost, fromHost);
  }

  // ---------------------------------------------------------------- callback_thread

  class CallbackThread {
    const table: Host.Callbacks
    // the application's buffers
    var mem: map<nat, seq<byte>>

    constructor (table: Host.Callbacks, mem: map<nat, seq<byte>>)
      ensures this.table == table && this.mem == mem
    {
      this.table, this.mem := table, mem;
    }

    /** One round of the loop; `result` is what the application's function returns, if it is
        called. Messages that are no events are passed over. */
    method Serve(fromBridge: Stream, toBridge: Stream, result: int32) returns (going: bool)
      requires table.Valid() && fromBridge != toBridge
      modifies this`mem, fromBridge, toBridge
      ensures Spent(old(fromBridge.turns), fromBridge.turns) && Spent(old(toBridge.turns), toBridge.turns)
      ensures old(Sound(fromBridge)) && old(Sound(toBridge)) ==>
        match ParseMsg(old(fromBridge.bytes))
        case None => !going && mem == old(mem) && toBridge.bytes == old(toBridge.bytes)
        case Some(p) =>
          && going && fromBridge.bytes == p.rest
          && match ReadEvent(p.msg)
             case None => mem == old(mem) && toBridge.bytes == old(toBridge.bytes)
             case Some(a) =>
               var r := Host.Lookup(table.entries[..], a.handle);
               && mem == (if r.Some? then Protocol.Copied(old(mem), a, r.value) else old(mem))
               && var ret := if r.Some? && r.value.callback.Some? then result else DATA_PROCESSED;
                  toBridge.bytes == old(toBridge.bytes) + FrameBytes(ReturnMsg(a.handle, ret))
    {
      var m := ReadMsg(fromBridge);
      if m.None? {
        return false;
      }
      var a := ReadEvent(m.value);
      if a.None? {
        return true;
      }
      var r := table.Find(a.value.handle);
      if r.Some? {
        mem := Protocol.Copied(mem, a.value, r.value);
      }
      var ret := DATA_PROCESSED;
      if r.Some? && r.value.callback.Some? {
        ret := result;
      }
      var ok := WriteMsg(toBridge, ReturnMsg(a.value.handle, ret));
      going := true;
    }
  }

  lemma BlockLies(mem: map<nat, seq<byte>>, a: Arrival, r: Host.Registration, lparam: int32)
    requires a.msg == WAVEFORM_BUFFER && 0 < lparam && a.length == 2 * lparam == |a.rest|
    requires r.buffer.Some? && lparam <= r.size && r.buffer.value in mem && 2 * r.size <= |mem[r.buffer.value]|
    ensures Protocol.Copied(mem, a, r) == mem[r.buffer.value := a.rest + mem[r.buffer.value][2 * lparam..]]
  {
    Protocol.CopiedIs(mem, a, r);
    assert (2 * r.size) % TWO32 == 2 * r.size;
    assert a.rest[..2 * lparam] == a.rest;
  }

  /** The three fit together: a block the bridge writes and the callback thread serves lies in
      the application's buffer, and the engine gets the callback's own result, over any streams.
      Where the buffer is as large as its size on record says and that is enough for the block,
      the block lies there whole, with all else as it was. */
  method RoundTrip(s: Slot, lparam: int32, samples: seq<byte>, host: CallbackThread, up: Stream, down: Stream, result: int32)
    returns (ret: int32)
    requires host.table.Valid() && up != down && up.bytes == [] && down.bytes == [] && Sound(up) && Sound(down)
    requires 0 < lparam && 2 * lparam <= |samples| && 17 + 2 * lparam <= MAX_MSG_SIZE && s.buffer.Some?
    requires var r := Host.Lookup(host.table.entries[..], s.id); r.Some? && r.value.callback.Some?
    modifies host`mem, up, down
    ensures ret == result && up.bytes == [] && down.bytes == []
    ensures var r := Host.Lookup(host.table.entries[..], s.id).value;
      host.mem == Protocol.Copied(old(host.mem), Arrival(s.id, 0, lparam, 2 * lparam, samples[..2 * lparam]), r)
    ensures var r := Host.Lookup(host.table.entries[..], s.id).value;
      r.buffer.Some? && lparam <= r.size && r.buffer.value in old(host.mem) && 2 * r.size <= |old(host.mem)[r.buffer.value]| ==>
        var was := old(host.mem)[r.buffer.value];
        host.mem == old(host.mem)[r.buffer.value := samples[..2 * lparam] + was[2 * lparam..]]
  {
    var e := EventOf(s, WAVEFORM_BUFFER, lparam, samples);
    ghost var r := Host.Lookup(host.table.entries[..], s.id).value;
    if r.buffer.Some? && lparam <= r.size && r.buffer.value in host.mem && 2 * r.size <= |host.mem[r.buffer.value]| {
      BlockLies(host.mem, Seen(e), r, lparam);
    }
    ret := ThereAndBack(host, e, down, up, result);
  }

  /** One event sent, served and answered. */
  method ThereAndBack(host: CallbackThread, e: Event, down: Stream, up: Stream, result: int32) returns (ret: int32)
    requires host.table.Valid() && up != down && up.bytes == [] && down.bytes == [] && Sound(up) && Sound(down) && EventFits(e)
    requires var r := Host.Lookup(host.table.entries[..], e.handle); r.Some? && r.value.callback.Some?
    modifies host`mem, up, down
    ensures ret == result && up.bytes == [] && down.bytes == []
    ensures host.mem == Protocol.Copied(old(host.mem), Seen(e), Host.Lookup(host.table.entries[..], e.handle).value)
  {
    var ok := WriteMsg(down, EventMsg(e));
    ServeOne(host, e, down, up, result);
    FramedAlone(ReturnMsg(e.handle, result));
    ReturnRoundTrip(e.handle, result);
    var m := ReadMsg(up);
    ret := ReadReturn(m.value);
  }

  lemma FramedAlone(m: Msg)
    requires Fits(m)
    ensures [] + FrameBytes(m) == FrameBytes(m) && ParseMsg(FrameBytes(m)) == Some(Parsed(m, []))
  {
    FrameParsesIff(m, []);
    assert FrameBytes(m) + [] == FrameBytes(m);
  }

  /** The callback thread's round for the one event there is. */
  method ServeOne(host: CallbackThread, e: Event, down: Stream, up: Stream, result: int32)
    requires host.table.Valid() && down != up && Sound(down) && Sound(up) && up.bytes == []
    requires EventFits(e) && down.bytes == [] + FrameBytes(EventMsg(e))
    requires var r := Host.Lookup(host.table.entries[..], e.handle); r.Some? && r.value.callback.Some?
    modifies host`mem, down, up
    ensures down.bytes == [] && up.bytes == [] + FrameBytes(ReturnMsg(e.handle, result)) && Broken !in up.turns
    ensures host.mem == Protocol.Copied(old(host.mem), Seen(e), Host.Lookup(host.table.entries[..], e.handle).value)
  {
    FramedAlone(EventMsg(e));
    EventRoundTrip(e);
    var going := host.Serve(down, up, result);
  }

  // ------------------------------------------------ the machine's steps and these methods

  lemma RunOn(s: Protocol.Sys, step: Protocol.Step, more: seq<Protocol.Step>)
    requires Protocol.Next(s, step).Some?
    ensures Protocol.Run(s, [step] + more) == Protocol.Run(Protocol.Next(s, step).value, more)
  {
    assert ([step] + more)[1..] == more;
  }

  /** The callback thread of the connection machine goes through one event to the same memory and
      the same answer as `Serve`. */
  lemma MachineServesAlike(s: Protocol.Sys, e: Event, result: int32)
    requires s.connected && s.cb.Listening? && s.cbLock == None && EventFits(e) && s.events == [EventMsg(e)]
    ensures var r := Host.Lookup(s.table, e.handle);
      var called := r.Some? && r.value.callback.Some?;
      var t := Protocol.Run(s, [Protocol.Hear] + ([Protocol.Enter] + ([Protocol.Deliver]
                            + ((if called then [Protocol.CallbackReturns(result)] else []) + [Protocol.Reply]))));
      && t.Some? && t.value.cb.Listening? && t.value.cbLock == None && t.value.events == []
      && t.value.mem == (if r.Some? then Protocol.Copied(s.mem, Seen(e), r.value) else s.mem)
      && t.value.replies == s.replies + [ReturnMsg(e.handle, if called then result else DATA_PROCESSED)]
  {
    var r := Host.Lookup(s.table, e.handle);
    var last := (if r.Some? && r.value.callback.Some? then [Protocol.CallbackReturns(result)] else []) + [Protocol.Reply];
    var b := MachineEnters(s, e, [Protocol.Deliver] + last);
    RunOn(b, Protocol.Deliver, last);
    MachineReplies(Protocol.Next(b, Protocol.Deliver).value, result, last);
  }

  lemma MachineEnters(s: Protocol.Sys, e: Event, more: seq<Protocol.Step>) returns (b: Protocol.Sys)
    requires s.connected && s.cb.Listening? && s.cbLock == None && EventFits(e) && s.events == [EventMsg(e)]
    ensures Protocol.Run(s, [Protocol.Hear] + ([Protocol.Enter] + more)) == Protocol.Run(b, more)
    ensures b == s.(events := [], cb := Protocol.Entered(Seen(e)), cbLock := Some(Protocol.CbHolder))
  {
    EventRoundTrip(e);
    assert s.events[1..] == [];
    var a := Protocol.Next(s, Protocol.Hear).value;
    b := Protocol.Next(a, Protocol.Enter).value;
    RunOn(s, Protocol.Hear, [Protocol.Enter] + more);
    RunOn(a, Protocol.Enter, more);
  }

  lemma MachineReplies(s: Protocol.Sys, result: int32, last: seq<Protocol.Step>)
    requires s.connected && (s.cb.Calling? || s.cb.Replying?)
    requires last == (if s.cb.Calling? then [Protocol.CallbackReturns(result)] else []) + [Protocol.Reply]
    ensures var t := Protocol.Run(s, last);
      && t.Some? && t.value.cb.Listening? && t.value.events == s.events && t.value.mem == s.mem
      && t.value.cbLock == (if s.cb.Calling? then None else s.cbLock)
      && t.value.replies == s.replies + [ReturnMsg(s.cb.a.handle, if s.cb.Calling? then result else s.cb.ret)]
  {
    if s.cb.Calling? {
      RunOn(s, Protocol.CallbackReturns(result), [Protocol.Reply]);
      var t := Protocol.Next(s, Protocol.CallbackReturns(result)).value;
      assert [Protocol.Reply] + [] == [Protocol.Reply];
      RunOn(t, Protocol.Reply, []);
    } else {
      assert last == [Protocol.Reply] + [];
      RunOn(s, Protocol.Reply, []);
    }
  }

  /** And a thread of the machine puts on the wire what `Rpc` does, under the same number. */
  lemma MachineSendsAlike(s: Protocol.Sys, i: nat)
    requires Protocol.Next(s, Protocol.Send(i)).Some?
    ensures var t := Protocol.Next(s, Protocol.Send(i)).value;
      var w := Protocol.OnWire(s.nextSeq, s.apps[i].calls[0]);
      && t.toBridge == s.toBridge + [Msg(1, RequestHeader(s.nextSeq, w.fn) + EncodeArgs(w.args))]
      && t.nextSeq == Add32(s.nextSeq, 1)
  {
  }
}
