/** One connection as a machine over its steps: application threads, the bridge's client
    thread with the engine behind it, and the host's callback thread, with two locks and
    four message queues between them. Each step is one action a thread takes on its own. */
module Protocol {
  import opened Bytes
  import opened Codec
  import opened Framing
  import opened Events
  import opened Slots
  import Wire = Signatures
  import Host = CallbackTable
  import Bridge = ClientState
  import HM = HandleMap

  // ----------------------------------------------------------------------- the calls

  const FN_SET_OUTPUT_BUFFER: uint16 := 0x0300
  const FN_REGISTER_CALLBACK: uint16 := 0x0304

  /** A call an application thread makes. The first two leave a note on the host's own table
      before they go to the bridge. `events` bounds the engine's callbacks during the call. */
  datatype Call =
    | SetOutputBuffer(handle: uint32, size: int32, buffer: Option<nat>, events: nat)
    | RegisterCallback(handle: uint32, callback: Option<nat>, userData: nat, events: nat)
    | Plain(fn: uint16, args: seq<Arg>, events: nat)

  predicate Noted(c: Call) {
    !c.Plain?
  }

  function Note(c: Call): Host.Change
    requires Noted(c)
  {
    if c.SetOutputBuffer? then Host.SetBuffer(c.buffer, c.size) else Host.SetCallback(c.callback, c.userData)
  }

  function OnWire(number: uint32, c: Call): Wire.Call {
    match c
    case SetOutputBuffer(h, n, _, _) => Wire.Call(number, FN_SET_OUTPUT_BUFFER, [Handle(h), Int32(n)])
    case RegisterCallback(h, _, _, _) => Wire.Call(number, FN_REGISTER_CALLBACK, [Handle(h)])
    case Plain(fn, args, _) => Wire.Call(number, fn, args)
  }

  /** A call one of the wrappers makes, with arguments of its kinds. */
  predicate Typed(c: Call) {
    Wire.WellTyped(OnWire(0, c)) && (c.Plain? ==> c.fn != FN_SET_OUTPUT_BUFFER && c.fn != FN_REGISTER_CALLBACK)
  }

  /** Its request passes the bridge's framing layer. */
  predicate Sendable(c: Call) {
    Typed(c) && 6 + |EncodeArgs(OnWire(0, c).args)| < MAX_MSG_SIZE
  }

  function RequestMsg(number: uint32, c: Call): (m: Msg)
    requires Typed(c)
    ensures Fits(m) <==> Sendable(c)
  {
    var w := OnWire(number, c);
    Msg(MSG_RPC_REQUEST, Wire.RequestBytes(number, w.fn, w.args))
  }

  function ResponseMsg(r: Response, extra: seq<byte>): Msg {
    Msg(MSG_RPC_RESPONSE, ResponseHeader(r.number, r.retval, r.error) + extra)
  }

  // ----------------------------------------------------------------------- the state

  /** Changing: inside the host's callback lock. Wanting: noted, and about to take the RPC
      lock. Locked: has it. Waiting: has sent. Holding: has read an answer. */
  datatype AppPc = Ready | Changing | Wanting | Locked | Waiting(number: uint32) | Holding(number: uint32, answer: Msg)

  /** The calls still to make, the current one first. */
  datatype App = App(pc: AppPc, calls: seq<Call>)

  /** Working: inside dispatch_rpc, the engine free to act. Awaiting: in the middle of an
      engine callback, blocked on the application's answer. Gone: the thread has left. */
  datatype BridgePc =
    | Idle
    | Working(number: uint32, request: Bridge.Request, left: nat)
    | Awaiting(number: uint32, request: Bridge.Request, left: nat)
    | Gone

  /** Entered and Calling are inside the host's callback lock, Calling inside the
      application's own function. Departed: the thread has left its loop for good. */
  datatype CbPc =
    | Listening
    | Arrived(a: Arrival)
    | Entered(a: Arrival)
    | Calling(a: Arrival, heard: seq<byte>)
    | Replying(a: Arrival, ret: int32)
    | Departed

  datatype Holder = AppHolder(i: nat) | CbHolder

  /** An event as the host dealt with it: what the callback, if there was one, found in its
      buffer, and what went back. */
  datatype Handled = Handled(handle: uint32, msg: int32, lparam: int32, heard: Option<seq<byte>>, ret: int32)

  /** An answer as a thread got it, beside the number that thread had sent. */
  datatype Completed = Completed(number: uint32, response: Response)

  /** A call as a thread put it on the wire. */
  datatype Sent = Sent(thread: nat, call: Call)

  /** What has happened so far; no step depends on it. */
  datatype History = History(
    calls: seq<Sent>, requests: seq<Bridge.Request>,
    sent: seq<Event>, handled: seq<Handled>, got: seq<int32>,
    answers: seq<Response>, trailing: seq<nat>, completed: seq<Completed>)

  datatype Sys = Sys(
    apps: seq<App>,
    rpcLock: Option<nat>,
    cbLock: Option<Holder>,
    nextSeq: uint32,
    connected: bool,
    toBridge: seq<Msg>,
    toShim: seq<Msg>,
    events: seq<Msg>,
    replies: seq<Msg>,
    bridge: BridgePc,
    cb: CbPc,
    engines: map<uint32, Engine>,
    nextId: uint32,
    table: seq<Host.Entry>,
    mem: map<nat, seq<byte>>,
    hist: History)

  const START := History([], [], [], [], [], [], [], [])

  /** A new connection; the host's table and memory may hold anything. */
  function Init(programs: seq<seq<Call>>, table: seq<Host.Entry>, mem: map<nat, seq<byte>>): Sys {
    Sys(seq(|programs|, i requires 0 <= i < |programs| => App(Ready, programs[i])), None, None, 1, true,
        [], [], [], [], Idle, Listening, map[], 1, table, mem, START)
  }

  // -------------------------------------------------------------- the steps, one by one

  /** The choices left open, to the scheduler, the engine and the application's callbacks,
      are the step's parameters. */
  datatype Step =
    | TakeCbLock(i: nat)
    | MakeNote(i: nat)
    | TakeRpcLock(i: nat)
    | Send(i: nat)
    | Receive(i: nat)
    | Return(i: nat)
    | FindGone(i: nat)
    | Read(made: HM.Ptr)
    | Raise(e: Event)
    | Finish(retval: int32, error: uint16, extra: seq<byte>)
    | Resume
    | Hear
    | Enter
    | Deliver
    | CallbackReturns(ret: int32)
    | Reply

  predicate At(s: Sys, i: nat, pc: AppPc) {
    i < |s.apps| && s.apps[i].pc == pc && s.apps[i].calls != []
  }

  function Move(s: Sys, i: nat, pc: AppPc): Sys
    requires i < |s.apps|
  {
    s.(apps := s.apps[i := s.apps[i].(pc := pc)])
  }

  function DoTakeCbLock(s: Sys, i: nat): Option<Sys> {
    if At(s, i, Ready) && Noted(s.apps[i].calls[0]) && s.cbLock == None
    then Some(Move(s, i, Changing).(cbLock := Some(AppHolder(i)))) else None
  }

  function DoMakeNote(s: Sys, i: nat): Option<Sys> {
    if At(s, i, Changing) && Noted(s.apps[i].calls[0]) then
      var c := s.apps[i].calls[0];
      Some(Move(s, i, Wanting).(cbLock := None, table := Host.Upsert(s.table, c.handle, Note(c))))
    else None
  }

  /** What a thread leaves on the host's record is what its call was made with. */
  lemma NoteOnRecord(s: Sys, i: nat)
    requires DoMakeNote(s, i).Some? && Host.Inv(s.table)
    requires Host.Holds(s.table, s.apps[i].calls[0].handle) || Host.Room(s.table)
    ensures var t, c := DoMakeNote(s, i).value, s.apps[i].calls[0];
      && t.cbLock == None && Host.Lookup(t.table, c.handle).Some?
      && var r := Host.Lookup(t.table, c.handle).value;
         && (c.SetOutputBuffer? ==> r.buffer == c.buffer && r.size == c.size)
         && (c.RegisterCallback? ==> r.callback == c.callback && r.userData == c.userData)
  {
    var c := s.apps[i].calls[0];
    Host.UpsertRefines(s.table, c.handle, Note(c), c.handle);
  }

  function DoTakeRpcLock(s: Sys, i: nat): Option<Sys> {
    if s.rpcLock == None && (At(s, i, Wanting) || (At(s, i, Ready) && !Noted(s.apps[i].calls[0])))
    then Some(Move(s, i, Locked).(rpcLock := Some(i))) else None
  }

  function DoSend(s: Sys, i: nat): Option<Sys> {
    if At(s, i, Locked) && Typed(s.apps[i].calls[0]) then
      Some(Move(s, i, Waiting(s.nextSeq)).(
        toBridge := s.toBridge + [RequestMsg(s.nextSeq, s.apps[i].calls[0])],
        nextSeq := Add32(s.nextSeq, 1), hist := s.hist.(calls := s.hist.calls + [Sent(i, s.apps[i].calls[0])])))
    else None
  }

  /** The connection is given up; the thread's call has got no answer. */
  function GiveUp(s: Sys, i: nat): Sys
    requires i < |s.apps|
  {
    Move(s, i, Ready).(connected := false, rpcLock := None)
  }

  /** A message that does not fit, or is no response, takes the connection down. */
  function DoReceive(s: Sys, i: nat): Option<Sys> {
    if i < |s.apps| && s.apps[i].pc.Waiting? && s.apps[i].calls != [] && s.toShim != [] then
      var m, rest := s.toShim[0], s.toShim[1..];
      if m.kind != MSG_RPC_RESPONSE || !Fits(m) then Some(GiveUp(s, i).(toShim := rest))
      else Some(Move(s, i, Holding(s.apps[i].pc.number, m)).(toShim := rest))
    else None
  }

  /** So does the end of the stream, when the bridge's thread has left. */
  function DoFindGone(s: Sys, i: nat): Option<Sys> {
    if i < |s.apps| && s.apps[i].pc.Waiting? && s.apps[i].calls != [] && s.toShim == [] && s.bridge.Gone?
    then Some(GiveUp(s, i)) else None
  }

  /** Unlock and only then take the answer apart; its number is not compared. */
  function DoReturn(s: Sys, i: nat): Option<Sys> {
    if i < |s.apps| && s.apps[i].pc.Holding? && s.apps[i].calls != [] && Fits(s.apps[i].pc.answer) then
      var r := DecodeResponseHeader(s.apps[i].pc.answer.data, 0).value;
      var done := if r.None? then s.hist.completed else s.hist.completed + [Completed(s.apps[i].pc.number, r.value)];
      Some(s.(apps := s.apps[i := App(Ready, s.apps[i].calls[1..])], rpcLock := None, hist := s.hist.(completed := done)))
    else None
  }

  /** The table operation a call amounts to; `made` is what eciNew or eciNewEx returns. */
  function TableRequest(c: Wire.Call, made: HM.Ptr): Bridge.Request {
    if c.fn == 0x0001 || c.fn == 0x0002 then Bridge.New(made)
    else if c.fn == 0x0003 && |c.args| == 1 && c.args[0].Handle? then Bridge.Delete(c.args[0].h)
    else if c.fn == FN_SET_OUTPUT_BUFFER && |c.args| == 2 && c.args[0].Handle? && c.args[1].Int32? then
      Bridge.SetOutputBuffer(c.args[0].h, c.args[1].i)
    else if c.fn == FN_REGISTER_CALLBACK && |c.args| == 1 && c.args[0].Handle? then Bridge.RegisterCallback(c.args[0].h)
    else Bridge.Other
  }

  /** A request none of whose branches fits changes nothing. */
  function AsRequest(m: Msg, made: HM.Ptr): Bridge.Request
    requires Fits(m)
  {
    var c := Wire.ReadRequest(m.data).value;
    if c.None? then Bridge.Other else TableRequest(c.value, made)
  }

  /** How often the engine may call back during the call now served. */
  function Budget(s: Sys): nat {
    if s.rpcLock.Some? && s.rpcLock.value < |s.apps| && s.apps[s.rpcLock.value].calls != []
    then s.apps[s.rpcLock.value].calls[0].events else 0
  }

  /** All table changes but a deletion come before the engine gets to act. */
  function Before(s: Sys, r: Bridge.Request): (map<uint32, Engine>, uint32) {
    if r.Delete? then (s.engines, s.nextId)
    else (Bridge.Effect(s.engines, s.nextId, r).0, if Numbered(s, r) then Add32(s.nextId, 1) else s.nextId)
  }

  predicate Numbered(s: Sys, r: Bridge.Request) {
    r.New? && !Bridge.Effect(s.engines, s.nextId, r).1.error
  }

  function DoRead(s: Sys, made: HM.Ptr): Option<Sys> {
    if s.bridge.Idle? && s.toBridge != [] then
      var m, rest := s.toBridge[0], s.toBridge[1..];
      if !Fits(m) then Some(s.(toBridge := rest, bridge := Gone))
      else if m.kind != MSG_RPC_REQUEST then Some(s.(toBridge := rest))
      else if DecodeRequestHeader(m.data, 0).value.None? then Some(s.(toBridge := rest, bridge := Gone))
      else
        var r := AsRequest(m, made);
        if Numbered(s, r) && s.nextId == 0 then None
        else
          var (engines, nextId) := Before(s, r);
          Some(s.(toBridge := rest, engines := engines, nextId := nextId,
                  bridge := Working(DecodeRequestHeader(m.data, 0).value.value.number, r, Budget(s)),
                  hist := s.hist.(requests := s.hist.requests + [r])))
    else None
  }

  /** What the engine may raise: samples only from an output buffer it was given, and no more
      than that holds. */
  predicate MayRaise(s: Sys, e: Event): (may: bool)
    ensures may ==> |e.data| < TWO32
  {
    if e.msg == WAVEFORM_BUFFER && e.lparam > 0 then
         && e.handle in s.engines && s.engines[e.handle].buffer.Some?
         && |e.data| == 2 * e.lparam && e.lparam <= s.engines[e.handle].buffer.value
       else e.data == []
  }

  /** An engine callback is sent on only for a handle with a registered callback. */
  function DoRaise(s: Sys, e: Event): Option<Sys> {
    if s.bridge.Working? && s.bridge.left > 0 && MayRaise(s, e) then
      var b := s.bridge;
      if e.handle in s.engines && s.engines[e.handle].hasCallback then
        Some(s.(bridge := Awaiting(b.number, b.request, b.left - 1), events := s.events + [EventMsg(e)],
                hist := s.hist.(sent := s.hist.sent + [e])))
      else Some(s.(bridge := Working(b.number, b.request, b.left - 1)))
    else None
  }

  function DoFinish(s: Sys, retval: int32, error: uint16, extra: seq<byte>): Option<Sys> {
    if s.bridge.Working? then
      var r := Response(s.bridge.number, retval, error);
      Some(s.(bridge := Idle, toShim := s.toShim + [ResponseMsg(r, extra)],
              engines := if s.bridge.request.Delete? then s.engines - {s.bridge.request.id} else s.engines,
              hist := s.hist.(answers := s.hist.answers + [r], trailing := s.hist.trailing + [|extra|])))
    else None
  }

  function DoResume(s: Sys): Option<Sys> {
    if s.bridge.Awaiting? && s.replies != [] then
      Some(s.(bridge := Working(s.bridge.number, s.bridge.request, s.bridge.left), replies := s.replies[1..],
              hist := s.hist.(got := s.hist.got + [ReadReturn(s.replies[0])])))
    else None
  }

  /** A message the framing layer refuses is the last the callback thread reads. */
  function DoHear(s: Sys): Option<Sys> {
    if s.cb.Listening? && s.events != [] then
      var a := ReadEvent(s.events[0]);
      if !Fits(s.events[0]) then Some(s.(events := s.events[1..], cb := Departed))
      else Some(s.(events := s.events[1..], cb := if a.None? then Listening else Arrived(a.value)))
    else None
  }

  function DoEnter(s: Sys): Option<Sys> {
    if s.cb.Arrived? && s.cbLock == None then Some(s.(cb := Entered(s.cb.a), cbLock := Some(CbHolder))) else None
  }

  /** How many bytes of the samples go into a buffer of that many samples. */
  function CopyLength(a: Arrival, size: int32): nat {
    var room := AsUnsigned32(size * 2);
    if a.length > room then room else a.length
  }

  function AsUnsigned32(n: int): uint32 {
    n % TWO32
  }

  function Overlay(was: seq<byte>, top: seq<byte>): (r: seq<byte>)
    ensures |r| == |was|
  {
    if |top| <= |was| then top + was[|top|..] else top[..|was|]
  }

  /** What the code compares before it copies: the sum is taken modulo 2^32, and 16 bytes come
      before the samples. */
  predicate CopyChecked(a: Arrival, size: int32) {
    Add32(16, CopyLength(a, size)) <= 16 + |a.rest|
  }

  /** The check says what it should, but for lengths within 16 of 2^32. */
  lemma CopyCheckIff(a: Arrival, size: int32)
    requires |a.rest| < MAX_MSG_SIZE
    ensures CopyChecked(a, size) <==> (CopyLength(a, size) <= |a.rest| || TWO32 - 16 <= CopyLength(a, size))
    ensures a.length == |a.rest| ==> CopyLength(a, size) <= |a.rest| && CopyChecked(a, size)
  {
    var n := CopyLength(a, size);
    assert n < TWO32;
    assert Add32(16, n) == if 16 + n < TWO32 then 16 + n else 16 + n - TWO32;
  }

  /** The application's memory after the samples were copied in. */
  function Copied(mem: map<nat, seq<byte>>, a: Arrival, r: Host.Registration): map<nat, seq<byte>> {
    if a.msg == WAVEFORM_BUFFER && r.buffer.Some? && r.buffer.value in mem && a.length > 0
       && CopyLength(a, r.size) <= |a.rest|
    then mem[r.buffer.value := Overlay(mem[r.buffer.value], a.rest[..CopyLength(a, r.size)])]
    else mem
  }

  /** Byte by byte: of a block of samples, as much as the size on record says, goes to the front
      of the handle's buffer; nothing else is written, and nothing for other events. */
  lemma CopiedIs(mem: map<nat, seq<byte>>, a: Arrival, r: Host.Registration)
    ensures var room := (2 * r.size) % TWO32;
      var n := if a.length < room then a.length else room;
      if a.msg == 0 && r.buffer.Some? && r.buffer.value in mem && 0 < a.length && n <= |a.rest| then
        var was := mem[r.buffer.value];
        Copied(mem, a, r) == mem[r.buffer.value := if n <= |was| then a.rest[..n] + was[n..] else a.rest[..|was|]]
      else Copied(mem, a, r) == mem
  {
    var room := (2 * r.size) % TWO32;
    var n := if a.length < room then a.length else room;
    assert CopyLength(a, r.size) == n;
    if n <= |a.rest| && r.buffer.Some? && r.buffer.value in mem {
      var was := mem[r.buffer.value];
      assert n > |was| ==> a.rest[..n][..|was|] == a.rest[..|was|];
    }
  }

  /** The samples a waveform callback is told of, as it finds them in its buffer. */
  function Found(mem: map<nat, seq<byte>>, a: Arrival, r: Host.Registration): seq<byte> {
    if a.msg == WAVEFORM_BUFFER && a.lparam > 0 && r.buffer.Some? && r.buffer.value in mem then
      var b := mem[r.buffer.value];
      if 2 * a.lparam <= |b| then b[..2 * a.lparam] else b
    else []
  }

  function Leave(s: Sys, a: Arrival, heard: Option<seq<byte>>, ret: int32): Sys {
    s.(cb := Replying(a, ret), cbLock := None,
       hist := s.hist.(handled := s.hist.handled + [Handled(a.handle, a.msg, a.lparam, heard, ret)]))
  }

  function DoDeliver(s: Sys): Option<Sys> {
    if s.cb.Entered? then
      var a := s.cb.a;
      var r := Host.Lookup(s.table, a.handle);
      if r.None? then Some(Leave(s, a, None, DATA_PROCESSED))
      else
        var mem := Copied(s.mem, a, r.value);
        if r.value.callback.None? then Some(Leave(s.(mem := mem), a, None, DATA_PROCESSED))
        else Some(s.(mem := mem, cb := Calling(a, Found(mem, a, r.value))))
    else None
  }

  function DoCallbackReturns(s: Sys, ret: int32): Option<Sys> {
    if s.cb.Calling? then Some(Leave(s, s.cb.a, Some(s.cb.heard), ret)) else None
  }

  function DoReply(s: Sys): Option<Sys> {
    if s.cb.Replying? then Some(s.(cb := Listening, replies := s.replies + [ReturnMsg(s.cb.a.handle, s.cb.ret)]))
    else None
  }

  /** The state after a step, none when that thread cannot take it now. */
  function Next(s: Sys, step: Step): Option<Sys> {
    if !s.connected then None
    else match step
      case TakeCbLock(i) => DoTakeCbLock(s, i)
      case MakeNote(i) => DoMakeNote(s, i)
      case TakeRpcLock(i) => DoTakeRpcLock(s, i)
      case Send(i) => DoSend(s, i)
      case Receive(i) => DoReceive(s, i)
      case Return(i) => DoReturn(s, i)
      case FindGone(i) => DoFindGone(s, i)
      case Read(made) => DoRead(s, made)
      case Raise(e) => DoRaise(s, e)
      case Finish(v, err, extra) => DoFinish(s, v, err, extra)
      case Resume => DoResume(s)
      case Hear => DoHear(s)
      case Enter => DoEnter(s)
      case Deliver => DoDeliver(s)
      case CallbackReturns(ret) => DoCallbackReturns(s, ret)
      case Reply => DoReply(s)
  }

  /** A run: the states after each of the steps, in order. */
  function Run(s: Sys, steps: seq<Step>): Option<Sys>
    decreases |steps|
  {
    if steps == [] then Some(s)
    else match Next(s, steps[0])
      case None => None
      case Some(t) => Run(t, steps[1..])
  }

  /** Every thread has made all its calls. */
  predicate Done(s: Sys) {
    forall i :: 0 <= i < |s.apps| ==> s.apps[i] == App(Ready, [])
  }
}
