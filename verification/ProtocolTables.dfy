/** What many threads calling at once come to for the bridge: their calls act on its tables one
    after another, each thread's in its own order. */
module ProtocolTables {
  import opened Bytes
  import opened Codec
  import Handles = HandleMap
  import opened Slots
  import opened Protocol
  import opened ProtocolInvariant
  import opened ProtocolBreaks
  import opened ProtocolProgress
  import opened ProtocolLimits
  import Host = CallbackTable
  import State = ClientState
  import Ledger

  // ---------------------------------------------------------------- one after another

  /** The tables of a new client after these requests, dispatched in this order. */
  function ClientAfter(rs: seq<State.Request>): State.Client {
    if rs == [] then State.NewClient() else State.Dispatch(ClientAfter(rs[..|rs| - 1]), rs[|rs| - 1]).0
  }

  /** What the call asks of the tables; a new engine's address is the engine's choice. */
  predicate Asks(c: Call, r: State.Request) {
    match c
    case SetOutputBuffer(h, n, _, _) => r == State.SetOutputBuffer(h, n)
    case RegisterCallback(h, _, _, _) => r == State.RegisterCallback(h)
    case Plain(fn, args, _) =>
      if fn in {0x0001, 0x0002} then r.New?
      else if fn == 0x0003 then |args| == 1 && args[0].Handle? && r == State.Delete(args[0].h)
      else r == State.Other
  }

  ghost predicate Reflects(m: map<uint32, Engine>, next: uint32, c: State.Client) {
    State.Lockstep(c) && m == State.Engines(c) && next == c.table.next
  }

  /** The engines are those of the requests so far, but for a deletion still being carried out. */
  ghost predicate EnginesSoFar(s: Sys, st: Stage) {
    var rs := s.hist.requests;
    if AtWork(st) then
      && rs != [] && (s.bridge.Working? || s.bridge.Awaiting?) && s.bridge.request == rs[|rs| - 1]
      && Reflects(s.engines, s.nextId, ClientAfter(if s.bridge.request.Delete? then rs[..|rs| - 1] else rs))
    else Reflects(s.engines, s.nextId, ClientAfter(rs))
  }

  /** Every request read is that of a call sent, in order; one more may be on its way. */
  predicate RequestsSoFar(s: Sys, st: Stage) {
    var cs, rs := s.hist.calls, s.hist.requests;
    && |rs| <= |cs| <= |rs| + 1
    && (st.Asked? || st.Refused? ==> |cs| == |rs| + 1) && (st.Asked? || st.Refused? || st.GivenUp? || |cs| == |rs|)
    && (forall k :: 0 <= k < |rs| ==> Asks(cs[k].call, rs[k]))
    && (st.Asked? ==> st.o < |s.apps| && s.apps[st.o].calls != [] && cs[|rs|].call == s.apps[st.o].calls[0])
  }

  ghost predicate TablesSoFar(s: Sys, st: Stage) {
    RequestsSoFar(s, st) && EnginesSoFar(s, st)
  }

  lemma NextOfDispatch(c: State.Client, r: State.Request)
    requires State.Lockstep(c) && (r.New? && r.made != 0 && !Handles.Full(c.table) ==> c.table.next != 0)
    ensures State.Dispatch(c, r).0.table.next
         == if r.New? && !State.Effect(State.Engines(c), c.table.next, r).1.error then Add32(c.table.next, 1) else c.table.next
  {
    if r.New? {
      FullIff(c, r);
      NextOfNew(c, r.made);
    } else {
      NextOfOther(c, r);
    }
  }

  lemma NextOfNew(c: State.Client, p: nat)
    ensures State.Dispatch(c, State.New(p)).0.table.next
         == if p == 0 || Handles.Full(c.table) then c.table.next else Add32(c.table.next, 1)
  {
  }

  lemma NextOfOther(c: State.Client, r: State.Request)
    requires !r.New?
    ensures State.Dispatch(c, r).0.table.next == c.table.next
  {
  }

  lemma FullIff(c: State.Client, r: State.Request)
    requires State.Lockstep(c) && r.New?
    ensures State.Effect(State.Engines(c), c.table.next, r).1.error <==> r.made == 0 || Handles.Full(c.table)
  {
    State.FullIff(c.table);
    EngineMapIs(Handles.Live(c.table), c.slots, c.cbFd);
  }

  /** A request served without a deletion in it. */
  lemma BeforeReflects(s: Sys, rs: seq<State.Request>, r: State.Request)
    requires Reflects(s.engines, s.nextId, ClientAfter(rs)) && (Numbered(s, r) ==> s.nextId != 0) && !r.Delete?
    ensures var (m, next) := Before(s, r); Reflects(m, next, ClientAfter(rs + [r]))
  {
    var c := ClientAfter(rs);
    assert (rs + [r])[..|rs|] == rs;
    if r.New? {
      FullIff(c, r);
    }
    State.DispatchRefines(c, r);
    NextOfDispatch(c, r);
  }

  lemma DeletionReflects(m: map<uint32, Engine>, next: uint32, rs: seq<State.Request>, id: uint32)
    requires rs != [] && rs[|rs| - 1] == State.Delete(id) && Reflects(m, next, ClientAfter(rs[..|rs| - 1]))
    ensures Reflects(m - {id}, next, ClientAfter(rs))
  {
    var c := ClientAfter(rs[..|rs| - 1]);
    State.DispatchRefines(c, State.Delete(id));
    NextOfDispatch(c, State.Delete(id));
  }

  lemma ReadActs(s: Sys, st: Stage, made: nat)
    requires InvAt(s, st) && TablesSoFar(s, st) && Next(s, Read(made)).Some?
    ensures TablesSoFar(Next(s, Read(made)).value, After(s, st, Read(made)))
  {
    ReadKeeps(s, st, made);
    var c := s.apps[st.o].calls[0];
    if Sendable(c) {
      RequestArrives(st.number, c, made);
      ReadOne(s, st, Next(s, Read(made)).value, AsRequest(s.toBridge[0], made));
    }
  }

  lemma ReadOne(s: Sys, st: Stage, t: Sys, r: State.Request)
    requires st.Asked? && TablesSoFar(s, st) && Asks(s.hist.calls[|s.hist.requests|].call, r)
    requires Numbered(s, r) ==> s.nextId != 0
    requires t.hist.calls == s.hist.calls && t.hist.requests == s.hist.requests + [r] && t.bridge.Working? && t.bridge.request == r
    requires (t.engines, t.nextId) == Before(s, r)
    ensures TablesSoFar(t, Dispatching(st.o, st.number))
  {
    assert t.hist.requests[..|s.hist.requests|] == s.hist.requests;
    if !r.Delete? {
      BeforeReflects(s, s.hist.requests, r);
    }
  }

  lemma FinishActs(s: Sys, st: Stage, v: int32, err: uint16, extra: seq<byte>)
    requires InvAt(s, st) && TablesSoFar(s, st) && Next(s, Finish(v, err, extra)).Some?
    ensures TablesSoFar(Next(s, Finish(v, err, extra)).value, After(s, st, Finish(v, err, extra)))
  {
    FinishKeeps(s, st, v, err, extra);
    FinishOne(s, st, Next(s, Finish(v, err, extra)).value, After(s, st, Finish(v, err, extra)));
  }

  lemma FinishOne(s: Sys, st: Stage, t: Sys, u: Stage)
    requires st.Dispatching? && u.Answered? && TablesSoFar(s, st)
    requires t.hist.calls == s.hist.calls && t.hist.requests == s.hist.requests && t.nextId == s.nextId
    requires t.engines == if s.bridge.request.Delete? then s.engines - {s.bridge.request.id} else s.engines
    ensures TablesSoFar(t, u)
  {
    var rs, r := s.hist.requests, s.bridge.request;
    FinishReflects(s.engines, s.nextId, rs, r);
  }

  lemma FinishReflects(m: map<uint32, Engine>, next: uint32, rs: seq<State.Request>, r: State.Request)
    requires rs != [] && r == rs[|rs| - 1] && Reflects(m, next, ClientAfter(if r.Delete? then rs[..|rs| - 1] else rs))
    ensures Reflects(if r.Delete? then m - {r.id} else m, next, ClientAfter(rs))
  {
    if r.Delete? {
      DeletionReflects(m, next, rs, r.id);
    }
  }

  lemma SendActs(s: Sys, st: Stage, i: nat)
    requires InvAt(s, st) && TablesSoFar(s, st) && Next(s, Send(i)).Some?
    ensures TablesSoFar(Next(s, Send(i)).value, After(s, st, Send(i)))
  {
    SendKeeps(s, st, i);
  }

  /** A step that leaves the bridge's work, or its rest, as it is. */
  lemma SameTables(s: Sys, st: Stage, t: Sys, u: Stage)
    requires TablesSoFar(s, st)
    requires t.hist.calls == s.hist.calls && t.hist.requests == s.hist.requests && t.engines == s.engines && t.nextId == s.nextId
    requires AtWork(u) == AtWork(st) && (AtWork(u) ==> (t.bridge.Working? || t.bridge.Awaiting?) && t.bridge.request == s.bridge.request)
    requires u == st || (!u.Asked? && !u.Refused?)
    requires u != st ==> u.GivenUp? || (!st.Asked? && !st.Refused? && !st.GivenUp?)
    requires st.Asked? && u == st ==> |t.apps| == |s.apps| && (st.o < |s.apps| ==> t.apps[st.o].calls == s.apps[st.o].calls)
    ensures TablesSoFar(t, u)
  {
  }

  lemma ThreadStepActs(s: Sys, st: Stage, step: Step)
    requires InvAt(s, st) && TablesSoFar(s, st) && Next(s, step).Some?
    requires step.TakeCbLock? || step.MakeNote? || step.TakeRpcLock?
    ensures TablesSoFar(Next(s, step).value, After(s, st, step))
  {
    if step.TakeRpcLock? {
      TakeRpcLockKeeps(s, st, step.i);
    }
    ThreadStepTables(s, step);
    SameTables(s, st, Next(s, step).value, After(s, st, step));
  }

  lemma ThreadStepTables(s: Sys, step: Step)
    requires Next(s, step).Some? && (step.TakeCbLock? || step.MakeNote? || step.TakeRpcLock?)
    ensures var t := Next(s, step).value;
      && t.hist.calls == s.hist.calls && t.hist.requests == s.hist.requests && t.engines == s.engines && t.nextId == s.nextId
      && t.bridge == s.bridge && |t.apps| == |s.apps| && forall i :: 0 <= i < |s.apps| ==> t.apps[i].calls == s.apps[i].calls
  {
  }

  lemma AnswerStepActs(s: Sys, st: Stage, step: Step)
    requires InvAt(s, st) && TablesSoFar(s, st) && Next(s, step).Some?
    requires step.Receive? || step.Return? || step.FindGone?
    ensures TablesSoFar(Next(s, step).value, After(s, st, step))
  {
    AnswerStepTables(s, step);
    AnswerStepStages(s, st, step);
    SameTables(s, st, Next(s, step).value, After(s, st, step));
  }

  lemma AnswerStepTables(s: Sys, step: Step)
    requires Next(s, step).Some? && (step.Receive? || step.Return? || step.FindGone?)
    ensures var t := Next(s, step).value;
      && t.hist.calls == s.hist.calls && t.hist.requests == s.hist.requests && t.engines == s.engines && t.nextId == s.nextId
  {
  }

  lemma AnswerStepStages(s: Sys, st: Stage, step: Step)
    requires InvAt(s, st) && Next(s, step).Some? && (step.Receive? || step.Return? || step.FindGone?)
    ensures var u := After(s, st, step);
      && ((st.Answered? && (u.Received? || u.GivenUp?)) || (st.Received? && u.Quiet?) || (st.Refused? && u.GivenUp?))
      && (u.GivenUp? <==> !Next(s, step).value.connected) && (u.GivenUp? ==> u.o == step.i)
  {
    match step {
      case Receive(i) => ReceiveKeeps(s, st, i);
      case Return(i) => ReturnKeeps(s, st, i);
      case FindGone(i) => FindGoneKeeps(s, st, i);
    }
  }

  lemma EventStepBridge(s: Sys, st: Stage, step: Step)
    requires InvAt(s, st) && Next(s, step).Some? && (step.Raise? || step.Resume? || step.Hear?)
    ensures var t := Next(s, step).value;
      && t.hist.calls == s.hist.calls && t.hist.requests == s.hist.requests && t.engines == s.engines && t.nextId == s.nextId
      && (s.bridge.Working? || s.bridge.Awaiting?) && (t.bridge.Working? || t.bridge.Awaiting?) && t.bridge.request == s.bridge.request
  {
    if step.Hear? {
      HearingIs(s, st);
    }
  }

  lemma EngineStepActs(s: Sys, st: Stage, step: Step)
    requires InvAt(s, st) && TablesSoFar(s, st) && Next(s, step).Some?
    requires step.Raise? || step.Resume? || step.Hear?
    ensures TablesSoFar(Next(s, step).value, After(s, st, step))
  {
    EventStepBridge(s, st, step);
    EngineStepStages(s, st, step);
    SameTables(s, st, Next(s, step).value, After(s, st, step));
  }

  lemma HostStepBridge(s: Sys, st: Stage, step: Step)
    requires Next(s, step).Some? && (step.Enter? || step.Deliver? || step.CallbackReturns? || step.Reply?)
    ensures var t := Next(s, step).value;
      && t.hist.calls == s.hist.calls && t.hist.requests == s.hist.requests && t.engines == s.engines && t.nextId == s.nextId
      && t.bridge == s.bridge
  {
  }

  lemma HostStepActs(s: Sys, st: Stage, step: Step)
    requires InvAt(s, st) && TablesSoFar(s, st) && Next(s, step).Some?
    requires step.Enter? || step.Deliver? || step.CallbackReturns? || step.Reply?
    ensures TablesSoFar(Next(s, step).value, After(s, st, step))
  {
    HostStepBridge(s, st, step);
    HostStepStages(s, st, step);
    SameTables(s, st, Next(s, step).value, After(s, st, step));
  }

  predicate OfThreads(step: Step) {
    || step.TakeCbLock? || step.MakeNote? || step.TakeRpcLock? || step.Send? || step.Receive? || step.Return? || step.FindGone?
  }

  lemma ThreadActs(s: Sys, st: Stage, step: Step)
    requires InvAt(s, st) && TablesSoFar(s, st) && Next(s, step).Some? && OfThreads(step)
    ensures TablesSoFar(Next(s, step).value, After(s, st, step))
  {
    match step {
      case TakeCbLock(_) => ThreadStepActs(s, st, step);
      case MakeNote(_) => ThreadStepActs(s, st, step);
      case TakeRpcLock(_) => ThreadStepActs(s, st, step);
      case Send(i) => SendActs(s, st, i);
      case Receive(_) => AnswerStepActs(s, st, step);
      case Return(_) => AnswerStepActs(s, st, step);
      case FindGone(_) => AnswerStepActs(s, st, step);
    }
  }

  lemma StepActs(s: Sys, st: Stage, step: Step)
    requires InvAt(s, st) && TablesSoFar(s, st) && Next(s, step).Some?
    ensures TablesSoFar(Next(s, step).value, After(s, st, step))
  {
    if OfThreads(step) {
      ThreadActs(s, st, step);
    } else {
      match step {
        case Read(made) => ReadActs(s, st, made);
        case Finish(v, err, extra) => FinishActs(s, st, v, err, extra);
        case Raise(_) => EngineStepActs(s, st, step);
        case Resume => EngineStepActs(s, st, step);
        case Hear => EngineStepActs(s, st, step);
        case Enter => HostStepActs(s, st, step);
        case Deliver => HostStepActs(s, st, step);
        case CallbackReturns(_) => HostStepActs(s, st, step);
        case Reply => HostStepActs(s, st, step);
      }
    }
  }

  // ------------------------------------------------------------------- program order

  /** What thread `i` has sent, in order. */
  function OfThread(sent: seq<Sent>, i: nat): seq<Call> {
    if sent == [] then []
    else OfThread(sent[..|sent| - 1], i) + if sent[|sent| - 1].thread == i then [sent[|sent| - 1].call] else []
  }

  /** What the thread has yet to send. */
  function Unsent(s: Sys, st: Stage, i: nat): seq<Call>
    requires i < |s.apps|
  {
    var a := s.apps[i];
    if a.calls != [] && (a.pc.Waiting? || a.pc.Holding? || (st.GivenUp? && st.o == i)) then a.calls[1..] else a.calls
  }

  predicate InOrderAt(s: Sys, st: Stage, programs: seq<seq<Call>>, i: nat)
    requires i < |s.apps| == |programs|
  {
    OfThread(s.hist.calls, i) + Unsent(s, st, i) == programs[i]
  }

  predicate InProgramOrder(s: Sys, st: Stage, programs: seq<seq<Call>>) {
    |s.apps| == |programs| && forall i :: 0 <= i < |programs| ==> InOrderAt(s, st, programs, i)
  }

  predicate SameUnsent(s: Sys, st: Stage, t: Sys, u: Stage) {
    |t.apps| == |s.apps| && forall i :: 0 <= i < |s.apps| ==> Unsent(t, u, i) == Unsent(s, st, i)
  }

  lemma SameOrder(s: Sys, st: Stage, t: Sys, u: Stage, programs: seq<seq<Call>>)
    requires InProgramOrder(s, st, programs) && t.hist.calls == s.hist.calls && SameUnsent(s, st, t, u)
    ensures InProgramOrder(t, u, programs)
  {
    forall i | 0 <= i < |programs| ensures InOrderAt(t, u, programs, i) {
      assert InOrderAt(s, st, programs, i);
    }
  }

  lemma SendOrdered(s: Sys, st: Stage, i: nat, programs: seq<seq<Call>>)
    requires InvAt(s, st) && InProgramOrder(s, st, programs) && Next(s, Send(i)).Some?
    ensures InProgramOrder(Next(s, Send(i)).value, After(s, st, Send(i)), programs)
  {
    SendKeeps(s, st, i);
    var t := Next(s, Send(i)).value;
    forall k | 0 <= k < |programs| ensures InOrderAt(t, After(s, st, Send(i)), programs, k) {
      assert InOrderAt(s, st, programs, k);
      SentInOrder(s, st, t, After(s, st, Send(i)), i, programs, k);
    }
  }

  lemma SentInOrder(s: Sys, st: Stage, t: Sys, u: Stage, i: nat, programs: seq<seq<Call>>, k: nat)
    requires OneMoved(s, t, i) && !OnItsWay(s.apps[i].pc) && OnItsWay(t.apps[i].pc) && !st.GivenUp? && !u.GivenUp?
    requires s.apps[i].calls != [] && t.apps[i].calls == s.apps[i].calls
    requires t.hist.calls == s.hist.calls + [Sent(i, s.apps[i].calls[0])]
    requires k < |s.apps| == |programs| && InOrderAt(s, st, programs, k)
    ensures InOrderAt(t, u, programs, k)
  {
    assert t.hist.calls[..|s.hist.calls|] == s.hist.calls;
    OneMoreSent(OfThread(s.hist.calls, k), s.apps[i].calls);
  }

  lemma OneMoreSent(sent: seq<Call>, left: seq<Call>)
    requires left != []
    ensures (sent + [left[0]]) + left[1..] == sent + left
  {
  }

  lemma LockStepOrdered(s: Sys, st: Stage, step: Step, programs: seq<seq<Call>>)
    requires InvAt(s, st) && InProgramOrder(s, st, programs) && Next(s, step).Some?
    requires step.TakeCbLock? || step.MakeNote? || step.TakeRpcLock?
    ensures InProgramOrder(Next(s, step).value, After(s, st, step), programs)
  {
    IsUp(s, st, step);
    LockStepMoves(s, step);
    LockStepUnsent(s, st, Next(s, step).value, After(s, st, step), step.i);
    SameOrder(s, st, Next(s, step).value, After(s, st, step), programs);
  }

  predicate OnItsWay(pc: AppPc) {
    pc.Waiting? || pc.Holding?
  }

  /** Between the two states only thread `i` has moved. */
  predicate OneMoved(s: Sys, t: Sys, i: nat) {
    i < |s.apps| == |t.apps| && t.apps == s.apps[i := t.apps[i]]
  }

  lemma LockStepMoves(s: Sys, step: Step)
    requires Next(s, step).Some? && (step.TakeCbLock? || step.MakeNote? || step.TakeRpcLock?)
    ensures var t, i := Next(s, step).value, step.i;
      && OneMoved(s, t, i) && t.apps[i].calls == s.apps[i].calls && t.hist.calls == s.hist.calls
      && !OnItsWay(s.apps[i].pc) && !OnItsWay(t.apps[i].pc)
  {
  }

  lemma LockStepUnsent(s: Sys, st: Stage, t: Sys, u: Stage, i: nat)
    requires OneMoved(s, t, i) && t.apps[i].calls == s.apps[i].calls && !OnItsWay(s.apps[i].pc) && !OnItsWay(t.apps[i].pc)
    requires !st.GivenUp? && !u.GivenUp?
    ensures SameUnsent(s, st, t, u)
  {
  }

  lemma AnswerStepOrdered(s: Sys, st: Stage, step: Step, programs: seq<seq<Call>>)
    requires InvAt(s, st) && InProgramOrder(s, st, programs) && Next(s, step).Some?
    requires step.Receive? || step.Return? || step.FindGone?
    ensures InProgramOrder(Next(s, step).value, After(s, st, step), programs)
  {
    IsUp(s, st, step);
    AnswerStepMoves(s, step);
    AnswerStepStages(s, st, step);
    AnswerStepUnsent(s, st, Next(s, step).value, After(s, st, step), step.i);
    SameOrder(s, st, Next(s, step).value, After(s, st, step), programs);
  }

  lemma AnswerStepMoves(s: Sys, step: Step)
    requires Next(s, step).Some? && (step.Receive? || step.Return? || step.FindGone?)
    ensures var t, i := Next(s, step).value, step.i;
      && OneMoved(s, t, i) && t.hist.calls == s.hist.calls && OnItsWay(s.apps[i].pc) && s.apps[i].calls != []
      && if !t.connected then t.apps[i] == App(Ready, s.apps[i].calls)
         else if step.Return? then t.apps[i] == App(Ready, s.apps[i].calls[1..])
         else OnItsWay(t.apps[i].pc) && t.apps[i].calls == s.apps[i].calls
  {
  }

  lemma AnswerStepUnsent(s: Sys, st: Stage, t: Sys, u: Stage, i: nat)
    requires OneMoved(s, t, i) && OnItsWay(s.apps[i].pc) && s.apps[i].calls != [] && !st.GivenUp?
    requires u.GivenUp? ==> u.o == i && t.apps[i] == App(Ready, s.apps[i].calls)
    requires !u.GivenUp? ==> t.apps[i] == App(Ready, s.apps[i].calls[1..])
                             || (OnItsWay(t.apps[i].pc) && t.apps[i].calls == s.apps[i].calls)
    ensures SameUnsent(s, st, t, u)
  {
  }

  lemma OtherStepOrdered(s: Sys, st: Stage, step: Step, programs: seq<seq<Call>>)
    requires InvAt(s, st) && InProgramOrder(s, st, programs) && Next(s, step).Some?
    requires step.Read? || step.Finish? || step.Raise? || step.Resume? || step.Hear?
          || step.Enter? || step.Deliver? || step.CallbackReturns? || step.Reply?
    ensures InProgramOrder(Next(s, step).value, After(s, st, step), programs)
  {
    IsUp(s, st, step);
    OtherStepStays(s, step);
    OtherStageStays(s, st, step);
    SameOrder(s, st, Next(s, step).value, After(s, st, step), programs);
  }

  lemma OtherStepStays(s: Sys, step: Step)
    requires Next(s, step).Some?
    requires step.Read? || step.Finish? || step.Raise? || step.Resume? || step.Hear?
          || step.Enter? || step.Deliver? || step.CallbackReturns? || step.Reply?
    ensures var t := Next(s, step).value; t.apps == s.apps && t.hist.calls == s.hist.calls
  {
    if step.Enter? || step.Deliver? || step.CallbackReturns? || step.Reply? {
      HostStepStays(s, step);
    } else {
      BridgeStepStays(s, step);
    }
  }

  lemma HostStepStays(s: Sys, step: Step)
    requires Next(s, step).Some? && (step.Enter? || step.Deliver? || step.CallbackReturns? || step.Reply?)
    ensures var t := Next(s, step).value; t.apps == s.apps && t.hist.calls == s.hist.calls
  {
  }

  lemma BridgeStepStays(s: Sys, step: Step)
    requires Next(s, step).Some? && (step.Read? || step.Finish? || step.Raise? || step.Resume? || step.Hear?)
    ensures var t := Next(s, step).value; t.apps == s.apps && t.hist.calls == s.hist.calls
  {
  }

  lemma OtherStageStays(s: Sys, st: Stage, step: Step)
    requires !st.GivenUp? && !step.Receive? && !step.FindGone?
    ensures !After(s, st, step).GivenUp?
  {
  }

  lemma IsUp(s: Sys, st: Stage, step: Step)
    requires InvAt(s, st) && Next(s, step).Some?
    ensures s.connected && !st.GivenUp?
  {
  }

  lemma StepOrdered(s: Sys, st: Stage, step: Step, programs: seq<seq<Call>>)
    requires InvAt(s, st) && InProgramOrder(s, st, programs) && Next(s, step).Some?
    ensures InProgramOrder(Next(s, step).value, After(s, st, step), programs)
  {
    match step {
      case Send(i) => SendOrdered(s, st, i, programs);
      case TakeCbLock(_) => LockStepOrdered(s, st, step, programs);
      case MakeNote(_) => LockStepOrdered(s, st, step, programs);
      case TakeRpcLock(_) => LockStepOrdered(s, st, step, programs);
      case Receive(_) => AnswerStepOrdered(s, st, step, programs);
      case Return(_) => AnswerStepOrdered(s, st, step, programs);
      case FindGone(_) => AnswerStepOrdered(s, st, step, programs);
      case _ => OtherStepOrdered(s, st, step, programs);
    }
  }

  // ----------------------------------------------------------------------- whole runs

  lemma InitActs(programs: seq<seq<Call>>, table: seq<Host.Entry>, mem: map<nat, seq<byte>>)
    ensures var s := Init(programs, table, mem);
      TablesSoFar(s, Quiet) && InProgramOrder(s, Quiet, programs)
  {
    NewClientReflects();
    var s := Init(programs, table, mem);
    forall i | 0 <= i < |programs| ensures InOrderAt(s, Quiet, programs, i) {
      assert [] + programs[i] == programs[i];
    }
  }

  lemma NewClientReflects()
    ensures Reflects(map[], 1, State.NewClient())
  {
    Handles.EmptyTableInv();
    Ledger.NewClientLockstep(0);
  }

  lemma {:induction false} RunActs(s: Sys, st: Stage, steps: seq<Step>, programs: seq<seq<Call>>)
    requires InvAt(s, st) && TablesSoFar(s, st) && InProgramOrder(s, st, programs) && Run(s, steps).Some?
    ensures var t, u := Run(s, steps).value, Reached(s, st, steps);
      InvAt(t, u) && TablesSoFar(t, u) && InProgramOrder(t, u, programs)
    decreases |steps|
  {
    if steps != [] {
      StepKeeps(s, st, steps[0]);
      StepActs(s, st, steps[0]);
      StepOrdered(s, st, steps[0], programs);
      RunActs(Next(s, steps[0]).value, After(s, st, steps[0]), steps[1..], programs);
    }
  }

  /** However many threads call at once, and whatever events come between: each request the
      bridge has read is that of one call sent, in the order they were sent; while it is at rest
      the engines are those of its two tables after dispatching just these requests one after
      another; and each thread's calls are among them in its own order, none left out. */
  lemma CallsActInOrder(programs: seq<seq<Call>>, table: seq<Host.Entry>, mem: map<nat, seq<byte>>, steps: seq<Step>)
    requires AllTyped(programs) && Run(Init(programs, table, mem), steps).Some?
    ensures var t := Run(Init(programs, table, mem), steps).value;
      var cs, rs := t.hist.calls, t.hist.requests;
      && |rs| <= |cs| <= |rs| + 1 && (forall k :: 0 <= k < |rs| ==> Asks(cs[k].call, rs[k]))
      && (t.bridge.Idle? ==> State.Lockstep(ClientAfter(rs)) && t.engines == State.Engines(ClientAfter(rs)))
      && forall i :: 0 <= i < |programs| ==> OfThread(cs, i) <= programs[i]
    ensures var t := Run(Init(programs, table, mem), steps).value;
      Done(t) ==> |t.hist.requests| == |t.hist.calls| && forall i :: 0 <= i < |programs| ==> OfThread(t.hist.calls, i) == programs[i]
  {
    var s := Init(programs, table, mem);
    InitAtRest(programs, table, mem);
    InitActs(programs, table, mem);
    RunActs(s, Quiet, steps, programs);
    var t, st := Run(s, steps).value, Reached(s, Quiet, steps);
    forall i | 0 <= i < |programs| ensures OfThread(t.hist.calls, i) <= programs[i] {
      assert InOrderAt(t, st, programs, i);
    }
    if Done(t) {
      if !st.Quiet? {
        OwnerIsNotDone(t, st);
      }
      forall i | 0 <= i < |programs| ensures OfThread(t.hist.calls, i) == programs[i] {
        assert InOrderAt(t, st, programs, i) && t.apps[i] == App(Ready, []);
      }
    }
  }
}
