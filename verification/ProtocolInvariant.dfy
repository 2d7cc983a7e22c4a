/** What holds in every state of the connection: at most one request is on its way, and
    where it is determines every queue, every lock and every thread. */
module ProtocolInvariant {
  import opened Bytes
  import opened Codec
  import opened Framing
  import opened Events
  import opened Protocol
  import Host = CallbackTable

  /** How far the one outstanding call has got: `o` is the thread that makes it, `e` the
      engine event that interrupts it. */
  datatype Stage =
    | Quiet
    | Taken(o: nat)
    | Asked(o: nat, number: uint32)
    | Dispatching(o: nat, number: uint32)
    | Raised(o: nat, number: uint32, e: Event)
    | Heard(o: nat, number: uint32, e: Event)
    | Inside(o: nat, number: uint32, e: Event)
    | InCall(o: nat, number: uint32, e: Event)
    | Replied(o: nat, number: uint32, e: Event, ret: int32)
    | Deaf(o: nat, number: uint32, e: Event)
    | Answering(o: nat, number: uint32, e: Event, ret: int32)
    | Answered(o: nat, number: uint32, r: Response, extra: seq<byte>)
    | Received(o: nat, number: uint32, r: Response, extra: seq<byte>)
    | Refused(o: nat, number: uint32)
    | GivenUp(o: nat, number: uint32)

  /** The thread that holds the RPC lock. In a broken connection `o` is the one that found out. */
  function Owner(st: Stage): Option<nat> {
    if st.Quiet? || st.GivenUp? then None else Some(st.o)
  }

  /** The engine waits for the application; in vain when its event was too long and the
      callback thread has gone. */
  predicate Disturbed(st: Stage) {
    st.Raised? || TakenUp(st) || st.Deaf?
  }

  /** The callback thread has the event, or its answer is on the way. */
  predicate TakenUp(st: Stage) {
    st.Heard? || st.Inside? || st.InCall? || st.Replied? || st.Answering?
  }

  predicate OwnerAt(pc: AppPc, st: Stage) {
    match st
    case Quiet => false
    case GivenUp(_, _) => false
    case Taken(_) => pc == Locked
    case Received(_, n, r, extra) => pc == Holding(n, ResponseMsg(r, extra))
    case _ => pc == Waiting(st.number)
  }

  predicate HoldsRpcLock(pc: AppPc) {
    pc.Locked? || pc.Waiting? || pc.Holding?
  }

  predicate AppOk(s: Sys, st: Stage, i: nat)
    requires i < |s.apps|
  {
    var a := s.apps[i];
    && (HoldsRpcLock(a.pc) <==> Owner(st) == Some(i)) && (Owner(st) == Some(i) ==> OwnerAt(a.pc, st))
    && (a.pc != Ready ==> a.calls != [])
    && (a.pc.Changing? <==> s.cbLock == Some(AppHolder(i))) && (a.pc.Changing? ==> Noted(a.calls[0]))
    && forall c :: c in a.calls ==> Typed(c)
  }

  predicate Apps(s: Sys, st: Stage) {
    forall i :: 0 <= i < |s.apps| ==> AppOk(s, st, i)
  }

  predicate Locks(s: Sys, st: Stage) {
    && (s.connected <==> !st.GivenUp?) && s.rpcLock == Owner(st)
    && (!st.Quiet? ==> st.o < |s.apps| && s.apps[st.o].calls != [])
    && (s.cbLock == Some(CbHolder) <==> st.Inside? || st.InCall?)
    && (s.cbLock.Some? && s.cbLock.value.AppHolder? ==> s.cbLock.value.i < |s.apps|)
  }

  predicate Queues(s: Sys, st: Stage)
    requires Locks(s, st) && Apps(s, st)
  {
    && (st.Asked? ==> Current(s, st.o) && s.toBridge == [RequestMsg(st.number, s.apps[st.o].calls[0])])
    && (!st.Asked? ==> s.toBridge == [])
    && s.toShim == (if st.Answered? then [ResponseMsg(st.r, st.extra)] else [])
    && (Disturbed(st) ==> |st.e.data| < TWO32)
    && (TakenUp(st) ==> EventFits(st.e)) && (st.Deaf? ==> !EventFits(st.e))
    && s.events == (if st.Raised? then [EventMsg(st.e)] else [])
    && s.replies == (if st.Answering? then [ReturnMsg(st.e.handle, st.ret)] else [])
    && (st.Answered? || st.Received? ==> st.r.number == st.number)
    && (st.Received? ==> AnswerFits(|st.extra|))
  }

  predicate Current(s: Sys, i: nat) {
    i < |s.apps| && s.apps[i].calls != [] && Typed(s.apps[i].calls[0])
  }

  /** An answer with that many bytes behind its header passes the framing layer. */
  predicate AnswerFits(extra: nat) {
    10 + extra < MAX_MSG_SIZE
  }

  predicate Threads(s: Sys, st: Stage)
    requires Disturbed(st) ==> |st.e.data| < TWO32
  {
    && (if st.Dispatching? then s.bridge.Working? && s.bridge.number == st.number
        else if Disturbed(st) then s.bridge.Awaiting? && s.bridge.number == st.number
        else if st.Refused? then s.bridge == Gone
        else st.GivenUp? || s.bridge == Idle)
    && match st
      case Heard(_, _, e) => s.cb == Arrived(Seen(e))
      case Inside(_, _, e) => s.cb == Entered(Seen(e))
      case InCall(_, _, e) => s.cb.Calling? && s.cb.a == Seen(e)
      case Replied(_, _, e, ret) => s.cb == Replying(Seen(e), ret)
      case Deaf(_, _, _) => s.cb == Departed
      case _ => s.cb == Listening
  }

  /** The state is at this stage. */
  predicate InvAt(s: Sys, st: Stage) {
    Locks(s, st) && Apps(s, st) && Queues(s, st) && Threads(s, st)
  }

  /** Where a step leads. */
  function After(s: Sys, st: Stage, step: Step): Stage {
    match step
    case TakeRpcLock(i) => Taken(i)
    case Send(i) => Asked(i, s.nextSeq)
    case Receive(_) =>
      if !st.Answered? then st
      else if AnswerFits(|st.extra|) then Received(st.o, st.number, st.r, st.extra) else GivenUp(st.o, st.number)
    case Return(_) => Quiet
    case FindGone(_) => if st.Refused? then GivenUp(st.o, st.number) else st
    case Read(_) =>
      if !st.Asked? then st
      else if s.toBridge != [] && Fits(s.toBridge[0]) then Dispatching(st.o, st.number) else Refused(st.o, st.number)
    case Raise(e) =>
      if st.Dispatching? && e.handle in s.engines && s.engines[e.handle].hasCallback then Raised(st.o, st.number, e) else st
    case Finish(v, err, extra) => if st.Dispatching? then Answered(st.o, st.number, Response(st.number, v, err), extra) else st
    case Resume => if st.Answering? then Dispatching(st.o, st.number) else st
    case Hear =>
      if !st.Raised? then st else if EventFits(st.e) then Heard(st.o, st.number, st.e) else Deaf(st.o, st.number, st.e)
    case Enter => if st.Heard? then Inside(st.o, st.number, st.e) else st
    case Deliver =>
      if !st.Inside? then st
      else
        var r := Host.Lookup(s.table, st.e.handle);
        if r.None? || r.value.callback.None? then Replied(st.o, st.number, st.e, DATA_PROCESSED) else InCall(st.o, st.number, st.e)
    case CallbackReturns(ret) => if st.InCall? then Replied(st.o, st.number, st.e, ret) else st
    case Reply => if st.Replied? then Answering(st.o, st.number, st.e, st.ret) else st
    case TakeCbLock(_) => st
    case MakeNote(_) => st
  }

  // ------------------------------------------------------- steps of application threads

  /** A thread's own change of place does not disturb the others. */
  lemma OthersOk(s: Sys, st: Stage, t: Sys, u: Stage, i: nat)
    requires Apps(s, st) && i < |s.apps| == |t.apps| && t.apps == s.apps[i := t.apps[i]]
    requires Owner(u) == Owner(st) || (Owner(st) in {None, Some(i)} && Owner(u) in {None, Some(i)})
    requires Owner(u) == Owner(st) && Owner(u) != Some(i) ==> u == st
    requires t.cbLock == s.cbLock || (s.cbLock in {None, Some(AppHolder(i))} && t.cbLock in {None, Some(AppHolder(i))})
    requires AppOk(t, u, i)
    ensures Apps(t, u)
  {
    forall k | 0 <= k < |t.apps| ensures AppOk(t, u, k) {
      assert AppOk(s, st, k);
    }
  }

  lemma TakeCbLockKeeps(s: Sys, st: Stage, i: nat)
    requires InvAt(s, st) && Next(s, TakeCbLock(i)).Some?
    ensures InvAt(Next(s, TakeCbLock(i)).value, st)
  {
    assert AppOk(s, st, i);
    OthersOk(s, st, Next(s, TakeCbLock(i)).value, st, i);
  }

  lemma MakeNoteKeeps(s: Sys, st: Stage, i: nat)
    requires InvAt(s, st) && Next(s, MakeNote(i)).Some?
    ensures InvAt(Next(s, MakeNote(i)).value, st)
  {
    assert AppOk(s, st, i);
    OthersOk(s, st, Next(s, MakeNote(i)).value, st, i);
  }

  lemma TakeRpcLockKeeps(s: Sys, st: Stage, i: nat)
    requires InvAt(s, st) && Next(s, TakeRpcLock(i)).Some?
    ensures st.Quiet? && InvAt(Next(s, TakeRpcLock(i)).value, Taken(i))
  {
    assert AppOk(s, st, i);
    OthersOk(s, st, Next(s, TakeRpcLock(i)).value, Taken(i), i);
  }

  lemma SendKeeps(s: Sys, st: Stage, i: nat)
    requires InvAt(s, st) && Next(s, Send(i)).Some?
    ensures st == Taken(i) && InvAt(Next(s, Send(i)).value, Asked(i, s.nextSeq))
  {
    assert AppOk(s, st, i);
    OthersOk(s, st, Next(s, Send(i)).value, Asked(i, s.nextSeq), i);
  }

  lemma ReceiveKeeps(s: Sys, st: Stage, i: nat)
    requires InvAt(s, st) && Next(s, Receive(i)).Some?
    ensures st.Answered? && st.o == i && InvAt(Next(s, Receive(i)).value, After(s, st, Receive(i)))
  {
    assert AppOk(s, st, i);
    OthersOk(s, st, Next(s, Receive(i)).value, After(s, st, Receive(i)), i);
  }

  lemma ReturnKeeps(s: Sys, st: Stage, i: nat)
    requires InvAt(s, st) && Next(s, Return(i)).Some?
    ensures st.Received? && st.o == i && InvAt(Next(s, Return(i)).value, Quiet)
    ensures DecodeResponseHeader(s.apps[i].pc.answer.data, 0).value == Some(st.r)
  {
    assert AppOk(s, st, i);
    OthersOk(s, st, Next(s, Return(i)).value, Quiet, i);
    ResponseHeaderRoundTrip(st.r.number, st.r.retval, st.r.error, st.extra);
  }

  lemma FindGoneKeeps(s: Sys, st: Stage, i: nat)
    requires InvAt(s, st) && Next(s, FindGone(i)).Some?
    ensures st.Refused? && st.o == i && InvAt(Next(s, FindGone(i)).value, GivenUp(i, st.number))
  {
    assert AppOk(s, st, i);
    OthersOk(s, st, Next(s, FindGone(i)).value, GivenUp(i, st.number), i);
  }

  // ---------------------------------------------- steps of the bridge and the callback thread

  /** Steps of the other two threads leave the application's threads where they are. */
  lemma AppsStay(s: Sys, st: Stage, t: Sys, u: Stage)
    requires Apps(s, st) && t.apps == s.apps && Owner(u) == Owner(st)
    requires forall i :: 0 <= i < |s.apps| && OwnerAt(s.apps[i].pc, st) ==> OwnerAt(s.apps[i].pc, u)
    requires forall i :: s.cbLock == Some(AppHolder(i)) <==> t.cbLock == Some(AppHolder(i))
    ensures Apps(t, u)
  {
    forall k | 0 <= k < |t.apps| ensures AppOk(t, u, k) {
      assert AppOk(s, st, k);
    }
  }

  lemma ReadKeeps(s: Sys, st: Stage, made: nat)
    requires InvAt(s, st) && Next(s, Read(made)).Some?
    ensures st.Asked? && InvAt(Next(s, Read(made)).value, After(s, st, Read(made)))
    ensures After(s, st, Read(made)).Dispatching? <==> Sendable(s.apps[st.o].calls[0])
  {
    var c := s.apps[st.o].calls[0];
    var w := OnWire(st.number, c);
    assert AppOk(s, st, st.o);
    if Sendable(c) {
      RequestHeaderRoundTrip(st.number, w.fn, EncodeArgs(w.args));
    }
    AppsStay(s, st, Next(s, Read(made)).value, After(s, st, Read(made)));
  }

  lemma RaiseKeeps(s: Sys, st: Stage, e: Event)
    requires InvAt(s, st) && Next(s, Raise(e)).Some?
    ensures st.Dispatching? && InvAt(Next(s, Raise(e)).value, After(s, st, Raise(e)))
  {
    AppsStay(s, st, Next(s, Raise(e)).value, After(s, st, Raise(e)));
  }

  lemma FinishKeeps(s: Sys, st: Stage, v: int32, err: uint16, extra: seq<byte>)
    requires InvAt(s, st) && Next(s, Finish(v, err, extra)).Some?
    ensures st.Dispatching? && InvAt(Next(s, Finish(v, err, extra)).value, After(s, st, Finish(v, err, extra)))
  {
    AppsStay(s, st, Next(s, Finish(v, err, extra)).value, After(s, st, Finish(v, err, extra)));
  }

  lemma ResumeKeeps(s: Sys, st: Stage)
    requires InvAt(s, st) && Next(s, Resume).Some?
    ensures st.Answering? && InvAt(Next(s, Resume).value, Dispatching(st.o, st.number))
    ensures ReadReturn(s.replies[0]) == st.ret
  {
    AppsStay(s, st, Next(s, Resume).value, Dispatching(st.o, st.number));
    ReturnRoundTrip(st.e.handle, st.ret);
  }

  lemma HearKeeps(s: Sys, st: Stage)
    requires InvAt(s, st) && Next(s, Hear).Some?
    ensures st.Raised? && InvAt(Next(s, Hear).value, After(s, st, Hear))
  {
    HearingIs(s, st);
    AppsStay(s, st, Next(s, Hear).value, After(s, st, Hear));
  }

  lemma HearingIs(s: Sys, st: Stage)
    requires InvAt(s, st) && Next(s, Hear).Some?
    ensures st.Raised?
    ensures Next(s, Hear).value == s.(events := [], cb := if EventFits(st.e) then Arrived(Seen(st.e)) else Departed)
  {
    OneEventQueued(s.events, st.e, EventMsg(st.e));
  }

  lemma OneEventQueued(q: seq<Msg>, e: Event, m: Msg)
    requires |e.data| < TWO32 && m == EventMsg(e) && q == [m]
    ensures ReadEvent(q[0]) == Some(Seen(e)) && q[1..] == [] && (Fits(q[0]) <==> EventFits(e))
  {
    EventRoundTrip(e);
  }

  lemma EnterKeeps(s: Sys, st: Stage)
    requires InvAt(s, st) && Next(s, Enter).Some?
    ensures st.Heard? && InvAt(Next(s, Enter).value, After(s, st, Enter))
  {
    AppsStay(s, st, Next(s, Enter).value, After(s, st, Enter));
  }

  lemma DeliverKeeps(s: Sys, st: Stage)
    requires InvAt(s, st) && Next(s, Deliver).Some?
    ensures st.Inside? && InvAt(Next(s, Deliver).value, After(s, st, Deliver))
  {
    AppsStay(s, st, Next(s, Deliver).value, After(s, st, Deliver));
  }

  lemma CallbackReturnsKeeps(s: Sys, st: Stage, ret: int32)
    requires InvAt(s, st) && Next(s, CallbackReturns(ret)).Some?
    ensures st.InCall? && InvAt(Next(s, CallbackReturns(ret)).value, After(s, st, CallbackReturns(ret)))
  {
    AppsStay(s, st, Next(s, CallbackReturns(ret)).value, After(s, st, CallbackReturns(ret)));
  }

  lemma ReplyKeeps(s: Sys, st: Stage)
    requires InvAt(s, st) && Next(s, Reply).Some?
    ensures st.Replied? && InvAt(Next(s, Reply).value, After(s, st, Reply))
  {
    AppsStay(s, st, Next(s, Reply).value, After(s, st, Reply));
  }

  /** Every step any thread can take leads to the stage it should. */
  lemma StepKeeps(s: Sys, st: Stage, step: Step)
    requires InvAt(s, st) && Next(s, step).Some?
    ensures InvAt(Next(s, step).value, After(s, st, step))
  {
    match step {
      case TakeCbLock(i) => TakeCbLockKeeps(s, st, i);
      case MakeNote(i) => MakeNoteKeeps(s, st, i);
      case TakeRpcLock(i) => TakeRpcLockKeeps(s, st, i);
      case Send(i) => SendKeeps(s, st, i);
      case Receive(i) => ReceiveKeeps(s, st, i);
      case Return(i) => ReturnKeeps(s, st, i);
      case FindGone(i) => FindGoneKeeps(s, st, i);
      case Read(made) => ReadKeeps(s, st, made);
      case Raise(e) => RaiseKeeps(s, st, e);
      case Finish(v, err, extra) => FinishKeeps(s, st, v, err, extra);
      case Resume => ResumeKeeps(s, st);
      case Hear => HearKeeps(s, st);
      case Enter => EnterKeeps(s, st);
      case Deliver => DeliverKeeps(s, st);
      case CallbackReturns(ret) => CallbackReturnsKeeps(s, st, ret);
      case Reply => ReplyKeeps(s, st);
    }
  }

  predicate AllTyped(programs: seq<seq<Call>>) {
    forall i :: 0 <= i < |programs| ==> forall c :: c in programs[i] ==> Typed(c)
  }

  lemma InitAtRest(programs: seq<seq<Call>>, table: seq<Host.Entry>, mem: map<nat, seq<byte>>)
    requires AllTyped(programs)
    ensures InvAt(Init(programs, table, mem), Quiet)
  {
    var s := Init(programs, table, mem);
    forall i | 0 <= i < |s.apps| ensures AppOk(s, Quiet, i) {
    }
  }

  /** The stage a run ends at. */
  function Reached(s: Sys, st: Stage, steps: seq<Step>): Stage
    decreases |steps|
  {
    if steps == [] || Next(s, steps[0]).None? then st
    else Reached(Next(s, steps[0]).value, After(s, st, steps[0]), steps[1..])
  }

  /** So do whole runs. */
  lemma {:induction false} RunKeeps(s: Sys, st: Stage, steps: seq<Step>)
    requires InvAt(s, st) && Run(s, steps).Some?
    ensures InvAt(Run(s, steps).value, Reached(s, st, steps))
    decreases |steps|
  {
    if steps != [] {
      StepKeeps(s, st, steps[0]);
      RunKeeps(Next(s, steps[0]).value, After(s, st, steps[0]), steps[1..]);
    }
  }

  /** At most one message is on its way, and only while the RPC lock is held: from any start,
      after any run. */
  lemma OneInFlight(programs: seq<seq<Call>>, table: seq<Host.Entry>, mem: map<nat, seq<byte>>, steps: seq<Step>)
    requires AllTyped(programs) && Run(Init(programs, table, mem), steps).Some?
    ensures var t := Run(Init(programs, table, mem), steps).value;
      && |t.toBridge| + |t.toShim| + |t.events| + |t.replies| <= 1
      && (|t.toBridge| + |t.toShim| + |t.events| + |t.replies| == 1 ==> t.rpcLock.Some?)
  {
    InitAtRest(programs, table, mem);
    RunKeeps(Init(programs, table, mem), Quiet, steps);
  }
}
