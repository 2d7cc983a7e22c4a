/** Rules for an application's threads under which no sample is ever lost, however they are
    scheduled, and a run that breaks them and loses some. */
module ProtocolGentle {
  import opened Bytes
  import opened Events
  import opened Slots
  import opened Protocol
  import opened ProtocolInvariant
  import opened ProtocolHistory
  import opened ProtocolBreaks
  import opened ProtocolAudio
  import opened ProtocolLimits
  import Host = CallbackTable
  import Bridge = ClientState

  // -------------------------------------------------------------- the agreed buffer size

  ghost predicate HasCallback(table: seq<Host.Entry>, h: uint32) {
    Host.Lookup(table, h).Some? && Host.Lookup(table, h).value.callback.Some?
  }

  /** The host has a buffer for at least `n` samples on record for the handle. */
  ghost predicate HasRoom(table: seq<Host.Entry>, h: uint32, n: int) {
    Host.Lookup(table, h).Some? && Host.Lookup(table, h).value.buffer.Some? && Host.Lookup(table, h).value.size >= n
  }

  ghost predicate CallbackAgreed(table: seq<Host.Entry>, engines: map<uint32, Engine>, h: uint32) {
    h in engines && engines[h].hasCallback ==> HasCallback(table, h)
  }

  ghost predicate RoomAgreed(table: seq<Host.Entry>, engines: map<uint32, Engine>, h: uint32) {
    h in engines && engines[h].buffer.Some? ==> HasRoom(table, h, engines[h].buffer.value)
  }

  /** All other threads have made their calls. */
  predicate Alone(s: Sys, i: nat) {
    i < |s.apps| && forall k :: 0 <= k < |s.apps| && k != i ==> s.apps[k] == App(Ready, [])
  }

  predicate RenewingAt(s: Sys, i: nat, h: uint32) {
    && Alone(s, i) && s.apps[i].calls != []
    && (s.apps[i].pc.Wanting? || s.apps[i].pc.Locked? || s.apps[i].pc.Waiting?)
    && s.apps[i].calls[0].SetOutputBuffer? && s.apps[i].calls[0].handle == h
  }

  /** The only thread left has put a new buffer on record and the bridge has yet to hear of
      it: until then no engine is at work. After the end of the connection none is either. */
  ghost predicate Renewing(s: Sys, st: Stage, h: uint32) {
    st.GivenUp? || ((st.Quiet? || st.Taken? || st.Asked? || st.Refused?) && exists i :: RenewingAt(s, i, h))
  }

  /** What the call in progress announces to the bridge is on record with the host. */
  ghost predicate CallAgreed(table: seq<Host.Entry>, c: Call) {
    match c
    case SetOutputBuffer(h, n, _, _) => HasRoom(table, h, n)
    case RegisterCallback(h, _, _, _) => HasCallback(table, h)
    case Plain(_, _, _) => true
  }

  ghost predicate AppAgreed(table: seq<Host.Entry>, a: App) {
    a.calls != [] && !a.pc.Ready? && !a.pc.Changing? ==> CallAgreed(table, a.calls[0])
  }

  ghost predicate EventAgreed(table: seq<Host.Entry>, e: Event) {
    HasCallback(table, e.handle) && (e.data != [] ==> HasRoom(table, e.handle, e.lparam))
  }

  ghost predicate Agreed(s: Sys, st: Stage) {
    && Host.Inv(s.table)
    && (forall h: uint32 :: Registered(s.table, s.mem, h))
    && (forall h: uint32 :: CallbackAgreed(s.table, s.engines, h))
    && (forall h: uint32 :: RoomAgreed(s.table, s.engines, h) || Renewing(s, st, h))
    && (forall i :: 0 <= i < |s.apps| ==> AppAgreed(s.table, s.apps[i]))
    && (Pending(st) ==> Samples(st.e))
    && (st.Raised? || st.Heard? || st.Inside? ==> EventAgreed(s.table, st.e))
    && (st.InCall? ==> s.cb.Calling? && s.cb.heard == st.e.data)
    && AllHeard(s.hist)
  }

  /** A thread keeps to the rules: real buffers, a callback that is not taken back, at most 64
      handles, and while other threads still have calls to make no buffer smaller than the
      handle's last one. */
  ghost predicate GentleCall(s: Sys, i: nat, c: Call) {
    && (Noted(c) ==> Host.Holds(s.table, c.handle) || Host.Room(s.table))
    && match c
       case SetOutputBuffer(h, n, b, _) => b.Some? && RealBuffer(s.mem, b, n) && (Alone(s, i) || NoSmaller(s.table, c))
       case RegisterCallback(_, cb, _, _) => cb.Some?
       case Plain(_, _, _) => true
  }

  ghost predicate NoSmaller(table: seq<Host.Entry>, c: Call) {
    c.SetOutputBuffer? && Host.Holds(table, c.handle) && Host.Lookup(table, c.handle).value.buffer.Some? ==>
      Host.Lookup(table, c.handle).value.size <= c.size
  }

  ghost predicate Gentle(s: Sys, step: Step) {
    step.MakeNote? && step.i < |s.apps| && s.apps[step.i].calls != [] ==> GentleCall(s, step.i, s.apps[step.i].calls[0])
  }

  ghost predicate GentleRun(s: Sys, steps: seq<Step>)
    decreases |steps|
  {
    steps == [] || (Gentle(s, steps[0]) && (Next(s, steps[0]).Some? ==> GentleRun(Next(s, steps[0]).value, steps[1..])))
  }

  // ------------------------------------------------------------------ notes only add

  /** A note that keeps to the rules takes nothing away from any handle, but for the size of
      a buffer that is made smaller. */
  lemma NoteAdds(s: Sys, i: nat, c: Call, h: uint32, n: int)
    requires Host.Inv(s.table) && Noted(c) && GentleCall(s, i, c)
    ensures var table := Host.Upsert(s.table, c.handle, Note(c));
      && (HasCallback(s.table, h) ==> HasCallback(table, h))
      && (HasRoom(s.table, h, n) && (h != c.handle || NoSmaller(s.table, c)) ==> HasRoom(table, h, n))
      && CallAgreed(table, c)
      && (Registered(s.table, s.mem, h) ==> Registered(table, s.mem, h))
  {
    Host.UpsertRefines(s.table, c.handle, Note(c), h);
    Host.UpsertRefines(s.table, c.handle, Note(c), c.handle);
  }

  /** While some thread notes a call nobody else is alone. */
  lemma NotRenewing(s: Sys, st: Stage, i: nat, h: uint32)
    requires i < |s.apps| && s.apps[i].calls != [] && (s.apps[i].pc.Changing? || s.apps[i].pc.Ready?) && !st.GivenUp?
    ensures !Renewing(s, st, h)
  {
  }

  lemma AloneIsQuiet(s: Sys, st: Stage, i: nat)
    requires InvAt(s, st) && s.connected && Alone(s, i) && s.apps[i].pc.Changing?
    ensures st.Quiet?
  {
    assert AppOk(s, st, i);
  }

  lemma NoteKeepsHandle(s: Sys, st: Stage, i: nat, c: Call, t: Sys, h: uint32)
    requires InvAt(s, st) && Agreed(s, st) && Next(s, MakeNote(i)) == Some(t) && c == s.apps[i].calls[0] && GentleCall(s, i, c)
    ensures Registered(t.table, t.mem, h) && CallbackAgreed(t.table, t.engines, h)
    ensures RoomAgreed(t.table, t.engines, h) || Renewing(t, st, h)
  {
    assert Registered(s.table, s.mem, h) && CallbackAgreed(s.table, s.engines, h);
    NotRenewing(s, st, i, h);
    assert RoomAgreed(s.table, s.engines, h) || Renewing(s, st, h);
    NoteAdds(s, i, c, h, if h in s.engines && s.engines[h].buffer.Some? then s.engines[h].buffer.value else 0);
    if Alone(s, i) && c.SetOutputBuffer? && h == c.handle {
      AloneIsQuiet(s, st, i);
      assert RenewingAt(t, i, h);
    }
  }

  lemma MakeNoteAgrees(s: Sys, st: Stage, i: nat)
    requires InvAt(s, st) && Agreed(s, st) && Next(s, MakeNote(i)).Some? && Gentle(s, MakeNote(i))
    ensures Agreed(Next(s, MakeNote(i)).value, st)
  {
    var t, c := Next(s, MakeNote(i)).value, s.apps[i].calls[0];
    Host.UpsertKeepsInv(s.table, c.handle, Note(c));
    forall h: uint32
      ensures Registered(t.table, t.mem, h) && CallbackAgreed(t.table, t.engines, h)
      ensures RoomAgreed(t.table, t.engines, h) || Renewing(t, st, h)
    {
      NoteKeepsHandle(s, st, i, c, t, h);
    }
    NoteAdds(s, i, c, c.handle, 0);
    forall k | 0 <= k < |t.apps| ensures AppAgreed(t.table, t.apps[k]) {
      assert AppAgreed(s.table, s.apps[k]);
      NoteKeepsCall(s, i, c, k);
    }
    if Pending(st) {
      NotAloneWhilePending(s, st, i);
      NoteAdds(s, i, c, st.e.handle, st.e.lparam);
    }
  }

  lemma NotAloneWhilePending(s: Sys, st: Stage, i: nat)
    requires InvAt(s, st) && Pending(st) && i < |s.apps| && s.apps[i].pc.Changing?
    ensures !Alone(s, i)
  {
    assert AppOk(s, st, i) && AppOk(s, st, st.o);
  }

  lemma NoteKeepsCall(s: Sys, i: nat, c: Call, k: nat)
    requires Host.Inv(s.table) && Noted(c) && GentleCall(s, i, c) && k < |s.apps| && AppAgreed(s.table, s.apps[k])
    ensures k != i ==> AppAgreed(Host.Upsert(s.table, c.handle, Note(c)), s.apps[k])
  {
    var a := s.apps[k];
    if k != i && a.calls != [] && Noted(a.calls[0]) {
      var d := a.calls[0];
      NoteAdds(s, i, c, d.handle, if d.SetOutputBuffer? then d.size else 0);
    }
  }

  // ---------------------------------------------------------------- the bridge's side

  lemma BeforeAgrees(s: Sys, c: Call, r: Bridge.Request, h: uint32)
    requires CallbackAgreed(s.table, s.engines, h) && CallAgreed(s.table, c)
    requires RoomAgreed(s.table, s.engines, h) || (c.SetOutputBuffer? && c.handle == h)
    requires c.SetOutputBuffer? ==> r == Bridge.SetOutputBuffer(c.handle, c.size)
    requires c.RegisterCallback? ==> r == Bridge.RegisterCallback(c.handle)
    requires c.Plain? ==> !r.SetOutputBuffer? && !r.RegisterCallback?
    ensures CallbackAgreed(s.table, Before(s, r).0, h) && RoomAgreed(s.table, Before(s, r).0, h)
  {
  }

  lemma RenewingIsAsked(s: Sys, st: Stage, h: uint32)
    requires InvAt(s, st) && st.Asked? && Renewing(s, st, h)
    ensures s.apps[st.o].calls[0].SetOutputBuffer? && s.apps[st.o].calls[0].handle == h
  {
    assert AppOk(s, st, st.o);
  }

  lemma ReadAgreesAt(s: Sys, st: Stage, c: Call, r: Bridge.Request, h: uint32)
    requires InvAt(s, st) && Agreed(s, st) && st.Asked? && c == s.apps[st.o].calls[0] && CallAgreed(s.table, c)
    requires c.SetOutputBuffer? ==> r == Bridge.SetOutputBuffer(c.handle, c.size)
    requires c.RegisterCallback? ==> r == Bridge.RegisterCallback(c.handle)
    requires c.Plain? ==> !r.SetOutputBuffer? && !r.RegisterCallback?
    ensures CallbackAgreed(s.table, Before(s, r).0, h) && RoomAgreed(s.table, Before(s, r).0, h)
  {
    assert CallbackAgreed(s.table, s.engines, h);
    if Renewing(s, st, h) {
      RenewingIsAsked(s, st, h);
    } else {
      assert RoomAgreed(s.table, s.engines, h) || Renewing(s, st, h);
    }
    BeforeAgrees(s, c, r, h);
  }

  lemma RefusedAgrees(s: Sys, st: Stage, t: Sys)
    requires InvAt(s, st) && Agreed(s, st) && st.Asked? && t.apps == s.apps
    requires t.table == s.table && t.mem == s.mem && t.engines == s.engines && t.hist == s.hist
    ensures Agreed(t, Refused(st.o, st.number))
  {
    var u := Refused(st.o, st.number);
    assert AppOk(s, st, st.o);
    forall h: uint32 | Renewing(s, st, h) ensures Renewing(t, u, h) {
      RenewingGoesOn(s, st, t, u, st.o, h);
    }
    SameAgreement(s, st, t, u);
  }

  lemma ReadAgrees(s: Sys, st: Stage, made: nat)
    requires InvAt(s, st) && Agreed(s, st) && Next(s, Read(made)).Some?
    ensures Agreed(Next(s, Read(made)).value, After(s, st, Read(made)))
  {
    ReadKeeps(s, st, made);
    var t, c := Next(s, Read(made)).value, s.apps[st.o].calls[0];
    assert AppOk(s, st, st.o) && AppAgreed(s.table, s.apps[st.o]);
    if Sendable(c) {
      RequestArrives(st.number, c, made);
      forall h: uint32 ensures CallbackAgreed(t.table, t.engines, h) && RoomAgreed(t.table, t.engines, h) {
        ReadAgreesAt(s, st, c, AsRequest(s.toBridge[0], made), h);
      }
    } else {
      RefusedAgrees(s, st, t);
    }
  }

  /** What the engine may raise fits what the host has on record. */
  lemma RaisedAgrees(s: Sys, st: Stage, e: Event)
    requires Agreed(s, st) && st.Dispatching? && MayRaise(s, e)
    requires e.handle in s.engines && s.engines[e.handle].hasCallback
    ensures Samples(e) && EventAgreed(s.table, e)
  {
    assert CallbackAgreed(s.table, s.engines, e.handle);
    assert RoomAgreed(s.table, s.engines, e.handle) || Renewing(s, st, e.handle);
  }

  lemma OneMoreSent(h: History, e: Event)
    requires AllHeard(h) && |h.handled| <= |h.sent|
    ensures AllHeard(h.(sent := h.sent + [e]))
  {
  }

  lemma RaiseAgrees(s: Sys, st: Stage, e: Event)
    requires InvAt(s, st) && Agreed(s, st) && Delivery(s, st) && Next(s, Raise(e)).Some?
    ensures Agreed(Next(s, Raise(e)).value, After(s, st, Raise(e)))
  {
    RaiseKeeps(s, st, e);
    var t, u := Next(s, Raise(e)).value, After(s, st, Raise(e));
    if u.Raised? {
      RaisedAgrees(s, st, e);
      OneMoreSent(s.hist, e);
      SentAgrees(s, st, t, u, e);
    } else {
      SameAgreement(s, st, t, u);
    }
  }

  lemma SentAgrees(s: Sys, st: Stage, t: Sys, u: Stage, e: Event)
    requires Agreed(s, st) && st.Dispatching? && u.Raised? && u.e == e
    requires t.table == s.table && t.mem == s.mem && t.engines == s.engines && t.apps == s.apps
    requires AllHeard(t.hist) && Samples(e) && EventAgreed(s.table, e)
    ensures Agreed(t, u)
  {
    forall h: uint32 ensures RoomAgreed(t.table, t.engines, h) {
      assert RoomAgreed(s.table, s.engines, h) || Renewing(s, st, h);
    }
  }

  lemma FinishAgrees(s: Sys, st: Stage, v: int32, err: uint16, extra: seq<byte>)
    requires InvAt(s, st) && Agreed(s, st) && Next(s, Finish(v, err, extra)).Some?
    ensures Agreed(Next(s, Finish(v, err, extra)).value, After(s, st, Finish(v, err, extra)))
  {
    FinishKeeps(s, st, v, err, extra);
    var t := Next(s, Finish(v, err, extra)).value;
    forall h: uint32 ensures CallbackAgreed(t.table, t.engines, h) && RoomAgreed(t.table, t.engines, h) {
      assert CallbackAgreed(s.table, s.engines, h);
      assert RoomAgreed(s.table, s.engines, h) || Renewing(s, st, h);
    }
  }

  // ------------------------------------------------------------------- the host's side

  lemma DeliverAgrees(s: Sys, st: Stage)
    requires InvAt(s, st) && Agreed(s, st) && Next(s, Deliver).Some?
    ensures Agreed(Next(s, Deliver).value, After(s, st, Deliver))
  {
    DeliverKeeps(s, st);
    var t, e := Next(s, Deliver).value, st.e;
    var r := Host.Lookup(s.table, e.handle).value;
    forall h: uint32 ensures Registered(t.table, t.mem, h) {
      assert Registered(s.table, s.mem, h);
      CopyKeepsBuffers(s, Seen(e), r, h);
    }
    assert Registered(s.table, s.mem, e.handle);
    FoundAll(s, e, r);
  }

  lemma FoundAll(s: Sys, e: Event, r: Host.Registration)
    requires EventFits(e) && Samples(e) && RealBuffer(s.mem, r.buffer, r.size)
    requires e.data != [] ==> r.buffer.Some? && r.size >= e.lparam
    ensures Found(Copied(s.mem, Seen(e), r), Seen(e), r) == e.data
  {
    if e.data != [] {
      HeardExactlyIff(s, e, r);
    }
  }

  lemma CallbackReturnsAgrees(s: Sys, st: Stage, ret: int32)
    requires InvAt(s, st) && Agreed(s, st) && Delivery(s, st) && Next(s, CallbackReturns(ret)).Some?
    ensures Agreed(Next(s, CallbackReturns(ret)).value, After(s, st, CallbackReturns(ret)))
  {
    CallbackReturnsKeeps(s, st, ret);
    var t := Next(s, CallbackReturns(ret)).value;
    forall k | 0 <= k < |t.hist.handled| && k < |t.hist.sent| ensures t.hist.handled[k].heard == Some(t.hist.sent[k].data) {
      assert k < |s.hist.handled| ==> s.hist.handled[k].heard == Some(s.hist.sent[k].data);
    }
  }

  /** Nothing that matters to the samples has changed, but perhaps where one thread is. */
  lemma SameAgreement(s: Sys, st: Stage, t: Sys, u: Stage)
    requires Agreed(s, st) && t.table == s.table && t.mem == s.mem && t.engines == s.engines
    requires t.hist.handled == s.hist.handled && t.hist.sent == s.hist.sent
    requires |t.apps| == |s.apps| && forall i :: 0 <= i < |t.apps| ==> AppAgreed(s.table, s.apps[i]) ==> AppAgreed(t.table, t.apps[i])
    requires Pending(u) ==> Pending(st) && u.e == st.e
    requires u.Raised? || u.Heard? || u.Inside? ==> st.Raised? || st.Heard? || st.Inside?
    requires u.InCall? ==> st.InCall? && t.cb == s.cb
    requires forall h: uint32 :: Renewing(s, st, h) ==> Renewing(t, u, h)
    ensures Agreed(t, u)
  {
    forall h: uint32 ensures RoomAgreed(t.table, t.engines, h) || Renewing(t, u, h) {
      assert RoomAgreed(s.table, s.engines, h) || Renewing(s, st, h);
    }
  }

  /** A thread that moves on with its note keeps the buffer under renewal. */
  lemma RenewingGoesOn(s: Sys, st: Stage, t: Sys, u: Stage, i: nat, h: uint32)
    requires i < |s.apps| == |t.apps| && t.apps == s.apps[i := t.apps[i]]
    requires s.apps[i].calls != [] && t.apps[i].calls == s.apps[i].calls
    requires t.apps[i].pc.Locked? || t.apps[i].pc.Waiting? || s.apps[i].pc.Ready?
    requires u.Quiet? || u.Taken? || u.Asked? || u.Refused? || s.apps[i].pc.Ready?
    requires Renewing(s, st, h) && !st.GivenUp?
    ensures Renewing(t, u, h)
  {
    var k :| RenewingAt(s, k, h);
    assert RenewingAt(t, k, h);
  }

  lemma ThreadStepAgrees(s: Sys, st: Stage, step: Step)
    requires InvAt(s, st) && Agreed(s, st) && Next(s, step).Some?
    requires step.TakeCbLock? || step.TakeRpcLock? || step.Send?
    ensures Agreed(Next(s, step).value, After(s, st, step))
  {
    assert AppOk(s, st, step.i);
    if step.TakeRpcLock? {
      TakeRpcLockKeeps(s, st, step.i);
    }
    forall h: uint32 | Renewing(s, st, h) ensures Renewing(Next(s, step).value, After(s, st, step), h) {
      RenewingGoesOn(s, st, Next(s, step).value, After(s, st, step), step.i, h);
    }
    SameAgreement(s, st, Next(s, step).value, After(s, st, step));
  }

  lemma ReplyStepAgrees(s: Sys, st: Stage, step: Step)
    requires InvAt(s, st) && Agreed(s, st) && Next(s, step).Some?
    requires step.Receive? || step.FindGone?
    ensures Agreed(Next(s, step).value, After(s, st, step))
  {
    assert AppOk(s, st, step.i);
    if step.Receive? {
      ReceiveKeeps(s, st, step.i);
    } else {
      FindGoneKeeps(s, st, step.i);
    }
    SameAgreement(s, st, Next(s, step).value, After(s, st, step));
  }

  lemma ReturnAgrees(s: Sys, st: Stage, i: nat)
    requires InvAt(s, st) && Agreed(s, st) && Next(s, Return(i)).Some?
    ensures Agreed(Next(s, Return(i)).value, Quiet)
  {
    assert AppOk(s, st, i);
    ReturnKeeps(s, st, i);
    SameAgreement(s, st, Next(s, Return(i)).value, Quiet);
  }

  lemma ChannelStepAgrees(s: Sys, st: Stage, step: Step)
    requires InvAt(s, st) && Agreed(s, st) && Next(s, step).Some?
    requires step.Resume? || step.Enter? || step.Reply?
    ensures Agreed(Next(s, step).value, After(s, st, step))
  {
    SameAgreement(s, st, Next(s, step).value, After(s, st, step));
  }

  lemma HearAgrees(s: Sys, st: Stage)
    requires InvAt(s, st) && Agreed(s, st) && Next(s, Hear).Some?
    ensures Agreed(Next(s, Hear).value, After(s, st, Hear))
  {
    HearingIs(s, st);
    SameAgreement(s, st, Next(s, Hear).value, After(s, st, Hear));
  }

  predicate BridgeStep(step: Step) {
    step.Read? || step.Raise? || step.Finish? || step.Resume?
  }

  predicate HostStep(step: Step) {
    step.Hear? || step.Enter? || step.Deliver? || step.CallbackReturns? || step.Reply?
  }

  lemma BridgeStepAgrees(s: Sys, st: Stage, step: Step)
    requires InvAt(s, st) && Agreed(s, st) && Delivery(s, st) && Next(s, step).Some? && BridgeStep(step)
    ensures Agreed(Next(s, step).value, After(s, st, step))
  {
    match step {
      case Read(made) => ReadAgrees(s, st, made);
      case Raise(e) => RaiseAgrees(s, st, e);
      case Finish(v, err, extra) => FinishAgrees(s, st, v, err, extra);
      case Resume => ChannelStepAgrees(s, st, step);
    }
  }

  lemma HostStepAgrees(s: Sys, st: Stage, step: Step)
    requires InvAt(s, st) && Agreed(s, st) && Delivery(s, st) && Next(s, step).Some? && HostStep(step)
    ensures Agreed(Next(s, step).value, After(s, st, step))
  {
    match step {
      case Hear => HearAgrees(s, st);
      case Enter => ChannelStepAgrees(s, st, step);
      case Deliver => DeliverAgrees(s, st);
      case CallbackReturns(ret) => CallbackReturnsAgrees(s, st, ret);
      case Reply => ChannelStepAgrees(s, st, step);
    }
  }

  lemma AppStepAgrees(s: Sys, st: Stage, step: Step)
    requires InvAt(s, st) && Agreed(s, st) && Next(s, step).Some? && Gentle(s, step) && !BridgeStep(step) && !HostStep(step)
    ensures Agreed(Next(s, step).value, After(s, st, step))
  {
    match step {
      case TakeCbLock(_) => ThreadStepAgrees(s, st, step);
      case MakeNote(i) => MakeNoteAgrees(s, st, i);
      case TakeRpcLock(_) => ThreadStepAgrees(s, st, step);
      case Send(_) => ThreadStepAgrees(s, st, step);
      case Receive(_) => ReplyStepAgrees(s, st, step);
      case Return(i) => ReturnAgrees(s, st, i);
      case FindGone(_) => ReplyStepAgrees(s, st, step);
    }
  }

  lemma StepAgrees(s: Sys, st: Stage, step: Step)
    requires InvAt(s, st) && Agreed(s, st) && Delivery(s, st) && Next(s, step).Some? && Gentle(s, step)
    ensures Agreed(Next(s, step).value, After(s, st, step))
  {
    if BridgeStep(step) {
      BridgeStepAgrees(s, st, step);
    } else if HostStep(step) {
      HostStepAgrees(s, st, step);
    } else {
      AppStepAgrees(s, st, step);
    }
  }

  lemma {:induction false} RunAgrees(s: Sys, st: Stage, steps: seq<Step>)
    requires InvAt(s, st) && Agreed(s, st) && Delivery(s, st) && Run(s, steps).Some? && GentleRun(s, steps)
    ensures Agreed(Run(s, steps).value, Reached(s, st, steps))
    decreases |steps|
  {
    if steps != [] {
      StepKeeps(s, st, steps[0]);
      StepDelivers(s, st, steps[0]);
      StepAgrees(s, st, steps[0]);
      RunAgrees(Next(s, steps[0]).value, After(s, st, steps[0]), steps[1..]);
    }
  }

  // -------------------------------------------------------------- nothing is ever lost

  /** As long as the threads keep to the rules every delivery is in full, and so what every
      callback has accumulated is what its engine has produced. */
  lemma GentleRunsAreInFull(programs: seq<seq<Call>>, table: seq<Host.Entry>, mem: map<nat, seq<byte>>, steps: seq<Step>)
    requires AllTyped(programs) && StartsEmpty(table)
    requires var s := Init(programs, table, mem); Run(s, steps).Some? && GentleRun(s, steps)
    ensures InFullRun(Init(programs, table, mem), steps)
  {
    var s := Init(programs, table, mem);
    InitAtRest(programs, table, mem);
    InitAgreed(programs, table, mem);
    RunKeeps(s, Quiet, steps);
    RunAgrees(s, Quiet, steps);
    AllHeardIff(programs, table, mem, steps);
  }

  lemma InitAgreed(programs: seq<seq<Call>>, table: seq<Host.Entry>, mem: map<nat, seq<byte>>)
    requires StartsEmpty(table)
    ensures Agreed(Init(programs, table, mem), Quiet)
  {
    EmptyTableReal(table);
  }

  predicate Smaller(s: Sys, c: Call, e: Event) {
    && c.SetOutputBuffer? && c.handle == e.handle && c.buffer.Some? && RealBuffer(s.mem, c.buffer, c.size)
    && 2 * c.size < |e.data| <= |s.mem[c.buffer.value]|
    && s.mem[c.buffer.value][2 * c.size..|e.data|] != e.data[2 * c.size..]
  }

  /** The rule against shrinking is needed: while an event is under way another thread may put
      a smaller buffer on record, and the callback then finds fewer samples than the engine
      produced. */
  lemma ShrinkingLosesSamples(s: Sys, st: Stage, i: nat)
    requires InvAt(s, st) && st.Heard? && Samples(st.e) && st.e.data != []
    requires Host.Inv(s.table) && HasCallback(s.table, st.e.handle)
    requires i < |s.apps| && s.apps[i].pc.Changing? && s.apps[i].calls != [] && Smaller(s, s.apps[i].calls[0], st.e)
    ensures var t := Run(s, [MakeNote(i), Enter, Deliver]);
      t.Some? && t.value.cb.Calling? && t.value.cb.heard != st.e.data && t.value.cb.a == Seen(st.e)
  {
    SmallerOnRecord(s, st, i);
    var t := Next(s, MakeNote(i)).value;
    MakeNoteKeeps(s, st, i);
    EnterWith(t, st);
    var u := Next(t, Enter).value;
    HeardTooLittle(u, st.e, s.apps[i].calls[0]);
    RunOfThree(s, MakeNote(i), Enter, Deliver);
  }

  lemma SmallerOnRecord(s: Sys, st: Stage, i: nat)
    requires InvAt(s, st) && s.connected && Host.Inv(s.table)
    requires i < |s.apps| && s.apps[i].pc.Changing? && s.apps[i].calls != [] && s.apps[i].calls[0].SetOutputBuffer?
    requires HasCallback(s.table, s.apps[i].calls[0].handle)
    ensures var c := s.apps[i].calls[0];
      && Next(s, MakeNote(i)).Some?
      && (var t := Next(s, MakeNote(i)).value;
          t.mem == s.mem && t.cbLock == None && t.cb == s.cb && OnRecord(t.table, c))
  {
    assert AppOk(s, st, i);
    var c := s.apps[i].calls[0];
    Host.UpsertRefines(s.table, c.handle, Note(c), c.handle);
  }

  predicate OnRecord(table: seq<Host.Entry>, c: Call)
    requires c.SetOutputBuffer?
  {
    var r := Host.Lookup(table, c.handle);
    r.Some? && r.value.callback.Some? && r.value.buffer == c.buffer && r.value.size == c.size
  }

  lemma EnterWith(t: Sys, st: Stage)
    requires InvAt(t, st) && st.Heard? && t.cbLock == None
    ensures Next(t, Enter).Some?
    ensures var u := Next(t, Enter).value; u.mem == t.mem && u.table == t.table && u.cb == Entered(Seen(st.e)) && u.connected
  {
  }

  lemma HeardTooLittle(u: Sys, e: Event, c: Call)
    requires EventFits(e) && Samples(e) && e.data != [] && Smaller(u, c, e) && OnRecord(u.table, c)
    requires u.connected && u.cb == Entered(Seen(e))
    ensures Next(u, Deliver).Some?
    ensures var v := Next(u, Deliver).value; v.cb.Calling? && v.cb.heard != e.data && v.cb.a == Seen(e)
  {
    HeardExactlyIff(u, e, Host.Lookup(u.table, c.handle).value);
  }

  lemma RunOfThree(s: Sys, a: Step, b: Step, c: Step)
    requires Next(s, a).Some? && Next(Next(s, a).value, b).Some?
    ensures Run(s, [a, b, c]) == Next(Next(Next(s, a).value, b).value, c)
  {
    RunOfTwo(Next(s, a).value, b, c);
    assert [a, b, c][1..] == [b, c];
  }

  lemma RunOfTwo(s: Sys, b: Step, c: Step)
    requires Next(s, b).Some?
    ensures Run(s, [b, c]) == Next(Next(s, b).value, c)
  {
    assert [b, c][1..] == [c] && [c][1..] == [];
    var t := Next(Next(s, b).value, c);
    assert t.Some? ==> Run(t.value, []) == t;
    assert Run(Next(s, b).value, [c]) == t;
  }
}
