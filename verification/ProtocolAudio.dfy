/** The engine's samples on their way into the application's buffer: exactly when they all
    arrive, for any threads, schedules and buffers. */
module ProtocolAudio {
  import opened Bytes
  import opened Events
  import opened Protocol
  import opened ProtocolInvariant
  import opened ProtocolHistory
  import Host = CallbackTable

  // ---------------------------------------------------------- one event, unconditionally

  /** What the callback finds after the copy: as many samples as the buffer was said to hold,
      and behind them whatever was there before. */
  lemma FoundIs(s: Sys, e: Event, r: Host.Registration)
    requires EventFits(e) && e.msg == WAVEFORM_BUFFER && e.lparam > 0 && |e.data| == 2 * e.lparam
    requires r.buffer.Some? && r.buffer.value in s.mem && 0 <= 2 * r.size < TWO32
    requires 2 * r.size <= |s.mem[r.buffer.value]| && |e.data| <= |s.mem[r.buffer.value]|
    ensures var n := if 2 * r.size < |e.data| then 2 * r.size else |e.data|;
      Found(Copied(s.mem, Seen(e), r), Seen(e), r) == e.data[..n] + s.mem[r.buffer.value][n..|e.data|]
  {
    var n := CopyLength(Seen(e), r.size);
    var was := s.mem[r.buffer.value];
    assert Overlay(was, e.data[..n]) == e.data[..n] + was[n..];
    assert (e.data[..n] + was[n..])[..|e.data|] == e.data[..n] + was[n..|e.data|];
  }

  /** The callback hears what the engine produced exactly when the host's buffer was as large
      as the block, unless what lay in the buffer happened to be the missing samples. */
  lemma HeardExactlyIff(s: Sys, e: Event, r: Host.Registration)
    requires EventFits(e) && e.msg == WAVEFORM_BUFFER && e.lparam > 0 && |e.data| == 2 * e.lparam
    requires r.buffer.Some? && r.buffer.value in s.mem && 0 <= 2 * r.size < TWO32
    requires 2 * r.size <= |s.mem[r.buffer.value]| && |e.data| <= |s.mem[r.buffer.value]|
    ensures Found(Copied(s.mem, Seen(e), r), Seen(e), r) == e.data
       <==> 2 * r.size >= |e.data| || s.mem[r.buffer.value][2 * r.size..|e.data|] == e.data[2 * r.size..]
  {
    FoundIs(s, e, r);
    var n := if 2 * r.size < |e.data| then 2 * r.size else |e.data|;
    var tail := s.mem[r.buffer.value][n..|e.data|];
    assert e.data == e.data[..n] + e.data[n..];
    assert (e.data[..n] + tail)[n..] == tail;
  }

  // -------------------------------------------------------------- one event, in any state

  predicate Samples(e: Event) {
    if e.msg == WAVEFORM_BUFFER && e.lparam > 0 then |e.data| == 2 * e.lparam else e.data == []
  }

  /** A buffer on record is as long as its recorded size says. */
  predicate RealBuffer(mem: map<nat, seq<byte>>, b: Option<nat>, size: int32) {
    b.Some? ==> 0 <= 2 * size < TWO32 && b.value in mem && 2 * size <= |mem[b.value]|
  }

  ghost predicate Registered(table: seq<Host.Entry>, mem: map<nat, seq<byte>>, h: uint32) {
    Host.Lookup(table, h).Some? ==> RealBuffer(mem, Host.Lookup(table, h).value.buffer, Host.Lookup(table, h).value.size)
  }

  /** What lies in the buffer behind its first `n` bytes is what is missing of the block. */
  predicate StaleSame(mem: map<nat, seq<byte>>, b: nat, n: nat, data: seq<byte>) {
    b in mem && n <= |data| <= |mem[b]| && mem[b][n..|data|] == data[n..]
  }

  /** The callback will find the whole block: the host has one on record, and for samples a
      buffer as large as the block. */
  predicate WideEnough(s: Sys, a: Arrival) {
    var r := Host.Lookup(s.table, a.handle);
    && r.Some? && r.value.callback.Some?
    && (a.rest == [] || (r.value.buffer.Some? && (2 * r.value.size >= |a.rest|
                         || (2 * r.value.size >= 0 && StaleSame(s.mem, r.value.buffer.value, 2 * r.value.size, a.rest)))))
  }

  /** If this step is a delivery, the callback finds all that came. */
  predicate InFull(s: Sys, step: Step) {
    step.Deliver? && s.cb.Entered? ==>
      var a := s.cb.a;
      var r := Host.Lookup(s.table, a.handle);
      r.Some? && r.value.callback.Some? && Found(Copied(s.mem, a, r.value), a, r.value) == a.rest
  }

  lemma FoundInFullIff(s: Sys, e: Event, r: Host.Registration)
    requires EventFits(e) && Samples(e) && RealBuffer(s.mem, r.buffer, r.size)
    ensures Found(Copied(s.mem, Seen(e), r), Seen(e), r) == e.data
       <==> e.data == [] || (r.buffer.Some? && (2 * r.size >= |e.data| || StaleSame(s.mem, r.buffer.value, 2 * r.size, e.data)))
  {
    if e.data != [] && r.buffer.Some? && |e.data| <= |s.mem[r.buffer.value]| {
      HeardExactlyIff(s, e, r);
    }
  }

  lemma InFullIffWide(s: Sys, st: Stage)
    requires InvAt(s, st) && st.Inside? && Samples(st.e) && Registered(s.table, s.mem, st.e.handle)
    ensures InFull(s, Deliver) <==> WideEnough(s, Seen(st.e))
  {
    var r := Host.Lookup(s.table, st.e.handle);
    if r.Some? {
      FoundInFullIff(s, st.e, r.value);
    }
  }

  // ------------------------------------------------------------------------ whole runs

  predicate AllHeard(h: History) {
    forall k :: 0 <= k < |h.handled| && k < |h.sent| ==> h.handled[k].heard == Some(h.sent[k].data)
  }

  /** Every event so far has been heard in full, the one the callback is at included. */
  predicate HeardSoFar(s: Sys) {
    AllHeard(s.hist) && (s.cb.Calling? ==> s.cb.heard == s.cb.a.rest)
  }

  /** Every delivery of the run is in full. */
  predicate InFullRun(s: Sys, steps: seq<Step>)
    decreases |steps|
  {
    steps == [] || (InFull(s, steps[0]) && (Next(s, steps[0]).Some? ==> InFullRun(Next(s, steps[0]).value, steps[1..])))
  }

  lemma DeliverHeardIff(s: Sys, st: Stage)
    requires InvAt(s, st) && Delivery(s, st) && Next(s, Deliver).Some?
    ensures HeardSoFar(Next(s, Deliver).value) <==> HeardSoFar(s) && InFull(s, Deliver)
  {
    DeliverKeeps(s, st);
    var t := Next(s, Deliver).value;
    if t.cb.Calling? {
      assert t.hist == s.hist;
    } else {
      OneMoreHandled(s.hist, t.hist, st.e);
    }
  }

  lemma OneMoreHandled(h: History, k: History, e: Event)
    requires |h.sent| == |h.handled| + 1 && h.sent[|h.handled|] == e && k.sent == h.sent
    requires |k.handled| == |h.handled| + 1 && k.handled[..|h.handled|] == h.handled
    ensures AllHeard(k) <==> AllHeard(h) && k.handled[|h.handled|].heard == Some(e.data)
  {
    assert forall i :: 0 <= i < |h.handled| ==> k.handled[i] == k.handled[..|h.handled|][i];
  }

  lemma ReturnHeardIff(s: Sys, st: Stage, ret: int32)
    requires InvAt(s, st) && Delivery(s, st) && Next(s, CallbackReturns(ret)).Some?
    ensures HeardSoFar(Next(s, CallbackReturns(ret)).value) <==> HeardSoFar(s)
  {
    CallbackReturnsKeeps(s, st, ret);
    OneMoreHandled(s.hist, Next(s, CallbackReturns(ret)).value.hist, st.e);
  }

  lemma RaiseHeardIff(s: Sys, st: Stage, e: Event)
    requires InvAt(s, st) && Delivery(s, st) && Next(s, Raise(e)).Some?
    ensures HeardSoFar(Next(s, Raise(e)).value) <==> HeardSoFar(s)
  {
    RaiseKeeps(s, st, e);
    var t := Next(s, Raise(e)).value;
    assert forall k :: 0 <= k < |s.hist.sent| ==> t.hist.sent[k] == s.hist.sent[k];
  }

  lemma ThreadHeardIff(s: Sys, st: Stage, step: Step)
    requires InvAt(s, st) && Next(s, step).Some?
    requires step.TakeCbLock? || step.MakeNote? || step.TakeRpcLock? || step.Send? || step.Receive? || step.Return? || step.FindGone?
    ensures HeardSoFar(Next(s, step).value) <==> HeardSoFar(s)
  {
  }

  lemma OtherHeardIff(s: Sys, st: Stage, step: Step)
    requires InvAt(s, st) && Next(s, step).Some?
    requires step.Read? || step.Finish? || step.Resume? || step.Hear? || step.Enter? || step.Reply?
    ensures HeardSoFar(Next(s, step).value) <==> HeardSoFar(s)
  {
  }

  lemma StepHeardIff(s: Sys, st: Stage, step: Step)
    requires InvAt(s, st) && Delivery(s, st) && Next(s, step).Some?
    ensures HeardSoFar(Next(s, step).value) <==> HeardSoFar(s) && InFull(s, step)
  {
    match step {
      case Deliver => DeliverHeardIff(s, st);
      case CallbackReturns(ret) => ReturnHeardIff(s, st, ret);
      case Raise(e) => RaiseHeardIff(s, st, e);
      case TakeCbLock(_) => ThreadHeardIff(s, st, step);
      case MakeNote(_) => ThreadHeardIff(s, st, step);
      case TakeRpcLock(_) => ThreadHeardIff(s, st, step);
      case Send(_) => ThreadHeardIff(s, st, step);
      case Receive(_) => ThreadHeardIff(s, st, step);
      case Return(_) => ThreadHeardIff(s, st, step);
      case FindGone(_) => ThreadHeardIff(s, st, step);
      case _ => OtherHeardIff(s, st, step);
    }
  }

  lemma {:induction false} RunHeardIff(s: Sys, st: Stage, steps: seq<Step>)
    requires InvAt(s, st) && Delivery(s, st) && Run(s, steps).Some?
    ensures HeardSoFar(Run(s, steps).value) <==> HeardSoFar(s) && InFullRun(s, steps)
    decreases |steps|
  {
    if steps != [] {
      StepKeeps(s, st, steps[0]);
      StepDelivers(s, st, steps[0]);
      StepHeardIff(s, st, steps[0]);
      RunHeardIff(Next(s, steps[0]).value, After(s, st, steps[0]), steps[1..]);
    }
  }

  /** For any threads, calls, schedule and buffers: every event has been heard in full if and
      only if at every delivery the callback was on record and found all that came. */
  lemma AllHeardIff(programs: seq<seq<Call>>, table: seq<Host.Entry>, mem: map<nat, seq<byte>>, steps: seq<Step>)
    requires AllTyped(programs) && Run(Init(programs, table, mem), steps).Some?
    ensures HeardSoFar(Run(Init(programs, table, mem), steps).value) <==> InFullRun(Init(programs, table, mem), steps)
  {
    InitAtRest(programs, table, mem);
    RunHeardIff(Init(programs, table, mem), Quiet, steps);
  }

  // ----------------------------------------------------------- in terms of recorded sizes

  predicate StartsEmpty(table: seq<Host.Entry>) {
    |table| == Host.MAX_CB_HANDLES && forall i :: 0 <= i < |table| ==> table[i] == Host.BLANK
  }

  /** An output buffer an application passes is as long as it says. */
  predicate Real(s: Sys, step: Step) {
    step.MakeNote? && step.i < |s.apps| && s.apps[step.i].calls != [] && s.apps[step.i].calls[0].SetOutputBuffer? ==>
      var c := s.apps[step.i].calls[0]; RealBuffer(s.mem, c.buffer, c.size)
  }

  predicate RealRun(s: Sys, steps: seq<Step>)
    decreases |steps|
  {
    steps == [] || (Real(s, steps[0]) && (Next(s, steps[0]).Some? ==> RealRun(Next(s, steps[0]).value, steps[1..])))
  }

  /** At every delivery the size on record suffices for the block. */
  predicate WideRun(s: Sys, steps: seq<Step>)
    decreases |steps|
  {
    steps == []
    || ((steps[0].Deliver? && s.cb.Entered? ==> WideEnough(s, s.cb.a))
        && (Next(s, steps[0]).Some? ==> WideRun(Next(s, steps[0]).value, steps[1..])))
  }

  ghost predicate BuffersReal(s: Sys, st: Stage) {
    && Host.Inv(s.table) && (forall h: uint32 :: Registered(s.table, s.mem, h))
    && (Pending(st) ==> Samples(st.e))
  }

  lemma CopyKeepsBuffers(s: Sys, a: Arrival, r: Host.Registration, h: uint32)
    requires Registered(s.table, s.mem, h)
    ensures Registered(s.table, Copied(s.mem, a, r), h)
  {
  }

  lemma NoteKeepsReal(s: Sys, st: Stage, i: nat)
    requires InvAt(s, st) && BuffersReal(s, st) && Next(s, MakeNote(i)).Some? && Real(s, MakeNote(i))
    ensures BuffersReal(Next(s, MakeNote(i)).value, st)
  {
    var t, c := Next(s, MakeNote(i)).value, s.apps[i].calls[0];
    Host.UpsertKeepsInv(s.table, c.handle, Note(c));
    forall h: uint32 ensures Registered(t.table, t.mem, h) {
      assert Registered(s.table, s.mem, h);
      Host.UpsertRefines(s.table, c.handle, Note(c), h);
    }
  }

  lemma DeliverKeepsReal(s: Sys, st: Stage)
    requires InvAt(s, st) && BuffersReal(s, st) && Next(s, Deliver).Some?
    ensures BuffersReal(Next(s, Deliver).value, After(s, st, Deliver))
  {
    DeliverKeeps(s, st);
    var t := Next(s, Deliver).value;
    forall h: uint32 ensures Registered(t.table, t.mem, h) {
      assert Registered(s.table, s.mem, h);
      var r := Host.Lookup(s.table, st.e.handle);
      if r.Some? {
        CopyKeepsBuffers(s, s.cb.a, r.value, h);
      }
    }
  }

  lemma SameReal(s: Sys, st: Stage, t: Sys, u: Stage)
    requires BuffersReal(s, st) && t.table == s.table && t.mem == s.mem
    requires Pending(u) ==> Pending(st) && u.e == st.e
    ensures BuffersReal(t, u)
  {
    forall h: uint32 ensures Registered(t.table, t.mem, h) {
      assert Registered(s.table, s.mem, h);
    }
  }

  lemma RaiseKeepsReal(s: Sys, st: Stage, e: Event)
    requires InvAt(s, st) && BuffersReal(s, st) && Next(s, Raise(e)).Some?
    ensures BuffersReal(Next(s, Raise(e)).value, After(s, st, Raise(e)))
  {
    RaiseKeeps(s, st, e);
    var t := Next(s, Raise(e)).value;
    SameReal(s, st, t, Dispatching(st.o, st.number));
  }

  lemma ThreadStepKeepsReal(s: Sys, st: Stage, step: Step)
    requires InvAt(s, st) && BuffersReal(s, st) && Next(s, step).Some?
    requires step.TakeCbLock? || step.TakeRpcLock? || step.Send?
    ensures BuffersReal(Next(s, step).value, After(s, st, step))
  {
    SameReal(s, st, Next(s, step).value, After(s, st, step));
  }

  lemma AnswerStepKeepsReal(s: Sys, st: Stage, step: Step)
    requires InvAt(s, st) && BuffersReal(s, st) && Next(s, step).Some?
    requires step.Receive? || step.Return? || step.FindGone?
    ensures BuffersReal(Next(s, step).value, After(s, st, step))
  {
    SameReal(s, st, Next(s, step).value, After(s, st, step));
  }

  lemma BridgeStepKeepsReal(s: Sys, st: Stage, step: Step)
    requires InvAt(s, st) && BuffersReal(s, st) && Next(s, step).Some?
    requires step.Read? || step.Finish? || step.Resume?
    ensures BuffersReal(Next(s, step).value, After(s, st, step))
  {
    SameReal(s, st, Next(s, step).value, After(s, st, step));
  }

  lemma HostStepKeepsReal(s: Sys, st: Stage, step: Step)
    requires InvAt(s, st) && BuffersReal(s, st) && Next(s, step).Some?
    requires step.Hear? || step.Enter? || step.CallbackReturns? || step.Reply?
    ensures BuffersReal(Next(s, step).value, After(s, st, step))
  {
    if step.Hear? {
      HearingIs(s, st);
    }
    SameReal(s, st, Next(s, step).value, After(s, st, step));
  }

  lemma StepKeepsReal(s: Sys, st: Stage, step: Step)
    requires InvAt(s, st) && BuffersReal(s, st) && Next(s, step).Some? && Real(s, step)
    ensures BuffersReal(Next(s, step).value, After(s, st, step))
  {
    match step {
      case MakeNote(i) => NoteKeepsReal(s, st, i);
      case Deliver => DeliverKeepsReal(s, st);
      case Raise(e) => RaiseKeepsReal(s, st, e);
      case TakeCbLock(_) => ThreadStepKeepsReal(s, st, step);
      case TakeRpcLock(_) => ThreadStepKeepsReal(s, st, step);
      case Send(_) => ThreadStepKeepsReal(s, st, step);
      case Receive(_) => AnswerStepKeepsReal(s, st, step);
      case Return(_) => AnswerStepKeepsReal(s, st, step);
      case FindGone(_) => AnswerStepKeepsReal(s, st, step);
      case Read(_) => BridgeStepKeepsReal(s, st, step);
      case Finish(_, _, _) => BridgeStepKeepsReal(s, st, step);
      case Resume => BridgeStepKeepsReal(s, st, step);
      case _ => HostStepKeepsReal(s, st, step);
    }
  }

  lemma {:induction false} InFullRunIffWide(s: Sys, st: Stage, steps: seq<Step>)
    requires InvAt(s, st) && BuffersReal(s, st) && Run(s, steps).Some? && RealRun(s, steps)
    ensures InFullRun(s, steps) <==> WideRun(s, steps)
    decreases |steps|
  {
    if steps != [] {
      var step := steps[0];
      if step.Deliver? {
        DeliverKeeps(s, st);
        assert Registered(s.table, s.mem, st.e.handle);
        InFullIffWide(s, st);
      }
      StepKeeps(s, st, step);
      StepKeepsReal(s, st, step);
      InFullRunIffWide(Next(s, step).value, After(s, st, step), steps[1..]);
    }
  }

  lemma EmptyTableReal(table: seq<Host.Entry>)
    requires StartsEmpty(table)
    ensures Host.Inv(table) && forall h: uint32 :: Host.Lookup(table, h).None?
  {
    forall i, j | 0 <= i < j < |table| ensures Host.Ordered(table[i], table[j]) {
    }
    forall h: uint32 ensures Host.Lookup(table, h).None? {
      assert forall i :: 0 <= i < |table| ==> table[i] == Host.BLANK && !Host.Has(table[i], h);
    }
  }

  /** With real buffers every event has been heard in full if and only if at every delivery
      the handle's callback was on record and the recorded size sufficed for the block, or
      what lay behind happened to be the missing samples. */
  lemma AudioIntactIff(programs: seq<seq<Call>>, table: seq<Host.Entry>, mem: map<nat, seq<byte>>, steps: seq<Step>)
    requires AllTyped(programs) && StartsEmpty(table)
    requires Run(Init(programs, table, mem), steps).Some? && RealRun(Init(programs, table, mem), steps)
    ensures HeardSoFar(Run(Init(programs, table, mem), steps).value) <==> WideRun(Init(programs, table, mem), steps)
  {
    AllHeardIff(programs, table, mem, steps);
    InitAtRest(programs, table, mem);
    EmptyTableReal(table);
    InFullRunIffWide(Init(programs, table, mem), Quiet, steps);
  }

  // ---------------------------------------------------------------------- conservation

  /** What one handle's engine has produced. */
  function Produced(sent: seq<Event>, h: uint32): seq<byte> {
    if sent == [] then []
    else Produced(sent[..|sent| - 1], h) + if sent[|sent| - 1].handle == h then sent[|sent| - 1].data else []
  }

  /** What an accumulating callback of that handle has put together. */
  function Accumulated(handled: seq<Handled>, h: uint32): seq<byte> {
    if handled == [] then []
    else
      var last := handled[|handled| - 1];
      Accumulated(handled[..|handled| - 1], h) + if last.handle == h && last.heard.Some? then last.heard.value else []
  }

  lemma {:induction false} AccumulatesWhatWasProduced(handled: seq<Handled>, sent: seq<Event>, h: uint32)
    requires |handled| == |sent|
    requires forall k :: 0 <= k < |sent| ==> handled[k].handle == sent[k].handle && handled[k].heard == Some(sent[k].data)
    ensures Accumulated(handled, h) == Produced(sent, h)
    decreases |sent|
  {
    if sent != [] {
      AccumulatesWhatWasProduced(handled[..|handled| - 1], sent[..|sent| - 1], h);
    }
  }

  /** Then, however the threads are scheduled, what a handle's callback has accumulated is what
      its engine has produced, no sample lost, repeated or mixed up, up to the event under
      way; and when no event is, it is all of it. */
  lemma AudioConserved(programs: seq<seq<Call>>, table: seq<Host.Entry>, mem: map<nat, seq<byte>>, steps: seq<Step>, h: uint32)
    requires AllTyped(programs) && Run(Init(programs, table, mem), steps).Some?
    requires InFullRun(Init(programs, table, mem), steps)
    ensures var t := Run(Init(programs, table, mem), steps).value;
      && |t.hist.handled| <= |t.hist.sent| <= |t.hist.handled| + 1
      && Accumulated(t.hist.handled, h) == Produced(t.hist.sent[..|t.hist.handled|], h)
      && (!t.bridge.Awaiting? ==> Accumulated(t.hist.handled, h) == Produced(t.hist.sent, h))
  {
    var s := Init(programs, table, mem);
    AllHeardIff(programs, table, mem, steps);
    InitAtRest(programs, table, mem);
    RunKeeps(s, Quiet, steps);
    RunHistory(s, Quiet, steps);
    var t := Run(s, steps).value;
    var sent := t.hist.sent[..|t.hist.handled|];
    forall k | 0 <= k < |sent|
      ensures t.hist.handled[k].handle == sent[k].handle && t.hist.handled[k].heard == Some(sent[k].data)
    {
      assert SameEvent(t.hist.handled[k], t.hist.sent[k]);
    }
    AccumulatesWhatWasProduced(t.hist.handled, sent, h);
    assert |t.hist.handled| == |t.hist.sent| ==> sent == t.hist.sent;
  }
}
