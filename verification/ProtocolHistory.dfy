/** What the parties have seen of each other over a whole run: every answer reaches the
    thread that asked, and every event and every callback's result arrive once, in order. */
module ProtocolHistory {
  import opened Bytes
  import opened Codec
  import opened Events
  import opened Protocol
  import opened ProtocolInvariant
  import Host = CallbackTable

  /** The number the k-th request of a connection carries; after 2^32 they repeat. */
  function Ordinal(k: nat): uint32 {
    (1 + k) % TWO32
  }

  predicate HasNumber(st: Stage) {
    !st.Quiet? && !st.Taken?
  }

  predicate HasAnswer(st: Stage) {
    st.Answered? || st.Received?
  }

  predicate PairedAt(h: History, k: nat)
    requires k < |h.completed| <= |h.answers|
  {
    && h.completed[k].response == h.answers[k]
    && h.completed[k].number == h.answers[k].number == Ordinal(k)
  }

  predicate Pairing(s: Sys, st: Stage) {
    var h, n := s.hist, |s.hist.completed|;
    && (if st.GivenUp? then n <= |h.answers| <= n + 1 else |h.answers| == n + (if HasAnswer(st) then 1 else 0))
    && (HasAnswer(st) ==> h.answers[n] == st.r && st.r.number == st.number)
    && (HasNumber(st) ==> st.number == Ordinal(n))
    && s.nextSeq == Ordinal(n + if HasNumber(st) then 1 else 0)
    && forall k :: 0 <= k < n ==> PairedAt(h, k)
  }

  /** Sent to the host and not yet dealt with. */
  predicate Pending(st: Stage) {
    st.Raised? || st.Heard? || st.Inside? || st.InCall? || st.Deaf?
  }

  predicate Owed(st: Stage) {
    st.Replied? || st.Answering?
  }

  predicate SameEvent(h: Handled, e: Event) {
    h.handle == e.handle && h.msg == e.msg && h.lparam == e.lparam
  }

  predicate Delivery(s: Sys, st: Stage) {
    var h, n := s.hist, |s.hist.handled|;
    && |h.sent| == n + (if Pending(st) then 1 else 0)
    && |h.got| == n - (if Owed(st) then 1 else 0)
    && (Pending(st) ==> h.sent[n] == st.e)
    && (Owed(st) ==> n > 0 && h.handled[n - 1].ret == st.ret)
    && (forall k :: 0 <= k < n ==> SameEvent(h.handled[k], h.sent[k]))
    && (forall k :: 0 <= k < |h.got| ==> h.got[k] == h.handled[k].ret)
  }

  lemma OrdinalNext(k: nat)
    ensures Add32(Ordinal(k), 1) == Ordinal(k + 1)
  {
  }

  /** Steps that touch neither list and lead nowhere new as far as answers go. */
  lemma SamePairing(s: Sys, st: Stage, t: Sys, u: Stage)
    requires Pairing(s, st) && t.hist.answers == s.hist.answers && t.hist.completed == s.hist.completed
    requires (HasAnswer(u) == HasAnswer(st) && st.GivenUp? == u.GivenUp?) || (u.GivenUp? && !st.GivenUp?)
    requires HasNumber(u) == HasNumber(st) && t.nextSeq == s.nextSeq
    requires HasNumber(st) ==> u.number == st.number
    requires HasAnswer(u) ==> u.r == st.r
    ensures Pairing(t, u)
  {
    forall k | 0 <= k < |t.hist.completed| ensures PairedAt(t.hist, k) {
      assert PairedAt(s.hist, k);
    }
  }

  lemma SendPairs(s: Sys, st: Stage, i: nat)
    requires InvAt(s, st) && Pairing(s, st) && Next(s, Send(i)).Some?
    ensures Pairing(Next(s, Send(i)).value, Asked(i, s.nextSeq))
  {
    SendKeeps(s, st, i);
    OrdinalNext(|s.hist.completed|);
    var t := Next(s, Send(i)).value;
    forall k | 0 <= k < |t.hist.completed| ensures PairedAt(t.hist, k) {
      assert PairedAt(s.hist, k);
    }
  }

  lemma FinishPairs(s: Sys, st: Stage, v: int32, err: uint16, extra: seq<byte>)
    requires InvAt(s, st) && Pairing(s, st) && Next(s, Finish(v, err, extra)).Some?
    ensures Pairing(Next(s, Finish(v, err, extra)).value, After(s, st, Finish(v, err, extra)))
  {
    FinishKeeps(s, st, v, err, extra);
    var t := Next(s, Finish(v, err, extra)).value;
    forall k | 0 <= k < |t.hist.completed| ensures PairedAt(t.hist, k) {
      assert PairedAt(s.hist, k);
    }
  }

  lemma ReturnPairs(s: Sys, st: Stage, i: nat)
    requires InvAt(s, st) && Pairing(s, st) && Next(s, Return(i)).Some?
    ensures Pairing(Next(s, Return(i)).value, Quiet)
  {
    ReturnKeeps(s, st, i);
    assert AppOk(s, st, i);
    var t := Next(s, Return(i)).value;
    forall k | 0 <= k < |t.hist.completed| ensures PairedAt(t.hist, k) {
      if k < |s.hist.completed| {
        assert PairedAt(s.hist, k);
      }
    }
  }

  lemma EngineStepPairs(s: Sys, st: Stage, step: Step)
    requires InvAt(s, st) && Pairing(s, st) && Next(s, step).Some? && (step.Raise? || step.Resume?)
    ensures Pairing(Next(s, step).value, After(s, st, step))
  {
    SamePairing(s, st, Next(s, step).value, After(s, st, step));
  }

  lemma HearPairs(s: Sys, st: Stage)
    requires InvAt(s, st) && Pairing(s, st) && Next(s, Hear).Some?
    ensures Pairing(Next(s, Hear).value, After(s, st, Hear))
  {
    HearingIs(s, st);
    SamePairing(s, st, Next(s, Hear).value, After(s, st, Hear));
  }

  lemma HostStepPairs(s: Sys, st: Stage, step: Step)
    requires InvAt(s, st) && Pairing(s, st) && Next(s, step).Some? && (step.Enter? || step.Reply?)
    ensures Pairing(Next(s, step).value, After(s, st, step))
  {
    SamePairing(s, st, Next(s, step).value, After(s, st, step));
  }

  lemma CallbackStepPairs(s: Sys, st: Stage, step: Step)
    requires InvAt(s, st) && Pairing(s, st) && Next(s, step).Some? && (step.Deliver? || step.CallbackReturns?)
    ensures Pairing(Next(s, step).value, After(s, st, step))
  {
    SamePairing(s, st, Next(s, step).value, After(s, st, step));
  }

  lemma LockStepPairs(s: Sys, st: Stage, step: Step)
    requires InvAt(s, st) && Pairing(s, st) && Next(s, step).Some?
    requires step.TakeCbLock? || step.MakeNote? || step.TakeRpcLock?
    ensures Pairing(Next(s, step).value, After(s, st, step))
  {
    if step.TakeRpcLock? {
      TakeRpcLockKeeps(s, st, step.i);
    }
    SamePairing(s, st, Next(s, step).value, After(s, st, step));
  }

  lemma QueueStepPairs(s: Sys, st: Stage, step: Step)
    requires InvAt(s, st) && Pairing(s, st) && Next(s, step).Some? && (step.Receive? || step.FindGone? || step.Read?)
    ensures Pairing(Next(s, step).value, After(s, st, step))
  {
    if step.Receive? {
      ReceiveKeeps(s, st, step.i);
    } else if step.FindGone? {
      FindGoneKeeps(s, st, step.i);
    } else {
      ReadKeeps(s, st, step.made);
    }
    SamePairing(s, st, Next(s, step).value, After(s, st, step));
  }

  lemma StepPairs(s: Sys, st: Stage, step: Step)
    requires InvAt(s, st) && Pairing(s, st) && Next(s, step).Some?
    ensures Pairing(Next(s, step).value, After(s, st, step))
  {
    match step {
      case TakeCbLock(_) => LockStepPairs(s, st, step);
      case MakeNote(_) => LockStepPairs(s, st, step);
      case TakeRpcLock(_) => LockStepPairs(s, st, step);
      case Send(i) => SendPairs(s, st, i);
      case Receive(_) => QueueStepPairs(s, st, step);
      case Return(i) => ReturnPairs(s, st, i);
      case FindGone(_) => QueueStepPairs(s, st, step);
      case Read(_) => QueueStepPairs(s, st, step);
      case Finish(v, err, extra) => FinishPairs(s, st, v, err, extra);
      case Raise(_) => EngineStepPairs(s, st, step);
      case Resume => EngineStepPairs(s, st, step);
      case Deliver => CallbackStepPairs(s, st, step);
      case CallbackReturns(_) => CallbackStepPairs(s, st, step);
      case Hear => HearPairs(s, st);
      case _ => HostStepPairs(s, st, step);
    }
  }

  /** Steps that touch none of the event lists and lead nowhere new as far as events go. */
  lemma SameDelivery(s: Sys, st: Stage, t: Sys, u: Stage)
    requires Delivery(s, st) && t.hist.sent == s.hist.sent && t.hist.handled == s.hist.handled && t.hist.got == s.hist.got
    requires Pending(u) == Pending(st) && Owed(u) == Owed(st)
    requires (Pending(st) ==> u.e == st.e) && (Owed(st) ==> u.ret == st.ret)
    ensures Delivery(t, u)
  {
  }

  lemma RaiseDelivers(s: Sys, st: Stage, e: Event)
    requires InvAt(s, st) && Delivery(s, st) && Next(s, Raise(e)).Some?
    ensures Delivery(Next(s, Raise(e)).value, After(s, st, Raise(e)))
  {
    RaiseKeeps(s, st, e);
    var t := Next(s, Raise(e)).value;
    forall k | 0 <= k < |t.hist.handled| ensures SameEvent(t.hist.handled[k], t.hist.sent[k]) {
      assert SameEvent(s.hist.handled[k], s.hist.sent[k]);
    }
  }

  /** Leaving the callback lock records what was done with the event. */
  lemma LeaveDelivers(s: Sys, st: Stage, t: Sys, heard: Option<seq<byte>>, ret: int32)
    requires Delivery(s, st) && (st.Inside? || st.InCall?)
    requires t.hist == s.hist.(handled := s.hist.handled + [Handled(st.e.handle, st.e.msg, st.e.lparam, heard, ret)])
    ensures Delivery(t, Replied(st.o, st.number, st.e, ret))
  {
    var n := |s.hist.handled|;
    forall k | 0 <= k <= n ensures SameEvent(t.hist.handled[k], t.hist.sent[k]) {
      assert k < n ==> SameEvent(s.hist.handled[k], s.hist.sent[k]);
    }
    forall k | 0 <= k < |t.hist.got| ensures t.hist.got[k] == t.hist.handled[k].ret {
      assert s.hist.got[k] == s.hist.handled[k].ret;
    }
  }

  lemma DeliverDelivers(s: Sys, st: Stage)
    requires InvAt(s, st) && Delivery(s, st) && Next(s, Deliver).Some?
    ensures Delivery(Next(s, Deliver).value, After(s, st, Deliver))
  {
    DeliverKeeps(s, st);
    var t := Next(s, Deliver).value;
    if After(s, st, Deliver).Replied? {
      LeaveDelivers(s, st, t, None, DATA_PROCESSED);
    } else {
      SameDelivery(s, st, t, After(s, st, Deliver));
    }
  }

  lemma ResumeDelivers(s: Sys, st: Stage)
    requires InvAt(s, st) && Delivery(s, st) && Next(s, Resume).Some?
    ensures Delivery(Next(s, Resume).value, After(s, st, Resume))
  {
    ResumeKeeps(s, st);
    var t := Next(s, Resume).value;
    forall k | 0 <= k < |t.hist.got| ensures t.hist.got[k] == t.hist.handled[k].ret {
      assert k < |s.hist.got| ==> s.hist.got[k] == s.hist.handled[k].ret;
    }
  }

  lemma LockStepDelivers(s: Sys, st: Stage, step: Step)
    requires InvAt(s, st) && Delivery(s, st) && Next(s, step).Some?
    requires step.TakeCbLock? || step.MakeNote? || step.TakeRpcLock?
    ensures Delivery(Next(s, step).value, After(s, st, step))
  {
    if step.TakeRpcLock? {
      TakeRpcLockKeeps(s, st, step.i);
    }
    SameDelivery(s, st, Next(s, step).value, After(s, st, step));
  }

  lemma ThreadStepDelivers(s: Sys, st: Stage, step: Step)
    requires InvAt(s, st) && Delivery(s, st) && Next(s, step).Some? && (step.Receive? || step.Return? || step.FindGone?)
    ensures Delivery(Next(s, step).value, After(s, st, step))
  {
    if step.Receive? {
      ReceiveKeeps(s, st, step.i);
    } else if step.FindGone? {
      FindGoneKeeps(s, st, step.i);
    } else {
      ReturnKeeps(s, st, step.i);
    }
    SameDelivery(s, st, Next(s, step).value, After(s, st, step));
  }

  lemma RequestStepDelivers(s: Sys, st: Stage, step: Step)
    requires InvAt(s, st) && Delivery(s, st) && Next(s, step).Some? && (step.Send? || step.Read?)
    ensures Delivery(Next(s, step).value, After(s, st, step))
  {
    if step.Send? {
      SendKeeps(s, st, step.i);
    } else {
      ReadKeeps(s, st, step.made);
    }
    SameDelivery(s, st, Next(s, step).value, After(s, st, step));
  }

  lemma StepDelivers(s: Sys, st: Stage, step: Step)
    requires InvAt(s, st) && Delivery(s, st) && Next(s, step).Some?
    ensures Delivery(Next(s, step).value, After(s, st, step))
  {
    match step {
      case TakeCbLock(_) => LockStepDelivers(s, st, step);
      case MakeNote(_) => LockStepDelivers(s, st, step);
      case TakeRpcLock(_) => LockStepDelivers(s, st, step);
      case Send(_) => RequestStepDelivers(s, st, step);
      case Receive(_) => ThreadStepDelivers(s, st, step);
      case Return(_) => ThreadStepDelivers(s, st, step);
      case FindGone(_) => ThreadStepDelivers(s, st, step);
      case Read(_) => RequestStepDelivers(s, st, step);
      case Raise(e) => RaiseDelivers(s, st, e);
      case Resume => ResumeDelivers(s, st);
      case Deliver => DeliverDelivers(s, st);
      case CallbackReturns(ret) => CallbackReturnsDelivers(s, st, ret);
      case Hear => HearDelivers(s, st);
      case _ => ChannelStepDelivers(s, st, step);
    }
  }

  lemma HearDelivers(s: Sys, st: Stage)
    requires InvAt(s, st) && Delivery(s, st) && Next(s, Hear).Some?
    ensures Delivery(Next(s, Hear).value, After(s, st, Hear))
  {
    HearingIs(s, st);
    SameDelivery(s, st, Next(s, Hear).value, After(s, st, Hear));
  }

  lemma ChannelStepDelivers(s: Sys, st: Stage, step: Step)
    requires InvAt(s, st) && Delivery(s, st) && Next(s, step).Some?
    requires step.Finish? || step.Enter? || step.Reply?
    ensures Delivery(Next(s, step).value, After(s, st, step))
  {
    SameDelivery(s, st, Next(s, step).value, After(s, st, step));
  }

  lemma CallbackReturnsDelivers(s: Sys, st: Stage, ret: int32)
    requires InvAt(s, st) && Delivery(s, st) && Next(s, CallbackReturns(ret)).Some?
    ensures Delivery(Next(s, CallbackReturns(ret)).value, After(s, st, CallbackReturns(ret)))
  {
    CallbackReturnsKeeps(s, st, ret);
    LeaveDelivers(s, st, Next(s, CallbackReturns(ret)).value, Some(s.cb.heard), ret);
  }

  // ---------------------------------------------------------------- events that fit

  /** Every event sent passes the framing layer. */
  predicate EventsFit(h: History) {
    forall k :: 0 <= k < |h.sent| ==> EventFits(h.sent[k])
  }

  /** All did but perhaps the last, which is on its way to the callback thread or has been
      its end. */
  predicate FitSoFar(s: Sys, st: Stage) {
    forall k :: 0 <= k < |s.hist.sent| ==> EventFits(s.hist.sent[k]) || (k == |s.hist.sent| - 1 && (st.Raised? || st.Deaf?))
  }

  lemma SameFit(s: Sys, st: Stage, t: Sys, u: Stage)
    requires FitSoFar(s, st) && t.hist.sent == s.hist.sent
    requires st.Raised? || st.Deaf? ==> u.Raised? || u.Deaf?
    ensures FitSoFar(t, u)
  {
  }

  lemma RaiseFits(s: Sys, st: Stage, e: Event)
    requires InvAt(s, st) && FitSoFar(s, st) && Next(s, Raise(e)).Some?
    ensures FitSoFar(Next(s, Raise(e)).value, After(s, st, Raise(e)))
  {
    RaiseKeeps(s, st, e);
  }

  lemma HearFits(s: Sys, st: Stage)
    requires InvAt(s, st) && Delivery(s, st) && FitSoFar(s, st) && Next(s, Hear).Some?
    ensures FitSoFar(Next(s, Hear).value, After(s, st, Hear))
  {
    HearingIs(s, st);
  }

  lemma ThreadStepFits(s: Sys, st: Stage, step: Step)
    requires InvAt(s, st) && FitSoFar(s, st) && Next(s, step).Some?
    requires step.TakeRpcLock? || step.Send?
    ensures FitSoFar(Next(s, step).value, After(s, st, step))
  {
    if step.Send? {
      SendKeeps(s, st, step.i);
    } else {
      TakeRpcLockKeeps(s, st, step.i);
    }
    SameFit(s, st, Next(s, step).value, After(s, st, step));
  }

  lemma AnswerStepFits(s: Sys, st: Stage, step: Step)
    requires InvAt(s, st) && FitSoFar(s, st) && Next(s, step).Some?
    requires step.Receive? || step.Return? || step.FindGone?
    ensures FitSoFar(Next(s, step).value, After(s, st, step))
  {
    match step {
      case Receive(i) => ReceiveKeeps(s, st, i);
      case Return(i) => ReturnKeeps(s, st, i);
      case FindGone(i) => FindGoneKeeps(s, st, i);
    }
    SameFit(s, st, Next(s, step).value, After(s, st, step));
  }

  lemma OtherStepFits(s: Sys, st: Stage, step: Step)
    requires InvAt(s, st) && FitSoFar(s, st) && Next(s, step).Some?
    requires step.Finish? || step.Resume? || step.Enter? || step.Deliver? || step.CallbackReturns? || step.Reply?
    ensures FitSoFar(Next(s, step).value, After(s, st, step))
  {
    SameFit(s, st, Next(s, step).value, After(s, st, step));
  }

  lemma StepFits(s: Sys, st: Stage, step: Step)
    requires InvAt(s, st) && Delivery(s, st) && FitSoFar(s, st) && Next(s, step).Some?
    ensures FitSoFar(Next(s, step).value, After(s, st, step))
  {
    match step {
      case TakeCbLock(_) => SameFit(s, st, Next(s, step).value, st);
      case MakeNote(_) => SameFit(s, st, Next(s, step).value, st);
      case TakeRpcLock(_) => ThreadStepFits(s, st, step);
      case Send(_) => ThreadStepFits(s, st, step);
      case Receive(_) => AnswerStepFits(s, st, step);
      case Return(_) => AnswerStepFits(s, st, step);
      case FindGone(_) => AnswerStepFits(s, st, step);
      case Read(made) =>
        ReadKeeps(s, st, made);
        SameFit(s, st, Next(s, step).value, After(s, st, step));
      case Raise(e) => RaiseFits(s, st, e);
      case Hear => HearFits(s, st);
      case _ => OtherStepFits(s, st, step);
    }
  }

  /** What the stage says of the events sent. */
  lemma FitIff(s: Sys, st: Stage)
    requires InvAt(s, st) && Delivery(s, st) && FitSoFar(s, st) && !st.Raised?
    ensures EventsFit(s.hist) <==> !st.Deaf?
  {
    if st.Deaf? {
      assert s.hist.sent[|s.hist.handled|] == st.e;
    }
  }

  lemma {:induction false} RunHistory(s: Sys, st: Stage, steps: seq<Step>)
    requires InvAt(s, st) && Pairing(s, st) && Delivery(s, st) && FitSoFar(s, st) && Run(s, steps).Some?
    ensures var t, u := Run(s, steps).value, Reached(s, st, steps); Pairing(t, u) && Delivery(t, u) && FitSoFar(t, u)
    decreases |steps|
  {
    if steps != [] {
      StepKeeps(s, st, steps[0]);
      StepPairs(s, st, steps[0]);
      StepDelivers(s, st, steps[0]);
      StepFits(s, st, steps[0]);
      RunHistory(Next(s, steps[0]).value, After(s, st, steps[0]), steps[1..]);
    }
  }

  /** After any run the answers received are the answers given, in order, each by the thread
      that had sent its number, though nobody compares the numbers. */
  lemma EveryAnswerIsToTheQuestion(programs: seq<seq<Call>>, table: seq<Host.Entry>, mem: map<nat, seq<byte>>, steps: seq<Step>)
    requires AllTyped(programs) && Run(Init(programs, table, mem), steps).Some?
    ensures var h := Run(Init(programs, table, mem), steps).value.hist;
      && |h.completed| <= |h.answers| <= |h.completed| + 1
      && forall k :: 0 <= k < |h.completed| ==>
           h.completed[k].response == h.answers[k] && h.completed[k].response.number == h.completed[k].number == (1 + k) % TWO32
  {
    InitAtRest(programs, table, mem);
    RunHistory(Init(programs, table, mem), Quiet, steps);
    var h := Run(Init(programs, table, mem), steps).value.hist;
    forall k | 0 <= k < |h.completed|
      ensures h.completed[k].response == h.answers[k] && h.completed[k].response.number == h.completed[k].number == Ordinal(k)
    {
      assert PairedAt(h, k);
    }
  }

  /** After any run the events the host dealt with are the events sent, in order, all but the
      one under way; and the engine got what each callback returned. */
  lemma EveryEventOnce(programs: seq<seq<Call>>, table: seq<Host.Entry>, mem: map<nat, seq<byte>>, steps: seq<Step>)
    requires AllTyped(programs) && Run(Init(programs, table, mem), steps).Some?
    ensures var h := Run(Init(programs, table, mem), steps).value.hist;
      && |h.got| <= |h.handled| <= |h.sent| <= |h.got| + 1
      && (forall k :: 0 <= k < |h.handled| ==> SameEvent(h.handled[k], h.sent[k]))
      && (forall k :: 0 <= k < |h.got| ==> h.got[k] == h.handled[k].ret)
  {
    InitAtRest(programs, table, mem);
    RunHistory(Init(programs, table, mem), Quiet, steps);
  }
}
