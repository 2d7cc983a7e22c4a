/** Every call that triggers finitely many engine events completes, exactly as long as all that
    is sent fits a message, provided callbacks return and make no calls of their own. */
module ProtocolProgress {
  import opened Bytes
  import opened Codec
  import opened Framing
  import opened Events
  import opened Protocol
  import opened ProtocolInvariant
  import opened ProtocolHistory
  import opened ProtocolBreaks
  import Host = CallbackTable

  // --------------------------------------------------------------------- no deadlock

  /** A thread inside the callback lock can leave it. */
  lemma ChangingCanGoOn(s: Sys, st: Stage)
    requires InvAt(s, st) && s.connected && s.cbLock.Some? && s.cbLock.value.AppHolder?
    ensures Next(s, MakeNote(s.cbLock.value.i)).Some?
  {
    assert AppOk(s, st, s.cbLock.value.i);
  }

  lemma QuietCanGoOn(s: Sys) returns (step: Step)
    requires InvAt(s, Quiet) && !Done(s)
    ensures Next(s, step).Some?
  {
    if s.cbLock.Some? {
      ChangingCanGoOn(s, Quiet);
      step := MakeNote(s.cbLock.value.i);
    } else {
      var i :| 0 <= i < |s.apps| && s.apps[i] != App(Ready, []);
      assert AppOk(s, Quiet, i);
      step := if s.apps[i].pc.Ready? && Noted(s.apps[i].calls[0]) then TakeCbLock(i) else TakeRpcLock(i);
    }
  }

  lemma AskedCanGoOn(s: Sys, st: Stage)
    requires InvAt(s, st) && st.Asked?
    ensures Next(s, Read(0)).Some?
  {
    ReadFromAsked(s, st);
    assert Fits(s.toBridge[0]) ==> !Numbered(s, AsRequest(s.toBridge[0], 0));
  }

  lemma ReadFromAsked(s: Sys, st: Stage)
    requires InvAt(s, st) && st.Asked?
    ensures s.bridge.Idle? && s.toBridge != [] && s.toBridge[0].kind == MSG_RPC_REQUEST
    ensures Fits(s.toBridge[0]) <==> Sendable(s.apps[st.o].calls[0])
    ensures Fits(s.toBridge[0]) ==> DecodeRequestHeader(s.toBridge[0].data, 0).value.Some?
  {
    var w := OnWire(st.number, s.apps[st.o].calls[0]);
    if Fits(s.toBridge[0]) {
      RequestHeaderRoundTrip(st.number, w.fn, EncodeArgs(w.args));
    }
  }

  lemma OwnerCanGoOn(s: Sys, st: Stage)
    requires InvAt(s, st) && (st.Taken? || st.Answered? || st.Received?)
    ensures Next(s, if st.Taken? then Send(st.o) else if st.Answered? then Receive(st.o) else Return(st.o)).Some?
  {
    assert AppOk(s, st, st.o);
  }

  lemma RefusedCanGoOn(s: Sys, st: Stage)
    requires InvAt(s, st) && st.Refused?
    ensures Next(s, FindGone(st.o)).Some?
  {
    assert AppOk(s, st, st.o);
  }

  lemma HeardCanGoOn(s: Sys, st: Stage) returns (step: Step)
    requires InvAt(s, st) && st.Heard?
    ensures Next(s, step).Some?
  {
    if s.cbLock.Some? {
      ChangingCanGoOn(s, st);
      step := MakeNote(s.cbLock.value.i);
    } else {
      step := Enter;
    }
  }

  lemma CallbackCanGoOn(s: Sys, st: Stage) returns (step: Step)
    requires InvAt(s, st) && Disturbed(st) && !st.Heard? && !st.Deaf?
    ensures Next(s, step).Some?
  {
    step := if st.Raised? then Hear else if st.Inside? then Deliver else if st.InCall? then CallbackReturns(0)
            else if st.Replied? then Reply else Resume;
  }

  /** Short of the end, and while the connection and the callback thread are there, some thread
      can take a step: the chain of waiting threads, to the lock's owner, to the bridge, to the
      callback thread, to the holder of the callback lock, ends at one that need not wait. */
  lemma SomeoneCanGoOn(s: Sys, st: Stage) returns (step: Step)
    requires InvAt(s, st) && !st.Deaf? && !st.GivenUp? && !Done(s)
    ensures Next(s, step).Some?
  {
    if st.Quiet? {
      step := QuietCanGoOn(s);
    } else if st.Asked? {
      AskedCanGoOn(s, st);
      step := Read(0);
    } else if st.Dispatching? {
      EngineIsFree(s, st, Event(0, 0, 0, []), 0, []);
      step := Finish(0, 0, []);
    } else if st.Heard? {
      step := HeardCanGoOn(s, st);
    } else if Disturbed(st) {
      step := CallbackCanGoOn(s, st);
    } else if st.Refused? {
      RefusedCanGoOn(s, st);
      step := FindGone(st.o);
    } else {
      OwnerCanGoOn(s, st);
      step := if st.Taken? then Send(st.o) else if st.Answered? then Receive(st.o) else Return(st.o);
    }
  }

  /** The engine's next move, whichever it chooses, is never blocked. */
  lemma EngineIsFree(s: Sys, st: Stage, e: Event, v: int32, extra: seq<byte>)
    requires InvAt(s, st) && st.Dispatching?
    ensures s.bridge.left > 0 && MayRaise(s, e) ==> Next(s, Raise(e)).Some?
    ensures Next(s, Finish(v, 0, extra)).Some?
  {
  }

  // ------------------------------------------------------------------------ the measure

  /** Steps a call may still take, its events included. */
  function Cost(c: Call): nat {
    9 + 7 * c.events
  }

  function CostOf(cs: seq<Call>): nat {
    if cs == [] then 0 else Cost(cs[0]) + CostOf(cs[1..])
  }

  function AppRank(a: App): nat {
    if a.calls == [] then 0
    else
      var rest := CostOf(a.calls[1..]);
      match a.pc
      case Ready => Cost(a.calls[0]) + rest
      case Changing => Cost(a.calls[0]) - 1 + rest
      case Wanting => Cost(a.calls[0]) - 2 + rest
      case Locked => Cost(a.calls[0]) - 3 + rest
      case Waiting(_) => 2 + rest
      case Holding(_, _) => 1 + rest
  }

  function AppsRank(apps: seq<App>, n: nat): nat
    requires n <= |apps|
  {
    if n == 0 then 0 else AppsRank(apps, n - 1) + AppRank(apps[n - 1])
  }

  function BridgeRank(b: BridgePc): nat {
    match b
    case Working(_, _, left) => 7 * left + 1
    case Awaiting(_, _, left) => 7 * left + 2
    case _ => 0
  }

  function CbRank(cb: CbPc): nat {
    match cb
    case Listening => 0
    case Arrived(_) => 4
    case Entered(_) => 3
    case Calling(_, _) => 2
    case Replying(_, _) => 1
    case Departed => 0
  }

  function Rank(s: Sys): nat {
    if !s.connected then 0
    else AppsRank(s.apps, |s.apps|) + BridgeRank(s.bridge) + CbRank(s.cb)
         + (if s.toBridge == [] then 0 else 2 + 7 * Budget(s))
         + 5 * |s.events|
  }

  lemma {:induction false} OneAppMoves(apps: seq<App>, i: nat, a: App, n: nat)
    requires i < |apps| && n <= |apps|
    ensures AppsRank(apps[i := a], n) == AppsRank(apps, n) + if i < n then AppRank(a) - AppRank(apps[i]) else 0
  {
    if n > 0 {
      OneAppMoves(apps, i, a, n - 1);
    }
  }

  /** Between the two states only thread `i` has moved, and its share has become less. */
  lemma OneThreadFalls(s: Sys, t: Sys, i: nat)
    requires i < |s.apps| == |t.apps| && t.apps == s.apps[i := t.apps[i]] && AppRank(t.apps[i]) < AppRank(s.apps[i])
    requires s.connected && t.toBridge == s.toBridge && t.events == s.events && t.bridge == s.bridge && t.cb == s.cb
    requires s.toBridge != [] ==> Budget(t) == Budget(s)
    ensures Rank(t) < Rank(s)
  {
    OneAppMoves(s.apps, i, t.apps[i], |s.apps|);
  }

  lemma NoteStepFalls(s: Sys, st: Stage, step: Step, i: nat)
    requires InvAt(s, st) && Next(s, step).Some? && i < |s.apps| && (step == TakeCbLock(i) || step == MakeNote(i))
    ensures Rank(Next(s, step).value) < Rank(s)
  {
    assert AppOk(s, st, i);
    OneThreadFalls(s, Next(s, step).value, i);
  }

  lemma LockStepFalls(s: Sys, st: Stage, step: Step, i: nat)
    requires InvAt(s, st) && Next(s, step).Some? && i < |s.apps| && step == TakeRpcLock(i)
    ensures Rank(Next(s, step).value) < Rank(s)
  {
    assert AppOk(s, st, i);
    TakeRpcLockKeeps(s, st, i);
    OneThreadFalls(s, Next(s, step).value, i);
  }

  lemma ReceiveFalls(s: Sys, st: Stage, i: nat)
    requires InvAt(s, st) && Next(s, Receive(i)).Some?
    ensures Rank(Next(s, Receive(i)).value) < Rank(s)
  {
    assert AppOk(s, st, i);
    ReceiveKeeps(s, st, i);
    if AnswerFits(|st.extra|) {
      OneThreadFalls(s, Next(s, Receive(i)).value, i);
    } else {
      WaitingCounts(s, i);
    }
  }

  lemma FindGoneFalls(s: Sys, st: Stage, i: nat)
    requires InvAt(s, st) && Next(s, FindGone(i)).Some?
    ensures Rank(Next(s, FindGone(i)).value) < Rank(s)
  {
    FindGoneKeeps(s, st, i);
    WaitingCounts(s, i);
  }

  lemma WaitingCounts(s: Sys, i: nat)
    requires s.connected && i < |s.apps| && s.apps[i].pc.Waiting? && s.apps[i].calls != []
    ensures Rank(s) > 0
  {
    OneAppMoves(s.apps, i, App(Ready, []), |s.apps|);
  }

  lemma ReturnFalls(s: Sys, st: Stage, i: nat)
    requires InvAt(s, st) && Next(s, Return(i)).Some?
    ensures Rank(Next(s, Return(i)).value) < Rank(s)
  {
    assert AppOk(s, st, i);
    ReturnKeeps(s, st, i);
    OneThreadFalls(s, Next(s, Return(i)).value, i);
  }

  lemma SendFalls(s: Sys, st: Stage, i: nat)
    requires InvAt(s, st) && Next(s, Send(i)).Some?
    ensures Rank(Next(s, Send(i)).value) < Rank(s)
  {
    SendKeeps(s, st, i);
    OneAppMoves(s.apps, i, Next(s, Send(i)).value.apps[i], |s.apps|);
  }

  lemma ReadFalls(s: Sys, st: Stage, made: nat)
    requires InvAt(s, st) && Next(s, Read(made)).Some?
    ensures Rank(Next(s, Read(made)).value) < Rank(s)
  {
    ReadFromAsked(s, st);
  }

  lemma EngineStepFalls(s: Sys, st: Stage, step: Step)
    requires InvAt(s, st) && Next(s, step).Some? && (step.Raise? || step.Finish? || step.Resume?)
    ensures Rank(Next(s, step).value) < Rank(s)
  {
  }

  lemma HearFalls(s: Sys, st: Stage)
    requires InvAt(s, st) && Next(s, Hear).Some?
    ensures Rank(Next(s, Hear).value) < Rank(s)
  {
    HearingIs(s, st);
  }

  lemma CallbackStepFalls(s: Sys, st: Stage, step: Step)
    requires InvAt(s, st) && Next(s, step).Some?
    requires step.Enter? || step.Deliver? || step.CallbackReturns? || step.Reply?
    ensures Rank(Next(s, step).value) < Rank(s)
  {
  }

  /** Every step lowers the measure. */
  lemma EveryStepFalls(s: Sys, st: Stage, step: Step)
    requires InvAt(s, st) && Next(s, step).Some?
    ensures Rank(Next(s, step).value) < Rank(s)
  {
    match step {
      case TakeCbLock(i) => NoteStepFalls(s, st, step, i);
      case MakeNote(i) => NoteStepFalls(s, st, step, i);
      case TakeRpcLock(i) => LockStepFalls(s, st, step, i);
      case Send(i) => SendFalls(s, st, i);
      case Receive(i) => ReceiveFalls(s, st, i);
      case Return(i) => ReturnFalls(s, st, i);
      case FindGone(i) => FindGoneFalls(s, st, i);
      case Read(made) => ReadFalls(s, st, made);
      case Raise(_) => EngineStepFalls(s, st, step);
      case Finish(_, _, _) => EngineStepFalls(s, st, step);
      case Resume => EngineStepFalls(s, st, step);
      case Hear => HearFalls(s, st);
      case _ => CallbackStepFalls(s, st, step);
    }
  }

  lemma {:induction false} RunsAreBounded(s: Sys, st: Stage, steps: seq<Step>)
    requires InvAt(s, st) && Run(s, steps).Some?
    ensures |steps| + Rank(Run(s, steps).value) <= Rank(s)
    decreases |steps|
  {
    if steps != [] {
      StepKeeps(s, st, steps[0]);
      EveryStepFalls(s, st, steps[0]);
      RunsAreBounded(Next(s, steps[0]).value, After(s, st, steps[0]), steps[1..]);
    }
  }

  /** Nothing more can happen. */
  ghost predicate Stuck(s: Sys) {
    forall step :: Next(s, step).None?
  }

  lemma OwnerIsNotDone(s: Sys, st: Stage)
    requires InvAt(s, st) && !st.Quiet?
    ensures !Done(s)
  {
    assert AppOk(s, st, st.o);
  }

  lemma DoneIsStuck(s: Sys, step: Step)
    requires InvAt(s, Quiet) && Done(s)
    ensures Next(s, step).None?
  {
  }

  // ------------------------------------------------------- when the callback thread is gone

  /** With the callback thread gone all the other threads can do is note calls they will never
      get to make. */
  lemma DeafMoves(s: Sys, st: Stage, step: Step)
    requires InvAt(s, st) && st.Deaf? && Next(s, step).Some?
    ensures (step.TakeCbLock? || step.MakeNote?) && After(s, st, step) == st && Next(s, step).value.hist == s.hist
  {
    if step.TakeRpcLock? || step.Send? || step.Receive? || step.Return? || step.FindGone? {
      DeafBlocks(s, st, step, step.i);
    }
  }

  lemma DeafBlocks(s: Sys, st: Stage, step: Step, i: nat)
    requires InvAt(s, st) && st.Deaf? && step in {TakeRpcLock(i), Send(i), Receive(i), Return(i), FindGone(i)}
    ensures Next(s, step).None?
  {
    if i < |s.apps| {
      assert AppOk(s, st, i);
    }
  }

  /** And so it stays: over any run the call under way gets no answer. */
  lemma {:induction false} DeafForGood(s: Sys, st: Stage, steps: seq<Step>)
    requires InvAt(s, st) && st.Deaf? && Run(s, steps).Some?
    ensures InvAt(Run(s, steps).value, st) && Run(s, steps).value.hist == s.hist && !Done(Run(s, steps).value)
    decreases |steps|
  {
    if steps == [] {
      OwnerIsNotDone(s, st);
    } else {
      DeafMoves(s, st, steps[0]);
      StepKeeps(s, st, steps[0]);
      DeafForGood(Next(s, steps[0]).value, st, steps[1..]);
    }
  }

  lemma DoneIffStuck(s: Sys, st: Stage)
    requires InvAt(s, st)
    ensures Done(s) <==> Stuck(s) && !st.Deaf? && !st.GivenUp?
    ensures Stuck(s) ==> !st.Raised?
  {
    if !Done(s) && !st.Deaf? && !st.GivenUp? {
      var step := SomeoneCanGoOn(s, st);
    }
    if !st.Quiet? {
      OwnerIsNotDone(s, st);
    }
    if Done(s) {
      forall step ensures Next(s, step).None? {
        DoneIsStuck(s, step);
      }
    }
    if st.Raised? {
      assert Next(s, Hear).Some?;
    }
  }

  /** All the calls of all threads. */
  function Work(programs: seq<seq<Call>>, n: nat): nat
    requires n <= |programs|
  {
    if n == 0 then 0 else Work(programs, n - 1) + CostOf(programs[n - 1])
  }

  lemma {:induction false} WorkIsRank(programs: seq<seq<Call>>, apps: seq<App>, n: nat)
    requires n <= |programs| == |apps| && forall i :: 0 <= i < |apps| ==> apps[i] == App(Ready, programs[i])
    ensures AppsRank(apps, n) == Work(programs, n)
  {
    if n > 0 {
      WorkIsRank(programs, apps, n - 1);
    }
  }

  lemma InitRank(programs: seq<seq<Call>>, table: seq<Host.Entry>, mem: map<nat, seq<byte>>)
    ensures Rank(Init(programs, table, mem)) == Work(programs, |programs|)
  {
    WorkIsRank(programs, Init(programs, table, mem).apps, |programs|);
  }

  /** The requests to be sent, the events sent and the answers given all fit a message. */
  predicate AllFit(programs: seq<seq<Call>>, h: History) {
    AllSendable(programs) && EventsFit(h) && AnswersFit(h)
  }

  /** What has been seen of the run up to here, from the start of a connection. */
  ghost predicate Known(s: Sys, st: Stage, programs: seq<seq<Call>>) {
    InvAt(s, st) && Delivery(s, st) && FitSoFar(s, st) && SoFar(s, st, programs)
  }

  lemma InitKnown(programs: seq<seq<Call>>, table: seq<Host.Entry>, mem: map<nat, seq<byte>>)
    requires AllTyped(programs)
    ensures Known(Init(programs, table, mem), Quiet, programs)
  {
    InitAtRest(programs, table, mem);
    InitSoFar(programs, table, mem);
  }

  lemma StepKnown(s: Sys, st: Stage, step: Step, programs: seq<seq<Call>>)
    requires Known(s, st, programs) && Next(s, step).Some?
    ensures Known(Next(s, step).value, After(s, st, step), programs)
  {
    StepKeeps(s, st, step);
    StepDelivers(s, st, step);
    StepFits(s, st, step);
    StepSoFar(s, st, step, programs);
  }

  lemma {:induction false} RunKnown(s: Sys, st: Stage, steps: seq<Step>, programs: seq<seq<Call>>)
    requires Known(s, st, programs) && Run(s, steps).Some?
    ensures Known(Run(s, steps).value, Reached(s, st, steps), programs)
    decreases |steps|
  {
    if steps != [] {
      StepKnown(s, st, steps[0], programs);
      RunKnown(Next(s, steps[0]).value, After(s, st, steps[0]), steps[1..], programs);
    }
  }

  lemma QuietFits(s: Sys, programs: seq<seq<Call>>)
    requires Known(s, Quiet, programs) && Done(s)
    ensures AllFit(programs, s.hist)
  {
    FitIff(s, Quiet);
    NothingBroke(s, programs);
  }

  lemma DoneIff(s: Sys, st: Stage, programs: seq<seq<Call>>)
    requires Known(s, st, programs)
    ensures Done(s) <==> Stuck(s) && AllFit(programs, s.hist)
  {
    DoneIffStuck(s, st);
    if Done(s) {
      if !st.Quiet? {
        OwnerIsNotDone(s, st);
      }
      QuietFits(s, programs);
    } else if st.GivenUp? {
      WhatBreaks(s, st, programs);
    } else if st.Deaf? {
      FitIff(s, st);
    }
  }

  /** However the threads are scheduled and whatever the engine and the callbacks do, a run is
      no longer than the work there is, and every call of every thread has been answered if
      and only if nothing more can happen and every request, event and answer was one a
      message can hold. */
  lemma EveryCallCompletes(programs: seq<seq<Call>>, table: seq<Host.Entry>, mem: map<nat, seq<byte>>, steps: seq<Step>)
    requires AllTyped(programs) && Run(Init(programs, table, mem), steps).Some?
    ensures |steps| <= Work(programs, |programs|)
    ensures var t := Run(Init(programs, table, mem), steps).value; Done(t) <==> Stuck(t) && AllFit(programs, t.hist)
  {
    var s := Init(programs, table, mem);
    InitKnown(programs, table, mem);
    InitRank(programs, table, mem);
    RunsAreBounded(s, Quiet, steps);
    RunKnown(s, Quiet, steps, programs);
    DoneIff(Run(s, steps).value, Reached(s, Quiet, steps), programs);
  }
}
