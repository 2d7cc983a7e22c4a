/** What breaks a connection: a request or an answer too long for a message, and nothing
    else. */
module ProtocolBreaks {
  import opened Bytes
  import opened Framing
  import opened Protocol
  import opened ProtocolInvariant
  import Host = CallbackTable

  predicate AllSendable(programs: seq<seq<Call>>) {
    forall i :: 0 <= i < |programs| ==> forall c :: c in programs[i] ==> Sendable(c)
  }

  /** Every answer given passes the framing layer. */
  predicate AnswersFit(h: History) {
    forall k :: 0 <= k < |h.trailing| ==> AnswerFits(h.trailing[k])
  }

  /** What is left of a program whose calls so far could all be sent. */
  predicate Remaining(p: seq<Call>, cs: seq<Call>) {
    |cs| <= |p| && cs == p[|p| - |cs|..] && forall k :: 0 <= k < |p| - |cs| ==> Sendable(p[k])
  }

  predicate AllRemaining(apps: seq<App>, programs: seq<seq<Call>>) {
    |apps| == |programs| && forall i :: 0 <= i < |programs| ==> Remaining(programs[i], apps[i].calls)
  }

  predicate HeadSendable(s: Sys, i: nat) {
    i < |s.apps| && s.apps[i].calls != [] && Sendable(s.apps[i].calls[0])
  }

  /** The engine goes on, or waits for the application. */
  predicate AtWork(st: Stage) {
    st.Dispatching? || Disturbed(st)
  }

  /** The bridge has taken the request in. */
  predicate Served(st: Stage) {
    AtWork(st) || st.Answered? || st.Received?
  }

  predicate CallsSoFar(s: Sys, st: Stage) {
    && (Served(st) ==> HeadSendable(s, st.o))
    && (st.Refused? ==> !HeadSendable(s, st.o))
    && (st.GivenUp? ==> !HeadSendable(s, st.o) || !AnswersFit(s.hist))
  }

  /** All answers fit but perhaps the last, which is on its way to the thread that asked or
      has made it give up. */
  predicate AnswersSoFar(h: History, st: Stage) {
    && (forall k :: 0 <= k < |h.trailing| ==> AnswerFits(h.trailing[k]) || (k == |h.trailing| - 1 && (st.Answered? || st.GivenUp?)))
    && (st.Answered? ==> h.trailing != [] && h.trailing[|h.trailing| - 1] == |st.extra|)
  }

  predicate SoFar(s: Sys, st: Stage, programs: seq<seq<Call>>) {
    AllRemaining(s.apps, programs) && CallsSoFar(s, st) && AnswersSoFar(s.hist, st)
  }

  // --------------------------------------------------------------------- step by step

  predicate SameCalls(a: seq<App>, b: seq<App>) {
    |a| == |b| && forall i :: 0 <= i < |a| ==> b[i].calls == a[i].calls
  }

  lemma SameSoFar(s: Sys, st: Stage, t: Sys, u: Stage, programs: seq<seq<Call>>)
    requires SoFar(s, st, programs) && SameCalls(s.apps, t.apps) && t.hist.trailing == s.hist.trailing
    requires Served(u) ==> Served(st) && u.o == st.o
    requires !st.Answered? && !u.Answered? && !u.Refused? && !u.GivenUp? && !st.GivenUp?
    ensures SoFar(t, u, programs)
  {
  }

  lemma StaySoFar(s: Sys, st: Stage, t: Sys, programs: seq<seq<Call>>)
    requires SoFar(s, st, programs) && SameCalls(s.apps, t.apps) && t.hist.trailing == s.hist.trailing
    ensures SoFar(t, st, programs)
  {
  }

  lemma LockStepSoFar(s: Sys, st: Stage, step: Step, programs: seq<seq<Call>>)
    requires InvAt(s, st) && SoFar(s, st, programs) && Next(s, step).Some?
    requires step.TakeCbLock? || step.MakeNote?
    ensures SoFar(Next(s, step).value, st, programs)
  {
    StaySoFar(s, st, Next(s, step).value, programs);
  }

  lemma RequestStepSoFar(s: Sys, st: Stage, step: Step, programs: seq<seq<Call>>)
    requires InvAt(s, st) && SoFar(s, st, programs) && Next(s, step).Some?
    requires step.TakeRpcLock? || step.Send?
    ensures SoFar(Next(s, step).value, After(s, st, step), programs)
  {
    if step.Send? {
      SendKeeps(s, st, step.i);
    } else {
      TakeRpcLockKeeps(s, st, step.i);
    }
    SameSoFar(s, st, Next(s, step).value, After(s, st, step), programs);
  }

  lemma ReadSoFar(s: Sys, st: Stage, made: nat, programs: seq<seq<Call>>)
    requires InvAt(s, st) && SoFar(s, st, programs) && Next(s, Read(made)).Some?
    ensures SoFar(Next(s, Read(made)).value, After(s, st, Read(made)), programs)
  {
    ReadKeeps(s, st, made);
    var t := Next(s, Read(made)).value;
    assert t.apps == s.apps && t.hist.trailing == s.hist.trailing;
  }

  lemma FinishSoFar(s: Sys, st: Stage, v: int32, err: uint16, extra: seq<byte>, programs: seq<seq<Call>>)
    requires InvAt(s, st) && SoFar(s, st, programs) && Next(s, Finish(v, err, extra)).Some?
    ensures SoFar(Next(s, Finish(v, err, extra)).value, After(s, st, Finish(v, err, extra)), programs)
  {
    FinishKeeps(s, st, v, err, extra);
    var t := Next(s, Finish(v, err, extra)).value;
    assert t.apps == s.apps && t.hist.trailing == s.hist.trailing + [|extra|];
  }

  lemma AnswerSoFar(s: Sys, st: Stage, t: Sys, u: Stage, programs: seq<seq<Call>>)
    requires SoFar(s, st, programs) && SameCalls(s.apps, t.apps) && t.hist == s.hist && st.Answered?
    requires u == if AnswerFits(|st.extra|) then Received(st.o, st.number, st.r, st.extra) else GivenUp(st.o, st.number)
    ensures SoFar(t, u, programs)
  {
  }

  lemma ReceiveSoFar(s: Sys, st: Stage, i: nat, programs: seq<seq<Call>>)
    requires InvAt(s, st) && SoFar(s, st, programs) && Next(s, Receive(i)).Some?
    ensures SoFar(Next(s, Receive(i)).value, After(s, st, Receive(i)), programs)
  {
    ReceiveKeeps(s, st, i);
    AnswerSoFar(s, st, Next(s, Receive(i)).value, After(s, st, Receive(i)), programs);
  }

  lemma FindGoneSoFar(s: Sys, st: Stage, i: nat, programs: seq<seq<Call>>)
    requires InvAt(s, st) && SoFar(s, st, programs) && Next(s, FindGone(i)).Some?
    ensures SoFar(Next(s, FindGone(i)).value, After(s, st, FindGone(i)), programs)
  {
    FindGoneKeeps(s, st, i);
    var t := Next(s, FindGone(i)).value;
    assert SameCalls(s.apps, t.apps) && t.hist == s.hist;
  }

  lemma OneCallLess(p: seq<Call>, cs: seq<Call>)
    requires Remaining(p, cs) && cs != [] && Sendable(cs[0])
    ensures Remaining(p, cs[1..])
  {
    assert cs[1..] == p[|p| - |cs| + 1..];
  }

  lemma ReturnSoFar(s: Sys, st: Stage, i: nat, programs: seq<seq<Call>>)
    requires InvAt(s, st) && SoFar(s, st, programs) && Next(s, Return(i)).Some?
    ensures SoFar(Next(s, Return(i)).value, Quiet, programs)
  {
    ReturnKeeps(s, st, i);
    OneCallLess(programs[i], s.apps[i].calls);
    var t := Next(s, Return(i)).value;
    assert t.hist.trailing == s.hist.trailing;
  }

  lemma EventStepSoFar(s: Sys, st: Stage, t: Sys, u: Stage, programs: seq<seq<Call>>)
    requires SoFar(s, st, programs) && EventStep(s, st, t, u)
    ensures SoFar(t, u, programs)
  {
    SameSoFar(s, st, t, u, programs);
  }

  lemma EngineStepSoFar(s: Sys, st: Stage, step: Step, programs: seq<seq<Call>>)
    requires InvAt(s, st) && SoFar(s, st, programs) && Next(s, step).Some? && (step.Raise? || step.Resume? || step.Hear?)
    ensures SoFar(Next(s, step).value, After(s, st, step), programs)
  {
    EngineStepStages(s, st, step);
    EventStepSoFar(s, st, Next(s, step).value, After(s, st, step), programs);
  }

  lemma HostStepSoFar(s: Sys, st: Stage, step: Step, programs: seq<seq<Call>>)
    requires InvAt(s, st) && SoFar(s, st, programs) && Next(s, step).Some?
    requires step.Enter? || step.Deliver? || step.CallbackReturns? || step.Reply?
    ensures SoFar(Next(s, step).value, After(s, st, step), programs)
  {
    HostStepStages(s, st, step);
    EventStepSoFar(s, st, Next(s, step).value, After(s, st, step), programs);
  }

  predicate EventStep(s: Sys, st: Stage, t: Sys, u: Stage) {
    t.apps == s.apps && t.hist.trailing == s.hist.trailing && AtWork(st) && AtWork(u) && u.o == st.o
  }

  lemma EngineStepStages(s: Sys, st: Stage, step: Step)
    requires InvAt(s, st) && Next(s, step).Some? && (step.Raise? || step.Resume? || step.Hear?)
    ensures EventStep(s, st, Next(s, step).value, After(s, st, step))
  {
    match step {
      case Raise(e) => RaiseKeeps(s, st, e);
      case Resume => ResumeKeeps(s, st);
      case Hear => HearingIs(s, st);
    }
  }

  lemma HostStepStages(s: Sys, st: Stage, step: Step)
    requires InvAt(s, st) && Next(s, step).Some?
    requires step.Enter? || step.Deliver? || step.CallbackReturns? || step.Reply?
    ensures EventStep(s, st, Next(s, step).value, After(s, st, step))
  {
    match step {
      case Enter => EnterKeeps(s, st);
      case Deliver => DeliverKeeps(s, st);
      case CallbackReturns(ret) => CallbackReturnsKeeps(s, st, ret);
      case Reply => ReplyKeeps(s, st);
    }
  }

  lemma StepSoFar(s: Sys, st: Stage, step: Step, programs: seq<seq<Call>>)
    requires InvAt(s, st) && SoFar(s, st, programs) && Next(s, step).Some?
    ensures SoFar(Next(s, step).value, After(s, st, step), programs)
  {
    match step {
      case TakeCbLock(_) => LockStepSoFar(s, st, step, programs);
      case MakeNote(_) => LockStepSoFar(s, st, step, programs);
      case TakeRpcLock(_) => RequestStepSoFar(s, st, step, programs);
      case Send(_) => RequestStepSoFar(s, st, step, programs);
      case Receive(i) => ReceiveSoFar(s, st, i, programs);
      case Return(i) => ReturnSoFar(s, st, i, programs);
      case FindGone(i) => FindGoneSoFar(s, st, i, programs);
      case Read(made) => ReadSoFar(s, st, made, programs);
      case Finish(v, err, extra) => FinishSoFar(s, st, v, err, extra, programs);
      case Raise(_) => EngineStepSoFar(s, st, step, programs);
      case Resume => EngineStepSoFar(s, st, step, programs);
      case Hear => EngineStepSoFar(s, st, step, programs);
      case _ => HostStepSoFar(s, st, step, programs);
    }
  }

  lemma InitSoFar(programs: seq<seq<Call>>, table: seq<Host.Entry>, mem: map<nat, seq<byte>>)
    ensures SoFar(Init(programs, table, mem), Quiet, programs)
  {
  }

  lemma {:induction false} RunSoFar(s: Sys, st: Stage, steps: seq<Step>, programs: seq<seq<Call>>)
    requires InvAt(s, st) && SoFar(s, st, programs) && Run(s, steps).Some?
    ensures SoFar(Run(s, steps).value, Reached(s, st, steps), programs)
    decreases |steps|
  {
    if steps != [] {
      StepKeeps(s, st, steps[0]);
      StepSoFar(s, st, steps[0], programs);
      RunSoFar(Next(s, steps[0]).value, After(s, st, steps[0]), steps[1..], programs);
    }
  }

  // ------------------------------------------------------------------------ whole runs

  lemma HeadIsInProgram(s: Sys, programs: seq<seq<Call>>, i: nat)
    requires AllRemaining(s.apps, programs) && AllSendable(programs) && i < |s.apps| && s.apps[i].calls != []
    ensures HeadSendable(s, i)
  {
    var cs, p := s.apps[i].calls, programs[i];
    assert Remaining(p, cs);
    assert cs[0] == p[|p| - |cs|] && cs[0] in p;
  }

  /** A connection is given up, or about to be, only for a request or an answer that is too
      long. */
  lemma WhatBreaks(s: Sys, st: Stage, programs: seq<seq<Call>>)
    requires InvAt(s, st) && SoFar(s, st, programs) && (st.Refused? || st.GivenUp?)
    ensures !AllSendable(programs) || !AnswersFit(s.hist)
  {
    if AllSendable(programs) {
      HeadIsInProgram(s, programs, st.o);
    }
  }

  /** And when all calls have been made none was. */
  lemma NothingBroke(s: Sys, programs: seq<seq<Call>>)
    requires SoFar(s, Quiet, programs) && Done(s)
    ensures AllSendable(programs) && AnswersFit(s.hist)
  {
    forall i, c | 0 <= i < |programs| && c in programs[i] ensures Sendable(c) {
      assert Remaining(programs[i], s.apps[i].calls) && s.apps[i] == App(Ready, []);
    }
  }

  /** As long as requests and answers fit, the connection holds. */
  lemma ConnectionHolds(programs: seq<seq<Call>>, table: seq<Host.Entry>, mem: map<nat, seq<byte>>, steps: seq<Step>)
    requires AllTyped(programs) && Run(Init(programs, table, mem), steps).Some?
    ensures var t := Run(Init(programs, table, mem), steps).value;
      AllSendable(programs) && AnswersFit(t.hist) ==> t.connected && t.bridge != Gone
  {
    var s := Init(programs, table, mem);
    InitAtRest(programs, table, mem);
    InitSoFar(programs, table, mem);
    RunKeeps(s, Quiet, steps);
    RunSoFar(s, Quiet, steps, programs);
    var t, st := Run(s, steps).value, Reached(s, Quiet, steps);
    if st.Refused? || st.GivenUp? {
      WhatBreaks(t, st, programs);
    }
  }
}
