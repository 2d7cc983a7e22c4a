/** All that the freedom from deadlock hangs on: an application's callback makes no call that
    goes to the bridge, and every request, event and answer fits a message. */
module ProtocolReentry {
  import opened Bytes
  import opened Protocol
  import opened ProtocolInvariant
  import opened ProtocolHistory
  import opened ProtocolProgress
  import Host = CallbackTable

  /** The connection, and the call the application's callback is trying to make, if any. */
  datatype Ext = Ext(s: Sys, inner: Option<Call>)

  datatype ExtStep = Own(step: Step) | CallsBack(c: Call) | TakesLock

  /** The lock the inner call has to take first is free. */
  predicate InnerLockFree(e: Ext)
    requires e.inner.Some?
  {
    if Noted(e.inner.value) then e.s.cbLock == None else e.s.rpcLock == None
  }

  /** While its inner call lasts the callback cannot return; all other threads go on as
      before. What the call would do once it had its lock does not matter. */
  function NextExt(e: Ext, x: ExtStep): Option<Ext> {
    match x
    case Own(step) =>
      if e.inner.Some? && step.CallbackReturns? then None
      else if Next(e.s, step).None? then None
      else Some(e.(s := Next(e.s, step).value))
    case CallsBack(c) => if e.s.connected && e.s.cb.Calling? && e.inner.None? then Some(e.(inner := Some(c))) else None
    case TakesLock => if e.inner.Some? && InnerLockFree(e) then Some(e.(inner := None)) else None
  }

  function RunExt(e: Ext, xs: seq<ExtStep>): Option<Ext>
    decreases |xs|
  {
    if xs == [] then Some(e)
    else match NextExt(e, xs[0])
      case None => None
      case Some(f) => RunExt(f, xs[1..])
  }

  ghost predicate ExtInv(e: Ext, st: Stage, programs: seq<seq<Call>>) {
    Known(e.s, st, programs) && (e.inner.Some? ==> st.InCall?)
  }

  /** From the moment the callback makes a call nobody at all can take a step: it waits for
      a lock it or the waiting caller holds, and everybody else waits for it. */
  lemma NobodyMoves(e: Ext, st: Stage, x: ExtStep)
    requires InvAt(e.s, st) && st.InCall? && e.inner.Some?
    ensures NextExt(e, x).None?
  {
    if x.Own? {
      InCallMoves(e.s, st, x.step);
    }
  }

  lemma InCallMoves(s: Sys, st: Stage, step: Step)
    requires InvAt(s, st) && st.InCall?
    ensures Next(s, step).None? || step.CallbackReturns?
  {
    if step.TakeCbLock? || step.MakeNote? || step.TakeRpcLock? || step.Send? || step.Receive? || step.Return? || step.FindGone? {
      AppsWaitInCall(s, st, step, step.i);
    }
  }

  lemma AppsWaitInCall(s: Sys, st: Stage, step: Step, i: nat)
    requires InvAt(s, st) && st.InCall?
    requires step in {TakeCbLock(i), MakeNote(i), TakeRpcLock(i), Send(i), Receive(i), Return(i), FindGone(i)}
    ensures Next(s, step).None?
  {
    if i < |s.apps| {
      assert AppOk(s, st, i);
    }
  }

  lemma ExtStepKeeps(e: Ext, st: Stage, x: ExtStep, programs: seq<seq<Call>>) returns (u: Stage)
    requires ExtInv(e, st, programs) && NextExt(e, x).Some?
    ensures ExtInv(NextExt(e, x).value, u, programs)
  {
    u := st;
    if e.inner.Some? {
      NobodyMoves(e, st, x);
    } else if x.Own? {
      StepKnown(e.s, st, x.step, programs);
      u := After(e.s, st, x.step);
    } else {
      CallingIsInCall(e.s, st);
    }
  }

  lemma CallingIsInCall(s: Sys, st: Stage)
    requires InvAt(s, st) && s.cb.Calling?
    ensures st.InCall?
  {
  }

  lemma {:induction false} RunExtKeeps(e: Ext, st: Stage, xs: seq<ExtStep>, programs: seq<seq<Call>>) returns (u: Stage)
    requires ExtInv(e, st, programs) && RunExt(e, xs).Some?
    ensures ExtInv(RunExt(e, xs).value, u, programs)
    decreases |xs|
  {
    u := st;
    if xs != [] {
      u := ExtStepKeeps(e, st, xs[0], programs);
      u := RunExtKeeps(NextExt(e, xs[0]).value, u, xs[1..], programs);
    }
  }

  ghost predicate ExtStuck(e: Ext) {
    forall x :: NextExt(e, x).None?
  }

  lemma ExtStuckThen(e: Ext)
    requires e.inner.None? && ExtStuck(e)
    ensures Stuck(e.s)
  {
    forall step ensures Next(e.s, step).None? {
      assert NextExt(e, Own(step)).None?;
    }
  }

  /** When nothing more can happen, all calls have completed if and only if no callback has
      made one itself and every request, event and answer was one a message can hold. */
  lemma CompleteIff(programs: seq<seq<Call>>, table: seq<Host.Entry>, mem: map<nat, seq<byte>>, xs: seq<ExtStep>)
    requires AllTyped(programs)
    requires RunExt(Ext(Init(programs, table, mem), None), xs).Some?
    requires ExtStuck(RunExt(Ext(Init(programs, table, mem), None), xs).value)
    ensures var e := RunExt(Ext(Init(programs, table, mem), None), xs).value;
      Done(e.s) <==> e.inner.None? && AllFit(programs, e.s.hist)
  {
    InitKnown(programs, table, mem);
    var st := RunExtKeeps(Ext(Init(programs, table, mem), None), Quiet, xs, programs);
    var e := RunExt(Ext(Init(programs, table, mem), None), xs).value;
    if e.inner.Some? {
      OwnerIsNotDone(e.s, st);
    } else {
      ExtStuckThen(e);
      DoneIff(e.s, st, programs);
    }
  }

  /** And an inner call, once made, is the last thing to happen. */
  lemma ReentryIsTheEnd(programs: seq<seq<Call>>, table: seq<Host.Entry>, mem: map<nat, seq<byte>>, xs: seq<ExtStep>, c: Call)
    requires AllTyped(programs)
    requires RunExt(Ext(Init(programs, table, mem), None), xs).Some?
    requires NextExt(RunExt(Ext(Init(programs, table, mem), None), xs).value, CallsBack(c)).Some?
    ensures ExtStuck(NextExt(RunExt(Ext(Init(programs, table, mem), None), xs).value, CallsBack(c)).value)
  {
    InitKnown(programs, table, mem);
    var st := RunExtKeeps(Ext(Init(programs, table, mem), None), Quiet, xs, programs);
    var e := RunExt(Ext(Init(programs, table, mem), None), xs).value;
    var u := ExtStepKeeps(e, st, CallsBack(c), programs);
    forall x ensures NextExt(NextExt(e, CallsBack(c)).value, x).None? {
      NobodyMoves(NextExt(e, CallsBack(c)).value, u, x);
    }
  }
}
