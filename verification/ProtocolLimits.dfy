/** Which calls keep an application clear of messages too long: the engine's only bound on a
    block is the buffer it was given, and the application chooses that, as it does its texts. */
module ProtocolLimits {
  import opened Bytes
  import opened Codec
  import opened Events
  import opened Slots
  import opened Protocol
  import opened ProtocolInvariant
  import opened ProtocolHistory
  import opened ProtocolBreaks
  import opened ProtocolProgress
  import Wire = Signatures
  import Host = CallbackTable
  import Bridge = ClientState

  /** The largest output buffer, in samples, whose blocks all fit a message. */
  const MAX_SAMPLES := 2097143

  /** Up to that many samples an event always fits, and a block of one more does not. */
  lemma MaxSamplesIsExact(e: Event)
    requires |e.data| == 2 * e.lparam
    ensures EventFits(e) <==> e.lparam <= MAX_SAMPLES
  {
  }

  const FN_ADD_TEXT: uint16 := 0x0100

  /** The longest text, in bytes, whose request fits a message. */
  const MAX_TEXT := 4194287

  function AddText(h: uint32, text: seq<byte>, events: nat): Call {
    Plain(FN_ADD_TEXT, [Handle(h), Str(text)], events)
  }

  lemma MaxTextIsExact(h: uint32, text: seq<byte>, events: nat)
    requires |text| < TWO32
    ensures Sendable(AddText(h, text, events)) <==> |text| <= MAX_TEXT
  {
    var args := [Handle(h), Str(text)];
    assert args[1..] == [Str(text)] && args[1..][1..] == [];
    assert EncodeArgs(args) == EncodeArg(Handle(h)) + EncodeArgs([Str(text)]);
    assert EncodeArgs([Str(text)]) == EncodeArg(Str(text)) + EncodeArgs([]);
  }

  /** An application that ever adds a longer one will not see all its calls answered. */
  lemma LongTextIsFatal(programs: seq<seq<Call>>, table: seq<Host.Entry>, mem: map<nat, seq<byte>>, steps: seq<Step>,
                        i: nat, h: uint32, text: seq<byte>, events: nat)
    requires AllTyped(programs) && Run(Init(programs, table, mem), steps).Some?
    requires MAX_TEXT < |text| < TWO32 && i < |programs| && AddText(h, text, events) in programs[i]
    ensures !Done(Run(Init(programs, table, mem), steps).value)
  {
    MaxTextIsExact(h, text, events);
    EveryCallCompletes(programs, table, mem, steps);
  }

  /** The bridge reads the very call the thread made: number and argument decide whether it makes
      an engine (eciNew, eciNewEx), deletes one, sets a buffer, registers a callback, or leaves
      the tables alone. */
  lemma RequestArrives(number: uint32, c: Call, made: nat)
    requires Sendable(c)
    ensures var r := AsRequest(RequestMsg(number, c), made);
      && (c.SetOutputBuffer? ==> OnWire(number, c).fn == 0x0300 && r == Bridge.SetOutputBuffer(c.handle, c.size))
      && (c.RegisterCallback? ==> OnWire(number, c).fn == 0x0304 && r == Bridge.RegisterCallback(c.handle))
      && (c.Plain? && c.fn in {0x0001, 0x0002} ==> r == Bridge.New(made))
      && (c.Plain? && c.fn == 0x0003 ==> exists h :: c.args == [Handle(h)] && r == Bridge.Delete(h))
      && (c.Plain? && c.fn !in {0x0001, 0x0002, 0x0003} ==> r == Bridge.Other)
  {
    var w := OnWire(number, c);
    RequestHeaderRoundTrip(number, w.fn, EncodeArgs(w.args));
    if !c.Plain? {
      Wire.RequestReachesItsBranch(w);
    } else if c.fn in {0x0001, 0x0002, 0x0003} {
      EngineCall(c);
      Wire.RequestReachesItsBranch(w);
    } else {
      OtherRequest(number, c, made);
    }
  }

  lemma EngineCall(c: Call)
    requires Typed(c) && c.Plain? && c.fn in {0x0001, 0x0002, 0x0003}
    ensures AllWithinLimits(c.args) && (c.fn == 0x0003 ==> exists h :: c.args == [Handle(h)])
  {
    var w := OnWire(0, c);
    assert forall i :: 0 <= i < |c.args| ==> OfKind(c.args[i], Wire.WrapperKinds(c.fn).value[i]);
    if c.fn == 0x0003 {
      assert OfKind(c.args[0], KHandle);
      assert c.args == [Handle(c.args[0].h)];
    }
  }

  lemma OtherRequest(number: uint32, c: Call, made: nat)
    requires Sendable(c) && c.Plain? && c.fn !in {0x0001, 0x0002, 0x0003}
    ensures AsRequest(RequestMsg(number, c), made) == Bridge.Other
  {
    RequestHeaderRoundTrip(number, c.fn, EncodeArgs(c.args));
  }

  // ------------------------------------------------------------------- small buffers

  predicate SmallBuffer(c: Call) {
    c.SetOutputBuffer? ==> c.size <= MAX_SAMPLES
  }

  predicate SmallBuffers(cs: seq<Call>) {
    forall c :: c in cs ==> SmallBuffer(c)
  }

  ghost predicate SmallEngines(m: map<uint32, Engine>) {
    forall h :: h in m ==> (m[h].buffer.Some? ==> m[h].buffer.value <= MAX_SAMPLES)
  }

  /** Nothing too long has been sent, and nothing can be. */
  ghost predicate Small(s: Sys) {
    && (forall i :: 0 <= i < |s.apps| ==> SmallBuffers(s.apps[i].calls))
    && SmallEngines(s.engines) && EventsFit(s.hist)
  }

  lemma BeforeStaysSmall(s: Sys, r: Bridge.Request)
    requires SmallEngines(s.engines) && (r.SetOutputBuffer? ==> r.size <= MAX_SAMPLES)
    ensures SmallEngines(Before(s, r).0)
  {
  }

  lemma ReadStaysSmall(s: Sys, st: Stage, made: nat)
    requires InvAt(s, st) && Small(s) && Next(s, Read(made)).Some?
    ensures Small(Next(s, Read(made)).value)
  {
    ReadKeeps(s, st, made);
    var c := s.apps[st.o].calls[0];
    assert AppOk(s, st, st.o) && SmallBuffers(s.apps[st.o].calls) && c in s.apps[st.o].calls;
    if Sendable(c) {
      RequestArrives(st.number, c, made);
    }
    if Sendable(c) {
      BeforeStaysSmall(s, AsRequest(s.toBridge[0], made));
    }
  }

  lemma RaiseStaysSmall(s: Sys, e: Event)
    requires Small(s) && Next(s, Raise(e)).Some?
    ensures Small(Next(s, Raise(e)).value)
  {
    assert MayRaise(s, e) ==> EventFits(e);
    var t := Next(s, Raise(e)).value;
    assert forall k :: 0 <= k < |t.hist.sent| ==> t.hist.sent[k] == e || (k < |s.hist.sent| && t.hist.sent[k] == s.hist.sent[k]);
  }

  lemma FinishStaysSmall(s: Sys, v: int32, err: uint16, extra: seq<byte>)
    requires Small(s) && Next(s, Finish(v, err, extra)).Some?
    ensures Small(Next(s, Finish(v, err, extra)).value)
  {
  }

  /** A step that only moves a thread along its calls. */
  lemma ThreadStaysSmall(s: Sys, t: Sys, i: nat)
    requires Small(s) && t.engines == s.engines && t.hist.sent == s.hist.sent
    requires i < |s.apps| == |t.apps| && t.apps == s.apps[i := t.apps[i]]
    requires t.apps[i].calls == s.apps[i].calls || (s.apps[i].calls != [] && t.apps[i].calls == s.apps[i].calls[1..])
    ensures Small(t)
  {
    assert SmallBuffers(s.apps[i].calls);
    assert forall c :: c in t.apps[i].calls ==> c in s.apps[i].calls;
  }

  lemma RequestStepStaysSmall(s: Sys, step: Step)
    requires Small(s) && Next(s, step).Some?
    requires step.TakeCbLock? || step.MakeNote? || step.TakeRpcLock? || step.Send?
    ensures Small(Next(s, step).value)
  {
    ThreadStaysSmall(s, Next(s, step).value, step.i);
  }

  lemma AnswerStepStaysSmall(s: Sys, step: Step)
    requires Small(s) && Next(s, step).Some? && (step.Receive? || step.Return? || step.FindGone?)
    ensures Small(Next(s, step).value)
  {
    ThreadStaysSmall(s, Next(s, step).value, step.i);
  }

  lemma OtherStepStaysSmall(s: Sys, step: Step)
    requires Small(s) && Next(s, step).Some?
    requires step.Resume? || step.Hear? || step.Enter? || step.Deliver? || step.CallbackReturns? || step.Reply?
    ensures Small(Next(s, step).value)
  {
    OtherStepKeeps(s, step);
  }

  lemma OtherStepKeeps(s: Sys, step: Step)
    requires Next(s, step).Some?
    requires step.Resume? || step.Hear? || step.Enter? || step.Deliver? || step.CallbackReturns? || step.Reply?
    ensures var t := Next(s, step).value; t.apps == s.apps && t.engines == s.engines && t.hist.sent == s.hist.sent
  {
  }

  lemma StepStaysSmall(s: Sys, st: Stage, step: Step)
    requires InvAt(s, st) && Small(s) && Next(s, step).Some?
    ensures Small(Next(s, step).value)
  {
    match step {
      case TakeCbLock(_) => RequestStepStaysSmall(s, step);
      case MakeNote(_) => RequestStepStaysSmall(s, step);
      case TakeRpcLock(_) => RequestStepStaysSmall(s, step);
      case Send(_) => RequestStepStaysSmall(s, step);
      case Receive(_) => AnswerStepStaysSmall(s, step);
      case Return(_) => AnswerStepStaysSmall(s, step);
      case FindGone(_) => AnswerStepStaysSmall(s, step);
      case Read(made) => ReadStaysSmall(s, st, made);
      case Raise(e) => RaiseStaysSmall(s, e);
      case Finish(v, err, extra) => FinishStaysSmall(s, v, err, extra);
      case _ => OtherStepStaysSmall(s, step);
    }
  }

  lemma {:induction false} RunStaysSmall(s: Sys, st: Stage, steps: seq<Step>)
    requires InvAt(s, st) && Small(s) && Run(s, steps).Some?
    ensures Small(Run(s, steps).value)
    decreases |steps|
  {
    if steps != [] {
      StepKeeps(s, st, steps[0]);
      StepStaysSmall(s, st, steps[0]);
      RunStaysSmall(Next(s, steps[0]).value, After(s, st, steps[0]), steps[1..]);
    }
  }

  /** An application that sets no output buffer above 2097143 samples never meets an event too
      long, and so all its calls get answered exactly if their requests and answers fit. */
  lemma SmallBuffersComplete(programs: seq<seq<Call>>, table: seq<Host.Entry>, mem: map<nat, seq<byte>>, steps: seq<Step>)
    requires AllTyped(programs) && Run(Init(programs, table, mem), steps).Some?
    requires forall i :: 0 <= i < |programs| ==> SmallBuffers(programs[i])
    ensures var t := Run(Init(programs, table, mem), steps).value;
      && EventsFit(t.hist)
      && (Done(t) <==> Stuck(t) && AllSendable(programs) && AnswersFit(t.hist))
  {
    InitAtRest(programs, table, mem);
    RunStaysSmall(Init(programs, table, mem), Quiet, steps);
    EveryCallCompletes(programs, table, mem, steps);
  }
}
