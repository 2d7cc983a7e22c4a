/** Runs from the start of a connection that get as far as the theorems about callbacks speak
    of: one in which an application's callback runs, one in which it makes a call of its own,
    one in which another thread makes its buffer smaller under it, and one in which a block is
    too long for a message. */
module ProtocolWitness {
  import opened Bytes
  import opened Codec
  import opened Events
  import opened Slots
  import opened Protocol
  import opened ProtocolInvariant
  import opened ProtocolHistory
  import opened ProtocolBreaks
  import opened ProtocolProgress
  import opened ProtocolReentry
  import opened ProtocolAudio
  import opened ProtocolLimits
  import opened ProtocolGentle
  import Wire = Signatures
  import Host = CallbackTable
  import Bridge = ClientState

  ghost predicate Reaches(s: Sys, t: Sys) {
    exists steps :: Run(s, steps) == Some(t)
  }

  lemma ReachesSelf(s: Sys)
    ensures Reaches(s, s)
  {
    assert Run(s, []) == Some(s);
  }

  lemma {:induction false} RunOneMore(s: Sys, steps: seq<Step>, t: Sys, step: Step)
    requires Run(s, steps) == Some(t)
    ensures Run(s, steps + [step]) == Next(t, step)
    decreases |steps|
  {
    if steps == [] {
      assert [] + [step] == [step] && [step][1..] == [];
      assert Next(t, step).Some? ==> Run(Next(t, step).value, []) == Next(t, step);
    } else {
      RunOneMore(Next(s, steps[0]).value, steps[1..], t, step);
      assert (steps + [step])[1..] == steps[1..] + [step];
    }
  }

  lemma ReachesOn(s: Sys, t: Sys, step: Step)
    requires Reaches(s, t) && Next(t, step).Some?
    ensures Reaches(s, Next(t, step).value)
  {
    var steps :| Run(s, steps) == Some(t);
    RunOneMore(s, steps, t, step);
    assert Run(s, steps + [step]) == Some(Next(t, step).value);
  }

  // ------------------------------------------------------------- the parts of a call

  /** A thread notes its call on the host's table, whatever else is going on. */
  lemma TakeNote(z: Sys, s: Sys, st: Stage, i: nat) returns (t: Sys)
    requires Reaches(z, s) && InvAt(s, st) && s.connected && At(s, i, Ready) && s.cbLock == None && Noted(s.apps[i].calls[0])
    ensures Reaches(z, t) && InvAt(t, st)
    ensures var c := s.apps[i].calls[0];
      t == s.(apps := s.apps[i := App(Wanting, s.apps[i].calls)], table := Host.Upsert(s.table, c.handle, Note(c)))
  {
    ReachesOn(z, s, TakeCbLock(i));
    TakeCbLockKeeps(s, st, i);
    var u := Next(s, TakeCbLock(i)).value;
    ReachesOn(z, u, MakeNote(i));
    MakeNoteKeeps(u, st, i);
    t := Next(u, MakeNote(i)).value;
    assert t.apps == s.apps[i := App(Wanting, s.apps[i].calls)];
  }

  predicate MaySend(s: Sys, i: nat) {
    At(s, i, Wanting) || (At(s, i, Ready) && !Noted(s.apps[i].calls[0]))
  }

  lemma SendCall(z: Sys, s: Sys, i: nat) returns (t: Sys)
    requires Reaches(z, s) && InvAt(s, Quiet) && MaySend(s, i) && Sendable(s.apps[i].calls[0])
    ensures Reaches(z, t) && InvAt(t, Asked(i, s.nextSeq)) && SameWorld(s, t)
    ensures t.apps == s.apps[i := App(Waiting(s.nextSeq), s.apps[i].calls)]
  {
    ReachesOn(z, s, TakeRpcLock(i));
    TakeRpcLockKeeps(s, Quiet, i);
    var u := Next(s, TakeRpcLock(i)).value;
    assert u.apps[i] == App(Locked, s.apps[i].calls);
    ReachesOn(z, u, Send(i));
    SendKeeps(u, Taken(i), i);
    t := Next(u, Send(i)).value;
    assert t.apps == s.apps[i := App(Waiting(s.nextSeq), s.apps[i].calls)];
  }

  /** A call on its way to the engine, with nothing else under way. */
  lemma ServeCall(z: Sys, s: Sys, i: nat, made: nat) returns (t: Sys)
    requires Reaches(z, s) && InvAt(s, Quiet) && MaySend(s, i) && Sendable(s.apps[i].calls[0]) && s.nextId != 0
    ensures Reaches(z, t) && InvAt(t, Dispatching(i, s.nextSeq))
    ensures var c := s.apps[i].calls[0];
      var r := AsRequest(RequestMsg(s.nextSeq, c), made);
      && t.apps == s.apps[i := App(Waiting(s.nextSeq), s.apps[i].calls)]
      && t.table == s.table && t.mem == s.mem && t.cbLock == s.cbLock
      && (t.engines, t.nextId) == Before(s, r) && t.bridge == Working(s.nextSeq, r, c.events)
  {
    var v := SendCall(z, s, i);
    ReadFromAsked(v, Asked(i, s.nextSeq));
    ReachesOn(z, v, Read(made));
    ReadKeeps(v, Asked(i, s.nextSeq), made);
    t := Next(v, Read(made)).value;
  }

  predicate SameWorld(s: Sys, t: Sys) {
    && t.table == s.table && t.mem == s.mem && t.cbLock == s.cbLock
    && t.engines == s.engines && t.nextId == s.nextId
  }

  lemma EngineEnds(z: Sys, s: Sys, i: nat, number: uint32) returns (t: Sys)
    requires Reaches(z, s) && InvAt(s, Dispatching(i, number)) && !s.bridge.request.Delete?
    ensures Reaches(z, t) && InvAt(t, Answered(i, number, Response(number, 0, 0), []))
    ensures SameWorld(s, t) && t.apps == s.apps
  {
    ReachesOn(z, s, Finish(0, 0, []));
    FinishKeeps(s, Dispatching(i, number), 0, 0, []);
    t := Next(s, Finish(0, 0, [])).value;
  }

  lemma AnswerArrives(z: Sys, s: Sys, st: Stage) returns (t: Sys)
    requires Reaches(z, s) && InvAt(s, st) && st.Answered? && AnswerFits(|st.extra|)
    ensures Reaches(z, t) && InvAt(t, Received(st.o, st.number, st.r, st.extra)) && SameWorld(s, t)
    ensures st.o < |s.apps| && |t.apps| == |s.apps| && t.apps[st.o].calls == s.apps[st.o].calls
    ensures t.apps == s.apps[st.o := t.apps[st.o]]
  {
    OwnerCanGoOn(s, st);
    ReachesOn(z, s, Receive(st.o));
    ReceiveKeeps(s, st, st.o);
    t := Next(s, Receive(st.o)).value;
  }

  lemma CallReturns(z: Sys, s: Sys, st: Stage) returns (t: Sys)
    requires Reaches(z, s) && InvAt(s, st) && st.Received?
    ensures Reaches(z, t) && InvAt(t, Quiet) && SameWorld(s, t)
    ensures st.o < |s.apps| && s.apps[st.o].calls != [] && t.apps == s.apps[st.o := App(Ready, s.apps[st.o].calls[1..])]
  {
    OwnerCanGoOn(s, st);
    ReachesOn(z, s, Return(st.o));
    ReturnKeeps(s, st, st.o);
    t := Next(s, Return(st.o)).value;
  }

  /** And back, the engine having done nothing more. */
  lemma EndCall(z: Sys, s: Sys, i: nat, number: uint32) returns (t: Sys)
    requires Reaches(z, s) && InvAt(s, Dispatching(i, number)) && !s.bridge.request.Delete?
    ensures Reaches(z, t) && InvAt(t, Quiet) && i < |s.apps| && s.apps[i].calls != []
    ensures t.apps == s.apps[i := App(Ready, s.apps[i].calls[1..])] && SameWorld(s, t)
  {
    var u := EngineEnds(z, s, i, number);
    var v := AnswerArrives(z, u, Answered(i, number, Response(number, 0, 0), []));
    t := CallReturns(z, v, Received(i, number, Response(number, 0, 0), []));
  }

  lemma MakeCall(z: Sys, s: Sys, i: nat, c: Call, made: nat, r: Bridge.Request) returns (t: Sys)
    requires Reaches(z, s) && InvAt(s, Quiet) && MaySend(s, i) && c == s.apps[i].calls[0] && Sendable(c) && s.nextId != 0
    requires r == AsRequest(RequestMsg(s.nextSeq, c), made) && !r.Delete?
    ensures Reaches(z, t) && InvAt(t, Quiet) && t.apps == s.apps[i := App(Ready, s.apps[i].calls[1..])]
    ensures t.table == s.table && t.mem == s.mem && t.cbLock == s.cbLock && (t.engines, t.nextId) == Before(s, r)
  {
    var u := ServeCall(z, s, i, made);
    t := EndCall(z, u, i, s.nextSeq);
  }

  // ------------------------------------------------------------------ one application

  const NEW_ENGINE := Plain(0x0001, [], 0)
  const REGISTER := RegisterCallback(1, Some(0), 0, 0)
  const SYNCHRONIZE := Plain(0x0109, [Handle(1)], 1)
  const SHRINK := SetOutputBuffer(1, 0, Some(8), 0)

  function SetBuffer(n: int32): Call {
    SetOutputBuffer(1, n, Some(7), 0)
  }

  /** One thread sets up an engine with a buffer of `n` samples and lets it speak; another has a
      smaller buffer at hand. */
  function Programs(n: int32): seq<seq<Call>> {
    [[NEW_ENGINE, SetBuffer(n), REGISTER, SYNCHRONIZE], [SHRINK]]
  }

  function BlankTable(): (table: seq<Host.Entry>)
    ensures StartsEmpty(table)
  {
    seq(Host.MAX_CB_HANDLES, i => Host.BLANK)
  }

  function Opening(n: int32, mem: map<nat, seq<byte>>): Sys {
    Init(Programs(n), BlankTable(), mem)
  }

  lemma ShortCallSendable(c: Call)
    requires |OnWire(0, c).args| <= 2 && forall a :: a in OnWire(0, c).args ==> a.Handle? || a.Int32?
    requires Wire.WrapperKinds(OnWire(0, c).fn).Some?
    requires AllOfKind(OnWire(0, c).args, Wire.WrapperKinds(OnWire(0, c).fn).value)
    requires c.Plain? ==> c.fn != FN_SET_OUTPUT_BUFFER && c.fn != FN_REGISTER_CALLBACK
    ensures Sendable(c)
  {
    WordsAreShort(OnWire(0, c).args);
  }

  lemma {:induction false} WordsAreShort(args: seq<Arg>)
    requires |args| <= 2 && forall a :: a in args ==> a.Handle? || a.Int32?
    ensures (forall a :: a in args ==> Encodable(a)) && |EncodeArgs(args)| == 5 * |args|
  {
    if args != [] {
      assert args[0] in args && forall a | a in args[1..] :: a in args;
      WordsAreShort(args[1..]);
    }
  }

  lemma OpeningSendable(n: int32)
    ensures AllSendable(Programs(n)) && AllTyped(Programs(n))
  {
    ShortCallSendable(NEW_ENGINE);
    ShortCallSendable(SetBuffer(n));
    ShortCallSendable(REGISTER);
    ShortCallSendable(SYNCHRONIZE);
    ShortCallSendable(SHRINK);
  }

  /** What the first thread has left to do, and what host and bridge know by then. */
  predicate Knows(s: Sys, left: seq<Call>, engines: map<uint32, Engine>, r: Option<Host.Registration>) {
    && s.cbLock == None && s.nextId != 0 && s.engines == engines && Host.Lookup(s.table, 1) == r
    && |s.apps| == 2 && s.apps[0] == App(Ready, left) && s.apps[1] == App(Ready, [SHRINK])
  }

  lemma Opened(n: int32, mem: map<nat, seq<byte>>) returns (z: Sys)
    ensures z == Opening(n, mem) && Reaches(z, z) && InvAt(z, Quiet) && z.nextId == 1 && Host.Inv(z.table) && Host.Room(z.table)
    ensures Knows(z, [NEW_ENGINE, SetBuffer(n), REGISTER, SYNCHRONIZE], map[], None)
  {
    z := Opening(n, mem);
    ReachesSelf(z);
    OpeningSendable(n);
    InitAtRest(Programs(n), BlankTable(), mem);
    EmptyTableReal(BlankTable());
    BlankHasRoom(BlankTable());
  }

  lemma BlankHasRoom(table: seq<Host.Entry>)
    requires StartsEmpty(table)
    ensures Host.Room(table)
  {
    assert !table[0].active;
  }

  lemma NewArrives(number: uint32)
    ensures Sendable(NEW_ENGINE) && AsRequest(RequestMsg(number, NEW_ENGINE), 5) == Bridge.New(5)
  {
    ShortCallSendable(NEW_ENGINE);
    Wire.RequestReachesItsBranch(OnWire(number, NEW_ENGINE));
  }

  lemma FirstEngine(s: Sys)
    requires s.engines == map[] && s.nextId == 1
    ensures Before(s, Bridge.New(5)) == (map[1 := Engine(5, false, None)], 2)
  {
  }

  lemma EngineCreated(z: Sys, s: Sys, left: seq<Call>) returns (t: Sys)
    requires Reaches(z, s) && InvAt(s, Quiet) && Knows(s, [NEW_ENGINE] + left, map[], None) && s.nextId == 1
    ensures Reaches(z, t) && InvAt(t, Quiet) && t.table == s.table && t.mem == s.mem
    ensures Knows(t, left, map[1 := Engine(5, false, None)], None)
  {
    NewArrives(s.nextSeq);
    FirstEngine(s);
    assert ([NEW_ENGINE] + left)[1..] == left;
    t := MakeCall(z, s, 0, NEW_ENGINE, 5, Bridge.New(5));
  }

  /** A call that leaves a note, made to its end. */
  lemma NotedCallMade(z: Sys, s: Sys, c: Call, left: seq<Call>, engines: map<uint32, Engine>, r: Option<Host.Registration>,
                      q: Bridge.Request) returns (t: Sys)
    requires Reaches(z, s) && InvAt(s, Quiet) && Knows(s, [c] + left, engines, r) && Host.Inv(s.table)
    requires Noted(c) && c.handle == 1 && Sendable(c) && (r.Some? || Host.Room(s.table))
    requires q == if c.SetOutputBuffer? then Bridge.SetOutputBuffer(1, c.size) else Bridge.RegisterCallback(1)
    ensures Reaches(z, t) && InvAt(t, Quiet) && Host.Inv(t.table) && t.mem == s.mem
    ensures Knows(t, left, Bridge.Effect(engines, s.nextId, q).0, Some(Host.Apply(if r.Some? then r.value else Host.NOTHING, Note(c))))
  {
    var u := TakeNote(z, s, Quiet, 0);
    Host.UpsertRefines(s.table, 1, Note(c), 1);
    RequestArrives(u.nextSeq, c, 0);
    assert ([c] + left)[0] == c && ([c] + left)[1..] == left;
    t := MakeCall(z, u, 0, c, 0, q);
  }

  lemma EngineExists(n: int32, mem: map<nat, seq<byte>>) returns (z: Sys, s: Sys)
    ensures z == Opening(n, mem) && Reaches(z, s) && InvAt(s, Quiet) && s.mem == mem
    ensures Host.Inv(s.table) && Host.Room(s.table)
    ensures Knows(s, [SetBuffer(n), REGISTER, SYNCHRONIZE], map[1 := Engine(5, false, None)], None)
  {
    z := Opened(n, mem);
    var left := [SetBuffer(n), REGISTER, SYNCHRONIZE];
    assert [NEW_ENGINE, SetBuffer(n), REGISTER, SYNCHRONIZE] == [NEW_ENGINE] + left;
    s := EngineCreated(z, z, left);
  }

  lemma BufferNoted(n: int32)
    requires n >= 0
    ensures Host.Apply(Host.NOTHING, Note(SetBuffer(n))) == Host.Registration(None, 0, Some(7), n)
    ensures forall next: uint32 :: Bridge.Effect(map[1 := Engine(5, false, None)], next, Bridge.SetOutputBuffer(1, n)).0
                                == map[1 := Engine(5, false, Some(n))]
  {
  }

  lemma BufferSet(n: int32, mem: map<nat, seq<byte>>) returns (z: Sys, s: Sys)
    requires n >= 0
    ensures z == Opening(n, mem) && Reaches(z, s) && InvAt(s, Quiet) && Host.Inv(s.table) && s.mem == mem
    ensures Knows(s, [REGISTER, SYNCHRONIZE], map[1 := Engine(5, false, Some(n))], Some(Host.Registration(None, 0, Some(7), n)))
  {
    var a: Sys;
    z, a := EngineExists(n, mem);
    ShortCallSendable(SetBuffer(n));
    BufferNoted(n);
    var left := [REGISTER, SYNCHRONIZE];
    assert [SetBuffer(n), REGISTER, SYNCHRONIZE] == [SetBuffer(n)] + left;
    s := NotedCallMade(z, a, SetBuffer(n), left, map[1 := Engine(5, false, None)], None, Bridge.SetOutputBuffer(1, n));
  }

  /** The engine exists, its callback is registered, and it may speak. */
  lemma ReadyToSpeak(n: int32, mem: map<nat, seq<byte>>) returns (z: Sys, s: Sys)
    requires n >= 0
    ensures z == Opening(n, mem) && Reaches(z, s) && InvAt(s, Quiet) && Host.Inv(s.table) && s.mem == mem
    ensures Knows(s, [SYNCHRONIZE], map[1 := Engine(5, true, Some(n))], Some(Host.Registration(Some(0), 0, Some(7), n)))
  {
    var b: Sys;
    z, b := BufferSet(n, mem);
    ShortCallSendable(REGISTER);
    assert [REGISTER, SYNCHRONIZE] == [REGISTER] + [SYNCHRONIZE];
    s := NotedCallMade(z, b, REGISTER, [SYNCHRONIZE], map[1 := Engine(5, false, Some(n))],
                       Some(Host.Registration(None, 0, Some(7), n)), Bridge.RegisterCallback(1));
  }

  lemma PlainChangesNothing(s: Sys, number: uint32)
    ensures Sendable(SYNCHRONIZE) && Before(s, AsRequest(RequestMsg(number, SYNCHRONIZE), 0)) == (s.engines, s.nextId)
  {
    ShortCallSendable(SYNCHRONIZE);
    Wire.RequestReachesItsBranch(OnWire(number, SYNCHRONIZE));
  }

  /** The engine is at work and may fill its buffer once. */
  lemma Speaking(n: int32, mem: map<nat, seq<byte>>) returns (z: Sys, s: Sys, number: uint32)
    requires n >= 0
    ensures z == Opening(n, mem) && Reaches(z, s) && InvAt(s, Dispatching(0, number)) && s.bridge.left == 1
    ensures s.engines == map[1 := Engine(5, true, Some(n))] && s.mem == mem && s.cbLock == None && Host.Inv(s.table)
    ensures Host.Lookup(s.table, 1) == Some(Host.Registration(Some(0), 0, Some(7), n))
    ensures |s.apps| == 2 && s.apps[1] == App(Ready, [SHRINK])
  {
    var r: Sys;
    z, r := ReadyToSpeak(n, mem);
    number := r.nextSeq;
    PlainChangesNothing(r, number);
    s := ServeCall(z, r, 0, 0);
  }

  /** The engine speaks and the callback thread takes the event in its hands, or leaves. */
  lemma RaiseAndHear(z: Sys, s: Sys, st: Stage, e: Event) returns (t: Sys)
    requires Reaches(z, s) && InvAt(s, st) && st.Dispatching? && s.bridge.left > 0 && MayRaise(s, e)
    requires e.handle in s.engines && s.engines[e.handle].hasCallback
    ensures Reaches(z, t) && InvAt(t, if EventFits(e) then Heard(st.o, st.number, e) else Deaf(st.o, st.number, e))
    ensures t.table == s.table && t.mem == s.mem && t.cbLock == s.cbLock && t.apps == s.apps
  {
    ReachesOn(z, s, Raise(e));
    RaiseKeeps(s, st, e);
    var u := Next(s, Raise(e)).value;
    HearingIs(u, Raised(st.o, st.number, e));
    ReachesOn(z, u, Hear);
    HearKeeps(u, Raised(st.o, st.number, e));
    t := Next(u, Hear).value;
  }

  // ------------------------------------------------------------------- the four runs

  const MEMORY: map<nat, seq<byte>> := map[7 := [0, 0], 8 := [0, 0]]

  /** One sample from the engine. */
  const BLOCK := Event(1, WAVEFORM_BUFFER, 1, [1, 0])

  lemma EventInFlight() returns (z: Sys, s: Sys, st: Stage)
    ensures z == Opening(1, MEMORY) && Reaches(z, s) && InvAt(s, st) && st.Heard? && st.e == BLOCK
    ensures s.cbLock == None && s.mem == MEMORY && Host.Inv(s.table)
    ensures Host.Lookup(s.table, 1) == Some(Host.Registration(Some(0), 0, Some(7), 1))
    ensures |s.apps| == 2 && s.apps[1] == App(Ready, [SHRINK])
  {
    var u: Sys, number: uint32;
    z, u, number := Speaking(1, MEMORY);
    s := RaiseAndHear(z, u, Dispatching(0, number), BLOCK);
    st := Heard(0, number, BLOCK);
  }

  /** An application's callback does come to run. */
  lemma CallbackIsReached() returns (steps: seq<Step>)
    ensures AllSendable(Programs(1)) && Run(Opening(1, MEMORY), steps).Some?
    ensures Run(Opening(1, MEMORY), steps).value.cb.Calling?
  {
    OpeningSendable(1);
    var z, s, st := EventInFlight();
    EnterWith(s, st);
    ReachesOn(z, s, Enter);
    EnterKeeps(s, st);
    var u := Next(s, Enter).value;
    ReachesOn(z, u, Deliver);
    var t := Next(u, Deliver).value;
    steps :| Run(z, steps) == Some(t);
  }

  function AllOwn(steps: seq<Step>): seq<ExtStep> {
    if steps == [] then [] else [Own(steps[0])] + AllOwn(steps[1..])
  }

  lemma {:induction false} OwnRun(s: Sys, steps: seq<Step>)
    requires Run(s, steps).Some?
    ensures RunExt(Ext(s, None), AllOwn(steps)) == Some(Ext(Run(s, steps).value, None))
    decreases |steps|
  {
    if steps != [] {
      OwnRun(Next(s, steps[0]).value, steps[1..]);
      assert AllOwn(steps)[1..] == AllOwn(steps[1..]);
    }
  }

  /** And if it makes any call of its own there, that is where everything ends, with calls
      outstanding. */
  lemma ReentryIsReached(c: Call) returns (xs: seq<ExtStep>, e: Ext)
    ensures RunExt(Ext(Opening(1, MEMORY), None), xs).Some?
    ensures NextExt(RunExt(Ext(Opening(1, MEMORY), None), xs).value, CallsBack(c)) == Some(e)
    ensures ExtStuck(e) && !Done(e.s)
  {
    OpeningSendable(1);
    var z := Opening(1, MEMORY);
    var steps := CallbackIsReached();
    OwnRun(z, steps);
    xs := AllOwn(steps);
    var f := RunExt(Ext(z, None), xs).value;
    InitAtRest(Programs(1), BlankTable(), MEMORY);
    RunKeeps(z, Quiet, steps);
    CallingNeverStops(f.s, Reached(z, Quiet, steps));
    e := NextExt(f, CallsBack(c)).value;
    ReentryIsTheEnd(Programs(1), BlankTable(), MEMORY, xs, c);
  }

  lemma CallingNeverStops(s: Sys, st: Stage)
    requires InvAt(s, st) && s.cb.Calling?
    ensures s.connected && !Done(s)
  {
    CallingIsInCall(s, st);
    OwnerIsNotDone(s, st);
  }

  /** Another thread that records a smaller buffer at the wrong moment does cost the first
      one samples. */
  lemma SamplesAreLost() returns (steps: seq<Step>)
    ensures Run(Opening(1, MEMORY), steps).Some? && !HeardSoFar(Run(Opening(1, MEMORY), steps).value)
  {
    var z, s, st := EventInFlight();
    ReachesOn(z, s, TakeCbLock(1));
    TakeCbLockKeeps(s, st, 1);
    var t := Next(s, TakeCbLock(1)).value;
    ShrinkIsSmaller(t);
    ShrinkingLosesSamples(t, st, 1);
    ShrinkRunReaches(z, t, st);
    var u := Run(t, [MakeNote(1), Enter, Deliver]).value;
    steps :| Run(z, steps) == Some(u);
  }

  lemma ShrinkIsSmaller(s: Sys)
    requires s.mem == MEMORY
    ensures Smaller(s, SHRINK, BLOCK)
  {
    var was := s.mem[8];
    assert was[0..2] == [0, 0] && BLOCK.data[0..] == [1, 0];
    assert [0, 0][0] != [1, 0][0];
  }

  lemma ShrinkRunReaches(z: Sys, t: Sys, st: Stage)
    requires Reaches(z, t) && Run(t, [MakeNote(1), Enter, Deliver]).Some?
    ensures Reaches(z, Run(t, [MakeNote(1), Enter, Deliver]).value)
  {
    var steps := [MakeNote(1), Enter, Deliver];
    assert steps[1..] == [Enter, Deliver] && [Enter, Deliver][1..] == [Deliver];
    var u := Next(t, MakeNote(1)).value;
    assert Run(t, steps) == Run(u, [Enter, Deliver]);
    ReachesOn(z, t, MakeNote(1));
    RunOfTwo(u, Enter, Deliver);
    ReachesOn(z, u, Enter);
    ReachesOn(z, Next(u, Enter).value, Deliver);
  }

  /** A block of `n` samples, all silent. */
  function Silence(n: nat): seq<byte> {
    seq(2 * n, i => 0)
  }

  /** With an output buffer of any size above 2097143 samples, real as it may be, a run from the
      start of a connection comes to a block too long for a message: the callback thread is
      gone, though no callback has made a call and all requests and answers fit, and whatever
      happens from there the call under way is never answered. */
  lemma TooLongIsReached(n: int32, mem: map<nat, seq<byte>>) returns (steps: seq<Step>)
    requires n > MAX_SAMPLES
    ensures AllSendable(Programs(n)) && Run(Opening(n, mem), steps).Some?
    ensures var t := Run(Opening(n, mem), steps).value;
      t.cb.Departed? && !EventsFit(t.hist) && AnswersFit(t.hist) && forall more :: Run(t, more).Some? ==> !Done(Run(t, more).value)
  {
    OpeningSendable(n);
    var z, u, number := Speaking(n, mem);
    var e := Event(1, WAVEFORM_BUFFER, n, Silence(n));
    MaxSamplesIsExact(e);
    var t := RaiseAndHear(z, u, Dispatching(0, number), e);
    steps :| Run(z, steps) == Some(t);
    InitKnown(Programs(n), BlankTable(), mem);
    DeafAtTheEnd(z, t, steps, Deaf(0, number, e), Programs(n));
    forall more | Run(t, more).Some? ensures !Done(Run(t, more).value) {
      DeafForGood(t, Deaf(0, number, e), more);
    }
  }

  lemma DeafAtTheEnd(z: Sys, t: Sys, steps: seq<Step>, st: Stage, programs: seq<seq<Call>>)
    requires Known(z, Quiet, programs) && Run(z, steps) == Some(t) && InvAt(t, st) && st.Deaf?
    ensures t.cb.Departed? && !EventsFit(t.hist) && AnswersFit(t.hist)
  {
    RunKnown(z, Quiet, steps, programs);
    DepartedIsDeaf(t, Reached(z, Quiet, steps));
    FitIff(t, Reached(z, Quiet, steps));
  }

  lemma DepartedIsDeaf(t: Sys, st: Stage)
    requires InvAt(t, st) && t.cb.Departed?
    ensures st.Deaf?
  {
  }
}
