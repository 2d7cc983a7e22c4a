/** Every engine made for a client is deleted once, over any run from connect to
    disconnect: rejected by a full table, deleted on request, or cleaned up at the end. */
module Ledger {
  import opened Bytes
  import opened HandleMap
  import opened Slots
  import opened ClientState

  /** How many engines at `p` are alive after these calls; none when one was deleted that
      was not. */
  function Alive(log: seq<EngineCall>, p: Ptr): Option<nat> {
    if log == [] then Some(0) else Settle(Alive(log[..|log| - 1], p), log[|log| - 1], p)
  }

  function Settle(n: Option<nat>, call: EngineCall, p: Ptr): Option<nat> {
    if n.None? || call.p != p then n
    else if call.Made? then Some(n.value + 1)
    else if n.value > 0 then Some(n.value - 1)
    else None
  }

  lemma AliveOne(log: seq<EngineCall>, call: EngineCall, p: Ptr)
    ensures Alive(log + [call], p) == Settle(Alive(log, p), call, p)
  {
    assert (log + [call])[..|log|] == log;
  }

  function Count(log: seq<EngineCall>, call: EngineCall): nat {
    if log == [] then 0 else Count(log[..|log| - 1], call) + if log[|log| - 1] == call then 1 else 0
  }

  /** While no deletion misses, deletions never outnumber creations, and the difference is
      what is alive. */
  lemma {:induction false} AliveCounts(log: seq<EngineCall>, p: Ptr)
    requires Alive(log, p).Some?
    ensures Count(log, Made(p)) == Count(log, Gone(p)) + Alive(log, p).value
    decreases |log|
  {
    if log != [] {
      AliveCounts(log[..|log| - 1], p);
    }
  }

  // ------------------------------------------------------------------ live engines

  function IsAt(e: Entry, p: Ptr): nat {
    if Points(e, p) then 1 else 0
  }

  /** How many of the first `n` entries hold `p`. */
  function Entries(es: seq<Entry>, n: nat, p: Ptr): nat
    requires n <= |es|
  {
    if n == 0 then 0 else Entries(es, n - 1, p) + IsAt(es[n - 1], p)
  }

  lemma {:induction false} OneEntry(es: seq<Entry>, at: nat, e: Entry, n: nat, p: Ptr)
    requires at < |es| && n <= |es|
    ensures Entries(es[at := e], n, p) == if at < n then Entries(es, n, p) - IsAt(es[at], p) + IsAt(e, p) else Entries(es, n, p)
    ensures at < n ==> Entries(es, n, p) >= IsAt(es[at], p)
  {
    if n > 0 {
      OneEntry(es, at, e, n - 1, p);
    }
  }

  /** The table knows of every engine at `p` that is alive. */
  predicate Balanced(c: Client, p: Ptr) {
    Alive(c.log, p) == Some(Entries(c.table.entries, |c.table.entries|, p))
  }

  // ----------------------------------------------------------------- one dispatch

  lemma NewBalances(c: Client, p: Ptr, q: Ptr)
    requires Inv(c.table) && Balanced(c, q) && (p != 0 && !Full(c.table) ==> c.table.next != 0)
    ensures Balanced(Dispatch(c, New(p)).0, q)
  {
    AddKeepsInv(c.table, p);
    if p != 0 && Full(c.table) {
      MadeAndGone(c.log, p, q);
    } else if p != 0 {
      var es := c.table.entries;
      AliveOne(c.log, Made(p), q);
      OneEntry(es, FirstFree(es, 0), Entry(p, c.table.next, true), |es|, q);
    }
  }

  /** An engine deleted straight away leaves the balance as it was. */
  lemma MadeAndGone(log: seq<EngineCall>, p: Ptr, q: Ptr)
    requires Alive(log, q).Some?
    ensures Alive(log + [Made(p)] + [Gone(p)], q) == Alive(log, q)
  {
    AliveOne(log, Made(p), q);
    AliveOne(log + [Made(p)], Gone(p), q);
  }

  lemma DeleteBalances(c: Client, id: uint32, q: Ptr)
    requires Inv(c.table) && Balanced(c, q)
    ensures Balanced(Dispatch(c, Delete(id)).0, q)
  {
    var es := c.table.entries;
    GetIsLookup(c.table, id);
    LiveBounds(c.table, id);
    if id in Live(c.table) {
      var i := FirstWith(es, id, 0);
      LiveThrough(c.table, id);
      OneEntry(es, i, Entry(0, es[i].id, false), |es|, q);
      AliveOne(c.log, Gone(es[i].ptr), q);
    }
  }

  lemma DispatchBalances(c: Client, r: Request, q: Ptr)
    requires Inv(c.table) && Balanced(c, q)
    requires r.New? && r.made != 0 && !Full(c.table) ==> c.table.next != 0
    ensures Balanced(Dispatch(c, r).0, q)
  {
    match r {
      case New(p) => NewBalances(c, p, q);
      case Delete(id) => DeleteBalances(c, id, q);
      case SetOutputBuffer(_, _) =>
      case RegisterCallback(_) =>
      case Other =>
    }
  }

  // ------------------------------------------------------------- the client's whole run

  /** The deletions at disconnect, in table order. */
  function CleanupCalls(es: seq<Entry>, n: nat): seq<EngineCall>
    requires n <= |es|
  {
    if n == 0 then []
    else if es[n - 1].inUse && es[n - 1].ptr != 0 then CleanupCalls(es, n - 1) + [Gone(es[n - 1].ptr)]
    else CleanupCalls(es, n - 1)
  }

  function Cleanup(c: Client): seq<EngineCall> {
    c.log + CleanupCalls(c.table.entries, |c.table.entries|)
  }

  /** Cleaning up deletes what the table holds: it never misses exactly when at least that
      many are alive. */
  lemma {:induction false} CleanupSettlesIff(log: seq<EngineCall>, es: seq<Entry>, n: nat, p: Ptr)
    requires n <= |es| && Alive(log, p).Some? && p != 0
    ensures var a, e := Alive(log, p).value, Entries(es, n, p);
      Alive(log + CleanupCalls(es, n), p) == if e <= a then Some(a - e) else None
  {
    if n == 0 {
      assert log + [] == log;
    } else {
      CleanupSettlesIff(log, es, n - 1, p);
      if es[n - 1].inUse && es[n - 1].ptr != 0 {
        OneMoreGone(log, CleanupCalls(es, n - 1), es[n - 1].ptr, p);
      }
    }
  }

  lemma OneMoreGone(log: seq<EngineCall>, calls: seq<EngineCall>, q: Ptr, p: Ptr)
    ensures Alive(log + (calls + [Gone(q)]), p) == Settle(Alive(log + calls, p), Gone(q), p)
  {
    AliveOne(log + calls, Gone(q), p);
    assert (log + calls) + [Gone(q)] == log + (calls + [Gone(q)]);
  }

  /** What client_thread goes through: a request and whether its reply could be sent, or
      main handing over the callback channel. */
  datatype Event = Rpc(r: Request, sent: bool) | Channel(fd: int)

  /** The loop runs until a reply cannot be sent or nothing more arrives. */
  function Serve(c: Client, events: seq<Event>): Client
    decreases |events|
  {
    if events == [] then c
    else
      match events[0]
      case Channel(fd) => Serve(Associate(c, fd), events[1..])
      case Rpc(r, sent) =>
        var d := Dispatch(c, r).0;
        if sent then Serve(d, events[1..]) else d
  }

  /** Step by step: each event acts on what the ones before it left. */
  lemma {:induction false} ServeOneMore(c: Client, events: seq<Event>, e: Event)
    requires forall x :: x in events && x.Rpc? ==> x.sent
    ensures Serve(c, events + [e]) == if e.Channel? then Associate(Serve(c, events), e.fd) else Dispatch(Serve(c, events), e.r).0
    decreases |events|
  {
    var all := events + [e];
    if events == [] {
      var d := if e.Channel? then Associate(c, e.fd) else Dispatch(c, e.r).0;
      assert all[0] == e && all[1..] == [] && Serve(d, []) == d;
    } else {
      assert all[0] == events[0] && all[1..] == events[1..] + [e] && events[0] in events;
      assert forall x | x in events[1..] :: x in events;
      ServeOneMore(if events[0].Channel? then Associate(c, events[0].fd) else Dispatch(c, events[0].r).0, events[1..], e);
    }
  }

  /** After a reply that cannot be sent nothing acts any more. */
  lemma {:induction false} ServeEnds(c: Client, events: seq<Event>, r: Request, more: seq<Event>)
    requires forall e :: e in events && e.Rpc? ==> e.sent
    ensures Serve(c, events + [Rpc(r, false)] + more) == Dispatch(Serve(c, events), r).0
    decreases |events|
  {
    var all := events + [Rpc(r, false)] + more;
    if events == [] {
      assert all[0] == Rpc(r, false);
    } else {
      assert all[0] == events[0] && all[1..] == events[1..] + [Rpc(r, false)] + more && events[0] in events;
      assert forall x | x in events[1..] :: x in events;
      ServeEnds(if events[0].Channel? then Associate(c, events[0].fd) else Dispatch(c, events[0].r).0, events[1..], r, more);
    }
  }

  predicate TakesId(c: Client, r: Request) {
    r.New? && r.made != 0 && !Full(c.table)
  }

  /** How many ids the run takes from the counter: one for each engine that finds room. */
  function IdsTaken(c: Client, events: seq<Event>): nat
    decreases |events|
  {
    if events == [] then 0
    else
      match events[0]
      case Channel(fd) => IdsTaken(Associate(c, fd), events[1..])
      case Rpc(r, sent) =>
        var taken := if TakesId(c, r) then 1 else 0;
        if sent then taken + IdsTaken(Dispatch(c, r).0, events[1..]) else taken
  }

  lemma {:induction false} ServeKeeps(c: Client, events: seq<Event>, q: Ptr)
    requires Lockstep(c) && Balanced(c, q) && Top(c.table) + IdsTaken(c, events) <= TWO32
    ensures Lockstep(Serve(c, events)) && Balanced(Serve(c, events), q)
    decreases |events|
  {
    if events != [] {
      match events[0] {
        case Channel(fd) =>
          AssociateKeeps(c, fd);
          ServeKeeps(Associate(c, fd), events[1..], q);
        case Rpc(r, sent) =>
          DispatchRefines(c, r);
          DispatchBalances(c, r, q);
          NextAfter(c, r);
          if sent {
            ServeKeeps(Dispatch(c, r).0, events[1..], q);
          }
      }
    }
  }

  lemma NextAfter(c: Client, r: Request)
    requires Lockstep(c) && (r.New? && r.made != 0 && !Full(c.table) ==> c.table.next != 0)
    ensures Top(Dispatch(c, r).0.table) == Top(c.table) + if TakesId(c, r) then 1 else 0
  {
    if r.New? {
      AddKeepsInv(c.table, r.made);
    }
  }

  lemma NewClientLockstep(q: Ptr)
    ensures Lockstep(NewClient()) && Balanced(NewClient(), q) && Engines(NewClient()) == map[]
  {
    EmptyTableInv();
    NoEntries(NewClient().table.entries, MAX_HANDLES, q);
    NoSlots(NewClient().slots);
  }

  lemma NoSlots(ss: seq<Slot>)
    requires |ss| == MAX_HANDLES && forall i :: 0 <= i < |ss| ==> ss[i].id == 0
    ensures Matched(map[], ss, -1) && EngineMap(map[], ss) == map[]
  {
    forall id: uint32 ensures SlotSound(map[], ss, -1, id) {
      assert HasSlot(ss, id) ==> ss[SlotWith(ss, id, 0)].id == 0;
    }
  }

  lemma {:induction false} NoEntries(es: seq<Entry>, n: nat, q: Ptr)
    requires n <= |es| && forall i :: 0 <= i < n ==> !es[i].inUse
    ensures Entries(es, n, q) == 0
  {
    if n > 0 {
      NoEntries(es, n - 1, q);
    }
  }

  /** Over any run of a client with at most 2^32 - 1 handles every engine created on its
      behalf has been deleted as often as created when the client is gone, and at every
      moment in between deletions hit live engines only. */
  lemma EnginesDeletedOnce(events: seq<Event>, p: Ptr)
    requires IdsTaken(NewClient(), events) < TWO32 && p != 0
    ensures var log := Cleanup(Serve(NewClient(), events));
      && Alive(log, p) == Some(0)
      && Count(log, Made(p)) == Count(log, Gone(p))
      && forall k | 0 <= k <= |log| :: Count(log[..k], Gone(p)) <= Count(log[..k], Made(p))
  {
    NewClientLockstep(p);
    ServeKeeps(NewClient(), events, p);
    var c := Serve(NewClient(), events);
    CleanupSettlesIff(c.log, c.table.entries, |c.table.entries|, p);
    var log := Cleanup(c);
    AliveCounts(log, p);
    forall k | 0 <= k <= |log| ensures Count(log[..k], Gone(p)) <= Count(log[..k], Made(p)) {
      AlivePrefix(log, k, p);
      AliveCounts(log[..k], p);
    }
  }

  lemma {:induction false} AlivePrefix(log: seq<EngineCall>, k: nat, p: Ptr)
    requires Alive(log, p).Some? && k <= |log|
    ensures Alive(log[..k], p).Some?
    decreases |log|
  {
    if k < |log| {
      AlivePrefix(log[..|log| - 1], k, p);
      assert log[..|log| - 1][..k] == log[..k];
    } else {
      assert log[..k] == log;
    }
  }

  // -------------------------------------------------------- when the counter runs out

  /** The table holds an engine at `p` that is no longer alive, or one has been deleted that
      was not alive already. */
  predicate Overdrawn(c: Client, p: Ptr) {
    Alive(c.log, p).None? || Alive(c.log, p).value < Entries(c.table.entries, |c.table.entries|, p)
  }

  lemma AtTheWrap(c: Client, p: Ptr)
    requires c.table.next == 0 && p != 0 && !Full(c.table)
    ensures FirstFree(c.table.entries, 0) < |c.table.entries|
    ensures var t := Table(c.table.entries[FirstFree(c.table.entries, 0) := Entry(p, 0, true)], 1);
      Dispatch(c, New(p)) == (c.(table := t, log := c.log + [Made(p)] + [Gone(p)]), Reply(true, 0))
  {
  }

  /** When all numbers are used up the next engine is deleted on the spot and stays in the
      table. */
  lemma WrapOverdraws(c: Client, p: Ptr)
    requires Balanced(c, p) && c.table.next == 0 && p != 0 && !Full(c.table)
    ensures Overdrawn(Dispatch(c, New(p)).0, p)
  {
    AtTheWrap(c, p);
    MadeAndGone(c.log, p, p);
    var es, i := c.table.entries, FirstFree(c.table.entries, 0);
    OneEntry(es, i, Entry(p, 0, true), |es|, p);
  }

  lemma NewStaysOverdrawn(c: Client, q: Ptr, p: Ptr)
    requires Overdrawn(c, p)
    ensures Overdrawn(Dispatch(c, New(q)).0, p)
  {
    AliveOne(c.log, Made(q), p);
    AliveOne(c.log + [Made(q)], Gone(q), p);
    var es := c.table.entries;
    if q != 0 && FirstFree(es, 0) < |es| {
      OneEntry(es, FirstFree(es, 0), Entry(q, c.table.next, true), |es|, p);
    }
  }

  lemma DeleteStaysOverdrawn(c: Client, id: uint32, p: Ptr)
    requires Overdrawn(c, p)
    ensures Overdrawn(Dispatch(c, Delete(id)).0, p)
  {
    var es, i := c.table.entries, FirstWith(c.table.entries, id, 0);
    if id != 0 && i < |es| && es[i].ptr != 0 {
      OneEntry(es, i, Entry(0, es[i].id, false), |es|, p);
      AliveOne(c.log, Gone(es[i].ptr), p);
    }
  }

  lemma DispatchStaysOverdrawn(c: Client, r: Request, p: Ptr)
    requires Overdrawn(c, p) && p != 0
    ensures Overdrawn(Dispatch(c, r).0, p)
  {
    match r {
      case New(q) => NewStaysOverdrawn(c, q, p);
      case Delete(id) => DeleteStaysOverdrawn(c, id, p);
      case SetOutputBuffer(_, _) =>
      case RegisterCallback(_) =>
      case Other =>
    }
  }

  /** No later request makes up for it, so at the latest the cleanup deletes `p` again. */
  lemma {:induction false} OverdrawnForGood(c: Client, events: seq<Event>, p: Ptr)
    requires Overdrawn(c, p) && p != 0
    ensures Alive(Cleanup(Serve(c, events)), p) == None
    decreases |events|
  {
    if events == [] {
      OverdrawnCleanup(c, p);
    } else {
      match events[0] {
        case Channel(fd) => OverdrawnForGood(Associate(c, fd), events[1..], p);
        case Rpc(r, sent) =>
          DispatchStaysOverdrawn(c, r, p);
          OverdrawnForGood(Dispatch(c, r).0, if sent then events[1..] else [], p);
      }
    }
  }

  lemma OverdrawnCleanup(c: Client, p: Ptr)
    requires Overdrawn(c, p) && p != 0
    ensures Alive(Cleanup(c), p) == None
  {
    if Alive(c.log, p).Some? {
      CleanupSettlesIff(c.log, c.table.entries, |c.table.entries|, p);
    } else {
      NoneStaysNone(c.log, CleanupCalls(c.table.entries, |c.table.entries|), p);
    }
  }

  lemma {:induction false} NoneStaysNone(log: seq<EngineCall>, calls: seq<EngineCall>, p: Ptr)
    requires Alive(log, p).None?
    ensures Alive(log + calls, p).None?
  {
    if calls == [] {
      assert log + [] == log;
    } else {
      var n := |calls| - 1;
      NoneStaysNone(log, calls[..n], p);
      AliveOne(log + calls[..n], calls[n], p);
      assert (log + calls[..n]) + [calls[n]] == log + calls;
    }
  }

  /** After the engine that finds the counter exhausted, whatever the client still asks for,
      that engine is deleted twice. */
  lemma WrapDeletesTwice(c: Client, p: Ptr, events: seq<Event>)
    requires Balanced(c, p) && c.table.next == 0 && p != 0 && !Full(c.table)
    ensures Dispatch(c, New(p)).1 == Reply(true, 0)
    ensures Alive(Cleanup(Serve(Dispatch(c, New(p)).0, events)), p) == None
  {
    AtTheWrap(c, p);
    WrapOverdraws(c, p);
    OverdrawnForGood(Dispatch(c, New(p)).0, events, p);
  }

  ghost predicate AllBalanced(c: Client) {
    forall q :: Balanced(c, q)
  }

  /** A run that takes more numbers than are left deletes some engine twice. */
  lemma {:induction false} TooManyIds(c: Client, events: seq<Event>) returns (p: Ptr)
    requires Lockstep(c) && AllBalanced(c) && Top(c.table) + IdsTaken(c, events) > TWO32
    ensures p != 0 && Alive(Cleanup(Serve(c, events)), p) == None
    decreases |events|
  {
    match events[0] {
      case Channel(fd) =>
        AssociateKeeps(c, fd);
        assert forall q :: Balanced(c, q) ==> Balanced(Associate(c, fd), q);
        p := TooManyIds(Associate(c, fd), events[1..]);
      case Rpc(r, sent) =>
        if TakesId(c, r) && c.table.next == 0 {
          p := r.made;
          assert Balanced(c, p);
          WrapDeletesTwice(c, p, if sent then events[1..] else []);
        } else {
          DispatchRefines(c, r);
          NextAfter(c, r);
          forall q ensures Balanced(Dispatch(c, r).0, q) {
            assert Balanced(c, q);
            DispatchBalances(c, r, q);
          }
          p := TooManyIds(Dispatch(c, r).0, events[1..]);
        }
    }
  }

  /** Over a client's whole run every engine is settled, created and deleted equally often and
      never deleted while it is not alive, if and only if the run takes fewer than 2^32 ids. */
  lemma AllSettledIff(events: seq<Event>)
    ensures (forall p | p != 0 :: Alive(Cleanup(Serve(NewClient(), events)), p) == Some(0))
       <==> IdsTaken(NewClient(), events) < TWO32
  {
    if IdsTaken(NewClient(), events) < TWO32 {
      forall p | p != 0 ensures Alive(Cleanup(Serve(NewClient(), events)), p) == Some(0) {
        EnginesDeletedOnce(events, p);
      }
    } else {
      NewClientLockstep(0);
      forall q ensures Balanced(NewClient(), q) {
        NewClientLockstep(q);
      }
      var p := TooManyIds(NewClient(), events);
    }
  }

  // ------------------------------------------------------- before the channel is joined

  /** Whether main has handed over a callback channel while the client was being served. */
  predicate Joined(events: seq<Event>) {
    events != [] && (events[0].Channel? || (events[0].sent && Joined(events[1..])))
  }

  lemma {:induction false} ServeChannel(c: Client, events: seq<Event>)
    requires forall e :: e in events && e.Channel? ==> e.fd >= 0
    ensures Serve(c, events).cbFd >= 0 <==> c.cbFd >= 0 || Joined(events)
    decreases |events|
  {
    if events != [] {
      assert events[0] in events && forall e | e in events[1..] :: e in events;
      match events[0] {
        case Channel(fd) => ServeChannel(Associate(c, fd), events[1..]);
        case Rpc(r, sent) =>
          if sent {
            ServeChannel(Dispatch(c, r).0, events[1..]);
          }
      }
    }
  }

  /** A live handle's slot has the client's channel. */
  lemma SlotHasIt(events: seq<Event>, id: uint32)
    requires IdsTaken(NewClient(), events) < TWO32 && id in Engines(Serve(NewClient(), events))
    ensures var c := Serve(NewClient(), events);
      HasSlot(c.slots, id) && c.slots[SlotWith(c.slots, id, 0)].id == id && c.slots[SlotWith(c.slots, id, 0)].cbFd == c.cbFd
  {
    NewClientLockstep(0);
    ServeKeeps(NewClient(), events, 0);
    var c := Serve(NewClient(), events);
    EngineMapIs(Live(c.table), c.slots, c.cbFd);
    LiveBounds(c.table, id);
    assert SlotSound(Live(c.table), c.slots, c.cbFd, id);
  }

  /** A live handle's slot has a channel to send its events on exactly when one has been
      handed over; until then every event is answered by the bridge itself. */
  lemma SlotHasChannelIff(events: seq<Event>, id: uint32)
    requires IdsTaken(NewClient(), events) < TWO32 && forall e :: e in events && e.Channel? ==> e.fd >= 0
    requires id in Engines(Serve(NewClient(), events))
    ensures var ss := Serve(NewClient(), events).slots;
      HasSlot(ss, id) && ss[SlotWith(ss, id, 0)].id == id && (ss[SlotWith(ss, id, 0)].cbFd >= 0 <==> Joined(events))
  {
    SlotHasIt(events, id);
    ServeChannel(NewClient(), events);
  }

  lemma {:induction false} ChannelStays(c: Client, events: seq<Event>)
    requires forall e :: e in events ==> e.Rpc?
    ensures Serve(c, events).cbFd == c.cbFd
    decreases |events|
  {
    if events != [] && events[0].Rpc? && events[0].sent {
      assert forall x | x in events[1..] :: x in events;
      ChannelStays(Dispatch(c, events[0].r).0, events[1..]);
    } else if events != [] {
      assert events[0] in events;
    }
  }

  lemma {:induction false} LastChannel(c: Client, before: seq<Event>, fd: int, after: seq<Event>)
    requires (forall e :: e in before && e.Rpc? ==> e.sent) && forall e :: e in after ==> e.Rpc?
    ensures Serve(c, before + [Channel(fd)] + after).cbFd == fd
    decreases |before|
  {
    var all := before + [Channel(fd)] + after;
    if before == [] {
      assert all[0] == Channel(fd) && all[1..] == after;
      ChannelStays(Associate(c, fd), after);
    } else {
      assert all[0] == before[0] && all[1..] == before[1..] + [Channel(fd)] + after && before[0] in before;
      assert forall x | x in before[1..] :: x in before;
      LastChannel(if before[0].Channel? then Associate(c, before[0].fd) else Dispatch(c, before[0].r).0, before[1..], fd, after);
    }
  }

  /** The channel a live handle's slot has is just the last one handed over, and none before the
      first: `before` is what was served until then, `after` brings no other. */
  lemma SlotHasLastChannel(before: seq<Event>, fd: int, after: seq<Event>, id: uint32)
    requires (forall e :: e in before && e.Rpc? ==> e.sent) && forall e :: e in after ==> e.Rpc?
    ensures Serve(NewClient(), before + [Channel(fd)] + after).cbFd == fd
    ensures Serve(NewClient(), after).cbFd == -1
    ensures var events := before + [Channel(fd)] + after;
      var c := Serve(NewClient(), events);
      IdsTaken(NewClient(), events) < TWO32 && id in Engines(c) ==>
        HasSlot(c.slots, id) && c.slots[SlotWith(c.slots, id, 0)].id == id && c.slots[SlotWith(c.slots, id, 0)].cbFd == fd
  {
    var events := before + [Channel(fd)] + after;
    LastChannel(NewClient(), before, fd, after);
    ChannelStays(NewClient(), after);
    if IdsTaken(NewClient(), events) < TWO32 && id in Engines(Serve(NewClient(), events)) {
      SlotHasIt(events, id);
    }
  }

  /** A client may well get so far: it creates an engine, registers its callback, and has
      nowhere to be called on. */
  lemma CallbackWithoutChannel(p: Ptr)
    requires p != 0
    ensures var events := [Rpc(New(p), true), Rpc(RegisterCallback(1), true)];
      !Joined(events) && Engines(Serve(NewClient(), events)) == map[1 := Engine(p, true, None)]
  {
    var c := NewClient();
    var d := Dispatch(c, New(p)).0;
    FirstEngine(p);
    var first, second := Rpc(New(p), true), Rpc(RegisterCallback(1), true);
    assert [first, second][1..] == [second] && [second][1..] == [];
    assert !Joined([]) && !Joined([second]);
    assert Serve(Dispatch(d, RegisterCallback(1)).0, []) == Dispatch(d, RegisterCallback(1)).0;
    assert Serve(d, [second]) == Dispatch(d, RegisterCallback(1)).0;
    DispatchRefines(d, RegisterCallback(1));
  }

  lemma FirstEngine(p: Ptr)
    requires p != 0
    ensures var d := Dispatch(NewClient(), New(p)).0; Lockstep(d) && Engines(d) == map[1 := Engine(p, false, None)]
  {
    NewClientLockstep(0);
    FullIff(NewClient().table);
    DispatchRefines(NewClient(), New(p));
  }
}
