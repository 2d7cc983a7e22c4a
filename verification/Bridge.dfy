/** The bridge's clients as they lie in memory: each with its two fixed tables, all of them
    on one list linked through the clients themselves. */
module Bridge {
  import opened Bytes
  import opened HandleMap
  import opened Slots
  import opened ClientState
  import opened Ledger

  class ClientNode {
    const handles: HandleTable
    const slots: array<Slot>
    const clientId: uint32
    var cbFd: int
    var next: ClientNode?
    // the calls that made and deleted engines for this client
    var log: seq<EngineCall>

    ghost predicate Valid() {
      handles.Valid() && slots.Length == MAX_HANDLES
    }

    ghost function Value(): Client
      reads this`cbFd, this`log, handles, handles.entries, slots
    {
      Client(handles.Value(), slots[..], cbFd, log)
    }

    constructor (id: uint32)
      ensures Valid() && fresh(handles) && fresh(handles.entries) && fresh(slots)
      ensures Value() == NewClient() && clientId == id && next == null
    {
      handles := new HandleTable();
      slots := new Slot[MAX_HANDLES](i => FREE_SLOT);
      clientId, cbFd, next, log := id, -1, null, [];
    }

    method AllocCbState(id: uint32)
      requires Valid()
      modifies slots
      ensures slots[..] == AllocSlot(old(slots[..]), id, cbFd)
    {
      for i := 0 to MAX_HANDLES
        invariant slots[..] == old(slots[..])
        invariant SlotWith(slots[..], 0, 0) == SlotWith(slots[..], 0, i)
      {
        if slots[i].id == 0 {
          slots[i] := Slot(id, cbFd, false, None);
          return;
        }
      }
    }

    method FreeCbState(id: uint32)
      requires Valid()
      modifies slots
      ensures slots[..] == FreeSlot(old(slots[..]), id)
    {
      for i := 0 to MAX_HANDLES
        invariant slots[..] == old(slots[..])
        invariant SlotWith(slots[..], id, 0) == SlotWith(slots[..], id, i)
      {
        if slots[i].id == id {
          slots[i] := FREE_SLOT;
          return;
        }
      }
    }

    /** The index of the slot, or 64 for NULL. */
    method GetCbState(id: uint32) returns (i: nat)
      requires Valid()
      ensures i == SlotWith(slots[..], id, 0)
    {
      i := 0;
      while i < MAX_HANDLES && slots[i].id != id
        invariant i <= MAX_HANDLES
        invariant SlotWith(slots[..], id, 0) == SlotWith(slots[..], id, i)
      {
        i := i + 1;
      }
    }

    method DispatchRpc(r: Request) returns (reply: Reply)
      requires Valid()
      modifies this`log, handles, handles.entries, slots
      ensures Valid() && (Value(), reply) == Dispatch(old(Value()), r)
    {
      match r {
        case New(p) =>
          if p != 0 {
            log := log + [Made(p)];
          }
          var id := handles.AddPtr(p);
          if id == 0 {
            if p != 0 {
              log := log + [Gone(p)];
            }
            return Reply(true, 0);
          }
          AllocCbState(id);
          reply := Reply(false, id);
        case Delete(id) =>
          var p := handles.GetPtr(id);
          if p != 0 {
            log := log + [Gone(p)];
            handles.RemoveId(id);
            FreeCbState(id);
          }
          reply := Reply(false, 0);
        case SetOutputBuffer(id, size) =>
          var p := handles.GetPtr(id);
          if p == 0 {
            return Reply(true, 0);
          }
          var i := GetCbState(id);
          if i < MAX_HANDLES {
            slots[i] := slots[i].(buffer := NewBuffer(size));
          }
          reply := Reply(false, 0);
        case RegisterCallback(id) =>
          var i := GetCbState(id);
          if i < MAX_HANDLES {
            slots[i] := slots[i].(hasCallback := true);
          }
          reply := Reply(false, 0);
        case Other =>
          reply := Reply(false, 0);
      }
    }

    /** The accepting thread associates the callback channel. */
    method AssociateChannel(fd: int)
      requires Valid()
      modifies this`cbFd, slots
      ensures Valid() && Value() == Associate(old(Value()), fd)
      ensures cbFd == fd && forall i :: 0 <= i < slots.Length ==> slots[i] == if old(slots[i]).id == 0 then old(slots[i]) else old(slots[i]).(cbFd := fd)
    {
      cbFd := fd;
      for i := 0 to MAX_HANDLES
        invariant forall j :: i <= j < MAX_HANDLES ==> slots[j] == old(slots[j])
        invariant forall j :: 0 <= j < i ==>
          slots[j] == if old(slots[j]).id != 0 then old(slots[j]).(cbFd := fd) else old(slots[j])
        modifies slots
      {
        if slots[i].id != 0 {
          slots[i] := slots[i].(cbFd := fd);
        }
      }
      assert slots[..] == Associate(old(Value()), fd).slots;
    }

    /** client_thread: serve until a reply cannot be sent or nothing more arrives, then
        delete what is left. */
    method RunClient(events: seq<Event>)
      requires Valid()
      modifies this`log, this`cbFd, handles, handles.entries, slots
      ensures log == Cleanup(Serve(old(Value()), events))
    {
      var i, going := 0, true;
      while going && i < |events|
        invariant i <= |events|
        invariant Serve(old(Value()), events) == if going then Serve(Value(), events[i..]) else Value()
        decreases |events| - i
      {
        assert events[i..][0] == events[i] && events[i..][1..] == events[i + 1..];
        match events[i] {
          case Channel(fd) => AssociateChannel(fd);
          case Rpc(r, sent) =>
            var reply := DispatchRpc(r);
            going := sent;
        }
        i := i + 1;
      }
      CleanUp();
    }

    /** The end of client_thread. */
    method CleanUp()
      requires Valid()
      modifies this`log
      ensures log == Cleanup(old(Value()))
    {
      for i := 0 to MAX_HANDLES
        invariant log == old(log) + CleanupCalls(handles.entries[..], i)
      {
        var e := handles.entries[i];
        if e.inUse && e.ptr != 0 {
          log := log + [Gone(e.ptr)];
        }
      }
    }
  }

  // ------------------------------------------------------------ lookup by engine pointer

  /** The slot an event of the engine at `p` is delivered through, as far as this client is
      concerned, looking at its entries from `i` on. */
  function RouteIn(c: Client, p: Ptr, i: nat): Option<nat>
    requires i <= |c.table.entries|
    decreases |c.table.entries| - i
  {
    if i == |c.table.entries| then None
    else if Points(c.table.entries[i], p) && HasSlot(c.slots, c.table.entries[i].id) then
      Some(SlotWith(c.slots, c.table.entries[i].id, 0))
    else RouteIn(c, p, i + 1)
  }

  lemma RouteStep(cs: seq<Client>, p: Ptr, k: nat)
    requires k < |cs|
    ensures RouteIn(cs[k], p, 0).None? ==> Route(cs, p, k) == Route(cs, p, k + 1)
    ensures forall j :: RouteIn(cs[k], p, 0) == Some(j) ==> Route(cs, p, k) == Some(Routed(k, j))
  {
  }

  datatype Routed = Routed(client: nat, slot: nat)

  function Route(cs: seq<Client>, p: Ptr, k: nat): Option<Routed>
    requires k <= |cs|
    decreases |cs| - k
  {
    if k == |cs| then None
    else match RouteIn(cs[k], p, 0)
      case Some(j) => Some(Routed(k, j))
      case None => Route(cs, p, k + 1)
  }

  lemma {:induction false} RouteInFinds(c: Client, p: Ptr, i: nat)
    requires Lockstep(c) && i <= |c.table.entries|
    ensures RouteIn(c, p, i).None? ==> forall k :: i <= k < |c.table.entries| ==> !Points(c.table.entries[k], p)
    ensures RouteIn(c, p, i).Some? ==>
      exists k :: i <= k < |c.table.entries| && Points(c.table.entries[k], p)
                  && RouteIn(c, p, i) == Some(SlotWith(c.slots, c.table.entries[k].id, 0))
    decreases |c.table.entries| - i
  {
    if i < |c.table.entries| {
      var e := c.table.entries[i];
      if e.inUse {
        LiveAt(c.table, i);
        LiveBounds(c.table, e.id);
        assert SlotSound(Live(c.table), c.slots, c.cbFd, e.id);
      }
      RouteInFinds(c, p, i + 1);
    }
  }

  /** In one client: the route leads to the slot of a handle whose engine is at `p`, and
      there is none only when there is no such handle. */
  lemma RouteInOwner(c: Client, p: Ptr)
    requires Lockstep(c)
    ensures RouteIn(c, p, 0).None? ==> forall id :: id in Engines(c) ==> Engines(c)[id].ptr != p
    ensures RouteIn(c, p, 0).Some? ==>
      exists id :: id in Engines(c) && Engines(c)[id].ptr == p && RouteIn(c, p, 0) == Some(SlotWith(c.slots, id, 0))
  {
    RouteInFinds(c, p, 0);
    if RouteIn(c, p, 0).None? {
      forall id | id in Engines(c) ensures Engines(c)[id].ptr != p {
        NotPointing(c, p, id);
      }
    } else {
      var k :| 0 <= k < |c.table.entries| && Points(c.table.entries[k], p)
               && RouteIn(c, p, 0) == Some(SlotWith(c.slots, c.table.entries[k].id, 0));
      LiveAt(c.table, k);
      EngineIs(c, c.table.entries[k].id);
    }
  }

  lemma EngineIs(c: Client, id: uint32)
    requires Lockstep(c)
    ensures id in Engines(c) <==> id in Live(c.table)
    ensures id in Engines(c) ==> Engines(c)[id].ptr == Live(c.table)[id]
  {
    EngineMapIs(Live(c.table), c.slots, c.cbFd);
  }

  lemma NotPointing(c: Client, p: Ptr, id: uint32)
    requires Lockstep(c) && id in Engines(c)
    requires forall k :: 0 <= k < |c.table.entries| ==> !Points(c.table.entries[k], p)
    ensures Engines(c)[id].ptr != p
  {
    EngineIs(c, id);
    LiveThrough(c.table, id);
  }

  ghost predicate OneOwner(cs: seq<Client>) {
    forall k, l, x, y :: 0 <= k < |cs| && 0 <= l < |cs| && SameAddress(cs[k], x, cs[l], y) ==> k == l && x == y
  }

  ghost predicate SameAddress(c: Client, x: uint32, d: Client, y: uint32) {
    x in Engines(c) && y in Engines(d) && Engines(c)[x].ptr == Engines(d)[y].ptr
  }

  /** With live engines at distinct addresses, an engine's events go to the client that
      created it, through the slot that carries the handle it was given; and an unknown
      address to nobody. */
  lemma RouteIsRight(cs: seq<Client>, p: Ptr, k: nat, id: uint32)
    requires (forall i :: 0 <= i < |cs| ==> Lockstep(cs[i])) && OneOwner(cs)
    requires k < |cs| && id in Engines(cs[k]) && Engines(cs[k])[id].ptr == p
    ensures Route(cs, p, 0) == Some(Routed(k, SlotWith(cs[k].slots, id, 0)))
    ensures var s := cs[k].slots[SlotWith(cs[k].slots, id, 0)];
      s.id == id && s.cbFd == cs[k].cbFd && EngineOf(p, s) == Engines(cs[k])[id]
  {
    RouteReaches(cs, p, 0, k, id);
    EngineIs(cs[k], id);
    LiveBounds(cs[k].table, id);
    assert SlotSound(Live(cs[k].table), cs[k].slots, cs[k].cbFd, id);
  }

  lemma {:induction false} RouteReaches(cs: seq<Client>, p: Ptr, from: nat, k: nat, id: uint32)
    requires (forall i :: 0 <= i < |cs| ==> Lockstep(cs[i])) && OneOwner(cs)
    requires from <= k < |cs| && id in Engines(cs[k]) && Engines(cs[k])[id].ptr == p
    ensures Route(cs, p, from) == Some(Routed(k, SlotWith(cs[k].slots, id, 0)))
    decreases k - from
  {
    RouteInOwner(cs[from], p);
    if RouteIn(cs[from], p, 0).Some? {
      var x :| x in Engines(cs[from]) && Engines(cs[from])[x].ptr == p
               && RouteIn(cs[from], p, 0) == Some(SlotWith(cs[from].slots, x, 0));
      assert SameAddress(cs[from], x, cs[k], id);
    } else {
      RouteReaches(cs, p, from + 1, k, id);
    }
  }

  lemma {:induction false} RouteOfStranger(cs: seq<Client>, p: Ptr, from: nat)
    requires (forall i :: 0 <= i < |cs| ==> Lockstep(cs[i])) && from <= |cs|
    requires forall k, id :: 0 <= k < |cs| && id in Engines(cs[k]) ==> Engines(cs[k])[id].ptr != p
    ensures Route(cs, p, from).None?
    decreases |cs| - from
  {
    if from < |cs| {
      RouteInOwner(cs[from], p);
      RouteOfStranger(cs, p, from + 1);
    }
  }

  // ------------------------------------------------------------------ the linked list

  ghost function Values(ns: seq<ClientNode>): (cs: seq<Client>)
    reads ns`cbFd, ns`log, set n | n in ns :: n.handles, set n | n in ns :: n.handles.entries, set n | n in ns :: n.slots
    ensures |cs| == |ns| && forall i :: 0 <= i < |ns| ==> cs[i] == ns[i].Value()
  {
    if ns == [] then [] else [ns[0].Value()] + Values(ns[1..])
  }

  class ClientList {
    var head: ClientNode?
    ghost var spine: seq<ClientNode>

    /** The nodes from the head on, each once, the last one's link null. */
    ghost predicate Valid()
      reads this, spine`next
    {
      && head == NodeAt(spine, 0)
      && (forall i :: 0 <= i < |spine| ==> spine[i].next == NodeAt(spine, i + 1))
      && (forall i, j :: 0 <= i < j < |spine| ==> spine[i] != spine[j])
    }

    constructor ()
      ensures Valid() && spine == []
    {
      head, spine := null, [];
    }

    method Register(c: ClientNode)
      requires Valid() && c !in spine
      modifies this, c`next
      ensures Valid() && spine == [c] + old(spine)
    {
      c.next := head;
      head := c;
      spine := [c] + spine;
    }

    /** Removes the client wherever it is and keeps the others in order. The source walks a
        pointer to the link that holds the node; here `before` owns that link, null for the
        head of the list. */
    method Unregister(c: ClientNode)
      requires Valid()
      modifies this, spine`next
      ensures Valid() && spine == Without(old(spine), c)
    {
      var before: ClientNode? := null;
      var at := head;
      ghost var k := 0;
      while at != null && at != c
        invariant k <= |spine|
        invariant at == NodeAt(spine, k) && before == (if k == 0 then null else spine[k - 1])
        invariant c !in spine[..k]
        modifies {}
        decreases |spine| - k
      {
        before := at;
        at := at.next;
        k := k + 1;
      }
      WithoutAt(spine, c, k);
      if at != null {
        Unlink(before, c, k);
      }
    }

    /** *pp = client->next */
    method Unlink(before: ClientNode?, c: ClientNode, ghost k: nat)
      requires Valid() && k < |spine| && c == spine[k] && before == if k == 0 then null else spine[k - 1]
      modifies this, spine`next
      ensures Valid() && spine == old(spine)[..k] + old(spine)[k + 1..]
    {
      if before == null {
        head := c.next;
      } else {
        before.next := c.next;
      }
      spine := spine[..k] + spine[k + 1..];
    }

    method FindById(id: uint32) returns (found: ClientNode?, ghost k: nat)
      requires Valid()
      ensures k <= |spine| && found == NodeAt(spine, k)
      ensures found == null <==> k == |spine|
      ensures found != null ==> found.clientId == id
      ensures forall i :: 0 <= i < k ==> spine[i].clientId != id
    {
      found := head;
      k := 0;
      while found != null && found.clientId != id
        invariant k <= |spine| && found == NodeAt(spine, k)
        invariant forall i :: 0 <= i < k ==> spine[i].clientId != id
        decreases |spine| - k
      {
        found := found.next;
        k := k + 1;
      }
    }

    method FindCbState(p: Ptr) returns (c: ClientNode?, slot: nat, ghost k: nat)
      requires Valid() && forall i :: 0 <= i < |spine| ==> spine[i].Valid()
      ensures c == null ==> Route(Values(spine), p, 0).None?
      ensures c != null ==> k < |spine| && c == spine[k] && Route(Values(spine), p, 0) == Some(Routed(k, slot))
    {
      c, slot, k := head, 0, 0;
      ghost var cs := Values(spine);
      while c != null
        invariant k <= |spine| && c == NodeAt(spine, k)
        invariant Route(cs, p, 0) == Route(cs, p, k)
        decreases |spine| - k
      {
        var found, j := ScanClient(c, p);
        RouteStep(cs, p, k);
        if found {
          slot := j;
          return;
        }
        c := c.next;
        k := k + 1;
      }
    }
  }

  method ScanClient(c: ClientNode, p: Ptr) returns (found: bool, slot: nat)
    requires c.Valid()
    ensures RouteIn(c.Value(), p, 0) == if found then Some(slot) else None
  {
    for i := 0 to MAX_HANDLES
      invariant RouteIn(c.Value(), p, 0) == RouteIn(c.Value(), p, i)
    {
      var e := c.handles.entries[i];
      if e.inUse && e.ptr == p {
        slot := c.GetCbState(e.id);
        if slot < MAX_HANDLES {
          return true, slot;
        }
      }
    }
    found, slot := false, 0;
  }

  ghost function NodeAt(ns: seq<ClientNode>, i: nat): ClientNode? {
    if i < |ns| then ns[i] else null
  }

  ghost function Without(ns: seq<ClientNode>, c: ClientNode): seq<ClientNode> {
    if ns == [] then [] else if ns[0] == c then ns[1..] else [ns[0]] + Without(ns[1..], c)
  }

  lemma {:induction false} WithoutAt(ns: seq<ClientNode>, c: ClientNode, k: nat)
    requires k <= |ns| && c !in ns[..k] && (k < |ns| ==> ns[k] == c)
    ensures Without(ns, c) == if k < |ns| then ns[..k] + ns[k + 1..] else ns
  {
    if k > 0 {
      assert c !in ns[1..][..k - 1] by {
        assert ns[..k] == [ns[0]] + ns[1..][..k - 1];
      }
      assert ns[0] == ns[..k][0];
      WithoutAt(ns[1..], c, k - 1);
      assert k < |ns| ==> ns[..k] + ns[k + 1..] == [ns[0]] + (ns[1..][..k - 1] + ns[1..][k..]);
    }
  }
}
