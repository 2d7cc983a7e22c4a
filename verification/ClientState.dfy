/** One client of the bridge as a value: the table of its engine handles, the 64 callback
    slots beside it, and every engine made and deleted on its behalf so far. */
module ClientState {
  import opened Bytes
  import opened HandleMap
  import opened Slots

  datatype EngineCall = Made(p: Ptr) | Gone(p: Ptr)

  datatype Client = Client(table: Table, slots: seq<Slot>, cbFd: int, log: seq<EngineCall>)

  function NewClient(): Client {
    Client(EmptyTable(), seq(MAX_HANDLES, i => FREE_SLOT), -1, [])
  }

  // ---------------------------------------------------------------------- the dispatch

  /** The requests that touch the tables, decoded; `fresh` is what eciNew or eciNewEx
      returned. All others, undecodable ones included, leave the tables alone. */
  datatype Request =
    | New(made: Ptr)
    | Delete(id: uint32)
    | SetOutputBuffer(id: uint32, size: int32)
    | RegisterCallback(id: uint32)
    | Other

  /** Whether the reply reports an error, and the handle it carries. */
  datatype Reply = Reply(error: bool, handle: uint32)

  function Dispatch(c: Client, r: Request): (Client, Reply) {
    match r
    case New(p) =>
      var (t, id) := Add(c.table, p);
      var made := if p == 0 then c.log else c.log + [Made(p)];
      if id == 0 then
        (c.(table := t, log := if p == 0 then made else made + [Gone(p)]), Reply(true, 0))
      else
        (Client(t, AllocSlot(c.slots, id, c.cbFd), c.cbFd, made), Reply(false, id))
    case Delete(id) =>
      var p := Get(c.table, id);
      if p == 0 then (c, Reply(false, 0))
      else (Client(Remove(c.table, id), FreeSlot(c.slots, id), c.cbFd, c.log + [Gone(p)]), Reply(false, 0))
    case SetOutputBuffer(id, size) =>
      if Get(c.table, id) == 0 then (c, Reply(true, 0))
      else (c.(slots := SetBuffer(c.slots, id, size)), Reply(false, 0))
    case RegisterCallback(id) => (c.(slots := MarkCallback(c.slots, id)), Reply(false, 0))
    case Other => (c, Reply(false, 0))
  }

  /** main hands the callback channel to the client and its occupied slots. */
  function Associate(c: Client, fd: int): Client {
    c.(cbFd := fd, slots := seq(|c.slots|, i requires 0 <= i < |c.slots| =>
      if c.slots[i].id != 0 then c.slots[i].(cbFd := fd) else c.slots[i]))
  }

  /** Field by field: the client and every slot in use get the channel, nothing else changes. */
  lemma AssociateIs(c: Client, fd: int)
    ensures var d := Associate(c, fd);
      && d.cbFd == fd && d.table == c.table && d.log == c.log && |d.slots| == |c.slots|
      && forall i :: 0 <= i < |c.slots| ==>
           && d.slots[i].id == c.slots[i].id && d.slots[i].hasCallback == c.slots[i].hasCallback
           && d.slots[i].buffer == c.slots[i].buffer
           && d.slots[i].cbFd == if c.slots[i].id != 0 then fd else c.slots[i].cbFd
  {
  }

  // ---------------------------------------------------------------- tables in lockstep

  ghost predicate Lockstep(c: Client) {
    Inv(c.table) && Matched(Live(c.table), c.slots, c.cbFd)
  }

  /** The two tables as one map from handles to engines. */
  ghost function Engines(c: Client): map<uint32, Engine> {
    EngineMap(Live(c.table), c.slots)
  }

  // --- counting

  ghost function EntryIds(es: seq<Entry>, n: nat): (s: set<uint32>)
    requires n <= |es|
  {
    if n == 0 then {}
    else if es[n - 1].inUse then EntryIds(es, n - 1) + {es[n - 1].id}
    else EntryIds(es, n - 1)
  }

  lemma {:induction false} EntryIdsBound(es: seq<Entry>, n: nat)
    requires n <= |es|
    ensures |EntryIds(es, n)| <= n
    ensures (exists i | 0 <= i < n :: !es[i].inUse) ==> |EntryIds(es, n)| < n
    ensures forall i | 0 <= i < n :: es[i].inUse ==> es[i].id in EntryIds(es, n)
  {
    if n > 0 {
      EntryIdsBound(es, n - 1);
    }
  }

  lemma SubsetSmaller<T>(a: set<T>, b: set<T>)
    requires a <= b
    ensures |a| <= |b|
  {
    assert a + (b - a) == b;
  }

  /** Two tables of 64 in lockstep fill up together: whenever hmap_add finds room, so does
      alloc_cb_state. */
  lemma RoomTogether(c: Client)
    requires Lockstep(c) && !Full(c.table)
    ensures HasSlot(c.slots, 0)
  {
    if !HasSlot(c.slots, 0) {
      var ss, es := c.slots, c.table.entries;
      assert forall i :: 0 <= i < |ss| ==> ss[i].id != 0;
      SlotIdsAllCounted(ss, |ss|);
      EntryIdsBound(es, |es|);
      forall x | x in SlotIds(ss, |ss|) ensures x in EntryIds(es, |es|) {
        InSlotIds(ss, |ss|, x);
        var i :| 0 <= i < |ss| && ss[i].id == x;
        SlotAt(ss, i);
        assert SlotSound(Live(c.table), ss, c.cbFd, x);
        LiveThrough(c.table, x);
      }
      SubsetSmaller(SlotIds(ss, |ss|), EntryIds(es, |es|));
    }
  }

  /** The table is full when 64 handles are live. */
  lemma {:induction false} EntryIdsAllCounted(es: seq<Entry>, n: nat)
    requires n <= |es|
    requires forall i :: 0 <= i < n ==> es[i].inUse
    requires forall i, j :: 0 <= i < j < |es| ==> Apart(es[i], es[j])
    ensures |EntryIds(es, n)| == n
  {
    if n > 0 {
      EntryIdsAllCounted(es, n - 1);
      InEntryIds(es, n - 1, es[n - 1].id);
      assert forall i :: 0 <= i < n - 1 ==> Apart(es[i], es[n - 1]);
    }
  }

  lemma {:induction false} InEntryIds(es: seq<Entry>, n: nat, x: uint32)
    requires n <= |es|
    ensures x in EntryIds(es, n) <==> exists i | 0 <= i < n :: Holds(es[i], x)
  {
    if n > 0 {
      InEntryIds(es, n - 1, x);
    }
  }

  lemma {:induction false} EntryIdsAreLive(t: Table, n: nat)
    requires Inv(t) && n <= |t.entries|
    ensures forall x :: x in EntryIds(t.entries, n) ==> x in Live(t)
  {
    if n > 0 {
      EntryIdsAreLive(t, n - 1);
      if t.entries[n - 1].inUse {
        LiveAt(t, n - 1);
      }
    }
  }

  lemma FullIff(t: Table)
    requires Inv(t)
    ensures Full(t) <==> |Live(t).Keys| == MAX_HANDLES
  {
    var es := t.entries;
    EntryIdsBound(es, |es|);
    EntryIdsAreLive(t, |es|);
    forall x | x in Live(t) ensures x in EntryIds(es, |es|) {
      LiveThrough(t, x);
    }
    assert Live(t).Keys == EntryIds(es, |es|);
    if Full(t) {
      EntryIdsAllCounted(es, |es|);
    }
  }

  // ------------------------------------------------ the two tables refine one map

  /** What a dispatch does to the map of engines; `next` is the number a new one gets. */
  function Effect(m: map<uint32, Engine>, next: uint32, r: Request): (map<uint32, Engine>, Reply) {
    match r
    case New(p) =>
      if p == 0 || |m.Keys| == MAX_HANDLES then (m, Reply(true, 0))
      else (m[next := Engine(p, false, None)], Reply(false, next))
    case Delete(id) => (m - {id}, Reply(false, 0))
    case SetOutputBuffer(id, size) =>
      if id in m then (m[id := m[id].(buffer := NewBuffer(size))], Reply(false, 0)) else (m, Reply(true, 0))
    case RegisterCallback(id) =>
      if id in m then (m[id := m[id].(hasCallback := true)], Reply(false, 0)) else (m, Reply(false, 0))
    case Other => (m, Reply(false, 0))
  }

  lemma LiveBounds(t: Table, id: uint32)
    requires Inv(t)
    ensures id in Live(t) ==> 0 < id < Top(t) && Live(t)[id] != 0
  {
    LiveThrough(t, id);
    forall i | 0 <= i < |t.entries| ensures Sound(t.entries[i], Top(t)) {
    }
  }

  lemma NewKeeps(c: Client, p: Ptr)
    requires Lockstep(c) && p != 0 && !Full(c.table) && c.table.next != 0
    ensures var d := Dispatch(c, New(p)).0; Lockstep(d) && Engines(d) == Engines(c)[c.table.next := Engine(p, false, None)]
    ensures Dispatch(c, New(p)).1 == Reply(false, c.table.next)
  {
    var d, id := Dispatch(c, New(p)).0, c.table.next;
    AddBinds(c.table, p);
    RoomTogether(c);
    NewSlotKeeps(Live(c.table), c.slots, Live(d.table), c.cbFd, p, id);
  }

  lemma NewSlotKeeps(m: map<uint32, Ptr>, ss: seq<Slot>, n: map<uint32, Ptr>, fd: int, p: Ptr, id: uint32)
    requires Matched(m, ss, fd) && HasSlot(ss, 0) && id != 0 && id !in m && n == m[id := p]
    ensures var us := AllocSlot(ss, id, fd);
      Matched(n, us, fd) && EngineMap(n, us) == EngineMap(m, ss)[id := Engine(p, false, None)]
  {
    var at := SlotWith(ss, 0, 0);
    assert SlotSound(m, ss, fd, id);
    OneSlotKeepsApart(ss, at, Slot(id, fd, false, None));
    assert n - {id} == m - {id};
    ChangeKeeps(m, ss, n, AllocSlot(ss, id, fd), fd, at, id);
  }

  lemma DeleteKeeps(c: Client, id: uint32)
    requires Lockstep(c)
    ensures var d := Dispatch(c, Delete(id)).0; Lockstep(d) && Engines(d) == Engines(c) - {id}
  {
    GetIsLookup(c.table, id);
    LiveBounds(c.table, id);
    if id in Live(c.table) {
      RemoveUnbinds(c.table, id);
      FreeSlotKeeps(Live(c.table), c.slots, c.cbFd, id);
    }
  }

  lemma FreeSlotKeeps(m: map<uint32, Ptr>, ss: seq<Slot>, fd: int, id: uint32)
    requires Matched(m, ss, fd) && id in m
    ensures Matched(m - {id}, FreeSlot(ss, id), fd) && EngineMap(m - {id}, FreeSlot(ss, id)) == EngineMap(m, ss) - {id}
  {
    var at := SlotWith(ss, id, 0);
    assert SlotSound(m, ss, fd, id);
    OneSlotKeepsApart(ss, at, FREE_SLOT);
    assert (m - {id}) - {id} == m - {id};
    ChangeKeeps(m, ss, m - {id}, FreeSlot(ss, id), fd, at, id);
  }

  /** An update of the slot found for a live handle that keeps the slot's handle and channel. */
  lemma UpdateKeeps(m: map<uint32, Ptr>, ss: seq<Slot>, fd: int, id: uint32, u: Slot)
    requires Matched(m, ss, fd) && HasSlot(ss, id) && id != 0 && id in m
    requires u.id == id && u.cbFd == ss[SlotWith(ss, id, 0)].cbFd
    ensures var us := ss[SlotWith(ss, id, 0) := u];
      Matched(m, us, fd) && EngineMap(m, us) == EngineMap(m, ss)[id := EngineOf(m[id], u)]
  {
    var at := SlotWith(ss, id, 0);
    assert SlotSound(m, ss, fd, id);
    OneSlotKeepsApart(ss, at, u);
    ChangeKeeps(m, ss, m, ss[at := u], fd, at, id);
  }

  /** For handle zero that slot is a free one, and no engine is affected. */
  lemma FreeSlotUpdateKeeps(m: map<uint32, Ptr>, ss: seq<Slot>, fd: int, at: nat, u: Slot)
    requires Matched(m, ss, fd) && at < |ss| && ss[at].id == 0 && u.id == 0
    ensures Matched(m, ss[at := u], fd) && EngineMap(m, ss[at := u]) == EngineMap(m, ss)
  {
    var us := ss[at := u];
    OneSlotKeepsApart(ss, at, u);
    forall x: uint32 ensures SlotSound(m, us, fd, x) && EngineAt(m, us, x) == EngineAt(m, ss, x) {
      assert SlotSound(m, ss, fd, x);
      SameSlot(ss, us, x);
    }
  }

  /** Every dispatch keeps the tables in lockstep and has just its effect on the map of
      engines, a callback registered on handle zero or on a dead handle included. */
  lemma DispatchRefines(c: Client, r: Request)
    requires Lockstep(c) && (r.New? && r.made != 0 && !Full(c.table) ==> c.table.next != 0)
    ensures var (d, reply) := Dispatch(c, r);
      Lockstep(d) && (Engines(d), reply) == Effect(Engines(c), c.table.next, r)
  {
    var m, ss := Live(c.table), c.slots;
    EngineMapIs(m, ss, c.cbFd);
    match r {
      case New(p) =>
        FullIff(c.table);
        AddKeepsInv(c.table, p);
        if p != 0 && !Full(c.table) {
          NewKeeps(c, p);
        }
      case Delete(id) => DeleteKeeps(c, id);
      case SetOutputBuffer(id, size) =>
        GetIsLookup(c.table, id);
        LiveBounds(c.table, id);
        assert SlotSound(m, ss, c.cbFd, id);
        if id in m {
          UpdateKeeps(m, ss, c.cbFd, id, ss[SlotWith(ss, id, 0)].(buffer := NewBuffer(size)));
        }
      case RegisterCallback(id) =>
        LiveBounds(c.table, id);
        assert SlotSound(m, ss, c.cbFd, id);
        if HasSlot(ss, id) {
          var u := ss[SlotWith(ss, id, 0)].(hasCallback := true);
          if id == 0 {
            FreeSlotUpdateKeeps(m, ss, c.cbFd, SlotWith(ss, id, 0), u);
          } else {
            UpdateKeeps(m, ss, c.cbFd, id, u);
          }
        }
      case Other =>
    }
  }

  /** Spelled out request by request: what becomes of the engines and what is answered. */
  lemma DispatchSpelledOut(c: Client, r: Request)
    requires Lockstep(c) && (r.New? && r.made != 0 && !Full(c.table) ==> c.table.next != 0)
    ensures var (d, reply) := Dispatch(c, r);
      var m, n := Engines(c), Engines(d);
      match r
      case New(p) =>
        if p == 0 || |m.Keys| == 64 then n == m && reply == Reply(true, 0)
        else c.table.next !in m && n == m[c.table.next := Engine(p, false, None)] && reply == Reply(false, c.table.next)
      case Delete(id) => n == m - {id} && reply == Reply(false, 0)
      case SetOutputBuffer(id, size) =>
        if id !in m then n == m && reply == Reply(true, 0)
        else && n == m[id := Engine(m[id].ptr, m[id].hasCallback, if size < 0 then None else Some(size))]
             && reply == Reply(false, 0)
      case RegisterCallback(id) =>
        && n == (if id in m then m[id := Engine(m[id].ptr, true, m[id].buffer)] else m)
        && reply == Reply(false, 0)
      case Other => n == m && reply == Reply(false, 0)
  {
    DispatchRefines(c, r);
    EngineMapIs(Live(c.table), c.slots, c.cbFd);
    if r.New? {
      FullIff(c.table);
      AddKeepsInv(c.table, r.made);
    }
  }

  /** What the map of engines says of a handle is what its table entry and its slot say. */
  lemma EnginesAre(c: Client, id: uint32)
    requires Lockstep(c)
    ensures id in Engines(c) <==> exists i | 0 <= i < |c.table.entries| :: Holds(c.table.entries[i], id)
    ensures forall i, j | 0 <= i < |c.table.entries| && 0 <= j < |c.slots| && Holds(c.table.entries[i], id) && c.slots[j].id == id ::
      Engines(c)[id] == Engine(c.table.entries[i].ptr, c.slots[j].hasCallback, c.slots[j].buffer)
    ensures id in Engines(c) ==> exists j | 0 <= j < |c.slots| :: c.slots[j].id == id
  {
    LiveThrough(c.table, id);
    LiveBounds(c.table, id);
    EngineMapIs(Live(c.table), c.slots, c.cbFd);
    assert SlotSound(Live(c.table), c.slots, c.cbFd, id);
    forall j | 0 <= j < |c.slots| && c.slots[j].id == id && id != 0 ensures SlotWith(c.slots, id, 0) == j {
      SlotAt(c.slots, j);
    }
  }

  /** So does the late arrival of the callback channel. */
  lemma AssociateKeeps(c: Client, fd: int)
    requires Lockstep(c)
    ensures Lockstep(Associate(c, fd)) && Engines(Associate(c, fd)) == Engines(c)
  {
    var us := Associate(c, fd).slots;
    ChannelKeeps(Live(c.table), c.slots, c.cbFd, us, fd);
  }

  lemma ChannelKeeps(m: map<uint32, Ptr>, ss: seq<Slot>, was: int, us: seq<Slot>, fd: int)
    requires Matched(m, ss, was) && |us| == |ss|
    requires forall i :: 0 <= i < |ss| ==> us[i] == if ss[i].id != 0 then ss[i].(cbFd := fd) else ss[i]
    ensures Matched(m, us, fd) && EngineMap(m, us) == EngineMap(m, ss)
  {
    forall i, j | 0 <= i < j < |us| ensures Differ(us[i], us[j]) {
      assert Differ(ss[i], ss[j]);
    }
    forall x: uint32 ensures SlotSound(m, us, fd, x) && EngineAt(m, us, x) == EngineAt(m, ss, x) {
      assert SlotSound(m, ss, was, x);
      SameSlot(ss, us, x);
    }
  }

  lemma SameSlot(ss: seq<Slot>, us: seq<Slot>, x: uint32)
    requires |us| == |ss| && Apartness(ss) && forall i :: 0 <= i < |ss| ==> us[i].id == ss[i].id
    ensures SlotWith(us, x, 0) == SlotWith(ss, x, 0)
  {
    var i, j := SlotWith(ss, x, 0), SlotWith(us, x, 0);
    if i < |ss| {
      assert us[i].id == ss[i].id;
    }
    if j < |ss| {
      assert us[j].id == ss[j].id;
    }
  }
}
