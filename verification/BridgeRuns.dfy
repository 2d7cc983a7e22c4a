/** All the bridge's clients over time, served in any order, coming and going: why a lookup by
    engine address always finds the right one, and when it stops to. */
module BridgeRuns {
  import opened Bytes
  import opened HandleMap
  import opened Slots
  import opened ClientState
  import opened Ledger
  import opened Bridge

  /** The clients in list order. A turn serves a request of one of them, hands one its channel,
      registers a new one in front, or takes one off the list after its cleanup. */
  datatype Turn =
    | Serves(k: nat, r: Request)
    | Joins(k: nat, fd: int)
    | Arrives
    | Leaves(k: nat)

  predicate Possible(cs: seq<Client>, turn: Turn) {
    match turn
    case Serves(k, _) => k < |cs|
    case Joins(k, _) => k < |cs|
    case Arrives => true
    case Leaves(k) => k < |cs|
  }

  function After(cs: seq<Client>, turn: Turn): seq<Client>
    requires Possible(cs, turn)
  {
    match turn
    case Serves(k, r) => cs[k := Dispatch(cs[k], r).0]
    case Joins(k, fd) => cs[k := Associate(cs[k], fd)]
    case Arrives => [NewClient()] + cs
    case Leaves(k) => cs[..k] + cs[k + 1..]
  }

  /** An address the engine may give out: nothing made for a client is alive there. */
  predicate Unused(cs: seq<Client>, p: Ptr) {
    forall k :: 0 <= k < |cs| ==> Alive(cs[k].log, p) == Some(0)
  }

  /** New engines come at unused addresses, and no client runs out of numbers. */
  predicate Regular(cs: seq<Client>, turn: Turn) {
    && Possible(cs, turn)
    && (turn.Serves? && turn.r.New? && turn.r.made != 0 ==>
          Unused(cs, turn.r.made) && (!Full(cs[turn.k].table) ==> cs[turn.k].table.next != 0))
  }

  function RunTurns(cs: seq<Client>, turns: seq<Turn>): Option<seq<Client>>
    decreases |turns|
  {
    if turns == [] then Some(cs)
    else if !Regular(cs, turns[0]) then None
    else RunTurns(After(cs, turns[0]), turns[1..])
  }

  ghost predicate ClientOk(c: Client) {
    Lockstep(c) && AllBalanced(c)
  }

  ghost predicate AllOk(cs: seq<Client>) {
    (forall k :: 0 <= k < |cs| ==> ClientOk(cs[k])) && OneOwner(cs)
  }

  // ----------------------------------------------------------------- one client's turn

  lemma {:induction false} NoEntryPoints(es: seq<Entry>, n: nat, p: Ptr)
    requires n <= |es| && Entries(es, n, p) == 0
    ensures forall i :: 0 <= i < n ==> !Points(es[i], p)
  {
    if n > 0 {
      NoEntryPoints(es, n - 1, p);
    }
  }

  lemma UnusedIsNobodys(c: Client, p: Ptr, x: uint32)
    requires ClientOk(c) && Alive(c.log, p) == Some(0)
    ensures x in Engines(c) ==> Engines(c)[x].ptr != p
  {
    assert Balanced(c, p);
    NoEntryPoints(c.table.entries, |c.table.entries|, p);
    if x in Engines(c) {
      NotPointing(c, p, x);
    }
  }

  lemma DispatchOk(c: Client, r: Request)
    requires ClientOk(c) && (r.New? && r.made != 0 && !Full(c.table) ==> c.table.next != 0)
    ensures ClientOk(Dispatch(c, r).0)
  {
    DispatchRefines(c, r);
    forall q ensures Balanced(Dispatch(c, r).0, q) {
      assert Balanced(c, q);
      DispatchBalances(c, r, q);
    }
  }

  /** An engine the client has afterwards it had before, or it is the one just made, under the
      number it just got. */
  lemma DispatchPointers(c: Client, r: Request, x: uint32)
    requires ClientOk(c) && (r.New? && r.made != 0 && !Full(c.table) ==> c.table.next != 0)
    requires x in Engines(Dispatch(c, r).0)
    ensures var p := Engines(Dispatch(c, r).0)[x].ptr;
      (x in Engines(c) && Engines(c)[x].ptr == p) || (r.New? && r.made != 0 && p == r.made && x == c.table.next)
  {
    DispatchRefines(c, r);
    EffectPointers(Engines(c), c.table.next, r, Effect(Engines(c), c.table.next, r).0, x);
  }

  lemma EffectPointers(m: map<uint32, Engine>, next: uint32, r: Request, n: map<uint32, Engine>, x: uint32)
    requires n == Effect(m, next, r).0 && x in n
    ensures (x in m && m[x].ptr == n[x].ptr) || (r.New? && r.made != 0 && n[x].ptr == r.made && x == next)
  {
  }

  lemma ServesKeeps(cs: seq<Client>, k: nat, r: Request)
    requires AllOk(cs) && Regular(cs, Serves(k, r))
    ensures AllOk(After(cs, Serves(k, r)))
  {
    var c, d := cs[k], Dispatch(cs[k], r).0;
    assert ClientOk(c);
    DispatchOk(c, r);
    var ds := cs[k := d];
    forall i | 0 <= i < |ds| ensures ClientOk(ds[i]) {
      assert ClientOk(cs[i]);
    }
    forall i, j, x, y | 0 <= i < |ds| && 0 <= j < |ds| && SameAddress(ds[i], x, ds[j], y) ensures i == j && x == y {
      if i == k {
        DispatchPointers(c, r, x);
      }
      if j == k {
        DispatchPointers(c, r, y);
      }
      OwnersAgree(cs, k, r, i, x, j, y);
    }
  }

  /** The owner of an address is the engine the turn has made. */
  predicate IsTheNewOne(cs: seq<Client>, k: nat, r: Request, i: nat, x: uint32, p: Ptr)
    requires k < |cs| && i < |cs|
  {
    r.New? && r.made != 0 && p == r.made && i == k && x == cs[k].table.next
  }

  lemma OwnersAgree(cs: seq<Client>, k: nat, r: Request, i: nat, x: uint32, j: nat, y: uint32)
    requires AllOk(cs) && Regular(cs, Serves(k, r)) && i < |cs| && j < |cs|
    requires var ds := cs[k := Dispatch(cs[k], r).0];
      && SameAddress(ds[i], x, ds[j], y)
      && (var p := Engines(ds[i])[x].ptr;
          && ((x in Engines(cs[i]) && Engines(cs[i])[x].ptr == p) || IsTheNewOne(cs, k, r, i, x, p))
          && ((y in Engines(cs[j]) && Engines(cs[j])[y].ptr == p) || IsTheNewOne(cs, k, r, j, y, p)))
    ensures i == j && x == y
  {
    var p := Engines(cs[k := Dispatch(cs[k], r).0][i])[x].ptr;
    assert ClientOk(cs[i]) && ClientOk(cs[j]);
    if r.New? && r.made != 0 && p == r.made {
      UnusedIsNobodys(cs[i], p, x);
      UnusedIsNobodys(cs[j], p, y);
    } else {
      assert SameAddress(cs[i], x, cs[j], y);
    }
  }

  lemma JoinsKeeps(cs: seq<Client>, k: nat, fd: int)
    requires AllOk(cs) && k < |cs|
    ensures AllOk(After(cs, Joins(k, fd)))
  {
    var ds := cs[k := Associate(cs[k], fd)];
    assert ClientOk(cs[k]);
    AssociateKeeps(cs[k], fd);
    assert forall q :: Balanced(cs[k], q) ==> Balanced(ds[k], q);
    forall i | 0 <= i < |ds| ensures ClientOk(ds[i]) && Engines(ds[i]) == Engines(cs[i]) {
      assert ClientOk(cs[i]);
    }
    forall i, j, x, y | 0 <= i < |ds| && 0 <= j < |ds| && SameAddress(ds[i], x, ds[j], y) ensures i == j && x == y {
      assert SameAddress(cs[i], x, cs[j], y);
    }
  }

  lemma ArrivesKeeps(cs: seq<Client>)
    requires AllOk(cs)
    ensures AllOk(After(cs, Arrives))
  {
    var ds := [NewClient()] + cs;
    NewClientOk();
    forall i | 0 <= i < |ds| ensures ClientOk(ds[i]) {
      assert i > 0 ==> ClientOk(cs[i - 1]);
    }
    forall i, j, x, y | 0 <= i < |ds| && 0 <= j < |ds| && SameAddress(ds[i], x, ds[j], y) ensures i == j && x == y {
      assert SameAddress(cs[i - 1], x, cs[j - 1], y);
    }
  }

  lemma NewClientOk()
    ensures ClientOk(NewClient()) && Engines(NewClient()) == map[]
  {
    NewClientLockstep(0);
    forall q ensures Balanced(NewClient(), q) {
      NewClientLockstep(q);
    }
  }

  lemma LeavesKeeps(cs: seq<Client>, k: nat)
    requires AllOk(cs) && k < |cs|
    ensures AllOk(After(cs, Leaves(k)))
  {
    var ds := cs[..k] + cs[k + 1..];
    forall i | 0 <= i < |ds| ensures ClientOk(ds[i]) {
      LeftOver(cs, k, i);
      assert ClientOk(cs[Before(k, i)]);
    }
    forall i, j, x, y | 0 <= i < |ds| && 0 <= j < |ds| && SameAddress(ds[i], x, ds[j], y) ensures i == j && x == y {
      LeftOver(cs, k, i);
      LeftOver(cs, k, j);
      assert SameAddress(cs[Before(k, i)], x, cs[Before(k, j)], y);
    }
  }

  /** Where the client now in place `i` was before the one in place `k` left. */
  function Before(k: nat, i: nat): nat {
    if i < k then i else i + 1
  }

  lemma LeftOver(cs: seq<Client>, k: nat, i: nat)
    requires k < |cs| && i < |cs| - 1
    ensures Before(k, i) < |cs| && (cs[..k] + cs[k + 1..])[i] == cs[Before(k, i)]
  {
  }

  lemma TurnKeeps(cs: seq<Client>, turn: Turn)
    requires AllOk(cs) && Regular(cs, turn)
    ensures AllOk(After(cs, turn))
  {
    match turn {
      case Serves(k, r) => ServesKeeps(cs, k, r);
      case Joins(k, fd) => JoinsKeeps(cs, k, fd);
      case Arrives => ArrivesKeeps(cs);
      case Leaves(k) => LeavesKeeps(cs, k);
    }
  }

  lemma {:induction false} TurnsKeep(cs: seq<Client>, turns: seq<Turn>)
    requires AllOk(cs) && RunTurns(cs, turns).Some?
    ensures AllOk(RunTurns(cs, turns).value)
    decreases |turns|
  {
    if turns != [] {
      TurnKeeps(cs, turns[0]);
      TurnsKeep(After(cs, turns[0]), turns[1..]);
    }
  }

  // -------------------------------------------------------------------- whole histories

  /** However clients come, go and are served, as long as new engines come at addresses where
      none is alive and no client runs out of numbers: an engine's events always find the
      client that made it and the slot of the handle it was given, and no address leads to
      two of them. */
  lemma RoutesAlwaysRight(turns: seq<Turn>, p: Ptr, k: nat, id: uint32)
    requires RunTurns([], turns).Some?
    requires var cs := RunTurns([], turns).value; k < |cs| && id in Engines(cs[k]) && Engines(cs[k])[id].ptr == p
    ensures var cs := RunTurns([], turns).value;
      && Route(cs, p, 0) == Some(Routed(k, SlotWith(cs[k].slots, id, 0)))
      && HasSlot(cs[k].slots, id) && cs[k].slots[SlotWith(cs[k].slots, id, 0)].id == id
  {
    TurnsKeep([], turns);
    var cs := RunTurns([], turns).value;
    forall i | 0 <= i < |cs| ensures Lockstep(cs[i]) {
      assert ClientOk(cs[i]);
    }
    RouteIsRight(cs, p, k, id);
  }

  lemma {:induction false} RouteInReaches(c: Client, p: Ptr, i: nat, at: nat)
    requires i <= at < |c.table.entries| && Points(c.table.entries[at], p) && HasSlot(c.slots, c.table.entries[at].id)
    ensures RouteIn(c, p, i).Some?
    decreases at - i
  {
    if i < at {
      RouteInReaches(c, p, i + 1, at);
    }
  }

  /** At the wrap it ends: the entry left behind for a deleted engine catches the events of
      whoever is next given its address, if that client comes later on the list. */
  lemma WrapMisroutes(c: Client, p: Ptr, others: seq<Client>)
    requires Lockstep(c) && c.table.next == 0 && p != 0 && !Full(c.table)
    ensures Route([Dispatch(c, New(p)).0] + others, p, 0).Some?
    ensures Route([Dispatch(c, New(p)).0] + others, p, 0).value.client == 0
  {
    RoomTogether(c);
    AtTheWrap(c, p);
    var d := Dispatch(c, New(p)).0;
    RouteInReaches(d, p, 0, FirstFree(c.table.entries, 0));
    assert ([d] + others)[0] == d;
  }
}
