/** The bridge's table of handles: 64 entries a type, numbered from one. Handles of one type
    do not meet those of another, so the model has one table per type. */
module HandleMap {
  import opened Bytes

  const MAX_HANDLES := 64

  /** An address the engine gave out; zero is NULL. */
  type Ptr = nat

  datatype Entry = Entry(ptr: Ptr, id: uint32, inUse: bool)
  datatype Table = Table(entries: seq<Entry>, next: uint32)

  function EmptyTable(): Table {
    Table(seq(MAX_HANDLES, i => Entry(0, 0, false)), 1)
  }

  // ------------------------------------------------------------------ the three scans

  function FirstFree(es: seq<Entry>, from: nat): (i: nat)
    requires from <= |es|
    ensures from <= i <= |es| && (i < |es| ==> !es[i].inUse)
    ensures forall j :: from <= j < i ==> es[j].inUse
    decreases |es| - from
  {
    if from == |es| || !es[from].inUse then from else FirstFree(es, from + 1)
  }

  predicate Holds(e: Entry, id: uint32) {
    e.inUse && e.id == id
  }

  function FirstWith(es: seq<Entry>, id: uint32, from: nat): (i: nat)
    requires from <= |es|
    ensures from <= i <= |es| && (i < |es| ==> Holds(es[i], id))
    ensures forall j :: from <= j < i ==> !Holds(es[j], id)
    decreases |es| - from
  {
    if from == |es| || Holds(es[from], id) then from else FirstWith(es, id, from + 1)
  }

  predicate Points(e: Entry, p: Ptr) {
    e.inUse && e.ptr == p
  }

  function FirstAt(es: seq<Entry>, p: Ptr, from: nat): (i: nat)
    requires from <= |es|
    ensures from <= i <= |es| && (i < |es| ==> Points(es[i], p))
    ensures forall j :: from <= j < i ==> !Points(es[j], p)
    decreases |es| - from
  {
    if from == |es| || Points(es[from], p) then from else FirstAt(es, p, from + 1)
  }

  // ------------------------------------------------------------------ the operations

  function Add(t: Table, p: Ptr): (Table, uint32) {
    var i := FirstFree(t.entries, 0);
    if p == 0 || i == |t.entries| then (t, 0)
    else (Table(t.entries[i := Entry(p, t.next, true)], (t.next + 1) % TWO32), t.next)
  }

  function Get(t: Table, id: uint32): Ptr {
    var i := FirstWith(t.entries, id, 0);
    if id == 0 || i == |t.entries| then 0 else t.entries[i].ptr
  }

  /** The entry is released but keeps its stale id. */
  function Remove(t: Table, id: uint32): Table {
    var i := FirstWith(t.entries, id, 0);
    if id == 0 || i == |t.entries| then t
    else t.(entries := t.entries[i := Entry(0, t.entries[i].id, false)])
  }

  function Find(t: Table, p: Ptr): uint32 {
    var i := FirstAt(t.entries, p, 0);
    if p == 0 || i == |t.entries| then 0 else t.entries[i].id
  }

  /** An add takes the first free entry; a removal frees the first one in use with that id, whose
      number stays in it. */
  lemma TableOperations(t: Table, p: Ptr, id: uint32, i: nat)
    requires i < |t.entries|
    ensures p != 0 && !t.entries[i].inUse && (forall j :: 0 <= j < i ==> t.entries[j].inUse) ==>
      Add(t, p) == (Table(t.entries[i := Entry(p, t.next, true)], (t.next + 1) % TWO32), t.next)
    ensures p == 0 || (forall j :: 0 <= j < |t.entries| ==> t.entries[j].inUse) ==> Add(t, p) == (t, 0)
    ensures id != 0 && t.entries[i].inUse && t.entries[i].id == id
            && (forall j :: 0 <= j < i ==> !(t.entries[j].inUse && t.entries[j].id == id)) ==>
      Remove(t, id) == Table(t.entries[i := Entry(0, id, false)], t.next) && Get(t, id) == t.entries[i].ptr
    ensures id == 0 || (forall j :: 0 <= j < |t.entries| ==> !(t.entries[j].inUse && t.entries[j].id == id)) ==>
      Remove(t, id) == t && Get(t, id) == 0
  {
    if !t.entries[i].inUse && forall j :: 0 <= j < i ==> t.entries[j].inUse {
      assert FirstFree(t.entries, 0) == i;
    }
    if Holds(t.entries[i], id) && forall j :: 0 <= j < i ==> !Holds(t.entries[j], id) {
      assert FirstWith(t.entries, id, 0) == i;
    }
  }

  // ------------------------------------------------------- refinement of a partial map

  /** The first number not yet given out. A counter at zero has just used up the last. */
  function Top(t: Table): (n: nat)
    ensures 1 <= n <= TWO32 && (n < TWO32 ==> n == t.next)
  {
    if t.next == 0 then TWO32 else t.next
  }

  /** Live entries carry distinct ids below the next one, and no null pointers. */
  ghost predicate Inv(t: Table) {
    && |t.entries| == MAX_HANDLES
    && (forall i :: 0 <= i < |t.entries| ==> Sound(t.entries[i], Top(t)))
    && (forall i, j :: 0 <= i < j < |t.entries| ==> Apart(t.entries[i], t.entries[j]))
  }

  predicate Sound(e: Entry, top: nat) {
    e.inUse ==> 1 <= e.id < top && e.ptr != 0
  }

  predicate Apart(e: Entry, f: Entry) {
    e.inUse && f.inUse ==> e.id != f.id
  }

  ghost predicate IsLive(t: Table, id: uint32) {
    exists i | 0 <= i < |t.entries| :: Holds(t.entries[i], id)
  }

  /** What the table means: the pointer of every live id. */
  ghost function Live(t: Table): map<uint32, Ptr> {
    map id: uint32 | 0 <= id < TWO32 && IsLive(t, id) :: t.entries[FirstWith(t.entries, id, 0)].ptr
  }

  lemma LiveAt(t: Table, i: nat)
    requires Inv(t) && i < |t.entries| && t.entries[i].inUse
    ensures t.entries[i].id in Live(t) && Live(t)[t.entries[i].id] == t.entries[i].ptr
    ensures FirstWith(t.entries, t.entries[i].id, 0) == i
  {
    assert Holds(t.entries[i], t.entries[i].id);
  }

  /** hmap_get is lookup in the map; id zero resolves to nothing. */
  lemma GetIsLookup(t: Table, id: uint32)
    requires Inv(t)
    ensures Get(t, id) == if id in Live(t) then Live(t)[id] else 0
  {
  }

  /** An id is live when an entry holds it, and then that entry's pointer is its value. */
  lemma LiveThrough(t: Table, x: uint32)
    requires Inv(t)
    ensures x in Live(t) <==> exists i | 0 <= i < |t.entries| :: Holds(t.entries[i], x)
    ensures forall i | 0 <= i < |t.entries| && Holds(t.entries[i], x) :: x in Live(t) && Live(t)[x] == t.entries[i].ptr
  {
    forall i | 0 <= i < |t.entries| && Holds(t.entries[i], x) ensures x in Live(t) && Live(t)[x] == t.entries[i].ptr {
      LiveAt(t, i);
    }
  }

  predicate Full(t: Table) {
    forall i :: 0 <= i < |t.entries| ==> t.entries[i].inUse
  }

  lemma AddKeepsInv(t: Table, p: Ptr)
    requires Inv(t) && (p != 0 && !Full(t) ==> t.next != 0)
    ensures Inv(Add(t, p).0)
    ensures p == 0 || Full(t) ==> Add(t, p) == (t, 0)
    ensures p != 0 && !Full(t) ==> Add(t, p).1 == t.next && Top(Add(t, p).0) == Top(t) + 1 && t.next !in Live(t)
  {
    forall i, e: Entry | 0 <= i < |t.entries| && e == t.entries[i] ensures Sound(e, Top(t)) && (t.next != 0 ==> !Holds(e, t.next)) {
    }
  }

  /** hmap_add either binds the next id, which was not bound, or, for NULL and when all 64
      entries are taken, changes nothing. */
  lemma AddBinds(t: Table, p: Ptr)
    requires Inv(t) && (p != 0 && !Full(t) ==> t.next != 0)
    ensures var (u, id) := Add(t, p);
      && Inv(u)
      && (if p == 0 || Full(t) then u == t && id == 0
          else id == t.next && id !in Live(t) && Live(u) == Live(t)[id := p] && Top(u) == Top(t) + 1)
  {
    AddKeepsInv(t, p);
    if p != 0 && !Full(t) {
      var (u, id) := Add(t, p);
      forall x: uint32
        ensures x in Live(u) <==> x in Live(t)[id := p]
        ensures x in Live(u) ==> Live(u)[x] == Live(t)[id := p][x]
      {
        LiveThrough(t, x);
        LiveThrough(u, x);
        OneEntryChanged(t, u, FirstFree(t.entries, 0), x);
      }
    }
  }

  /** Where two tables differ in one entry only, the ids of the others resolve alike. */
  lemma OneEntryChanged(t: Table, u: Table, at: nat, x: uint32)
    requires Inv(t) && Inv(u) && at < |t.entries|
    requires u.entries == t.entries[at := u.entries[at]]
    ensures !Holds(t.entries[at], x) && !Holds(u.entries[at], x) ==>
      (x in Live(t) <==> x in Live(u)) && (x in Live(t) ==> Live(t)[x] == Live(u)[x])
    ensures Holds(u.entries[at], x) ==> x in Live(u) && Live(u)[x] == u.entries[at].ptr
    ensures Holds(t.entries[at], x) && !Holds(u.entries[at], x) ==> x !in Live(u)
  {
    LiveThrough(t, x);
    LiveThrough(u, x);
    if x in Live(t) {
      var i :| 0 <= i < |t.entries| && Holds(t.entries[i], x);
      assert i != at ==> Holds(u.entries[i], x);
    }
    if x in Live(u) {
      var i :| 0 <= i < |u.entries| && Holds(u.entries[i], x);
      assert i != at ==> Holds(t.entries[i], x);
      assert i < at ==> Apart(t.entries[i], t.entries[at]);
      assert at < i ==> Apart(t.entries[at], t.entries[i]);
    }
  }

  lemma RemoveKeepsInv(t: Table, id: uint32)
    requires Inv(t)
    ensures Inv(Remove(t, id))
  {
    var u := Remove(t, id);
    forall i, j | 0 <= i < j < |u.entries| ensures Apart(u.entries[i], u.entries[j]) {
      assert Apart(t.entries[i], t.entries[j]);
    }
  }

  /** hmap_remove unbinds that id and no other. */
  lemma RemoveUnbinds(t: Table, id: uint32)
    requires Inv(t)
    ensures Inv(Remove(t, id)) && Live(Remove(t, id)) == Live(t) - {id}
  {
    RemoveKeepsInv(t, id);
    LiveThrough(t, id);
    var u, i := Remove(t, id), FirstWith(t.entries, id, 0);
    if id != 0 && i < |t.entries| {
      forall x: uint32
        ensures x in Live(u) <==> x in Live(t) - {id}
        ensures x in Live(u) ==> Live(u)[x] == Live(t)[x]
      {
        OneEntryChanged(t, u, i, x);
      }
    }
  }

  ghost predicate DistinctPointers(t: Table) {
    forall x, y :: x in Live(t) && y in Live(t) && Live(t)[x] == Live(t)[y] ==> x == y
  }

  /** hmap_find_by_ptr inverts hmap_get while live pointers are distinct. */
  lemma FindInvertsGet(t: Table, p: Ptr, id: uint32)
    requires Inv(t) && DistinctPointers(t)
    ensures p != 0 ==> (Find(t, p) == id && id != 0 <==> Get(t, id) == p)
    ensures Find(t, p) == 0 <==> p !in Live(t).Values
  {
    var i := FirstAt(t.entries, p, 0);
    if i < |t.entries| {
      LiveAt(t, i);
    }
    if id in Live(t) {
      var k := FirstWith(t.entries, id, 0);
      LiveAt(t, k);
      assert Points(t.entries[k], Live(t)[id]);
    }
    if x :| x in Live(t) && Live(t)[x] == p {
      var k := FirstWith(t.entries, x, 0);
      LiveAt(t, k);
      assert Points(t.entries[k], p);
    }
    GetIsLookup(t, id);
  }

  // --------------------------------------------------------------------- whole runs

  datatype Op = OpAdd(p: Ptr) | OpRemove(id: uint32) | OpGet(g: uint32)

  function Do(t: Table, op: Op): Table {
    match op
    case OpAdd(p) => Add(t, p).0
    case OpRemove(id) => Remove(t, id)
    case OpGet(_) => t
  }

  function Run(t: Table, ops: seq<Op>): Table
    decreases |ops|
  {
    if ops == [] then t else Run(Do(t, ops[0]), ops[1..])
  }

  /** The ids a run issues, in order. */
  function Issued(t: Table, ops: seq<Op>): seq<uint32>
    decreases |ops|
  {
    if ops == [] then []
    else
      var rest := Issued(Do(t, ops[0]), ops[1..]);
      if Issues(t, ops[0]) then [Add(t, ops[0].p).1] + rest else rest
  }

  /** An id once given out and removed resolves to NULL for ever after, and ids come in
      strictly increasing order, until all 2^32 - 1 of them have been used up. */
  lemma {:induction false} NeverReissued(t: Table, ops: seq<Op>, id: uint32)
    requires Inv(t) && Top(t) + |Issued(t, ops)| <= TWO32
    ensures Inv(Run(t, ops)) && Top(Run(t, ops)) == Top(t) + |Issued(t, ops)|
    ensures forall k :: 0 <= k < |Issued(t, ops)| ==> Issued(t, ops)[k] == Top(t) + k
    ensures id < Top(t) && id !in Live(t) ==> id !in Live(Run(t, ops)) && Get(Run(t, ops), id) == 0
    decreases |ops|
  {
    if ops != [] {
      DoKeeps(t, ops[0], id);
      NeverReissued(Do(t, ops[0]), ops[1..], id);
    }
    GetIsLookup(Run(t, ops), id);
  }

  predicate Issues(t: Table, op: Op) {
    op.OpAdd? && op.p != 0 && !Full(t)
  }

  lemma DoKeeps(t: Table, op: Op, id: uint32)
    requires Inv(t) && (Issues(t, op) ==> Top(t) < TWO32)
    ensures var u := Do(t, op);
      && Inv(u) && Top(u) == Top(t) + (if Issues(t, op) then 1 else 0)
      && (id < Top(t) && id !in Live(t) ==> id !in Live(u))
    ensures Issues(t, op) ==> Add(t, op.p).1 == Top(t)
  {
    match op {
      case OpAdd(p) => AddBinds(t, p);
      case OpRemove(x) => RemoveUnbinds(t, x);
      case OpGet(_) =>
    }
  }

  lemma EmptyTableInv()
    ensures Inv(EmptyTable()) && Live(EmptyTable()) == map[]
  {
  }

  /** At the wrap the guarantee ends: hmap_add stores the pointer, reports failure, and no
      id resolves to it or removes it. */
  lemma WrapLosesTheEntry(t: Table, p: Ptr)
    requires |t.entries| == MAX_HANDLES && t.next == 0 && p != 0
    requires exists i | 0 <= i < |t.entries| :: !t.entries[i].inUse
    requires forall i :: 0 <= i < |t.entries| && t.entries[i].inUse ==> t.entries[i].id != 0 && t.entries[i].ptr != p
    ensures var (u, id) := Add(t, p);
      id == 0 && (exists i | 0 <= i < |u.entries| :: Points(u.entries[i], p))
      && forall x :: Get(u, x) != p
  {
    var (u, _) := Add(t, p);
    assert Points(u.entries[FirstFree(t.entries, 0)], p);
  }

  // ------------------------------------------------------------------- the real table

  class HandleTable {
    const entries: array<Entry>
    var next: uint32

    ghost predicate Valid() {
      entries.Length == MAX_HANDLES
    }

    ghost function Value(): Table
      reads this, entries
    {
      Table(entries[..], next)
    }

    constructor ()
      ensures Valid() && fresh(entries) && Value() == EmptyTable()
    {
      entries := new Entry[MAX_HANDLES](i => Entry(0, 0, false));
      next := 1;
    }

    method AddPtr(p: Ptr) returns (id: uint32)
      requires Valid()
      modifies this, entries
      ensures Valid() && (Value(), id) == Add(old(Value()), p)
    {
      if p == 0 {
        return 0;
      }
      for i := 0 to MAX_HANDLES
        invariant Value() == old(Value())
        invariant FirstFree(entries[..], 0) == FirstFree(entries[..], i)
      {
        if !entries[i].inUse {
          id := next;
          next := (next + 1) % TWO32;
          entries[i] := Entry(p, id, true);
          return;
        }
      }
      id := 0;
    }

    method GetPtr(id: uint32) returns (p: Ptr)
      requires Valid()
      ensures p == Get(Value(), id)
    {
      if id == 0 {
        return 0;
      }
      for i := 0 to MAX_HANDLES
        invariant FirstWith(entries[..], id, 0) == FirstWith(entries[..], id, i)
      {
        if entries[i].inUse && entries[i].id == id {
          return entries[i].ptr;
        }
      }
      p := 0;
    }

    method RemoveId(id: uint32)
      requires Valid()
      modifies entries
      ensures Valid() && Value() == Remove(old(Value()), id)
    {
      if id == 0 {
        return;
      }
      for i := 0 to MAX_HANDLES
        invariant Value() == old(Value())
        invariant FirstWith(entries[..], id, 0) == FirstWith(entries[..], id, i)
      {
        if entries[i].inUse && entries[i].id == id {
          entries[i] := Entry(0, id, false);
          return;
        }
      }
    }

    method FindByPtr(p: Ptr) returns (id: uint32)
      requires Valid()
      ensures id == Find(Value(), p)
    {
      if p == 0 {
        return 0;
      }
      for i := 0 to MAX_HANDLES
        invariant FirstAt(entries[..], p, 0) == FirstAt(entries[..], p, i)
      {
        if entries[i].inUse && entries[i].ptr == p {
          return entries[i].id;
        }
      }
      id := 0;
    }
  }
}
