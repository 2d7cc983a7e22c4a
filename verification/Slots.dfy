/** The 64 callback slots a client has beside its table of engine handles, and what it takes
    for the two to stay in step. The table enters only as the map it stands for. */
module Slots {
  import opened Bytes
  import opened HandleMap

  /** A zero id marks a free slot. */
  datatype Slot = Slot(id: uint32, cbFd: int, hasCallback: bool, buffer: Option<nat>)

  const FREE_SLOT := Slot(0, 0, false, None)

  // ------------------------------------------------------------------ the slot helpers

  function SlotWith(ss: seq<Slot>, id: uint32, from: nat): (i: nat)
    requires from <= |ss|
    ensures from <= i <= |ss| && (i < |ss| ==> ss[i].id == id)
    ensures forall j :: from <= j < i ==> ss[j].id != id
    decreases |ss| - from
  {
    if from == |ss| || ss[from].id == id then from else SlotWith(ss, id, from + 1)
  }

  function AllocSlot(ss: seq<Slot>, id: uint32, fd: int): seq<Slot> {
    var i := SlotWith(ss, 0, 0);
    if i == |ss| then ss else ss[i := Slot(id, fd, false, None)]
  }

  function FreeSlot(ss: seq<Slot>, id: uint32): seq<Slot> {
    var i := SlotWith(ss, id, 0);
    if i == |ss| then ss else ss[i := FREE_SLOT]
  }

  /** Asked for handle zero, get_cb_state returns the first free slot. */
  function MarkCallback(ss: seq<Slot>, id: uint32): seq<Slot> {
    var i := SlotWith(ss, id, 0);
    if i == |ss| then ss else ss[i := ss[i].(hasCallback := true)]
  }

  /** calloc of a negative size fails. */
  function NewBuffer(size: int32): Option<nat> {
    if size < 0 then None else Some(size)
  }

  function SetBuffer(ss: seq<Slot>, id: uint32, size: int32): seq<Slot> {
    var i := SlotWith(ss, id, 0);
    if i == |ss| then ss else ss[i := ss[i].(buffer := NewBuffer(size))]
  }

  /** Each operation acts on the first slot it looks for, and on no other. */
  lemma SlotOperations(ss: seq<Slot>, id: uint32, fd: int, size: int32, i: nat)
    requires i <= |ss|
    ensures (forall j :: 0 <= j < i ==> ss[j].id != 0) ==>
      (i == |ss| ==> AllocSlot(ss, id, fd) == ss)
      && (i < |ss| && ss[i].id == 0 ==> AllocSlot(ss, id, fd) == ss[i := Slot(id, fd, false, None)])
    ensures (forall j :: 0 <= j < i ==> ss[j].id != id) && i == |ss| ==>
      FreeSlot(ss, id) == ss && MarkCallback(ss, id) == ss && SetBuffer(ss, id, size) == ss
    ensures (forall j :: 0 <= j < i ==> ss[j].id != id) && i < |ss| && ss[i].id == id ==>
      && FreeSlot(ss, id) == ss[i := Slot(0, 0, false, None)]
      && MarkCallback(ss, id) == ss[i := Slot(id, ss[i].cbFd, true, ss[i].buffer)]
      && SetBuffer(ss, id, size) == ss[i := Slot(id, ss[i].cbFd, ss[i].hasCallback, if size < 0 then None else Some(size))]
  {
    if forall j :: 0 <= j < i ==> ss[j].id != 0 {
      assert i < |ss| && ss[i].id == 0 ==> SlotWith(ss, 0, 0) == i;
    }
    if forall j :: 0 <= j < i ==> ss[j].id != id {
      assert i < |ss| && ss[i].id == id ==> SlotWith(ss, id, 0) == i;
    }
  }

  // ------------------------------------------------------ slots matching a map of handles

  predicate Differ(s: Slot, u: Slot) {
    s.id != 0 ==> s.id != u.id
  }

  predicate HasSlot(ss: seq<Slot>, id: uint32) {
    SlotWith(ss, id, 0) < |ss|
  }

  predicate Apartness(ss: seq<Slot>) {
    forall i, j :: 0 <= i < j < |ss| ==> Differ(ss[i], ss[j])
  }

  lemma SlotAt(ss: seq<Slot>, i: nat)
    requires Apartness(ss) && i < |ss| && ss[i].id != 0
    ensures SlotWith(ss, ss[i].id, 0) == i
  {
    var k := SlotWith(ss, ss[i].id, 0);
    assert k < i ==> Differ(ss[k], ss[i]);
  }

  lemma OneSlotKeepsApart(ss: seq<Slot>, at: nat, u: Slot)
    requires Apartness(ss) && at < |ss| && (u.id == 0 || u.id == ss[at].id || !HasSlot(ss, u.id))
    ensures Apartness(ss[at := u])
  {
    var us := ss[at := u];
    forall i, j | 0 <= i < j < |us| ensures Differ(us[i], us[j]) {
      assert Differ(ss[i], ss[j]);
    }
  }

  /** A handle is live if and only if it has a slot, which has the client's channel. */
  predicate SlotSound(m: map<uint32, Ptr>, ss: seq<Slot>, fd: int, id: uint32) {
    id != 0 ==> (id in m <==> HasSlot(ss, id)) && (HasSlot(ss, id) ==> ss[SlotWith(ss, id, 0)].cbFd == fd)
  }

  ghost predicate Matched(m: map<uint32, Ptr>, ss: seq<Slot>, fd: int) {
    && |ss| == MAX_HANDLES && Apartness(ss) && 0 !in m
    && forall id: uint32 :: SlotSound(m, ss, fd, id)
  }

  /** Matching tables together are one map from handles to engines. */
  datatype Engine = Engine(ptr: Ptr, hasCallback: bool, buffer: Option<nat>)

  function EngineAt(m: map<uint32, Ptr>, ss: seq<Slot>, x: uint32): Option<Engine> {
    if x in m && HasSlot(ss, x) then Some(EngineOf(m[x], ss[SlotWith(ss, x, 0)])) else None
  }

  function EngineOf(p: Ptr, s: Slot): Engine {
    Engine(p, s.hasCallback, s.buffer)
  }

  ghost function EngineMap(m: map<uint32, Ptr>, ss: seq<Slot>): map<uint32, Engine> {
    map x | x in m && EngineAt(m, ss, x).Some? :: EngineAt(m, ss, x).value
  }

  lemma EngineMapIs(m: map<uint32, Ptr>, ss: seq<Slot>, fd: int)
    requires Matched(m, ss, fd)
    ensures EngineMap(m, ss).Keys == m.Keys
  {
    forall x | x in m ensures EngineAt(m, ss, x).Some? {
      assert SlotSound(m, ss, fd, x);
    }
  }

  /** Nothing changed but the slot at `at` and the liveness of `y`, whose slot it is. */
  predicate OneChanged(m: map<uint32, Ptr>, ss: seq<Slot>, n: map<uint32, Ptr>, us: seq<Slot>, fd: int, at: nat, y: uint32) {
    && y != 0 && at < |ss| == |us| && us == ss[at := us[at]]
    && (ss[at].id == 0 || ss[at].id == y) && (us[at].id == 0 || us[at].id == y)
    && (y in m ==> ss[at].id == y) && (y in n <==> us[at].id == y)
    && (us[at].id != 0 ==> us[at].cbFd == fd)
    && m - {y} == n - {y}
  }

  /** Changing the slot at `at` does not disturb the slots of other handles. */
  lemma OthersKeepTheirSlot(ss: seq<Slot>, us: seq<Slot>, at: nat, x: uint32)
    requires Apartness(ss) && Apartness(us) && at < |ss| == |us| && us == ss[at := us[at]] && x != 0
    requires x != ss[at].id && x != us[at].id
    ensures SlotWith(us, x, 0) == SlotWith(ss, x, 0) && (HasSlot(ss, x) ==> us[SlotWith(us, x, 0)] == ss[SlotWith(ss, x, 0)])
  {
    var i, j := SlotWith(ss, x, 0), SlotWith(us, x, 0);
    if i < |ss| {
      SlotAt(us, i);
    } else {
      SlotFound(ss, us, at, x);
    }
  }

  lemma SlotFound(ss: seq<Slot>, us: seq<Slot>, at: nat, x: uint32)
    requires at < |ss| == |us| && us == ss[at := us[at]] && x != us[at].id
    ensures HasSlot(us, x) ==> HasSlot(ss, x)
  {
    var j := SlotWith(us, x, 0);
    assert j < |us| ==> ss[j].id == x;
  }

  lemma ChangeAt(m: map<uint32, Ptr>, ss: seq<Slot>, n: map<uint32, Ptr>, us: seq<Slot>, fd: int, at: nat, y: uint32, x: uint32)
    requires Apartness(ss) && Apartness(us) && OneChanged(m, ss, n, us, fd, at, y)
    requires SlotSound(m, ss, fd, x) && 0 !in m
    ensures SlotSound(n, us, fd, x)
    ensures EngineAt(n, us, x) == if x != y then EngineAt(m, ss, x)
                                  else if x in n then Some(EngineOf(n[x], us[at])) else None
  {
    assert x != y ==> (x in m <==> x in m - {y}) && (x in n <==> x in n - {y}) && (x in m ==> m[x] == (m - {y})[x]) && (x in n ==> n[x] == (n - {y})[x]);
    if x == 0 {
    } else if x != y {
      OthersKeepTheirSlot(ss, us, at, x);
    } else if us[at].id == y {
      SlotAt(us, at);
    } else {
      SlotGone(ss, us, at, y);
    }
  }

  lemma SlotGone(ss: seq<Slot>, us: seq<Slot>, at: nat, y: uint32)
    requires Apartness(ss) && at < |ss| == |us| && us == ss[at := us[at]] && us[at].id == 0 && y != 0
    requires HasSlot(ss, y) ==> ss[at].id == y
    ensures !HasSlot(us, y)
  {
    SlotFound(ss, us, at, y);
    if ss[at].id == y {
      SlotAt(ss, at);
    }
    forall j | 0 <= j < |us| ensures us[j].id != y {
      assert j < at ==> Differ(ss[j], ss[at]);
      assert at < j ==> Differ(ss[at], ss[j]);
    }
  }

  lemma ChangeKeeps(m: map<uint32, Ptr>, ss: seq<Slot>, n: map<uint32, Ptr>, us: seq<Slot>, fd: int, at: nat, y: uint32)
    requires Matched(m, ss, fd) && Apartness(us) && OneChanged(m, ss, n, us, fd, at, y)
    ensures Matched(n, us, fd)
    ensures EngineMap(n, us) == if y in n then EngineMap(m, ss)[y := EngineOf(n[y], us[at])] else EngineMap(m, ss) - {y}
  {
    assert 0 in n <==> 0 in n - {y};
    forall x: uint32
      ensures SlotSound(n, us, fd, x)
      ensures EngineAt(n, us, x) == if x != y then EngineAt(m, ss, x)
                                    else if x in n then Some(EngineOf(n[x], us[at])) else None
    {
      assert SlotSound(m, ss, fd, x);
      ChangeAt(m, ss, n, us, fd, at, y, x);
    }
    var e := EngineMap(m, ss);
    EngineMapBy(n, us, if y in n then e[y := EngineOf(n[y], us[at])] else e - {y});
  }

  lemma EngineMapBy(m: map<uint32, Ptr>, ss: seq<Slot>, e: map<uint32, Engine>)
    requires forall x: uint32 :: EngineAt(m, ss, x) == if x in e then Some(e[x]) else None
    ensures EngineMap(m, ss) == e
  {
  }

  // ---------------------------------------------------------------------- counting

  ghost function SlotIds(ss: seq<Slot>, n: nat): (s: set<uint32>)
    requires n <= |ss|
  {
    if n == 0 then {} else SlotIds(ss, n - 1) + {ss[n - 1].id}
  }

  lemma {:induction false} InSlotIds(ss: seq<Slot>, n: nat, x: uint32)
    requires n <= |ss|
    ensures x in SlotIds(ss, n) <==> exists i | 0 <= i < n :: ss[i].id == x
  {
    if n > 0 {
      InSlotIds(ss, n - 1, x);
    }
  }

  lemma {:induction false} SlotIdsAllCounted(ss: seq<Slot>, n: nat)
    requires n <= |ss|
    requires forall i :: 0 <= i < n ==> ss[i].id != 0
    requires forall i, j :: 0 <= i < j < |ss| ==> Differ(ss[i], ss[j])
    ensures |SlotIds(ss, n)| == n
  {
    if n > 0 {
      SlotIdsAllCounted(ss, n - 1);
      InSlotIds(ss, n - 1, ss[n - 1].id);
      assert forall i :: 0 <= i < n - 1 ==> Differ(ss[i], ss[n - 1]);
    }
  }
}
