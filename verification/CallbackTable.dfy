/** The host library's table of callbacks and output buffers: 64 entries, filled by two
    independent calls in either order, never released. */
module CallbackTable {
  import opened Bytes

  const MAX_CB_HANDLES := 64

  /** What one handle has registered: a function with its user data, and a buffer. */
  datatype Registration = Registration(callback: Option<nat>, userData: nat, buffer: Option<nat>, size: int32)

  const NOTHING := Registration(None, 0, None, 0)

  datatype Entry = Entry(handle: uint32, what: Registration, active: bool)

  const BLANK := Entry(0, NOTHING, false)

  predicate Has(e: Entry, h: uint32) {
    e.active && e.handle == h
  }

  function IndexOf(es: seq<Entry>, h: uint32, from: nat): (i: nat)
    requires from <= |es|
    ensures from <= i <= |es| && (i < |es| ==> Has(es[i], h))
    ensures forall j :: from <= j < i ==> !Has(es[j], h)
    decreases |es| - from
  {
    if from == |es| || Has(es[from], h) then from else IndexOf(es, h, from + 1)
  }

  function FirstInactive(es: seq<Entry>, from: nat): (i: nat)
    requires from <= |es|
    ensures from <= i <= |es| && (i < |es| ==> !es[i].active)
    ensures forall j :: from <= j < i ==> es[j].active
    decreases |es| - from
  {
    if from == |es| || !es[from].active then from else FirstInactive(es, from + 1)
  }

  /** The two fields each call writes. */
  datatype Change = SetCallback(callback: Option<nat>, userData: nat) | SetBuffer(buffer: Option<nat>, size: int32)

  function Apply(r: Registration, c: Change): Registration {
    match c
    case SetCallback(cb, data) => r.(callback := cb, userData := data)
    case SetBuffer(b, n) => r.(buffer := b, size := n)
  }

  /** Update the handle's entry, or else write the first inactive one, or else nothing. */
  function Upsert(es: seq<Entry>, h: uint32, c: Change): seq<Entry> {
    var i, k := IndexOf(es, h, 0), FirstInactive(es, 0);
    if i < |es| then es[i := es[i].(what := Apply(es[i].what, c))]
    else if k < |es| then es[k := Entry(h, Apply(es[k].what, c), true)]
    else es
  }

  // ------------------------------------------------------------ refinement of a map

  /** Entries in use carry distinct handles and come first; those not in use are blank. */
  ghost predicate Inv(es: seq<Entry>) {
    && |es| == MAX_CB_HANDLES
    && (forall i, j :: 0 <= i < j < |es| ==> Ordered(es[i], es[j]))
    && (forall i :: 0 <= i < |es| ==> es[i].active || es[i] == BLANK)
  }

  predicate Ordered(e: Entry, f: Entry) {
    (f.active ==> e.active) && (e.active && f.active ==> e.handle != f.handle)
  }

  function Lookup(es: seq<Entry>, h: uint32): Option<Registration> {
    var i := IndexOf(es, h, 0);
    if i < |es| then Some(es[i].what) else None
  }

  ghost predicate Holds(es: seq<Entry>, h: uint32) {
    Lookup(es, h).Some?
  }

  ghost predicate Room(es: seq<Entry>) {
    FirstInactive(es, 0) < |es|
  }

  lemma IndexIs(es: seq<Entry>, i: nat)
    requires Inv(es) && i < |es| && es[i].active
    ensures IndexOf(es, es[i].handle, 0) == i
  {
    var k := IndexOf(es, es[i].handle, 0);
    assert k < i ==> Ordered(es[k], es[i]);
  }

  /** A call changes what the given handle has registered, starting from nothing, and leaves
      every other handle alone; only a 65th handle is dropped. */
  lemma UpsertRefines(es: seq<Entry>, h: uint32, c: Change, x: uint32)
    requires Inv(es)
    ensures var us := Upsert(es, h, c);
      && Inv(us)
      && Lookup(us, x) == (
        if x != h || !(Holds(es, h) || Room(es)) then Lookup(es, x)
        else Some(Apply(if Holds(es, h) then Lookup(es, h).value else NOTHING, c)))
  {
    UpsertKeepsInv(es, h, c);
    var us := Upsert(es, h, c);
    var at := if Holds(es, h) then IndexOf(es, h, 0) else FirstInactive(es, 0);
    if at < |es| {
      if x == h {
        IndexIs(us, at);
      } else {
        OthersStay(es, us, at, x);
      }
    }
  }

  /** Field by field: what is on record is what was passed last, and what the other call left. */
  lemma OnRecordAfter(es: seq<Entry>, h: uint32, cb: Option<nat>, data: nat, b: Option<nat>, n: int32)
    requires Inv(es) && (Holds(es, h) || Room(es))
    ensures var r := Lookup(Upsert(es, h, SetCallback(cb, data)), h);
      && r.Some? && r.value.callback == cb && r.value.userData == data
      && (Holds(es, h) ==> r.value.buffer == Lookup(es, h).value.buffer && r.value.size == Lookup(es, h).value.size)
      && (!Holds(es, h) ==> r.value.buffer == None && r.value.size == 0)
    ensures var r := Lookup(Upsert(es, h, SetBuffer(b, n)), h);
      && r.Some? && r.value.buffer == b && r.value.size == n
      && (Holds(es, h) ==> r.value.callback == Lookup(es, h).value.callback && r.value.userData == Lookup(es, h).value.userData)
      && (!Holds(es, h) ==> r.value.callback == None && r.value.userData == 0)
  {
    UpsertRefines(es, h, SetCallback(cb, data), h);
    UpsertRefines(es, h, SetBuffer(b, n), h);
  }

  /** A lookup gives the record of the entry in use for that handle, and nothing if there is none. */
  lemma LookupIs(es: seq<Entry>, h: uint32)
    requires Inv(es)
    ensures forall i :: 0 <= i < |es| && es[i].active && es[i].handle == h ==> Lookup(es, h) == Some(es[i].what)
    ensures (forall i :: 0 <= i < |es| ==> !(es[i].active && es[i].handle == h)) ==> Lookup(es, h) == None
  {
    forall i | 0 <= i < |es| && es[i].active && es[i].handle == h ensures Lookup(es, h) == Some(es[i].what) {
      IndexIs(es, i);
    }
  }

  lemma OthersStay(es: seq<Entry>, us: seq<Entry>, at: nat, x: uint32)
    requires at < |es| == |us| && us == es[at := us[at]] && !Has(es[at], x) && !Has(us[at], x)
    ensures IndexOf(us, x, 0) == IndexOf(es, x, 0) && Lookup(us, x) == Lookup(es, x)
  {
    var i, j := IndexOf(es, x, 0), IndexOf(us, x, 0);
    if i < |es| {
      assert Has(us[i], x);
    }
    if j < |us| {
      assert Has(es[j], x);
    }
  }

  lemma UpsertKeepsInv(es: seq<Entry>, h: uint32, c: Change)
    requires Inv(es)
    ensures Inv(Upsert(es, h, c))
  {
    var us := Upsert(es, h, c);
    forall i, j | 0 <= i < j < |us| ensures Ordered(us[i], us[j]) {
      assert Ordered(es[i], es[j]);
    }
  }

  /** Registering a callback and setting the output buffer of one handle commute. */
  lemma OrderOfCallsIrrelevant(es: seq<Entry>, h: uint32, cb: Option<nat>, data: nat, b: Option<nat>, n: int32, x: uint32)
    requires Inv(es)
    ensures Lookup(Upsert(Upsert(es, h, SetCallback(cb, data)), h, SetBuffer(b, n)), x)
         == Lookup(Upsert(Upsert(es, h, SetBuffer(b, n)), h, SetCallback(cb, data)), x)
  {
    BothWritten(es, h, SetCallback(cb, data), SetBuffer(b, n), x);
    BothWritten(es, h, SetBuffer(b, n), SetCallback(cb, data), x);
  }

  lemma BothWritten(es: seq<Entry>, h: uint32, c: Change, d: Change, x: uint32)
    requires Inv(es)
    ensures Lookup(Upsert(Upsert(es, h, c), h, d), x) == (
      if x != h || !(Holds(es, h) || Room(es)) then Lookup(es, x)
      else Some(Apply(Apply(if Holds(es, h) then Lookup(es, h).value else NOTHING, c), d)))
  {
    UpsertRefines(es, h, c, x);
    UpsertRefines(es, h, c, h);
    UpsertRefines(Upsert(es, h, c), h, d, x);
  }

  /** While at most 64 handles ever reach the table none is dropped: it has room for every
      handle it does not hold. */
  lemma RoomWhileFew(es: seq<Entry>, hs: set<uint32>)
    requires Inv(es) && |hs| < MAX_CB_HANDLES && forall i :: 0 <= i < |es| && es[i].active ==> es[i].handle in hs
    ensures Room(es)
  {
    if !Room(es) {
      Handles(es, |es|, hs);
    }
  }

  lemma {:induction false} Handles(es: seq<Entry>, n: nat, hs: set<uint32>)
    requires Inv(es) && n <= |es|
    requires forall i :: 0 <= i < n ==> es[i].active && es[i].handle in hs
    ensures n <= |hs|
    decreases n
  {
    if n > 0 {
      var h := es[n - 1].handle;
      forall i | 0 <= i < n - 1 ensures es[i].handle in hs - {h} {
        assert Ordered(es[i], es[n - 1]);
      }
      Handles(es, n - 1, hs - {h});
    }
  }

  // -------------------------------------------------------------------- the real table

  class Callbacks {
    const entries: array<Entry>

    ghost predicate Valid()
      reads entries
    {
      Inv(entries[..])
    }

    constructor ()
      ensures Valid() && fresh(entries) && forall h :: Lookup(entries[..], h).None?
    {
      entries := new Entry[MAX_CB_HANDLES](i => BLANK);
    }

    method Set(h: uint32, c: Change)
      requires Valid()
      modifies entries
      ensures Valid() && entries[..] == Upsert(old(entries[..]), h, c)
    {
      UpsertKeepsInv(entries[..], h, c);
      for i := 0 to MAX_CB_HANDLES
        invariant entries[..] == old(entries[..])
        invariant IndexOf(entries[..], h, 0) == IndexOf(entries[..], h, i)
      {
        if entries[i].active && entries[i].handle == h {
          entries[i] := entries[i].(what := Apply(entries[i].what, c));
          return;
        }
      }
      for i := 0 to MAX_CB_HANDLES
        invariant entries[..] == old(entries[..])
        invariant FirstInactive(entries[..], 0) == FirstInactive(entries[..], i)
      {
        if !entries[i].active {
          entries[i] := Entry(h, Apply(entries[i].what, c), true);
          return;
        }
      }
    }

    method Find(h: uint32) returns (r: Option<Registration>)
      requires Valid()
      ensures r == Lookup(entries[..], h)
    {
      for i := 0 to MAX_CB_HANDLES
        invariant IndexOf(entries[..], h, 0) == IndexOf(entries[..], h, i)
      {
        if entries[i].active && entries[i].handle == h {
          return Some(entries[i].what);
        }
      }
      r := None;
    }
  }
}
