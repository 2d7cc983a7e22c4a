/** The hash half of the patcher: walk the version-needed records of `.gnu.version_r`
    (Symbol Versioning, LSB Core Specification), a list of lists linked by byte offsets,
    and replace every old hash in place while walking. */
module ElfHashes {
  import opened Bytes
  import opened ElfStrings

  /** Both record kinds are 16 bytes; struct.unpack_from raises past the end. */
  const RECORD := 16

  /** OLD_HASHES and NEW_HASH of the script. */
  datatype Hashes = Hashes(olds: set<nat>, newer: uint32) {
    predicate Sound() {
      newer !in olds
    }

    function Remap(h: nat): nat {
      if h in olds then newer else h
    }
  }

  // Elf_Verneed: vn_cnt at 2, vn_aux at 8, vn_next at 12
  function AuxCount(d: seq<byte>, p: nat): nat requires p + RECORD <= |d| { WordAt(d, p + 2, p + 4) }
  function AuxOffset(d: seq<byte>, p: nat): nat requires p + RECORD <= |d| { WordAt(d, p + 8, p + 12) }
  function NextOffset(d: seq<byte>, p: nat): nat requires p + RECORD <= |d| { WordAt(d, p + 12, p + 16) }

  // Elf_Vernaux: vna_hash at 0, vna_name at 8, vna_next at 12
  function HashField(d: seq<byte>, p: nat): nat requires p + RECORD <= |d| { WordAt(d, p, p + 4) }
  function NameOffset(d: seq<byte>, p: nat): nat requires p + RECORD <= |d| { WordAt(d, p + 8, p + 12) }

  /** What a walk leaves: the bytes, the patches made, and whether it ended in struct.error. */
  datatype Walk = Walk(bytes: seq<byte>, count: nat, ok: bool)

  function PatchHash(t: Hashes, d: seq<byte>, p: nat): (e: seq<byte>)
    requires p + RECORD <= |d|
    ensures |e| == |d|
  {
    if HashField(d, p) in t.olds then Write(d, p, Le32(t.newer)) else d
  }

  /** The inner walk: up to `left` Vernaux records from `p`. Fields are read before the
      hash is written. */
  function WalkAux(t: Hashes, d: seq<byte>, p: nat, left: nat, count: nat): (w: Walk)
    ensures |w.bytes| == |d|
    decreases left
  {
    if left == 0 then Walk(d, count, true)
    else if p + RECORD > |d| then Walk(d, count, false)
    else
      var next := NextOffset(d, p);
      var e := PatchHash(t, d, p);
      var n := if HashField(d, p) in t.olds then count + 1 else count;
      if next == 0 then Walk(e, n, true) else WalkAux(t, e, p + next, left - 1, n)
  }

  /** The outer walk over Verneed records. Offsets strictly increase, so it ends. */
  function WalkNeed(t: Hashes, d: seq<byte>, p: nat, count: nat): (w: Walk)
    ensures |w.bytes| == |d|
    decreases |d| - p
  {
    if p + RECORD > |d| then Walk(d, count, false)
    else
      var next := NextOffset(d, p);
      var w := WalkAux(t, d, p + AuxOffset(d, p), AuxCount(d, p), count);
      if !w.ok || next == 0 then w else WalkNeed(t, w.bytes, p + next, w.count)
  }

  // ------------------------------------------------------- the records of a file

  /** The Vernaux records the inner walk meets, or None where it runs off the end. */
  function AuxSet(d: seq<byte>, p: nat, left: nat): Option<set<nat>>
    decreases left
  {
    if left == 0 then Some({})
    else if p + RECORD > |d| then None
    else if NextOffset(d, p) == 0 then Some({p})
    else match AuxSet(d, p + NextOffset(d, p), left - 1)
      case None => None
      case Some(rest) => Some({p} + rest)
  }

  /** The Verneed and Vernaux records of a section. */
  datatype Layout = Layout(needs: set<nat>, auxes: set<nat>)

  function Records(d: seq<byte>, p: nat): Option<Layout>
    decreases |d| - p
  {
    if p + RECORD > |d| then None
    else match AuxSet(d, p + AuxOffset(d, p), AuxCount(d, p))
      case None => None
      case Some(a) =>
        if NextOffset(d, p) == 0 then Some(Layout({p}, a))
        else match Records(d, p + NextOffset(d, p))
          case None => None
          case Some(l) => Some(Layout({p} + l.needs, a + l.auxes))
  }

  predicate Apart(p: nat, q: nat) {
    p + RECORD <= q || q + RECORD <= p
  }

  predicate EachApart(A: set<nat>) {
    forall p, q {:trigger Apart(p, q)} :: p in A && q in A ==> p == q || Apart(p, q)
  }

  predicate BothApart(A: set<nat>, B: set<nat>) {
    forall p, q {:trigger Apart(p, q)} :: p in A && q in B ==> Apart(p, q)
  }

  /** No record overlaps another; a Vernaux may be listed more than once. */
  predicate Disjoint(l: Layout) {
    EachApart(l.auxes) && BothApart(l.auxes, l.needs)
  }

  predicate HashRemapped(t: Hashes, d: seq<byte>, e: seq<byte>, p: nat) {
    p + RECORD <= |d| == |e| && HashField(e, p) == t.Remap(HashField(d, p))
  }

  predicate SameByte(d: seq<byte>, e: seq<byte>, k: nat) {
    k < |d| == |e| && e[k] == d[k]
  }

  predicate InHash(k: int, p: nat) {
    p <= k < p + 4
  }

  ghost predicate Untouched(k: int, A: set<nat>) {
    forall p {:trigger InHash(k, p)} :: p in A ==> !InHash(k, p)
  }

  /** `e` is `d` with the hash of every record of `A` remapped and nothing else changed. */
  ghost predicate HashesRemapped(t: Hashes, d: seq<byte>, e: seq<byte>, A: set<nat>) {
    && |e| == |d|
    && (forall p {:trigger HashRemapped(t, d, e, p)} :: p in A ==> HashRemapped(t, d, e, p))
    && (forall k {:trigger SameByte(d, e, k)} :: 0 <= k < |d| && Untouched(k, A) ==> SameByte(d, e, k))
  }

  /** Bytes no hash write touches read the same afterwards. */
  lemma BytesKept(t: Hashes, d: seq<byte>, e: seq<byte>, A: set<nat>, q: nat, r: nat)
    requires HashesRemapped(t, d, e, A) && q <= r <= |d|
    requires forall k, p :: q <= k < r && p in A ==> !InHash(k, p)
    ensures e[q..r] == d[q..r] && WordAt(e, q, r) == WordAt(d, q, r)
  {
    forall k | q <= k < r ensures e[k] == d[k] {
      assert Untouched(k, A);
      assert SameByte(d, e, k);
    }
    SameWord(d, e, q, r);
  }

  lemma LinksKept(t: Hashes, d: seq<byte>, e: seq<byte>, A: set<nat>, q: nat)
    requires HashesRemapped(t, d, e, A) && q + RECORD <= |d| && EachApart(A + {q})
    ensures NextOffset(e, q) == NextOffset(d, q) && NameOffset(e, q) == NameOffset(d, q)
    ensures q !in A ==> HashField(e, q) == HashField(d, q)
  {
    forall p | p in A ensures p == q || Apart(p, q) {
      assert p in A + {q} && q in A + {q};
    }
    BytesKept(t, d, e, A, q + 12, q + 16);
    BytesKept(t, d, e, A, q + 8, q + 12);
    if q !in A {
      BytesKept(t, d, e, A, q, q + 4);
    }
  }

  lemma NeedKept(t: Hashes, d: seq<byte>, e: seq<byte>, A: set<nat>, q: nat)
    requires HashesRemapped(t, d, e, A) && q + RECORD <= |d| && BothApart(A, {q})
    ensures NextOffset(e, q) == NextOffset(d, q) && AuxOffset(e, q) == AuxOffset(d, q) && AuxCount(e, q) == AuxCount(d, q)
  {
    assert forall p | p in A :: Apart(p, q);
    BytesKept(t, d, e, A, q + 12, q + 16);
    BytesKept(t, d, e, A, q + 8, q + 12);
    BytesKept(t, d, e, A, q + 2, q + 4);
  }

  /** One hash write seen on its own. */
  lemma PatchHashEffect(t: Hashes, e: seq<byte>, q: nat)
    requires q + RECORD <= |e|
    ensures HashField(PatchHash(t, e, q), q) == t.Remap(HashField(e, q))
    ensures forall k :: 0 <= k < |e| && (k < q || q + 4 <= k) ==> PatchHash(t, e, q)[k] == e[k]
  {
    var f := PatchHash(t, e, q);
    if HashField(e, q) in t.olds {
      assert f[q..q + 4] == Le32(t.newer);
      Le32RoundTrip(t.newer, f, q);
    }
  }

  /** Patching one more record, new or seen before, keeps the relation. */
  lemma PatchOne(t: Hashes, d: seq<byte>, e: seq<byte>, A: set<nat>, q: nat)
    requires t.Sound() && HashesRemapped(t, d, e, A) && q + RECORD <= |d| && EachApart(A + {q})
    ensures HashesRemapped(t, d, PatchHash(t, e, q), A + {q})
  {
    var f := PatchHash(t, e, q);
    LinksKept(t, d, e, A, q);
    PatchHashEffect(t, e, q);
    forall p {:trigger HashRemapped(t, d, f, p)} | p in A + {q} ensures HashRemapped(t, d, f, p) {
      if p in A {
        assert HashRemapped(t, d, e, p);
      }
      if p != q {
        assert Apart(p, q);
        SameWord(f, e, p, p + 4);
      }
    }
    forall k {:trigger SameByte(d, f, k)} | 0 <= k < |d| && Untouched(k, A + {q}) ensures SameByte(d, f, k) {
      assert q in A + {q} && !InHash(k, q);
      assert Untouched(k, A);
      assert SameByte(d, e, k);
    }
  }

  lemma EachApartSubset(A: set<nat>, B: set<nat>)
    requires B <= A && EachApart(A)
    ensures EachApart(B)
  {
  }

  lemma BothApartSubset(A: set<nat>, B: set<nat>, C: set<nat>, D: set<nat>)
    requires C <= A && D <= B && BothApart(A, B)
    ensures BothApart(C, D)
  {
  }

  lemma AuxHead(d: seq<byte>, p: nat, left: nat)
    requires left > 0 && AuxSet(d, p, left).Some?
    ensures p + RECORD <= |d| && p in AuxSet(d, p, left).value
    ensures NextOffset(d, p) == 0 ==> AuxSet(d, p, left).value == {p}
    ensures NextOffset(d, p) != 0 ==>
      var rest := AuxSet(d, p + NextOffset(d, p), left - 1);
      rest.Some? && AuxSet(d, p, left).value == {p} + rest.value
  {
  }

  /** One step of the inner walk of a partly patched file. */
  lemma AuxStep(t: Hashes, d: seq<byte>, e: seq<byte>, A: set<nat>, p: nat, a: set<nat>)
    requires t.Sound() && HashesRemapped(t, d, e, A) && EachApart(A + a)
    requires p + RECORD <= |d| && p in a
    ensures NextOffset(e, p) == NextOffset(d, p)
    ensures HashesRemapped(t, d, PatchHash(t, e, p), A + {p})
  {
    assert A + {p} <= A + a;
    EachApartSubset(A + a, A + {p});
    LinksKept(t, d, e, A, p);
    PatchOne(t, d, e, A, p);
  }

  /** The inner walk of a partly patched file finds the records of the original. */
  lemma {:induction false} WalkAuxCorrect(t: Hashes, d: seq<byte>, e: seq<byte>, A: set<nat>, p: nat, left: nat, count: nat,
                                          a: set<nat>, w: Walk)
    requires t.Sound() && HashesRemapped(t, d, e, A)
    requires AuxSet(d, p, left) == Some(a) && EachApart(A + a)
    requires w == WalkAux(t, e, p, left, count)
    ensures w.ok && HashesRemapped(t, d, w.bytes, A + a)
    decreases left
  {
    if left == 0 {
      assert A + a == A;
    } else {
      AuxHead(d, p, left);
      AuxStep(t, d, e, A, p, a);
      var next := NextOffset(d, p);
      if next != 0 {
        var rest := AuxSet(d, p + next, left - 1).value;
        assert A + {p} + rest == A + a;
        WalkAuxCorrect(t, d, PatchHash(t, e, p), A + {p}, p + next, left - 1,
                       if HashField(e, p) in t.olds then count + 1 else count, rest, w);
      }
    }
  }

  lemma NeedHead(d: seq<byte>, p: nat, l: Layout)
    requires Records(d, p) == Some(l)
    ensures p + RECORD <= |d| && p in l.needs
    ensures AuxSet(d, p + AuxOffset(d, p), AuxCount(d, p)).Some?
    ensures var a := AuxSet(d, p + AuxOffset(d, p), AuxCount(d, p)).value;
      a <= l.auxes && (NextOffset(d, p) == 0 ==> l.auxes == a)
    ensures NextOffset(d, p) != 0 ==>
      var a, rest := AuxSet(d, p + AuxOffset(d, p), AuxCount(d, p)).value, Records(d, p + NextOffset(d, p));
      rest.Some? && rest.value.needs <= l.needs && l.auxes == a + rest.value.auxes
  {
  }

  // ----------------------------------------------------------------------- the count

  /** The records of `A` whose hash is an old one. */
  function Olds(t: Hashes, d: seq<byte>, A: set<nat>): set<nat> {
    set p | p in A && p + RECORD <= |d| && HashField(d, p) in t.olds
  }

  predicate Shown(s: set<nat>) {
    true
  }

  /** `n` of the records of `A` have an old hash; said so that it is looked into on demand only. */
  ghost predicate OldCount(t: Hashes, d: seq<byte>, A: set<nat>, n: nat) {
    forall s {:trigger Shown(s)} :: Shown(s) && s == Olds(t, d, A) ==> |s| == n
  }

  lemma OldCountIff(t: Hashes, d: seq<byte>, A: set<nat>, n: nat)
    ensures OldCount(t, d, A, n) <==> |Olds(t, d, A)| == n
  {
    assert Shown(Olds(t, d, A));
  }

  /** A visit counts exactly when it is the first to a record with an old hash. */
  lemma CountOne(t: Hashes, d: seq<byte>, e: seq<byte>, A: set<nat>, q: nat, n: nat)
    requires t.Sound() && HashesRemapped(t, d, e, A) && q + RECORD <= |d| && EachApart(A + {q}) && OldCount(t, d, A, n)
    ensures OldCount(t, d, A + {q}, if HashField(e, q) in t.olds then n + 1 else n)
  {
    LinksKept(t, d, e, A, q);
    OldCountIff(t, d, A, n);
    OldCountIff(t, d, A + {q}, if HashField(e, q) in t.olds then n + 1 else n);
    if q in A {
      assert HashRemapped(t, d, e, q);
      assert A + {q} == A;
    } else if HashField(d, q) in t.olds {
      assert Olds(t, d, A + {q}) == Olds(t, d, A) + {q};
    } else {
      assert Olds(t, d, A + {q}) == Olds(t, d, A);
    }
  }

  /** The inner walk counts the old hashes of the records new to it. */
  lemma {:induction false} WalkAuxCounts(t: Hashes, d: seq<byte>, e: seq<byte>, A: set<nat>, C: set<nat>, p: nat, left: nat, n: nat,
                                         a: set<nat>, w: Walk)
    requires t.Sound() && HashesRemapped(t, d, e, A) && OldCount(t, d, A, n)
    requires AuxSet(d, p, left) == Some(a) && C == A + a && EachApart(C)
    requires w == WalkAux(t, e, p, left, n)
    ensures OldCount(t, d, C, w.count)
    decreases left
  {
    if left == 0 {
      assert C == A;
    } else {
      AuxHead(d, p, left);
      AuxStep(t, d, e, A, p, a);
      EachApartSubset(C, A + {p});
      CountOne(t, d, e, A, p, n);
      WalkAuxStep(t, e, p, left, n, w);
      var next := NextOffset(d, p);
      if next != 0 {
        var rest := AuxSet(d, p + next, left - 1).value;
        assert C == A + {p} + rest;
        WalkAuxCounts(t, d, PatchHash(t, e, p), A + {p}, C, p + next, left - 1, if HashField(e, p) in t.olds then n + 1 else n, rest, w);
      } else {
        assert C == A + {p};
      }
    }
  }

  // ------------------------------------------------------------------- the outer walk

  predicate Seen(w: Walk) {
    true
  }

  /** `w` is this walk; said so that it is looked into on demand only. */
  ghost predicate AuxWalk(t: Hashes, e: seq<byte>, p: nat, left: nat, count: nat, w: Walk) {
    forall x {:trigger Seen(x)} :: Seen(x) && x == WalkAux(t, e, p, left, count) ==> w == x
  }

  ghost predicate NeedWalk(t: Hashes, e: seq<byte>, p: nat, count: nat, w: Walk) {
    forall x {:trigger Seen(x)} :: Seen(x) && x == WalkNeed(t, e, p, count) ==> w == x
  }

  lemma NeedWalkStep(t: Hashes, e: seq<byte>, p: nat, count: nat, w: Walk) returns (v: Walk)
    requires NeedWalk(t, e, p, count, w) && p + RECORD <= |e|
    ensures AuxWalk(t, e, p + AuxOffset(e, p), AuxCount(e, p), count, v)
    ensures if !v.ok || NextOffset(e, p) == 0 then w == v else NeedWalk(t, v.bytes, p + NextOffset(e, p), v.count, w)
  {
    v := WalkAux(t, e, p + AuxOffset(e, p), AuxCount(e, p), count);
    assert Seen(WalkNeed(t, e, p, count));
  }

  /** One step of the outer walk of a partly patched file. */
  lemma NeedStep(t: Hashes, d: seq<byte>, e: seq<byte>, A: set<nat>, p: nat, count: nat, l: Layout, a: set<nat>, v: Walk)
    requires t.Sound() && HashesRemapped(t, d, e, A) && OldCount(t, d, A, count) && p + RECORD <= |d|
    requires p in l.needs && a <= l.auxes && EachApart(A + l.auxes) && BothApart(A + l.auxes, l.needs)
    requires AuxSet(d, p + AuxOffset(d, p), AuxCount(d, p)) == Some(a)
    requires AuxWalk(t, e, p + AuxOffset(e, p), AuxCount(e, p), count, v)
    ensures NextOffset(e, p) == NextOffset(d, p)
    ensures v.ok && HashesRemapped(t, d, v.bytes, A + a) && OldCount(t, d, A + a, v.count)
  {
    BothApartSubset(A + l.auxes, l.needs, A, {p});
    NeedKept(t, d, e, A, p);
    assert A + a <= A + l.auxes;
    EachApartSubset(A + l.auxes, A + a);
    assert Seen(WalkAux(t, e, p + AuxOffset(e, p), AuxCount(e, p), count));
    WalkAuxCorrect(t, d, e, A, p + AuxOffset(d, p), AuxCount(d, p), count, a, v);
    WalkAuxCounts(t, d, e, A, A + a, p + AuxOffset(d, p), AuxCount(d, p), count, a, v);
  }

  /** The outer walk of a partly patched file finds the records of the original, and goes on
      counting where the walk so far has stopped. */
  lemma {:induction false} WalkNeedCorrect(t: Hashes, d: seq<byte>, e: seq<byte>, A: set<nat>, p: nat, count: nat,
                                           l: Layout, w: Walk)
    requires t.Sound() && HashesRemapped(t, d, e, A) && OldCount(t, d, A, count) && Records(d, p) == Some(l)
    requires EachApart(A + l.auxes) && BothApart(A + l.auxes, l.needs)
    requires NeedWalk(t, e, p, count, w)
    ensures w.ok && HashesRemapped(t, d, w.bytes, A + l.auxes) && OldCount(t, d, A + l.auxes, w.count)
    decreases |d| - p
  {
    NeedHead(d, p, l);
    var a := AuxSet(d, p + AuxOffset(d, p), AuxCount(d, p)).value;
    var v := NeedWalkStep(t, e, p, count, w);
    NeedStep(t, d, e, A, p, count, l, a, v);
    if NextOffset(d, p) != 0 {
      var q := p + NextOffset(d, p);
      var m := Records(d, q).value;
      assert A + a + m.auxes == A + l.auxes;
      BothApartSubset(A + l.auxes, l.needs, A + l.auxes, m.needs);
      WalkNeedCorrect(t, d, v.bytes, A + a, q, v.count, m, w);
    }
  }

  /** A whole walk over disjoint records remaps exactly their hashes and counts the old ones. */
  lemma WalkRemapsRecords(t: Hashes, d: seq<byte>, p: nat)
    requires t.Sound() && Records(d, p).Some? && Disjoint(Records(d, p).value)
    ensures WalkNeed(t, d, p, 0).ok
    ensures HashesRemapped(t, d, WalkNeed(t, d, p, 0).bytes, Records(d, p).value.auxes)
    ensures WalkNeed(t, d, p, 0).count == |Olds(t, d, Records(d, p).value.auxes)|
  {
    assert HashesRemapped(t, d, d, {}) by {
      assert forall k: int :: Untouched(k, {});
    }
    var A := Records(d, p).value.auxes;
    assert {} + A == A;
    assert Olds(t, d, {}) == {};
    OldCountIff(t, d, {}, 0);
    WalkNeedCorrect(t, d, d, {}, p, 0, Records(d, p).value, WalkNeed(t, d, p, 0));
    OldCountIff(t, d, A, WalkNeed(t, d, p, 0).count);
  }

  /** No record has a hash left to replace. */
  ghost predicate Settled(t: Hashes, d: seq<byte>, A: set<nat>) {
    forall p {:trigger IsSettled(t, d, p)} :: p in A ==> IsSettled(t, d, p)
  }

  predicate IsSettled(t: Hashes, d: seq<byte>, p: nat) {
    p + RECORD <= |d| && HashField(d, p) !in t.olds
  }

  lemma {:induction false} WalkAuxIdle(t: Hashes, d: seq<byte>, p: nat, left: nat, count: nat, a: set<nat>)
    requires AuxSet(d, p, left) == Some(a) && Settled(t, d, a)
    ensures WalkAux(t, d, p, left, count) == Walk(d, count, true)
    decreases left
  {
    if left > 0 {
      AuxHead(d, p, left);
      assert IsSettled(t, d, p);
      var next := NextOffset(d, p);
      if next != 0 {
        WalkAuxIdle(t, d, p + next, left - 1, count, AuxSet(d, p + next, left - 1).value);
      }
      WalkAuxStep(t, d, p, left, count, WalkAux(t, d, p, left, count));
    }
  }

  /** A walk over settled records changes nothing and counts nothing. */
  lemma {:induction false} WalkNeedIdle(t: Hashes, d: seq<byte>, p: nat, count: nat, l: Layout)
    requires Records(d, p) == Some(l) && Settled(t, d, l.auxes)
    ensures WalkNeed(t, d, p, count) == Walk(d, count, true)
    decreases |d| - p
  {
    NeedHead(d, p, l);
    WalkAuxIdle(t, d, p + AuxOffset(d, p), AuxCount(d, p), count, AuxSet(d, p + AuxOffset(d, p), AuxCount(d, p)).value);
    if NextOffset(d, p) != 0 {
      var q := p + NextOffset(d, p);
      WalkNeedIdle(t, d, q, count, Records(d, q).value);
    }
  }

  // ------------------------------------------------------------------- the method

  /** struct.pack_into('<I', data, p, n) */
  method Pack(data: array<byte>, p: nat, n: uint32)
    requires p + 4 <= data.Length
    modifies data
    ensures data[..] == Write(old(data[..]), p, Le32(n))
  {
    Splice(data, p, Le32(n));
  }

  /** The inner loop, over the Vernaux records of one Verneed. */
  method PatchAuxList(t: Hashes, data: array<byte>, start: nat, cnt: nat, already: nat) returns (count: nat, ok: bool)
    modifies data
    ensures Walk(data[..], count, ok) == WalkAux(t, old(data[..]), start, cnt, already)
  {
    ghost var whole := WalkAux(t, data[..], start, cnt, already);
    var p: nat, i: nat, more := start, 0, true;
    count, ok := already, true;
    while more && i < cnt
      invariant i <= cnt
      invariant whole == if more then WalkAux(t, data[..], p, cnt - i, count) else Walk(data[..], count, ok)
      invariant more ==> ok
      decreases cnt - i
    {
      WalkAuxEnds(t, data[..], p, cnt - i, count, whole);
      if p + RECORD > data.Length {
        more, ok := false, false;
      } else {
        var next, hits := PatchRecord(t, data, p, count, cnt - i, whole);
        count, more, p := hits, next != 0, p + next;
      }
      i := i + 1;
    }
  }

  /** One record: its link is read first, then its hash replaced. */
  method PatchRecord(t: Hashes, data: array<byte>, p: nat, count: nat, ghost left: nat, ghost whole: Walk)
    returns (next: nat, hits: nat)
    requires p + RECORD <= data.Length && left > 0 && whole == WalkAux(t, data[..], p, left, count)
    modifies data
    ensures whole == if next == 0 then Walk(data[..], hits, true) else WalkAux(t, data[..], p + next, left - 1, hits)
  {
    next := NextOffset(data[..], p);
    WalkAuxGoesOn(t, data[..], p, left, count, whole, next, PatchHash(t, data[..], p));
    var hit := PatchIfOld(t, data, p);
    hits := if hit then count + 1 else count;
  }

  lemma WalkAuxGoesOn(t: Hashes, d: seq<byte>, p: nat, left: nat, count: nat, w: Walk, next: nat, e: seq<byte>)
    requires left > 0 && p + RECORD <= |d| && w == WalkAux(t, d, p, left, count)
    requires next == NextOffset(d, p) && e == PatchHash(t, d, p)
    ensures var n := if HashField(d, p) in t.olds then count + 1 else count;
      w == if next == 0 then Walk(e, n, true) else WalkAux(t, e, p + next, left - 1, n)
  {
    WalkAuxStep(t, d, p, left, count, w);
  }

  lemma WalkAuxEnds(t: Hashes, d: seq<byte>, p: nat, left: nat, count: nat, w: Walk)
    requires left > 0 && w == WalkAux(t, d, p, left, count)
    ensures p + RECORD > |d| ==> w == Walk(d, count, false)
  {
  }

  lemma WalkAuxStep(t: Hashes, d: seq<byte>, p: nat, left: nat, count: nat, w: Walk)
    requires left > 0 && w == WalkAux(t, d, p, left, count)
    ensures p + RECORD > |d| ==> w == Walk(d, count, false)
    ensures p + RECORD <= |d| ==>
      var n := if HashField(d, p) in t.olds then count + 1 else count;
      w == if NextOffset(d, p) == 0 then Walk(PatchHash(t, d, p), n, true)
           else WalkAux(t, PatchHash(t, d, p), p + NextOffset(d, p), left - 1, n)
  {
  }

  method PatchIfOld(t: Hashes, data: array<byte>, p: nat) returns (hit: bool)
    requires p + RECORD <= data.Length
    modifies data
    ensures hit == (HashField(old(data[..]), p) in t.olds)
    ensures data[..] == PatchHash(t, old(data[..]), p)
  {
    hit := HashField(data[..], p) in t.olds;
    if hit {
      Pack(data, p, t.newer);
    }
  }

  /** `section` is what find_section returned for ".gnu.version_r"; `ok` is false where
      struct.unpack_from raises. */
  method PatchVerneedHashes(t: Hashes, data: array<byte>, section: Option<nat>) returns (count: nat, ok: bool)
    modifies data
    ensures section.None? ==> count == 0 && ok && data[..] == old(data[..])
    ensures section.Some? ==> Walk(data[..], count, ok) == WalkNeed(t, old(data[..]), section.value, 0)
  {
    if section.None? {
      return 0, true;
    }
    ghost var whole := WalkNeed(t, data[..], section.value, 0);
    var pos := section.value;
    count := 0;
    while true
      invariant WalkNeed(t, data[..], pos, count) == whole
      decreases data.Length - pos
    {
      if pos + RECORD > data.Length {
        return count, false;
      }
      var cnt, aux, next := AuxCount(data[..], pos), AuxOffset(data[..], pos), NextOffset(data[..], pos);
      count, ok := PatchAuxList(t, data, pos + aux, cnt, count);
      if !ok || next == 0 {
        return;
      }
      pos := pos + next;
    }
  }
}
