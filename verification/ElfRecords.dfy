/** The version-needed section as its records, field by field in the order of the ELF
    structures, and what the hash patch makes of them (Symbol Versioning, LSB Core
    Specification). */
module ElfRecords {
  import opened Bytes
  import opened ElfStrings
  import opened ElfHashes

  datatype Need = Need(version: uint16, cnt: uint16, file: uint32, aux: uint32, next: uint32)
  datatype Aux = Aux(hash: uint32, flags: uint16, other: uint16, name: uint32, next: uint32)

  function Le16(n: uint16): (b: seq<byte>)
    ensures |b| == 2
  {
    [n % 256, n / 256]
  }

  /** "<HHIII" */
  function NeedBytes(n: Need): (b: seq<byte>)
    ensures |b| == 16
  {
    Le16(n.version) + Le16(n.cnt) + Le32(n.file) + Le32(n.aux) + Le32(n.next)
  }

  /** "<IHHII" */
  function AuxBytes(a: Aux): (b: seq<byte>)
    ensures |b| == 16
  {
    Le32(a.hash) + Le16(a.flags) + Le16(a.other) + Le32(a.name) + Le32(a.next)
  }

  predicate Looked(b: seq<byte>) {
    true
  }

  /** The record's bytes lie at `p`; said so that they are looked into on demand only. */
  ghost predicate NeedAt(d: seq<byte>, p: nat, n: Need) {
    forall b {:trigger Looked(b)} :: Looked(b) && b == NeedBytes(n) ==> OccursAt(d, p, b)
  }

  ghost predicate AuxAt(d: seq<byte>, p: nat, a: Aux) {
    forall b {:trigger Looked(b)} :: Looked(b) && b == AuxBytes(a) ==> OccursAt(d, p, b)
  }

  lemma NeedAtIff(d: seq<byte>, p: nat, n: Need)
    ensures NeedAt(d, p, n) <==> p + 16 <= |d| && d[p..p + 16] == NeedBytes(n)
  {
    assert Looked(NeedBytes(n));
  }

  lemma AuxAtIff(d: seq<byte>, p: nat, a: Aux)
    ensures AuxAt(d, p, a) <==> p + 16 <= |d| && d[p..p + 16] == AuxBytes(a)
  {
    assert Looked(AuxBytes(a));
  }

  /** A Verneed and the Vernaux records that belong to it. */
  datatype Group = Group(need: Need, auxes: seq<Aux>)

  /** From `p` on lie these records, each where the one before points, `left` of them or fewer
      if one points nowhere. */
  ghost predicate Chain(d: seq<byte>, p: nat, left: nat, auxes: seq<Aux>)
    decreases left
  {
    if left == 0 then auxes == []
    else
      && auxes != [] && AuxAt(d, p, auxes[0])
      && if auxes[0].next == 0 then |auxes| == 1 else Chain(d, p + auxes[0].next, left - 1, auxes[1..])
  }

  /** The section at `p` is made of these groups. */
  ghost predicate Section(d: seq<byte>, p: nat, gs: seq<Group>)
    decreases |gs|
  {
    && gs != [] && NeedAt(d, p, gs[0].need)
    && Chain(d, p + gs[0].need.aux, gs[0].need.cnt, gs[0].auxes)
    && if gs[0].need.next == 0 then |gs| == 1 else Section(d, p + gs[0].need.next, gs[1..])
  }

  function ChainPlaces(p: nat, auxes: seq<Aux>): set<nat>
    decreases |auxes|
  {
    if auxes == [] then {} else {p} + ChainPlaces(p + auxes[0].next, auxes[1..])
  }

  /** Where the Vernaux records lie, and where the Verneed records do. */
  function AuxPlaces(p: nat, gs: seq<Group>): set<nat>
    decreases |gs|
  {
    if gs == [] then {} else ChainPlaces(p + gs[0].need.aux, gs[0].auxes) + AuxPlaces(p + gs[0].need.next, gs[1..])
  }

  function NeedPlaces(p: nat, gs: seq<Group>): set<nat>
    decreases |gs|
  {
    if gs == [] then {} else {p} + NeedPlaces(p + gs[0].need.next, gs[1..])
  }

  /** Where those with an old hash lie. */
  function OldInChain(olds: set<nat>, p: nat, auxes: seq<Aux>): set<nat>
    decreases |auxes|
  {
    if auxes == [] then {} else (if auxes[0].hash in olds then {p} else {}) + OldInChain(olds, p + auxes[0].next, auxes[1..])
  }

  function OldPlaces(olds: set<nat>, p: nat, gs: seq<Group>): set<nat>
    decreases |gs|
  {
    if gs == [] then {}
    else OldInChain(olds, p + gs[0].need.aux, gs[0].auxes) + OldPlaces(olds, p + gs[0].need.next, gs[1..])
  }

  /** The same records with every old hash replaced. */
  function Patched(t: Hashes, auxes: seq<Aux>): (r: seq<Aux>)
    ensures |r| == |auxes|
  {
    if auxes == [] then []
    else [auxes[0].(hash := if auxes[0].hash in t.olds then t.newer else auxes[0].hash)] + Patched(t, auxes[1..])
  }

  function AllPatched(t: Hashes, gs: seq<Group>): (r: seq<Group>)
    ensures |r| == |gs|
  {
    if gs == [] then [] else [gs[0].(auxes := Patched(t, gs[0].auxes))] + AllPatched(t, gs[1..])
  }

  // -------------------------------------------------------------- fields and their bytes

  lemma Part(d: seq<byte>, p: nat, b: seq<byte>, i: nat, j: nat)
    requires OccursAt(d, p, b) && i <= j <= |b|
    ensures d[p + i..p + j] == b[i..j]
  {
    var w := d[p..p + |b|];
    assert forall k :: i <= k < j ==> d[p + k] == w[k];
    assert |d[p + i..p + j]| == |b[i..j]|;
    assert forall k :: 0 <= k < j - i ==> d[p + i..p + j][k] == b[i..j][k];
  }

  lemma Le16RoundTrip(n: uint16, d: seq<byte>, i: nat)
    requires i + 2 <= |d| && d[i..i + 2] == Le16(n)
    ensures WordAt(d, i, i + 2) == n
  {
    var b := d[i..i + 2];
    assert d[i] == b[0] && d[i + 1] == b[1];
    assert WordAt(d, i + 2, i + 2) == 0 && WordAt(d, i + 1, i + 2) == n / 256;
  }

  lemma Le16Inverse(d: seq<byte>, i: nat)
    requires i + 2 <= |d|
    ensures WordAt(d, i, i + 2) < 0x1_0000 && d[i..i + 2] == Le16(WordAt(d, i, i + 2))
  {
    assert WordAt(d, i + 2, i + 2) == 0 && WordAt(d, i + 1, i + 2) == d[i + 1];
  }

  lemma NeedFields(d: seq<byte>, p: nat, n: Need)
    requires NeedAt(d, p, n)
    ensures p + RECORD <= |d| && AuxCount(d, p) == n.cnt && AuxOffset(d, p) == n.aux && NextOffset(d, p) == n.next
  {
    var b := NeedBytes(n);
    NeedAtIff(d, p, n);
    Part(d, p, b, 2, 4);
    Part(d, p, b, 8, 12);
    Part(d, p, b, 12, 16);
    assert b[2..4] == Le16(n.cnt) && b[8..12] == Le32(n.aux) && b[12..16] == Le32(n.next);
    Le16RoundTrip(n.cnt, d, p + 2);
    Le32RoundTrip(n.aux, d, p + 8);
    Le32RoundTrip(n.next, d, p + 12);
  }

  lemma AuxFields(d: seq<byte>, p: nat, a: Aux)
    requires AuxAt(d, p, a)
    ensures p + RECORD <= |d| && HashField(d, p) == a.hash && NameOffset(d, p) == a.name && NextOffset(d, p) == a.next
  {
    var b := AuxBytes(a);
    AuxAtIff(d, p, a);
    Part(d, p, b, 0, 4);
    Part(d, p, b, 8, 12);
    Part(d, p, b, 12, 16);
    assert b[0..4] == Le32(a.hash) && b[8..12] == Le32(a.name) && b[12..16] == Le32(a.next);
    Le32RoundTrip(a.hash, d, p);
    Le32RoundTrip(a.name, d, p + 8);
    Le32RoundTrip(a.next, d, p + 12);
  }

  lemma FieldsOf(d: seq<byte>, p: nat) returns (n: Need, a: Aux)
    requires p + RECORD <= |d|
    ensures NeedAt(d, p, n) && AuxAt(d, p, a)
  {
    Le16Inverse(d, p);
    Le16Inverse(d, p + 2);
    Le16Inverse(d, p + 4);
    Le16Inverse(d, p + 6);
    Le32Inverse(d, p, WordAt(d, p, p + 4));
    Le32Inverse(d, p + 4, WordAt(d, p + 4, p + 8));
    Le32Inverse(d, p + 8, WordAt(d, p + 8, p + 12));
    Le32Inverse(d, p + 12, WordAt(d, p + 12, p + 16));
    n := Need(WordAt(d, p, p + 2), WordAt(d, p + 2, p + 4), WordAt(d, p + 4, p + 8), WordAt(d, p + 8, p + 12), WordAt(d, p + 12, p + 16));
    a := Aux(WordAt(d, p, p + 4), WordAt(d, p + 4, p + 6), WordAt(d, p + 6, p + 8), WordAt(d, p + 8, p + 12), WordAt(d, p + 12, p + 16));
    Pieces(d, p);
    NeedAtIff(d, p, n);
    AuxAtIff(d, p, a);
  }

  lemma Pieces(d: seq<byte>, p: nat)
    requires p + RECORD <= |d|
    ensures d[p..p + RECORD] == d[p..p + 2] + d[p + 2..p + 4] + d[p + 4..p + 8] + d[p + 8..p + 12] + d[p + 12..p + 16]
    ensures d[p..p + RECORD] == d[p..p + 4] + d[p + 4..p + 6] + d[p + 6..p + 8] + d[p + 8..p + 12] + d[p + 12..p + 16]
  {
  }

  // --------------------------------------------------- what the walk visits is the section

  lemma OldsJoin(t: Hashes, d: seq<byte>, A: set<nat>, B: set<nat>)
    ensures Olds(t, d, A + B) == Olds(t, d, A) + Olds(t, d, B)
  {
  }

  lemma OldsOfOne(t: Hashes, d: seq<byte>, p: nat)
    requires p + RECORD <= |d|
    ensures Olds(t, d, {p}) == if HashField(d, p) in t.olds then {p} else {}
  {
  }

  lemma NothingVisited(t: Hashes, d: seq<byte>, p: nat, olds: set<nat>)
    ensures ChainPlaces(p, []) == {} && OldInChain(olds, p, []) == {} && AuxPlaces(p, []) == {} && NeedPlaces(p, []) == {}
    ensures OldPlaces(olds, p, []) == {} && Olds(t, d, {}) == {}
  {
  }

  lemma AuxSetStep(d: seq<byte>, p: nat, left: nat, rest: set<nat>)
    requires left > 0 && p + RECORD <= |d|
    requires if NextOffset(d, p) == 0 then rest == {} else AuxSet(d, p + NextOffset(d, p), left - 1) == Some(rest)
    ensures AuxSet(d, p, left) == Some({p} + rest)
  {
    assert {p} + {} == {p};
  }

  lemma RecordsStep(d: seq<byte>, p: nat, a: set<nat>, needs: set<nat>, auxes: set<nat>)
    requires p + RECORD <= |d| && AuxSet(d, p + AuxOffset(d, p), AuxCount(d, p)) == Some(a)
    requires if NextOffset(d, p) == 0 then needs == {} && auxes == {}
             else Records(d, p + NextOffset(d, p)) == Some(Layout(needs, auxes))
    ensures Records(d, p) == Some(Layout({p} + needs, a + auxes))
  {
    assert {p} + {} == {p} && a + {} == a;
  }

  lemma {:induction false} ChainIsVisited(d: seq<byte>, p: nat, left: nat, auxes: seq<Aux>)
    requires Chain(d, p, left, auxes)
    ensures AuxSet(d, p, left) == Some(ChainPlaces(p, auxes))
    decreases left
  {
    if left > 0 {
      var q := p + auxes[0].next;
      AuxFields(d, p, auxes[0]);
      if auxes[0].next != 0 {
        ChainIsVisited(d, q, left - 1, auxes[1..]);
      } else {
        assert auxes[1..] == [];
      }
      AuxSetStep(d, p, left, ChainPlaces(q, auxes[1..]));
    }
  }

  lemma {:induction false} OldsOfChain(t: Hashes, d: seq<byte>, p: nat, left: nat, auxes: seq<Aux>)
    requires Chain(d, p, left, auxes)
    ensures Olds(t, d, ChainPlaces(p, auxes)) == OldInChain(t.olds, p, auxes)
    decreases left
  {
    if left == 0 {
      NothingVisited(t, d, p, t.olds);
    } else {
      var q := p + auxes[0].next;
      AuxFields(d, p, auxes[0]);
      OldsOfOne(t, d, p);
      if auxes[0].next != 0 {
        OldsOfChain(t, d, q, left - 1, auxes[1..]);
      } else {
        assert auxes[1..] == [];
        NothingVisited(t, d, q, t.olds);
      }
      OldsJoin(t, d, {p}, ChainPlaces(q, auxes[1..]));
    }
  }

  lemma NoPlaces(p: nat)
    ensures AuxPlaces(p, []) == {} && NeedPlaces(p, []) == {}
  {
  }

  lemma SectionHead(d: seq<byte>, p: nat, gs: seq<Group>)
    requires Section(d, p, gs)
    ensures gs != [] && NeedAt(d, p, gs[0].need)
    ensures Chain(d, p + gs[0].need.aux, gs[0].need.cnt, gs[0].auxes)
    ensures if gs[0].need.next == 0 then gs[1..] == [] else Section(d, p + gs[0].need.next, gs[1..])
  {
  }

  lemma PlacesHead(p: nat, gs: seq<Group>)
    requires gs != []
    ensures var n := gs[0].need;
      && NeedPlaces(p, gs) == {p} + NeedPlaces(p + n.next, gs[1..])
      && AuxPlaces(p, gs) == ChainPlaces(p + n.aux, gs[0].auxes) + AuxPlaces(p + n.next, gs[1..])
  {
  }

  lemma OldPlacesHead(olds: set<nat>, p: nat, gs: seq<Group>)
    requires gs != []
    ensures var n := gs[0].need;
      OldPlaces(olds, p, gs) == OldInChain(olds, p + n.aux, gs[0].auxes) + OldPlaces(olds, p + n.next, gs[1..])
  {
  }

  lemma {:induction false} SectionIsVisited(d: seq<byte>, p: nat, gs: seq<Group>, needs: set<nat>, auxes: set<nat>)
    requires Section(d, p, gs) && needs == NeedPlaces(p, gs) && auxes == AuxPlaces(p, gs)
    ensures Records(d, p) == Some(Layout(needs, auxes))
    decreases |gs|
  {
    SectionHead(d, p, gs);
    PlacesHead(p, gs);
    var n := gs[0].need;
    var q := p + n.next;
    var ns, rest := NeedPlaces(q, gs[1..]), AuxPlaces(q, gs[1..]);
    NeedFields(d, p, n);
    ChainIsVisited(d, p + n.aux, n.cnt, gs[0].auxes);
    if n.next != 0 {
      SectionIsVisited(d, q, gs[1..], ns, rest);
    } else {
      NoPlaces(q);
    }
    RecordsStep(d, p, ChainPlaces(p + n.aux, gs[0].auxes), ns, rest);
  }

  lemma {:induction false} OldsOfSection(t: Hashes, d: seq<byte>, p: nat, gs: seq<Group>, auxes: set<nat>, olds: set<nat>)
    requires Section(d, p, gs) && auxes == AuxPlaces(p, gs) && olds == OldPlaces(t.olds, p, gs)
    ensures Olds(t, d, auxes) == olds
    decreases |gs|
  {
    SectionHead(d, p, gs);
    PlacesHead(p, gs);
    OldPlacesHead(t.olds, p, gs);
    var n := gs[0].need;
    var q := p + n.next;
    OldsOfChain(t, d, p + n.aux, n.cnt, gs[0].auxes);
    if n.next != 0 {
      OldsOfSection(t, d, q, gs[1..], AuxPlaces(q, gs[1..]), OldPlaces(t.olds, q, gs[1..]));
    } else {
      NothingVisited(t, d, q, t.olds);
    }
    OldsJoin(t, d, ChainPlaces(p + n.aux, gs[0].auxes), AuxPlaces(q, gs[1..]));
  }

  /** Whatever the walk gets through is a section made of records. */
  lemma {:induction false} VisitedIsChain(d: seq<byte>, p: nat, left: nat) returns (auxes: seq<Aux>)
    requires AuxSet(d, p, left).Some?
    ensures Chain(d, p, left, auxes)
    decreases left
  {
    if left == 0 {
      auxes := [];
    } else {
      var n, a := FieldsOf(d, p);
      AuxFields(d, p, a);
      auxes := [a];
      if a.next != 0 {
        var rest := VisitedIsChain(d, p + a.next, left - 1);
        auxes := [a] + rest;
        assert auxes[1..] == rest;
      }
    }
  }

  lemma {:induction false} VisitedIsSection(d: seq<byte>, p: nat) returns (gs: seq<Group>)
    requires Records(d, p).Some?
    ensures Section(d, p, gs)
    decreases |d| - p
  {
    var n, a := FieldsOf(d, p);
    NeedFields(d, p, n);
    NeedHead(d, p, Records(d, p).value);
    var auxes := VisitedIsChain(d, p + n.aux, n.cnt);
    var rest: seq<Group> := [];
    if n.next != 0 {
      rest := VisitedIsSection(d, p + n.next);
    }
    gs := [Group(n, auxes)] + rest;
    SectionJoin(d, p, Group(n, auxes), rest, gs);
  }

  // ------------------------------------------------------------------ what is left behind

  lemma HashInFront(a: Aux, h: uint32)
    ensures AuxBytes(a.(hash := h)) == Le32(h) + AuxBytes(a)[4..]
  {
    assert AuxBytes(a)[4..] == Le16(a.flags) + Le16(a.other) + Le32(a.name) + Le32(a.next);
  }

  lemma AuxAfter(t: Hashes, d: seq<byte>, e: seq<byte>, A: set<nat>, p: nat, a: Aux)
    requires HashesRemapped(t, d, e, A) && EachApart(A) && p in A && AuxAt(d, p, a)
    ensures AuxAt(e, p, a.(hash := if a.hash in t.olds then t.newer else a.hash))
  {
    var b, h := AuxBytes(a), if a.hash in t.olds then t.newer else a.hash;
    AuxFields(d, p, a);
    AuxAtIff(d, p, a);
    assert HashRemapped(t, d, e, p);
    Le32Inverse(e, p, h);
    forall k, q | p + 4 <= k < p + 16 && q in A ensures !InHash(k, q) {
      assert p == q || Apart(p, q);
    }
    BytesKept(t, d, e, A, p + 4, p + 16);
    Part(d, p, b, 4, 16);
    HashInFront(a, h);
    assert b[4..16] == b[4..];
    assert e[p..p + 16] == e[p..p + 4] + e[p + 4..p + 16];
    AuxAtIff(e, p, a.(hash := h));
  }

  lemma NeedAfter(t: Hashes, d: seq<byte>, e: seq<byte>, A: set<nat>, p: nat, n: Need)
    requires HashesRemapped(t, d, e, A) && BothApart(A, {p}) && NeedAt(d, p, n)
    ensures NeedAt(e, p, n)
  {
    NeedAtIff(d, p, n);
    NeedAtIff(e, p, n);
    forall k, q | p <= k < p + 16 && q in A ensures !InHash(k, q) {
      assert Apart(q, p);
    }
    BytesKept(t, d, e, A, p, p + 16);
  }

  lemma {:induction false} ChainAfter(t: Hashes, d: seq<byte>, e: seq<byte>, A: set<nat>, p: nat, left: nat, auxes: seq<Aux>)
    requires HashesRemapped(t, d, e, A) && EachApart(A) && Chain(d, p, left, auxes) && ChainPlaces(p, auxes) <= A
    ensures Chain(e, p, left, Patched(t, auxes))
    decreases left
  {
    if left > 0 {
      assert p in ChainPlaces(p, auxes);
      AuxAfter(t, d, e, A, p, auxes[0]);
      assert Patched(t, auxes)[1..] == Patched(t, auxes[1..]);
      if auxes[0].next != 0 {
        ChainAfter(t, d, e, A, p + auxes[0].next, left - 1, auxes[1..]);
      }
    }
  }

  predicate Within(p: nat, gs: seq<Group>, A: set<nat>, N: set<nat>) {
    AuxPlaces(p, gs) <= A && NeedPlaces(p, gs) <= N
  }

  lemma PlacesWithin(p: nat, gs: seq<Group>, A: set<nat>, N: set<nat>)
    requires gs != [] && Within(p, gs, A, N)
    ensures p in N && ChainPlaces(p + gs[0].need.aux, gs[0].auxes) <= A && Within(p + gs[0].need.next, gs[1..], A, N)
  {
    PlacesHead(p, gs);
  }

  lemma PatchedHead(t: Hashes, gs: seq<Group>)
    requires gs != []
    ensures AllPatched(t, gs) == [Group(gs[0].need, Patched(t, gs[0].auxes))] + AllPatched(t, gs[1..])
  {
  }

  lemma {:induction false} SectionAfter(t: Hashes, d: seq<byte>, e: seq<byte>, A: set<nat>, N: set<nat>, p: nat, gs: seq<Group>,
                                        ps: seq<Group>)
    requires HashesRemapped(t, d, e, A) && EachApart(A) && BothApart(A, N) && Section(d, p, gs)
    requires Within(p, gs, A, N) && ps == AllPatched(t, gs)
    ensures Section(e, p, ps)
    decreases |gs|
  {
    SectionHead(d, p, gs);
    PlacesWithin(p, gs, A, N);
    PatchedHead(t, gs);
    var n := gs[0].need;
    var rest := AllPatched(t, gs[1..]);
    GroupAfter(t, d, e, A, N, p, gs[0]);
    if n.next != 0 {
      SectionAfter(t, d, e, A, N, p + n.next, gs[1..], rest);
    } else {
      assert rest == [];
    }
    SectionJoin(e, p, Group(n, Patched(t, gs[0].auxes)), rest, ps);
  }

  lemma GroupAfter(t: Hashes, d: seq<byte>, e: seq<byte>, A: set<nat>, N: set<nat>, p: nat, g: Group)
    requires HashesRemapped(t, d, e, A) && EachApart(A) && BothApart(A, N) && p in N
    requires NeedAt(d, p, g.need) && Chain(d, p + g.need.aux, g.need.cnt, g.auxes) && ChainPlaces(p + g.need.aux, g.auxes) <= A
    ensures NeedAt(e, p, g.need) && Chain(e, p + g.need.aux, g.need.cnt, Patched(t, g.auxes))
  {
    BothApartSubset(A, N, A, {p});
    NeedAfter(t, d, e, A, p, g.need);
    ChainAfter(t, d, e, A, p + g.need.aux, g.need.cnt, g.auxes);
  }

  lemma SectionJoin(d: seq<byte>, p: nat, g: Group, rest: seq<Group>, gs: seq<Group>)
    requires gs == [g] + rest && NeedAt(d, p, g.need) && Chain(d, p + g.need.aux, g.need.cnt, g.auxes)
    requires if g.need.next == 0 then rest == [] else Section(d, p + g.need.next, rest)
    ensures Section(d, p, gs)
  {
    assert gs[0] == g && gs[1..] == rest;
  }

  /** A section made of records that do not overlap is afterwards made of the same records but
      for the old hashes, all of which are replaced and counted, and no byte outside a hash
      has changed. */
  lemma WalkPatchesSection(t: Hashes, d: seq<byte>, p: nat, gs: seq<Group>)
    requires t.newer !in t.olds && Section(d, p, gs)
    requires EachApart(AuxPlaces(p, gs)) && BothApart(AuxPlaces(p, gs), NeedPlaces(p, gs))
    ensures var w := WalkNeed(t, d, p, 0);
      && w.ok && |w.bytes| == |d| && Section(w.bytes, p, AllPatched(t, gs)) && w.count == |OldPlaces(t.olds, p, gs)|
      && forall k :: 0 <= k < |d| && (forall q :: q in AuxPlaces(p, gs) ==> k < q || q + 4 <= k) ==> w.bytes[k] == d[k]
  {
    var A := AuxPlaces(p, gs);
    SectionIsVisited(d, p, gs, NeedPlaces(p, gs), A);
    OldsOfSection(t, d, p, gs, A, OldPlaces(t.olds, p, gs));
    WalkRemapsRecords(t, d, p);
    var e := WalkNeed(t, d, p, 0).bytes;
    SectionAfter(t, d, e, A, NeedPlaces(p, gs), p, gs, AllPatched(t, gs));
    forall k | 0 <= k < |d| && (forall q :: q in A ==> k < q || q + 4 <= k) ensures e[k] == d[k] {
      assert Untouched(k, A);
      assert SameByte(d, e, k);
    }
  }

  /** So does the patch on the array. */
  method PatchSection(t: Hashes, data: array<byte>, p: nat, ghost gs: seq<Group>) returns (count: nat)
    requires t.newer !in t.olds && Section(data[..], p, gs)
    requires EachApart(AuxPlaces(p, gs)) && BothApart(AuxPlaces(p, gs), NeedPlaces(p, gs))
    modifies data
    ensures Section(data[..], p, AllPatched(t, gs)) && count == |OldPlaces(t.olds, p, gs)|
  {
    ghost var w := WalkNeed(t, data[..], p, 0);
    PatchedSection(t, data[..], p, gs, w);
    count := PatchAt(t, data, p, w);
  }

  lemma PatchedSection(t: Hashes, d: seq<byte>, p: nat, gs: seq<Group>, w: Walk)
    requires t.newer !in t.olds && Section(d, p, gs) && w == WalkNeed(t, d, p, 0)
    requires EachApart(AuxPlaces(p, gs)) && BothApart(AuxPlaces(p, gs), NeedPlaces(p, gs))
    ensures Section(w.bytes, p, AllPatched(t, gs)) && w.count == |OldPlaces(t.olds, p, gs)|
  {
    WalkPatchesSection(t, d, p, gs);
  }

  method PatchAt(t: Hashes, data: array<byte>, p: nat, ghost w: Walk) returns (count: nat)
    requires w == WalkNeed(t, data[..], p, 0)
    modifies data
    ensures data[..] == w.bytes && count == w.count
  {
    var ok;
    count, ok := PatchVerneedHashes(t, data, Some(p));
  }
}
