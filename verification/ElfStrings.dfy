/** The string half of the patcher: every old version name in the file, wherever it
    occurs, becomes the new one. Five passes over a bytearray, each a find loop. */
module ElfStrings {
  import opened Bytes
  import opened ElfVersions

  predicate OccursAt(d: seq<byte>, i: nat, p: seq<byte>) {
    i + |p| <= |d| && d[i..i + |p|] == p
  }

  /** The occurrence of the name `v` at `i` reaches over byte `k`. */
  predicate Covers(d: seq<byte>, v: seq<byte>, i: int, k: int) {
    0 <= i <= k < i + |Pattern(v)| && OccursAt(d, i, Pattern(v))
  }

  lemma OccurrenceBytes(d: seq<byte>, i: nat, p: seq<byte>)
    ensures OccursAt(d, i, p) <==> i + |p| <= |d| && forall k :: i <= k < i + |p| ==> d[k] == p[k - i]
  {
    if i + |p| <= |d| {
      var w := d[i..i + |p|];
      assert forall m :: 0 <= m < |p| ==> w[m] == d[i + m];
      if forall k :: i <= k < i + |p| ==> d[k] == p[k - i] {
        assert w == p;
      }
    }
  }

  lemma PatternShape(v: seq<byte>)
    requires v in OLD
    ensures var p := Pattern(v);
      |p| >= 10 && p[0] == G && p[8] != NEW[8] && p[|p| - 1] == 0
      && forall k :: 0 < k < |p| ==> p[k] != G
    ensures var r := Padded(v);
      r[..9] == NEW && r[0] == G && r[8] == NEW[8] && r[9] == 0
      && (forall k :: 0 < k < |r| ==> r[k] != G) && (forall k :: 9 <= k < |r| ==> r[k] == 0)
  {
    OldNameShape(v);
    NewNameShape();
  }

  /** Names start with the only G in them, so occurrences never overlap. */
  lemma NoOverlap(d: seq<byte>, v: seq<byte>, i: int, w: seq<byte>, j: int, k: int)
    requires v in OLD && w in OLD && Covers(d, v, i, k) && Covers(d, w, j, k)
    ensures i == j && v == w
  {
    PatternShape(v);
    PatternShape(w);
    OccurrenceBytes(d, i, Pattern(v));
    OccurrenceBytes(d, j, Pattern(w));
    OldNameShape(v);
    OldNameShape(w);
    assert d[i] == G && d[j] == G;
    if i == j {
      var p, q := Pattern(v), Pattern(w);
      var n := if |v| <= |w| then |v| else |w|;
      assert forall m :: i <= m <= i + n ==> d[m] == p[m - i] && d[m] == q[m - i];
      assert d[i + n] == p[n] == q[n];
      assert v == p[..n] == q[..n] == w;
    }
  }

  // -------------------------------------------------- what the patch does to a file

  ghost predicate Covered(d: seq<byte>, V: set<seq<byte>>, k: int) {
    exists v, i {:trigger Covers(d, v, i, k)} :: v in V && Covers(d, v, i, k)
  }

  /** `e` is `d` with the names of `V` replaced wherever they occur, and nothing else. */
  ghost predicate Renamed(d: seq<byte>, e: seq<byte>, V: set<seq<byte>>)
    requires V <= OLD
  {
    && |e| == |d|
    && (forall v, i, k {:trigger Covers(d, v, i, k)} :: v in V && Covers(d, v, i, k) ==>
          |v| >= |NEW| && e[k] == Padded(v)[k - i])
    && (forall k {:trigger e[k]} :: 0 <= k < |d| && !Covered(d, V, k) ==> e[k] == d[k])
  }

  /** The relation determines the result. */
  lemma RenamedUnique(d: seq<byte>, e: seq<byte>, f: seq<byte>, V: set<seq<byte>>)
    requires V <= OLD && Renamed(d, e, V) && Renamed(d, f, V)
    ensures e == f
  {
    forall k | 0 <= k < |d| ensures e[k] == f[k] {
      if Covered(d, V, k) {
        var v, i {:trigger Covers(d, v, i, k)} :| v in V && Covers(d, v, i, k);
      }
    }
  }

  /** A replaced occurrence reads as the padded new name. */
  lemma ReplacedReads(d: seq<byte>, e: seq<byte>, V: set<seq<byte>>, v: seq<byte>, i: nat)
    requires V <= OLD && Renamed(d, e, V) && v in V && OccursAt(d, i, Pattern(v))
    ensures |v| >= |NEW| && OccursAt(e, i, Padded(v))
  {
    OldNameShape(v);
    var r := Padded(v);
    forall k | i <= k < i + |r| ensures e[k] == r[k - i] {
      assert Covers(d, v, i, k);
    }
    OccurrenceBytes(e, i, r);
  }

  lemma ReplacedIsGone(d: seq<byte>, e: seq<byte>, V: set<seq<byte>>, u: seq<byte>, i: nat)
    requires V <= OLD && Renamed(d, e, V) && u in V && OccursAt(d, i, Pattern(u))
    ensures !OccursAt(e, i, Pattern(u))
  {
    PatternShape(u);
    ReplacedReads(d, e, V, u, i);
    OccurrenceBytes(e, i, Padded(u));
    OccurrenceBytes(e, i, Pattern(u));
    assert e[i + 8] == NEW[8];
  }

  /** No name starts, ends or lies inside a replacement. */
  lemma ReplacementHoldsNoName(d: seq<byte>, e: seq<byte>, V: set<seq<byte>>, v: seq<byte>, j: int,
                               u: seq<byte>, i: nat, k: int)
    requires V <= OLD && u in OLD && Renamed(d, e, V) && v in V && Covers(d, v, j, k)
    requires i <= k < i + |Pattern(u)|
    ensures !OccursAt(e, i, Pattern(u))
  {
    PatternShape(u);
    PatternShape(v);
    ReplacedReads(d, e, V, v, j);
    OccurrenceBytes(e, j, Padded(v));
    OccurrenceBytes(e, i, Pattern(u));
    assert e[j] == G && e[j + 8] == NEW[8];
    assert j < i ==> e[i] != G;
  }

  lemma OccurredBefore(d: seq<byte>, e: seq<byte>, V: set<seq<byte>>, u: seq<byte>, i: nat)
    requires V <= OLD && u in OLD && Renamed(d, e, V) && OccursAt(e, i, Pattern(u))
    ensures OccursAt(d, i, Pattern(u))
  {
    var p := Pattern(u);
    forall k | i <= k < i + |p| ensures !Covered(d, V, k) {
      if v, j {:trigger Covers(d, v, j, k)} :| v in V && Covers(d, v, j, k) {
        ReplacementHoldsNoName(d, e, V, v, j, u, i, k);
      }
    }
    OccurrenceBytes(d, i, p);
    OccurrenceBytes(e, i, p);
  }

  lemma OthersStay(d: seq<byte>, e: seq<byte>, V: set<seq<byte>>, u: seq<byte>, i: nat)
    requires V <= OLD && u in OLD && u !in V && Renamed(d, e, V) && OccursAt(d, i, Pattern(u))
    ensures OccursAt(e, i, Pattern(u))
  {
    var p := Pattern(u);
    forall k | i <= k < i + |p| ensures !Covered(d, V, k) {
      assert Covers(d, u, i, k);
      forall v, j {:trigger Covers(d, v, j, k)} ensures v in V ==> !Covers(d, v, j, k) {
        if v in V && Covers(d, v, j, k) {
          NoOverlap(d, u, i, v, j, k);
        }
      }
    }
    OccurrenceBytes(d, i, p);
    OccurrenceBytes(e, i, p);
  }

  /** Patching some names neither makes nor breaks an occurrence of any other, and
      leaves none of its own, not even across the edge of a replacement. */
  lemma OccurrencesAfter(d: seq<byte>, e: seq<byte>, V: set<seq<byte>>, u: seq<byte>, i: nat)
    requires V <= OLD && u in OLD && Renamed(d, e, V)
    ensures OccursAt(e, i, Pattern(u)) <==> OccursAt(d, i, Pattern(u)) && u !in V
  {
    if OccursAt(e, i, Pattern(u)) {
      OccurredBefore(d, e, V, u, i);
    }
    if OccursAt(d, i, Pattern(u)) {
      if u in V {
        ReplacedIsGone(d, e, V, u, i);
      } else {
        OthersStay(d, e, V, u, i);
      }
    }
  }

  lemma CoveredByMore(d: seq<byte>, V: set<seq<byte>>, W: set<seq<byte>>, k: int)
    requires V <= W
    ensures Covered(d, V, k) ==> Covered(d, W, k)
  {
  }

  lemma CoveredAfter(d: seq<byte>, e: seq<byte>, V: set<seq<byte>>, U: set<seq<byte>>, k: int)
    requires V <= OLD && U <= OLD && Renamed(d, e, V)
    ensures Covered(e, U, k) ==> Covered(d, U, k)
  {
    if Covered(e, U, k) {
      var u, j {:trigger Covers(e, u, j, k)} :| u in U && Covers(e, u, j, k);
      OccurrencesAfter(d, e, V, u, j);
      assert Covers(d, u, j, k);
    }
  }

  /** Two rounds of patching are one round for the names of both. */
  lemma RenamedCompose(d: seq<byte>, e: seq<byte>, f: seq<byte>, V: set<seq<byte>>, U: set<seq<byte>>)
    requires V <= OLD && U <= OLD && Renamed(d, e, V) && Renamed(e, f, U)
    ensures Renamed(d, f, V + U)
  {
    forall v, i, k {:trigger Covers(d, v, i, k)} | v in V + U && Covers(d, v, i, k)
      ensures |v| >= |NEW| && f[k] == Padded(v)[k - i]
    {
      OldNameShape(v);
      OccurrencesAfter(d, e, V, v, i);
      if v in V {
        forall u, j {:trigger Covers(e, u, j, k)} ensures u in U ==> !Covers(e, u, j, k) {
          if u in U && Covers(e, u, j, k) {
            OccurrencesAfter(d, e, V, u, j);
            NoOverlap(d, v, i, u, j, k);
          }
        }
      } else {
        assert Covers(e, v, i, k);
      }
    }
    forall k {:trigger f[k]} | 0 <= k < |d| && !Covered(d, V + U, k) ensures f[k] == d[k] {
      CoveredByMore(d, V, V + U, k);
      CoveredByMore(d, U, V + U, k);
      CoveredAfter(d, e, V, U, k);
    }
  }

  /** A second run of the string patch changes nothing. */
  lemma RenamedIdempotent(d: seq<byte>, e: seq<byte>, f: seq<byte>)
    requires Renamed(d, e, OLD) && Renamed(e, f, OLD)
    ensures f == e
  {
    RenamedCompose(d, e, f, OLD, OLD);
    assert OLD + OLD == OLD;
    RenamedUnique(d, e, f, OLD);
  }

  lemma NoOldNameLeft(d: seq<byte>, e: seq<byte>, u: seq<byte>, i: nat)
    requires Renamed(d, e, OLD) && u in OLD
    ensures !OccursAt(e, i, Pattern(u))
  {
    OccurrencesAfter(d, e, OLD, u, i);
  }

  // ------------------------------------------------------------- passes in any order

  function Names(order: seq<seq<byte>>): set<seq<byte>> {
    set v | v in order
  }

  /** `files` are the contents before and after each pass of `order`. */
  ghost predicate Passes(files: seq<seq<byte>>, order: seq<seq<byte>>) {
    && |files| == |order| + 1
    && (forall n | 0 <= n < |order| :: order[n] in OLD)
    && (forall n | 0 <= n < |order| :: Renamed(files[n], files[n + 1], {order[n]}))
  }

  lemma {:induction false} PassesAnyOrder(files: seq<seq<byte>>, order: seq<seq<byte>>, n: nat)
    requires Passes(files, order) && n <= |order|
    ensures Names(order[..n]) <= OLD
    ensures Renamed(files[0], files[n], Names(order[..n]))
  {
    var V := Names(order[..n]);
    if n == 0 {
      assert forall k :: !Covered(files[0], V, k);
    } else {
      PassesAnyOrder(files, order, n - 1);
      assert order[..n] == order[..n - 1] + [order[n - 1]];
      assert V == Names(order[..n - 1]) + {order[n - 1]};
      RenamedCompose(files[0], files[n - 1], files[n], Names(order[..n - 1]), {order[n - 1]});
    }
  }

  /** Any two orders of the same passes give the same bytes. */
  lemma PassOrderIrrelevant(f: seq<seq<byte>>, o: seq<seq<byte>>, g: seq<seq<byte>>, q: seq<seq<byte>>)
    requires Passes(f, o) && Passes(g, q) && f[0] == g[0]
    requires multiset(o) == multiset(q)
    ensures f[|o|] == g[|q|]
  {
    PassesAnyOrder(f, o, |o|);
    PassesAnyOrder(g, q, |q|);
    assert o[..|o|] == o && q[..|q|] == q;
    assert forall v :: v in o <==> v in multiset(o);
    assert forall v :: v in q <==> v in multiset(q);
    assert Names(o) == Names(q);
    RenamedUnique(f[0], f[|o|], g[|q|], Names(o));
  }

  // --------------------------------------------------------------------- counting

  ghost predicate Site(d: seq<byte>, V: set<seq<byte>>, i: nat) {
    exists v :: v in V && OccursAt(d, i, Pattern(v))
  }

  /** Where the names of `V` occur below `n`. */
  ghost function Sites(d: seq<byte>, V: set<seq<byte>>, n: nat): set<nat> {
    set i: nat | i < n && Site(d, V, i)
  }

  /** A pass for a new name adds its own sites and disturbs no others. */
  lemma SitesAdd(d: seq<byte>, e: seq<byte>, V: set<seq<byte>>, v: seq<byte>)
    requires V <= OLD && v in OLD && v !in V && Renamed(d, e, V)
    ensures |Sites(d, V + {v}, |d|)| == |Sites(d, V, |d|)| + |Sites(e, {v}, |e|)|
  {
    var A, B := Sites(d, V, |d|), Sites(e, {v}, |e|);
    forall i: nat ensures OccursAt(e, i, Pattern(v)) <==> OccursAt(d, i, Pattern(v)) {
      OccurrencesAfter(d, e, V, v, i);
    }
    forall i: nat ensures Site(d, V + {v}, i) <==> Site(d, V, i) || Site(e, {v}, i) {
      if Site(d, V, i) {
        var u :| u in V && OccursAt(d, i, Pattern(u));
        assert u in V + {v};
      }
      assert Site(e, {v}, i) <==> OccursAt(e, i, Pattern(v));
      assert OccursAt(d, i, Pattern(v)) ==> v in V + {v} && Site(d, V + {v}, i);
    }
    assert Sites(d, V + {v}, |d|) == A + B;
    forall i | i in A ensures i !in B {
      var u :| u in V && OccursAt(d, i, Pattern(u));
      assert i in B <==> OccursAt(d, i, Pattern(v));
      if OccursAt(d, i, Pattern(v)) {
        assert Covers(d, u, i, i) && Covers(d, v, i, i);
        NoOverlap(d, u, i, v, i, i);
      }
    }
    assert A !! B;
  }

  // ------------------------------------------------------------------ the find loop

  /** `idx` is what a search from `start` returns: the first occurrence, or -1. */
  ghost predicate IsNext(d: seq<byte>, pat: seq<byte>, start: nat, idx: int) {
    && -1 <= idx
    && (idx >= 0 ==> start <= idx && OccursAt(d, idx, pat))
    && forall i: nat :: start <= i < (if idx >= 0 then idx else |d|) ==> !OccursAt(d, i, pat)
  }

  /** bytearray.find */
  method Find(data: array<byte>, pat: seq<byte>, start: nat) returns (idx: int)
    requires pat != []
    ensures IsNext(data[..], pat, start, idx)
  {
    idx := start;
    while idx + |pat| <= data.Length
      invariant start <= idx
      invariant forall i: nat :: start <= i < idx ==> !OccursAt(data[..], i, pat)
    {
      assert data[idx..idx + |pat|] == data[..][idx..idx + |pat|];
      if data[idx..idx + |pat|] == pat {
        return;
      }
      idx := idx + 1;
    }
    idx := -1;
  }

  /** `e` is the file half way through a pass: renamed below `n`, untouched from there. */
  ghost predicate RenamedBelow(d: seq<byte>, e: seq<byte>, v: seq<byte>, n: nat)
    requires v in OLD
  {
    && |e| == |d| && n <= |d|
    && (forall i, k {:trigger PaddedAt(d, e, v, n, i, k)} :: PaddedAt(d, e, v, n, i, k))
    && (forall k {:trigger KeptAt(d, e, v, n, k)} :: KeptAt(d, e, v, n, k))
  }

  predicate PaddedAt(d: seq<byte>, e: seq<byte>, v: seq<byte>, n: nat, i: int, k: int)
    requires v in OLD && |e| == |d|
  {
    i < n && Covers(d, v, i, k) ==> |v| >= |NEW| && k < n && e[k] == Padded(v)[k - i]
  }

  ghost predicate KeptAt(d: seq<byte>, e: seq<byte>, v: seq<byte>, n: nat, k: int)
    requires |e| == |d|
  {
    0 <= k < |d| && (k >= n || !Covered(d, {v}, k)) ==> e[k] == d[k]
  }

  lemma SameOccurrencesAbove(d: seq<byte>, e: seq<byte>, v: seq<byte>, n: nat, i: nat)
    requires v in OLD && RenamedBelow(d, e, v, n) && i >= n
    ensures OccursAt(e, i, Pattern(v)) <==> OccursAt(d, i, Pattern(v))
  {
    OccurrenceBytes(d, i, Pattern(v));
    OccurrenceBytes(e, i, Pattern(v));
    forall k | n <= k < |d| ensures e[k] == d[k] {
      assert KeptAt(d, e, v, n, k);
    }
  }

  function Write(d: seq<byte>, i: nat, w: seq<byte>): (r: seq<byte>)
    requires i + |w| <= |d|
    ensures |r| == |d|
  {
    d[..i] + w + d[i + |w|..]
  }

  /** Between the last replacement and the end of the next there is one occurrence. */
  lemma SitesStep(d: seq<byte>, e: seq<byte>, v: seq<byte>, n: nat, idx: nat)
    requires v in OLD && RenamedBelow(d, e, v, n) && IsNext(e, Pattern(v), n, idx)
    ensures forall i: nat :: n <= i < idx + |Pattern(v)| ==> (OccursAt(d, i, Pattern(v)) <==> i == idx)
    ensures |Sites(d, {v}, idx + |Pattern(v)|)| == |Sites(d, {v}, n)| + 1
  {
    var m := idx + |Pattern(v)|;
    SameOccurrencesAbove(d, e, v, n, idx);
    forall i: nat | n <= i < m ensures OccursAt(d, i, Pattern(v)) <==> i == idx {
      SameOccurrencesAbove(d, e, v, n, i);
      if idx < i && OccursAt(d, i, Pattern(v)) {
        NoOverlap(d, v, i, v, idx, i);
      }
    }
    SitesOfOne(d, v, n, m, idx);
  }

  lemma SitesOfOne(d: seq<byte>, v: seq<byte>, n: nat, m: nat, idx: nat)
    requires n <= idx < m
    requires forall i: nat :: n <= i < m ==> (OccursAt(d, i, Pattern(v)) <==> i == idx)
    ensures |Sites(d, {v}, m)| == |Sites(d, {v}, n)| + 1
  {
    forall i: nat ensures Site(d, {v}, i) <==> OccursAt(d, i, Pattern(v)) {
    }
    assert Sites(d, {v}, m) == Sites(d, {v}, n) + {idx};
  }

  lemma RenameNext(d: seq<byte>, e: seq<byte>, v: seq<byte>, n: nat, idx: nat, count: nat)
    requires v in OLD && Scanned(d, e, v, n, count) && |v| >= |NEW|
    requires idx >= 0 && IsNext(e, Pattern(v), n, idx)
    ensures Scanned(d, Write(e, idx, Padded(v)), v, idx + |Padded(v)|, count + 1)
  {
    var m := idx + |Pattern(v)|;
    SitesStep(d, e, v, n, idx);
    SameOccurrencesAbove(d, e, v, n, idx);
    forall k | idx <= k < m ensures Covered(d, {v}, k) {
      assert v in {v} && Covers(d, v, idx, k);
    }
    var f := Write(e, idx, Padded(v));
    forall i, k ensures PaddedAt(d, f, v, m, i, k) {
      assert PaddedAt(d, e, v, n, i, k);
    }
    forall k ensures KeptAt(d, f, v, m, k) {
      assert KeptAt(d, e, v, n, k);
    }
  }

  /** The state of a pass that has scanned up to `pos` and counted `count` sites. */
  ghost predicate Scanned(d: seq<byte>, e: seq<byte>, v: seq<byte>, pos: nat, count: nat)
    requires v in OLD
  {
    RenamedBelow(d, e, v, pos) && count == |Sites(d, {v}, pos)|
  }

  lemma ScanStart(d: seq<byte>, v: seq<byte>)
    requires v in OLD
    ensures Scanned(d, d, v, 0, 0)
  {
    assert Sites(d, {v}, 0) == {};
  }

  /** One pass: replace every occurrence of `v`, scanning on from each replacement. */
  method ReplaceAll(data: array<byte>, v: seq<byte>, new_: seq<byte>) returns (count: nat)
    requires v in OLD && |v| >= |NEW| && new_ == Padded(v)
    modifies data
    ensures Renamed(old(data[..]), data[..], {v})
    ensures count == |Sites(old(data[..]), {v}, data.Length)|
  {
    ghost var d := data[..];
    ScanStart(d, v);
    count := 0;
    var pos: nat := 0;
    var idx := Find(data, Pattern(v), pos);
    while idx >= 0
      invariant Scanned(d, data[..], v, pos, count)
      invariant IsNext(data[..], Pattern(v), pos, idx)
      decreases data.Length - pos, idx
    {
      pos, idx := ReplaceNext(data, v, new_, pos, idx, d, count);
      count := count + 1;
    }
    FinishPass(d, data[..], v, pos);
  }

  /** The loop's body: replace the occurrence at `idx` and look for the next. */
  method ReplaceNext(data: array<byte>, v: seq<byte>, new_: seq<byte>, pos: nat, idx: nat, ghost d: seq<byte>, ghost count: nat)
    returns (after: nat, next: int)
    requires v in OLD && |v| >= |NEW| && new_ == Padded(v)
    requires Scanned(d, data[..], v, pos, count) && IsNext(data[..], Pattern(v), pos, idx)
    modifies data
    ensures pos < after <= data.Length
    ensures Scanned(d, data[..], v, after, count + 1) && IsNext(data[..], Pattern(v), after, next)
  {
    ghost var e := data[..];
    OccurrenceFits(e, idx, Pattern(v));
    RenameNext(d, e, v, pos, idx, count);
    Splice(data, idx, new_);
    after := idx + |new_|;
    next := Find(data, Pattern(v), after);
  }

  lemma OccurrenceFits(d: seq<byte>, i: nat, p: seq<byte>)
    requires OccursAt(d, i, p)
    ensures i + |p| <= |d|
  {
  }

  lemma FinishPass(d: seq<byte>, e: seq<byte>, v: seq<byte>, n: nat)
    requires v in OLD && RenamedBelow(d, e, v, n)
    requires IsNext(e, Pattern(v), n, -1)
    ensures Renamed(d, e, {v})
    ensures Sites(d, {v}, |d|) == Sites(d, {v}, n)
  {
    OldNameShape(v);
    forall i: nat | n <= i < |d| ensures !OccursAt(d, i, Pattern(v)) {
      SameOccurrencesAbove(d, e, v, n, i);
    }
    forall k {:trigger e[k]} | 0 <= k < |d| && !Covered(d, {v}, k) ensures e[k] == d[k] {
      assert KeptAt(d, e, v, n, k);
    }
    forall i, k {:trigger Covers(d, v, i, k)} | Covers(d, v, i, k) ensures |v| >= |NEW| && e[k] == Padded(v)[k - i] {
      assert PaddedAt(d, e, v, n, i, k);
    }
  }

  lemma WriteOneMore(d: seq<byte>, i: nat, w: seq<byte>, k: nat)
    requires i + |w| <= |d| && k < |w|
    ensures Write(d, i, w[..k + 1]) == Write(d, i, w[..k])[i + k := w[k]]
  {
    assert w[..k + 1] == w[..k] + [w[k]];
  }

  /** data[i:i+len(w)] = w */
  method Splice(data: array<byte>, i: nat, w: seq<byte>)
    requires i + |w| <= data.Length
    modifies data
    ensures data[..] == Write(old(data[..]), i, w)
  {
    ghost var d := data[..];
    assert Write(d, i, []) == d;
    for k := 0 to |w|
      invariant data[..] == Write(d, i, w[..k])
    {
      WriteOneMore(d, i, w, k);
      data[i + k] := w[k];
    }
    assert w[..|w|] == w;
  }

  /** The five passes in source order. */
  method PatchDynstrVersions(data: array<byte>) returns (count: nat)
    modifies data
    ensures Renamed(old(data[..]), data[..], OLD)
    ensures count == |Sites(old(data[..]), OLD, data.Length)|
  {
    ghost var d := data[..];
    var order := [V213, V232, V23, V20, V21];
    OrderIsOld(order);
    count := 0;
    NoPassYet(d);
    for n := 0 to |order|
      invariant Names(order[..n]) <= OLD
      invariant Renamed(d, data[..], Names(order[..n]))
      invariant count == |Sites(d, Names(order[..n]), |d|)|
    {
      var v := order[n];
      ghost var e := data[..];
      OldNameShape(v);
      var k := ReplaceAll(data, v, Padded(v));
      NextPass(d, e, data[..], order, n);
      count := count + k;
    }
    assert order[..|order|] == order;
  }

  lemma NoPassYet(d: seq<byte>)
    ensures Names([]) == {} && Renamed(d, d, {}) && Sites(d, {}, |d|) == {}
  {
  }

  lemma NextPass(d: seq<byte>, e: seq<byte>, f: seq<byte>, order: seq<seq<byte>>, n: nat)
    requires n < |order| && Names(order[..n]) <= OLD && order[n] in OLD
    requires forall m :: 0 <= m < n ==> order[m] != order[n]
    requires Renamed(d, e, Names(order[..n])) && Renamed(e, f, {order[n]})
    ensures Names(order[..n + 1]) <= OLD && Renamed(d, f, Names(order[..n + 1]))
    ensures |Sites(d, Names(order[..n + 1]), |d|)| == |Sites(d, Names(order[..n]), |d|)| + |Sites(e, {order[n]}, |e|)|
  {
    var V, v := Names(order[..n]), order[n];
    assert order[..n + 1] == order[..n] + [v];
    assert Names(order[..n + 1]) == V + {v};
    SitesAdd(d, e, V, v);
    RenamedCompose(d, e, f, V, {v});
  }

  lemma OrderIsOld(order: seq<seq<byte>>)
    requires order == [V213, V232, V23, V20, V21]
    ensures Names(order) == OLD
    ensures forall n :: 0 <= n < 5 ==> order[n] in OLD
    ensures forall m, n :: 0 <= m < n < 5 ==> order[m] != order[n]
  {
    assert |V20| == 9 && |V21| == 9 && |V23| == 9 && |V213| == 11 && |V232| == 11;
    assert V20[8] == 48 && V21[8] == 49 && V23[8] == 51 && V213[8] == 49 && V232[8] == 51;
    assert order[0] == V213 && order[1] == V232 && order[2] == V23 && order[3] == V20 && order[4] == V21;
  }
}
