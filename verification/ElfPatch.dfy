/** The whole patcher. Strings and hashes are patched by separate code that never looks at
    the other half; the theorem says exactly when they still agree afterwards. */
module ElfPatch {
  import opened Bytes
  import opened ElfVersions
  import opened ElfStrings
  import opened ElfHashes

  const TABLE: Hashes := Hashes(OLD_HASHES, NEW_HASH)

  // ------------------------------------------------------------ names in the file

  /** A dynamic linker reading a name at `off` gets `n`: the bytes up to the next NUL. */
  predicate NameIs(d: seq<byte>, off: nat, n: seq<byte>) {
    off + |n| < |d| && d[off..off + |n|] == n && d[off + |n|] == 0 && 0 !in n
  }

  lemma NameUnique(d: seq<byte>, off: nat, m: seq<byte>, n: seq<byte>)
    requires NameIs(d, off, m) && NameIs(d, off, n)
    ensures m == n
  {
    assert forall k :: 0 <= k < |m| ==> d[off + k] == d[off..off + |m|][k] == m[k] && m[k] in m;
    assert forall k :: 0 <= k < |n| ==> d[off + k] == d[off..off + |n|][k] == n[k] && n[k] in n;
    assert |m| == |n|;
  }

  predicate EndsWith(n: seq<byte>, v: seq<byte>) {
    |v| <= |n| && n[|n| - |v|..] == v
  }

  lemma SuffixBytes(n: seq<byte>, v: seq<byte>)
    requires EndsWith(n, v)
    ensures forall k :: |n| - |v| <= k < |n| ==> n[k] == v[k - (|n| - |v|)]
  {
    var i := |n| - |v|;
    assert forall k :: i <= k < |n| ==> n[k] == n[i..][k - i];
  }

  lemma OneOldSuffix(n: seq<byte>, v: seq<byte>, w: seq<byte>)
    requires v in OLD && w in OLD && EndsWith(n, v) && EndsWith(n, w)
    ensures v == w
  {
    OldNameShape(v);
    OldNameShape(w);
    var i, j := |n| - |v|, |n| - |w|;
    SuffixBytes(n, v);
    SuffixBytes(n, w);
    assert n[i] == G && n[j] == G;
  }

  /** What the string patch makes of a name: an old suffix becomes the new version. */
  ghost function NewName(n: seq<byte>): seq<byte> {
    if v :| v in OLD && EndsWith(n, v) then n[..|n| - |v|] + NEW else n
  }

  lemma NewNameOfSuffix(n: seq<byte>, v: seq<byte>)
    requires v in OLD && EndsWith(n, v)
    ensures NewName(n) == n[..|n| - |v|] + NEW
  {
    var w :| w in OLD && EndsWith(n, w) && NewName(n) == n[..|n| - |w|] + NEW;
    OneOldSuffix(n, v, w);
  }

  /** No old name in the file starts before `off` and reaches over it. */
  ghost predicate WholeString(d: seq<byte>, off: nat) {
    forall v, i {:trigger Covers(d, v, i, off)} :: v in OLD && Covers(d, v, i, off) ==> i == off
  }

  lemma PatternBytes(d: seq<byte>, v: seq<byte>, i: nat)
    requires v in OLD && OccursAt(d, i, Pattern(v))
    ensures d[i + |v|] == 0 && forall k :: i <= k < i + |v| ==> d[k] == v[k - i] && d[k] != 0
  {
    OccurrenceBytes(d, i, Pattern(v));
    OldNameShape(v);
    assert forall k :: i <= k < i + |v| ==> d[k] == Pattern(v)[k - i] == v[k - i] && v[k - i] in v;
  }

  lemma NameBytes(d: seq<byte>, off: nat, n: seq<byte>)
    requires NameIs(d, off, n)
    ensures forall k :: off <= k < off + |n| ==> d[k] == n[k - off] && d[k] != 0
  {
    assert forall k :: off <= k < off + |n| ==> d[k] == d[off..off + |n|][k - off] == n[k - off] && n[k - off] in n;
  }

  /** An old name that meets a whole string is its suffix, NUL included. */
  lemma OccurrenceInName(d: seq<byte>, off: nat, n: seq<byte>, v: seq<byte>, i: int, k: int)
    requires NameIs(d, off, n) && WholeString(d, off)
    requires v in OLD && Covers(d, v, i, k) && off <= k <= off + |n|
    ensures i + |v| == off + |n| && EndsWith(n, v)
  {
    PatternBytes(d, v, i);
    NameBytes(d, off, n);
    assert i >= off by {
      assert i < off ==> Covers(d, v, i, off);
    }
    assert d[i + |v|] == 0 && d[off + |n|] == 0;
    assert i + |v| == off + |n|;
    assert forall m :: 0 <= m < |v| ==> n[i - off + m] == d[i + m] == v[m];
  }

  lemma SuffixOccurs(d: seq<byte>, off: nat, n: seq<byte>, v: seq<byte>)
    requires NameIs(d, off, n) && EndsWith(n, v)
    ensures OccursAt(d, off + |n| - |v|, Pattern(v))
  {
    NameBytes(d, off, n);
    var i := off + |n| - |v|;
    assert forall k :: i <= k < i + |v| ==> d[k] == n[k - off] == n[|n| - |v|..][k - i] == v[k - i];
    OccurrenceBytes(d, i, Pattern(v));
  }

  /** The string patch turns every whole string into its new name. */
  lemma NameAfterPatch(d: seq<byte>, e: seq<byte>, off: nat, n: seq<byte>)
    requires Renamed(d, e, OLD) && NameIs(d, off, n) && WholeString(d, off)
    ensures NameIs(e, off, NewName(n))
  {
    if v :| v in OLD && EndsWith(n, v) {
      NewNameOfSuffix(n, v);
      NameSuffixPatched(d, e, off, n, v);
    } else {
      forall k | off <= k <= off + |n| ensures e[k] == d[k] {
        if w, j {:trigger Covers(d, w, j, k)} :| w in OLD && Covers(d, w, j, k) {
          OccurrenceInName(d, off, n, w, j, k);
        }
        assert !Covered(d, OLD, k);
      }
      assert e[off..off + |n|] == d[off..off + |n|];
    }
  }

  lemma InFrontOfSuffix(d: seq<byte>, e: seq<byte>, off: nat, n: seq<byte>, v: seq<byte>)
    requires Renamed(d, e, OLD) && NameIs(d, off, n) && WholeString(d, off) && v in OLD && EndsWith(n, v)
    ensures forall k :: off <= k < off + |n| - |v| ==> e[k] == n[k - off]
  {
    NameBytes(d, off, n);
    forall k | off <= k < off + |n| - |v| ensures e[k] == n[k - off] {
      if w, j {:trigger Covers(d, w, j, k)} :| w in OLD && Covers(d, w, j, k) {
        OccurrenceInName(d, off, n, w, j, k);
        OneOldSuffix(n, v, w);
      }
      assert !Covered(d, OLD, k);
    }
  }

  lemma SuffixReadsNew(d: seq<byte>, e: seq<byte>, i: nat, v: seq<byte>)
    requires Renamed(d, e, OLD) && v in OLD && OccursAt(d, i, Pattern(v))
    ensures i + 10 <= |e| && e[i + 9] == 0 && forall k :: i <= k < i + 9 ==> e[k] == NEW[k - i]
  {
    ReplacedReads(d, e, OLD, v, i);
    PatternShape(v);
    OccurrenceBytes(e, i, Padded(v));
    assert e[i + 9] == Padded(v)[9];
    forall k | i <= k < i + 9 ensures e[k] == NEW[k - i] {
      assert e[k] == Padded(v)[k - i] == Padded(v)[..9][k - i];
    }
  }

  lemma NameFromBytes(e: seq<byte>, off: nat, m: seq<byte>)
    requires off + |m| < |e| && e[off + |m|] == 0 && 0 !in m && forall k :: 0 <= k < |m| ==> e[off + k] == m[k]
    ensures NameIs(e, off, m)
  {
    assert e[off..off + |m|] == m;
  }

  lemma NameSuffixPatched(d: seq<byte>, e: seq<byte>, off: nat, n: seq<byte>, v: seq<byte>)
    requires Renamed(d, e, OLD) && NameIs(d, off, n) && WholeString(d, off) && v in OLD && EndsWith(n, v)
    ensures NameIs(e, off, n[..|n| - |v|] + NEW)
  {
    var i := off + |n| - |v|;
    var m := n[..|n| - |v|] + NEW;
    SuffixOccurs(d, off, n, v);
    SuffixReadsNew(d, e, i, v);
    InFrontOfSuffix(d, e, off, n, v);
    NewNameShape();
    assert forall c :: c in m ==> c in n || c in NEW;
    NameFromBytes(e, off, m);
  }

  // -------------------------------------------------- names that start inside another

  /** What is left of an old name from its byte `j` on: the same part of the new one, which
      may be nothing. */
  function TailName(j: nat): seq<byte> {
    if j < |NEW| then NEW[j..] else []
  }

  /** What the string patch makes of the name at `off`: a tail of the new version where it
      starts inside an old name, NUL included, and else its new name. */
  ghost function NameThen(d: seq<byte>, off: nat, n: seq<byte>): seq<byte> {
    if v, i {:trigger Covers(d, v, i, off)} :| v in OLD && Covers(d, v, i, off) && i < off then TailName(off - i) else NewName(n)
  }

  /** Every tail of every old name, wherever the name occurs, becomes that tail of the new
      one, and is gone where that is shorter. */
  lemma TailAfterPatch(d: seq<byte>, e: seq<byte>, off: nat, n: seq<byte>, v: seq<byte>, i: nat)
    requires Renamed(d, e, OLD) && NameIs(d, off, n) && v in OLD && Covers(d, v, i, off) && i < off
    ensures off - i <= |v| && n == v[off - i..] && NameIs(e, off, TailName(off - i))
    ensures NameThen(d, off, n) == TailName(off - i)
  {
    TailIs(d, off, n, v, i);
    TailThen(d, e, off, v, i);
    TailIsWhatBecomes(d, off, n, v, i);
  }

  lemma TailIsWhatBecomes(d: seq<byte>, off: nat, n: seq<byte>, v: seq<byte>, i: nat)
    requires v in OLD && Covers(d, v, i, off) && i < off
    ensures NameThen(d, off, n) == TailName(off - i)
  {
    var w, j {:trigger Covers(d, w, j, off)} :| w in OLD && Covers(d, w, j, off) && j < off && NameThen(d, off, n) == TailName(off - j);
    NoOverlap(d, v, i, w, j, off);
  }

  lemma TailIs(d: seq<byte>, off: nat, n: seq<byte>, v: seq<byte>, i: nat)
    requires NameIs(d, off, n) && v in OLD && Covers(d, v, i, off) && i < off
    ensures off - i <= |v| && n == v[off - i..]
  {
    PatternBytes(d, v, i);
    OldNameShape(v);
    var t := v[off - i..];
    assert forall k :: 0 <= k < |t| ==> d[off + k] == t[k];
    assert d[off..off + |t|] == t && d[off + |t|] == 0;
    NameUnique(d, off, n, t);
  }

  lemma TailThen(d: seq<byte>, e: seq<byte>, off: nat, v: seq<byte>, i: nat)
    requires Renamed(d, e, OLD) && v in OLD && Covers(d, v, i, off) && i < off
    ensures NameIs(e, off, TailName(off - i))
  {
    ReplacedReads(d, e, OLD, v, i);
    OccurrenceBytes(e, i, Padded(v));
    PatternShape(v);
    NewNameShape();
    TailReads(e, i, Padded(v), off - i);
  }

  lemma TailReads(e: seq<byte>, i: nat, r: seq<byte>, j: nat)
    requires |r| > 9 && r[..9] == NEW && (forall k :: 9 <= k < |r| ==> r[k] == 0) && j < |r|
    requires i + |r| <= |e| && forall k :: i <= k < i + |r| ==> e[k] == r[k - i]
    ensures NameIs(e, i + j, TailName(j))
  {
    PaddedTail(r, j);
    var t, off := TailName(j), i + j;
    forall k | 0 <= k < |t| ensures e[off..off + |t|][k] == t[k] {
      assert e[off + k] == r[j + k];
    }
    assert e[off..off + |t|] == t;
  }

  lemma PaddedTail(r: seq<byte>, j: nat)
    requires |r| > 9 && r[..9] == NEW && (forall k :: 9 <= k < |r| ==> r[k] == 0) && j < |r|
    ensures var t := TailName(j); j + |t| < |r| && r[j + |t|] == 0 && 0 !in t && forall k :: 0 <= k < |t| ==> r[j + k] == t[k]
  {
    NewNameShape();
    assert forall k :: 0 <= k < 9 ==> r[k] == r[..9][k];
  }

  lemma NameThenIs(d: seq<byte>, e: seq<byte>, off: nat, n: seq<byte>)
    requires Renamed(d, e, OLD) && NameIs(d, off, n)
    ensures NameIs(e, off, NameThen(d, off, n)) && |NameThen(d, off, n)| <= |n|
    ensures WholeString(d, off) ==> NameThen(d, off, n) == NewName(n)
  {
    if v, i {:trigger Covers(d, v, i, off)} :| v in OLD && Covers(d, v, i, off) && i < off {
      TailAfterPatch(d, e, off, n, v, i);
      OldNameShape(v);
    } else {
      NameAfterPatch(d, e, off, n);
      NewNameNoLonger(n);
    }
  }

  // ------------------------------------------------------------ records after strings

  predicate InRecord(k: int, p: nat) {
    p <= k < p + RECORD
  }

  /** No old name overlaps a record, so the string patch leaves the section alone. */
  ghost predicate StringsClear(d: seq<byte>, P: set<nat>) {
    forall p, k {:trigger InRecord(k, p)} :: p in P && InRecord(k, p) ==> !Covered(d, OLD, k)
  }

  lemma RecordKept(d: seq<byte>, e: seq<byte>, P: set<nat>, p: nat)
    requires Renamed(d, e, OLD) && StringsClear(d, P) && p in P && p + RECORD <= |d|
    ensures NextOffset(e, p) == NextOffset(d, p) && AuxOffset(e, p) == AuxOffset(d, p) && AuxCount(e, p) == AuxCount(d, p)
    ensures HashField(e, p) == HashField(d, p)
  {
    forall k | p <= k < p + RECORD ensures e[k] == d[k] {
      assert InRecord(k, p);
    }
    SameWord(d, e, p + 12, p + 16);
    SameWord(d, e, p + 8, p + 12);
    SameWord(d, e, p + 2, p + 4);
    SameWord(d, e, p, p + 4);
  }

  predicate SameFields(d: seq<byte>, e: seq<byte>, p: nat) {
    p + RECORD <= |d| == |e| ==>
      NextOffset(e, p) == NextOffset(d, p) && AuxOffset(e, p) == AuxOffset(d, p) && AuxCount(e, p) == AuxCount(d, p)
  }

  predicate SameLink(d: seq<byte>, e: seq<byte>, p: nat) {
    p + RECORD <= |d| == |e| ==> NextOffset(e, p) == NextOffset(d, p)
  }

  /** The fields that lead from record to record are the same in both files. */
  ghost predicate FieldsKept(d: seq<byte>, e: seq<byte>, l: Layout) {
    && |e| == |d|
    && (forall p {:trigger SameFields(d, e, p)} :: p in l.needs ==> SameFields(d, e, p))
    && (forall p {:trigger SameLink(d, e, p)} :: p in l.auxes ==> SameLink(d, e, p))
  }

  lemma StringsKeepFields(d: seq<byte>, e: seq<byte>, l: Layout)
    requires Renamed(d, e, OLD) && StringsClear(d, l.needs + l.auxes)
    ensures FieldsKept(d, e, l)
  {
    forall p | p in l.needs + l.auxes ensures SameFields(d, e, p) && SameLink(d, e, p) {
      if p + RECORD <= |d| {
        RecordKept(d, e, l.needs + l.auxes, p);
      }
    }
  }

  lemma {:induction false} AuxSetKept(d: seq<byte>, e: seq<byte>, l: Layout, p: nat, left: nat, a: set<nat>)
    requires FieldsKept(d, e, l) && AuxSet(d, p, left) == Some(a) && a <= l.auxes
    ensures AuxSet(e, p, left) == Some(a)
    decreases left
  {
    if left > 0 {
      AuxHead(d, p, left);
      assert SameLink(d, e, p);
      var next := NextOffset(d, p);
      if next != 0 {
        AuxSetKept(d, e, l, p + next, left - 1, AuxSet(d, p + next, left - 1).value);
      }
    }
  }

  lemma {:induction false} RecordsKept(d: seq<byte>, e: seq<byte>, all: Layout, p: nat, l: Layout, m: Option<Layout>)
    requires FieldsKept(d, e, all) && Records(d, p) == Some(l) && m == Records(e, p)
    requires l.needs <= all.needs && l.auxes <= all.auxes
    ensures m == Some(l)
    decreases |d| - p
  {
    NeedHead(d, p, l);
    assert SameFields(d, e, p);
    var a := AuxSet(d, p + AuxOffset(d, p), AuxCount(d, p)).value;
    AuxSetKept(d, e, all, p + AuxOffset(d, p), AuxCount(d, p), a);
    if NextOffset(d, p) != 0 {
      var q := p + NextOffset(d, p);
      RecordsKept(d, e, all, q, Records(d, q).value, Records(e, q));
    }
    SameRecords(d, e, p, AuxSet(e, p + AuxOffset(e, p), AuxCount(e, p)));
  }

  /** One step of reading the records of two files whose fields and tails are alike. */
  lemma SameRecords(d: seq<byte>, e: seq<byte>, p: nat, a: Option<set<nat>>)
    requires p + RECORD <= |d| == |e| && SameFields(d, e, p)
    requires a == AuxSet(d, p + AuxOffset(d, p), AuxCount(d, p)) == AuxSet(e, p + AuxOffset(d, p), AuxCount(d, p))
    requires NextOffset(d, p) != 0 ==> Records(e, p + NextOffset(d, p)) == Records(d, p + NextOffset(d, p))
    ensures Records(e, p) == Records(d, p)
  {
  }

  // ------------------------------------------------------------ strings against hashes

  /** The name the record at `p` points to, in the string table at `base`, is `n`. */
  predicate RecordNames(d: seq<byte>, base: nat, p: nat, n: seq<byte>) {
    p + RECORD <= |d| && NameIs(d, base + NameOffset(d, p), n)
  }

  /** Its hash is the hash of its name: what the dynamic linker matches on. */
  predicate Agrees(d: seq<byte>, base: nat, p: nat, n: seq<byte>) {
    RecordNames(d, base, p, n) && HashField(d, p) == ElfHash(n)
  }

  /** What the patcher assumes of a file: records, strings and names keep clear of each other. */
  ghost predicate WellLaidOut(d: seq<byte>, base: nat, start: nat, name: map<nat, seq<byte>>) {
    && Records(d, start).Some?
    && var l := Records(d, start).value;
    && Disjoint(l) && StringsClear(d, l.needs + l.auxes) && name.Keys == l.auxes
    && (forall p :: p in l.auxes ==> RecordNames(d, base, p, name[p]))
    && (forall p, q, k {:trigger InRecord(k, q), name[p]} :: p in l.auxes && q in l.auxes && InRecord(k, q) ==>
          k < base + NameOffset(d, p) || k > base + NameOffset(d, p) + |name[p]|)
  }

  /** A name and what became of it have the hash the hash patch leaves. */
  predicate PatchedTo(n: seq<byte>, m: seq<byte>) {
    ElfHash(m) == TABLE.Remap(ElfHash(n))
  }

  /** The names whose hash and string are patched alike. */
  ghost predicate PatchedAlike(n: seq<byte>) {
    if ElfHash(n) in OLD_HASHES then ElfHash(NewName(n)) == NEW_HASH else NewName(n) == n
  }

  /** Patching an old suffix always changes the hash. */
  lemma SuffixPatchChangesHash(n: seq<byte>)
    requires NewName(n) != n
    ensures ElfHash(NewName(n)) != ElfHash(n)
  {
    var v :| v in OLD && EndsWith(n, v);
    NewNameOfSuffix(n, v);
    OldNameShape(v);
    NewNameShape();
    assert n[|n| - 1] == n[|n| - |v|..][|v| - 1] == v[|v| - 1];
    LastByteShows(n);
    LastByteShows(NewName(n));
  }

  lemma HashDecides(n: seq<byte>)
    ensures PatchedTo(n, NewName(n)) <==> PatchedAlike(n)
  {
    if NewName(n) != n {
      SuffixPatchChangesHash(n);
    }
  }

  /** The name the record at `p` ends up with. */
  ghost function RecordNameThen(d: seq<byte>, base: nat, p: nat, n: seq<byte>): seq<byte>
    requires p + RECORD <= |d|
  {
    NameThen(d, base + NameOffset(d, p), n)
  }

  /** What one record's name and hash are in the finished file. */
  lemma RecordAfter(d: seq<byte>, e: seq<byte>, f: seq<byte>, base: nat, start: nat, name: map<nat, seq<byte>>, p: nat)
    requires WellLaidOut(d, base, start, name) && Renamed(d, e, OLD)
    requires HashesRemapped(TABLE, e, f, Records(d, start).value.auxes) && p in name
    ensures RecordNames(d, base, p, name[p]) && RecordNames(f, base, p, RecordNameThen(d, base, p, name[p]))
    ensures HashField(f, p) == TABLE.Remap(HashField(d, p))
  {
    var l := Records(d, start).value;
    assert RecordNames(d, base, p, name[p]);
    RecordKept(d, e, l.needs + l.auxes, p);
    NameFieldKept(d, e, l.needs + l.auxes, p);
    assert HashRemapped(TABLE, e, f, p);
    assert l.auxes + {p} == l.auxes;
    LinksKept(TABLE, e, f, l.auxes, p);
    var off := base + NameOffset(d, p);
    var m := NameThen(d, off, name[p]);
    NameThenIs(d, e, off, name[p]);
    forall k, q | off <= k < off + |m| + 1 && q in l.auxes ensures !InHash(k, q) {
      assert InRecord(k, q) || !InHash(k, q);
    }
    NameKept(e, f, l.auxes, off, m);
  }

  lemma NameFieldKept(d: seq<byte>, e: seq<byte>, P: set<nat>, p: nat)
    requires Renamed(d, e, OLD) && StringsClear(d, P) && p in P && p + RECORD <= |d|
    ensures NameOffset(e, p) == NameOffset(d, p)
  {
    RecordKept(d, e, P, p);
    assert AuxOffset(d, p) == NameOffset(d, p) && AuxOffset(e, p) == NameOffset(e, p);
  }

  /** A string no hash write touches reads the same afterwards. */
  lemma NameKept(e: seq<byte>, f: seq<byte>, A: set<nat>, off: nat, m: seq<byte>)
    requires HashesRemapped(TABLE, e, f, A) && NameIs(e, off, m)
    requires forall k, q :: off <= k < off + |m| + 1 && q in A ==> !InHash(k, q)
    ensures NameIs(f, off, m)
  {
    var r := off + |m| + 1;
    BytesKept(TABLE, e, f, A, off, r);
    assert f[off..r][..|m|] == f[off..off + |m|] && e[off..r][..|m|] == e[off..off + |m|];
    assert f[off + |m|] == f[off..r][|m|] == e[off..r][|m|] == e[off + |m|];
  }

  lemma NewNameNoLonger(n: seq<byte>)
    ensures |NewName(n)| <= |n|
  {
    if v :| v in OLD && EndsWith(n, v) {
      OldNameShape(v);
      NewNameShape();
      NewNameOfSuffix(n, v);
    }
  }

  /** Strings and hashes still agree after patching exactly for the records whose hash is
      remapped to that of what becomes of their name; the rest are left with a hash that is
      not their name's. */
  lemma PatchKeepsAgreement(d: seq<byte>, e: seq<byte>, base: nat, start: nat, name: map<nat, seq<byte>>)
    requires WellLaidOut(d, base, start, name) && Renamed(d, e, OLD)
    requires forall p :: p in name ==> Agrees(d, base, p, name[p])
    ensures var w := WalkNeed(TABLE, e, start, 0);
      w.ok && |w.bytes| == |d|
      && forall p :: p in name ==>
           var m := RecordNameThen(d, base, p, name[p]);
           RecordNames(w.bytes, base, p, m) && (Agrees(w.bytes, base, p, m) <==> PatchedTo(name[p], m))
  {
    var l := Records(d, start).value;
    NewHashIsNotOld();
    StringsKeepFields(d, e, l);
    RecordsKept(d, e, l, start, l, Records(e, start));
    WalkRemapsRecords(TABLE, e, start);
    var f := WalkNeed(TABLE, e, start, 0).bytes;
    forall p | p in name
      ensures var m := RecordNameThen(d, base, p, name[p]);
        RecordNames(f, base, p, m) && (Agrees(f, base, p, m) <==> PatchedTo(name[p], m))
    {
      assert Agrees(d, base, p, name[p]);
      RecordAfter(d, e, f, base, start, name, p);
    }
  }

  /** A name that starts inside no old one is patched alike or not whatever surrounds it. */
  lemma WholeNamesDecide(d: seq<byte>, e: seq<byte>, off: nat, n: seq<byte>)
    requires Renamed(d, e, OLD) && NameIs(d, off, n) && WholeString(d, off)
    ensures PatchedTo(n, NameThen(d, off, n)) <==> PatchedAlike(n)
  {
    NameThenIs(d, e, off, n);
    HashDecides(n);
  }

  /** A proper tail of an old name never keeps the hash of what becomes of it, and the hash
      patch never gives it that either: the record of every such name is wrong afterwards. */
  lemma TailsDisagree(v: seq<byte>, j: nat)
    requires v in OLD && 0 < j < |v|
    ensures ElfHash(TailName(j)) != ElfHash(v[j..]) && !PatchedTo(v[j..], TailName(j))
    ensures j >= |NEW| ==> TailName(j) == []
  {
    TailHashDiffers(v, j, v[j..], TailName(j));
    RemapDecides(v[j..], TailName(j));
    if j < |NEW| {
      NewTailsHashDifferently(j, TailName(j));
    } else {
      NewNameShape();
      HashNotOfNothing(NEW);
    }
  }

  lemma RemapDecides(n: seq<byte>, m: seq<byte>)
    requires ElfHash(m) != ElfHash(n)
    ensures PatchedTo(n, m) <==> ElfHash(n) in OLD_HASHES && ElfHash(m) == NEW_HASH
  {
  }

  lemma TailHashDiffers(v: seq<byte>, j: nat, n: seq<byte>, m: seq<byte>)
    requires v in OLD && 0 < j < |v| && n == v[j..] && m == TailName(j)
    ensures ElfHash(m) != ElfHash(n)
  {
    OldNameShape(v);
    NewNameShape();
    LastByteShows(n);
    if j < |NEW| {
      LastByteShows(m);
    } else {
      LongNameEnds(v);
    }
  }

  lemma HashNotOfNothing(n: seq<byte>)
    requires n != [] && n[|n| - 1] % 16 != 0
    ensures ElfHash(n) != ElfHash([])
  {
    LastByteShows(n);
  }

  /** The names the patcher is meant for: the old ones, and any without an old suffix
      whose hash is not by accident an old one. */
  lemma OldAndUnrelatedNames(n: seq<byte>)
    ensures n in OLD ==> PatchedAlike(n) && NewName(n) == NEW
    ensures (forall v :: v in OLD ==> !EndsWith(n, v)) ==> (PatchedAlike(n) <==> ElfHash(n) !in OLD_HASHES)
  {
    NewHashIsNotOld();
    if n in OLD {
      assert n[|n| - |n|..] == n;
      NewNameOfSuffix(n, n);
      assert n[..0] + NEW == NEW;
    }
  }

  /** A longer name that merely ends in an old version loses its old ending but, unless
      its hash is by accident an old one, keeps the hash it had. */
  lemma SuffixedNameDisagrees(n: seq<byte>, v: seq<byte>)
    requires v in OLD && EndsWith(n, v) && ElfHash(n) !in OLD_HASHES
    ensures !PatchedAlike(n) && NewName(n) == n[..|n| - |v|] + NEW
  {
    NewNameOfSuffix(n, v);
    OldNameShape(v);
    assert NewName(n)[|n| - |v| + 8] == NEW[8];
    assert n[|n| - |v| + 8] == n[|n| - |v|..][8] == v[8];
  }

  /** Such names exist: "XGLIBC_2.0" becomes "XGLIBC_2.4" and keeps the hash it had. */
  lemma SuffixedNameExists()
    ensures ElfHash(SUFFIXED) !in OLD_HASHES && !PatchedAlike(SUFFIXED)
  {
    SuffixedIsNotOld();
    assert SUFFIXED[1..] == V20;
    SuffixedNameDisagrees(SUFFIXED, V20);
  }

  // -------------------------------------------------------------------- a second run

  lemma HashesKeepFields(e: seq<byte>, f: seq<byte>, l: Layout)
    requires HashesRemapped(TABLE, e, f, l.auxes) && Disjoint(l)
    ensures FieldsKept(e, f, l)
  {
    forall p | p in l.needs ensures SameFields(e, f, p) {
      if p + RECORD <= |e| {
        assert BothApart(l.auxes, {p});
        NeedKept(TABLE, e, f, l.auxes, p);
      }
    }
    forall p | p in l.auxes ensures SameLink(e, f, p) {
      if p + RECORD <= |e| {
        assert l.auxes + {p} == l.auxes;
        LinksKept(TABLE, e, f, l.auxes, p);
      }
    }
  }

  lemma HashesAreSettled(e: seq<byte>, f: seq<byte>, A: set<nat>)
    requires HashesRemapped(TABLE, e, f, A)
    ensures Settled(TABLE, f, A)
  {
    NewHashIsNotOld();
    forall p | p in A ensures IsSettled(TABLE, f, p) {
      assert HashRemapped(TABLE, e, f, p);
    }
  }

  /** The bytes of the new hash. */
  lemma NewHashBytes(f: seq<byte>, p: nat)
    requires p + 4 <= |f| && WordAt(f, p, p + 4) == NEW_HASH
    ensures f[p] == 0x14 && f[p + 1] == 0x69 && f[p + 2] == 0x69 && f[p + 3] == 0x0d
  {
    HashOfNew(NEW);
    BytesOfWord(f, p, 0xd696914);
  }

  lemma BytesOfWord(f: seq<byte>, p: nat, n: uint32)
    requires p + 4 <= |f| && WordAt(f, p, p + 4) == n == 0xd696914
    ensures f[p] == 0x14 && f[p + 1] == 0x69 && f[p + 2] == 0x69 && f[p + 3] == 0x0d
  {
    Le32Inverse(f, p, n);
    var b := f[p..p + 4];
    assert f[p] == b[0] && f[p + 1] == b[1] && f[p + 2] == b[2] && f[p + 3] == b[3];
  }

  lemma SameWordBytes(e: seq<byte>, f: seq<byte>, p: nat)
    requires p + 4 <= |f| == |e| && WordAt(f, p, p + 4) == WordAt(e, p, p + 4)
    ensures forall k :: p <= k < p + 4 ==> f[k] == e[k]
  {
    Le32Inverse(e, p, WordAt(e, p, p + 4));
    Le32Inverse(f, p, WordAt(e, p, p + 4));
    assert f[p..p + 4] == e[p..p + 4];
    assert forall k :: p <= k < p + 4 ==> f[k] == f[p..p + 4][k - p] && e[k] == e[p..p + 4][k - p];
  }

  /** A byte of the hashed file is the old one, or one that is in no version name. */
  predicate OldOrForeign(e: seq<byte>, f: seq<byte>, k: int) {
    0 <= k < |f| == |e| ==> f[k] == e[k] || f[k] in {0x14, 0x69, 0x0d}
  }

  lemma HashedByte(e: seq<byte>, f: seq<byte>, A: set<nat>, k: int)
    requires HashesRemapped(TABLE, e, f, A)
    ensures OldOrForeign(e, f, k)
  {
    if 0 <= k < |e| {
      if p {:trigger InHash(k, p)} :| p in A && InHash(k, p) {
        HashedWord(e, f, A, p);
      } else {
        assert Untouched(k, A);
        assert SameByte(e, f, k);
      }
    }
  }

  lemma HashedWord(e: seq<byte>, f: seq<byte>, A: set<nat>, p: nat)
    requires HashesRemapped(TABLE, e, f, A) && p in A
    ensures forall k :: InHash(k, p) ==> OldOrForeign(e, f, k)
  {
    assert HashRemapped(TABLE, e, f, p);
    if HashField(e, p) in OLD_HASHES {
      NewHashBytes(f, p);
    } else {
      SameWordBytes(e, f, p);
    }
  }

  lemma PatternsNotForeign(v: seq<byte>)
    requires v in OLD
    ensures forall c :: c in Pattern(v) ==> c != 0x14 && c != 0x69 && c != 0x0d
  {
  }

  /** The hash patch writes no byte of a version name, so no name appears through it. */
  lemma HashesMakeNoName(e: seq<byte>, f: seq<byte>, A: set<nat>, v: seq<byte>, i: nat)
    requires HashesRemapped(TABLE, e, f, A) && v in OLD && OccursAt(f, i, Pattern(v))
    ensures OccursAt(e, i, Pattern(v))
  {
    var p := Pattern(v);
    OccurrenceBytes(f, i, p);
    PatternsNotForeign(v);
    forall k | i <= k < i + |p| ensures e[k] == p[k - i] {
      HashedByte(e, f, A, k);
      assert f[k] == p[k - i] && p[k - i] in p;
    }
    OccurrenceBytes(e, i, p);
  }

  predicate NoNames(d: seq<byte>) {
    forall v, i: nat :: v in OLD && i <= |d| ==> !OccursAt(d, i, Pattern(v))
  }

  /** No name and no hash in the file is left to replace. */
  predicate NothingToPatch(d: seq<byte>, start: nat) {
    NoNames(d) && WalkNeed(TABLE, d, start, 0) == Walk(d, 0, true)
  }

  /** A second run over a well laid out file finds no name and no hash to patch. */
  lemma SecondRunFindsNothing(d: seq<byte>, e: seq<byte>, base: nat, start: nat, name: map<nat, seq<byte>>)
    requires WellLaidOut(d, base, start, name) && Renamed(d, e, OLD)
    ensures NothingToPatch(WalkNeed(TABLE, e, start, 0).bytes, start)
  {
    var l := Records(d, start).value;
    NewHashIsNotOld();
    StringsKeepFields(d, e, l);
    RecordsKept(d, e, l, start, l, Records(e, start));
    WalkRemapsRecords(TABLE, e, start);
    var f := WalkNeed(TABLE, e, start, 0).bytes;
    HashesKeepFields(e, f, l);
    RecordsKept(e, f, l, start, l, Records(f, start));
    HashesAreSettled(e, f, l.auxes);
    WalkNeedIdle(TABLE, f, start, 0, l);
    forall v, i: nat | v in OLD && i <= |f| ensures !OccursAt(f, i, Pattern(v)) {
      if OccursAt(f, i, Pattern(v)) {
        HashesMakeNoName(e, f, l.auxes, v, i);
      }
      NoOldNameLeft(d, e, v, i);
    }
  }

  lemma NothingRenamed(d: seq<byte>, e: seq<byte>)
    requires NoNames(d) && Renamed(d, e, OLD)
    ensures e == d && Sites(d, OLD, |d|) == {}
  {
    forall k | 0 <= k < |d| ensures e[k] == d[k] {
      assert !Covered(d, OLD, k);
    }
  }

  // ------------------------------------------------------------------ the program

  datatype Outcome = NotElf | NothingToDo | Written(strings: nat, hashes: nat) | StructError

  /** `section` is the offset find_section finds after the string patch. */
  method PatchFile(data: array<byte>, section: Option<nat>) returns (r: Outcome)
    modifies data
    ensures r == NotElf <==> data.Length < 4 || old(data[..4]) != [0x7f, 69, 76, 70]
    ensures r == NotElf ==> data[..] == old(data[..])
    ensures r == NothingToDo ==> forall v, i: nat :: v in OLD ==> !OccursAt(old(data[..]), i, Pattern(v))
    ensures r.Written? ==> r.strings == |Sites(old(data[..]), OLD, data.Length)| && r.strings + r.hashes > 0
    ensures r != NotElf && section.None? ==> Renamed(old(data[..]), data[..], OLD) && r != StructError && (r.Written? ==> r.hashes == 0)
    ensures r != NotElf && section.Some? ==> exists e :: (
      && Renamed(old(data[..]), e, OLD)
      && var w := WalkNeed(TABLE, e, section.value, 0);
         data[..] == w.bytes && (r == StructError <==> !w.ok) && (r.Written? ==> r.hashes == w.count))
    ensures r != NotElf && section.Some? && NothingToPatch(old(data[..]), section.value) ==>
      r == NothingToDo && data[..] == old(data[..])
  {
    if data.Length < 4 || data[..4] != [0x7f, 69, 76, 70] {
      return NotElf;
    }
    ghost var d := data[..];
    var strings := PatchDynstrVersions(data);
    ghost var e := data[..];
    assert Renamed(d, e, OLD);
    if NoNames(d) {
      NothingRenamed(d, e);
    }
    var hashes, ok := PatchVerneedHashes(TABLE, data, section);
    if !ok {
      return StructError;
    }
    if strings + hashes > 0 {
      return Written(strings, hashes);
    }
    forall v, i: nat | v in OLD ensures !OccursAt(d, i, Pattern(v)) {
      assert i !in Sites(d, OLD, |d|);
    }
    return NothingToDo;
  }
}
