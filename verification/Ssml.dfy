/** Tag stripping and entity decoding of the speech-dispatcher module.

    The code decodes entities by rewriting the leftmost occurrence in place and starting
    over from the left. `Fix` is that process; the theorems relate it to passes that
    read the text once. */
module Ssml {
  import opened Bytes

  const NUL := '\0'

  // ---------------------------------------------------------------- C strings

  /** The text a NUL-terminated buffer holds: everything before the first NUL. */
  function CString(s: string): (r: string)
    ensures |r| <= |s| && r == s[..|r|] && NUL !in r
    ensures |r| < |s| ==> s[|r|] == NUL
  {
    if s == [] || s[0] == NUL then [] else [s[0]] + CString(s[1..])
  }

  lemma {:induction false} CStringUnique(s: string, t: string)
    requires |t| < |s| && s[..|t|] == t && s[|t|] == NUL && NUL !in t
    ensures CString(s) == t
  {
    if t != [] {
      assert s[0] == t[0] && t[0] in t;
      assert s[1..][..|t| - 1] == t[1..];
      CStringUnique(s[1..], t[1..]);
    }
  }

  ghost predicate Terminated(a: array<char>)
    reads a
  {
    NUL in a[..]
  }

  ghost function Text(a: array<char>): string
    reads a
  {
    CString(a[..])
  }

  lemma TextFits(a: array<char>)
    requires Terminated(a)
    ensures |Text(a)| < a.Length && a[|Text(a)|] == NUL && a[..|Text(a)|] == Text(a)
  {
    var t := Text(a);
    assert a[..][..a.Length] == a[..];
    assert a[..|t|] == a[..][..|t|];
  }

  // ------------------------------------------------------- rewriting to fixpoint

  predicate OccursAt(s: string, i: int, pat: string) {
    0 <= i <= |s| && pat <= s[i..]
  }

  predicate Occurs(s: string, pat: string) {
    exists i | 0 <= i <= |s| :: OccursAt(s, i, pat)
  }

  /** The index of the leftmost occurrence, or -1. */
  function Find(s: string, pat: string): (r: int)
    ensures -1 <= r <= |s|
    ensures r >= 0 ==> OccursAt(s, r, pat) && forall i :: 0 <= i < r ==> !OccursAt(s, i, pat)
    ensures r == -1 ==> !Occurs(s, pat)
  {
    if pat <= s then
      assert s[0..] == s;
      0
    else if s == [] then
      -1
    else
      var r := Find(s[1..], pat);
      assert forall i :: 1 <= i <= |s| ==> s[i..] == s[1..][i - 1..];
      assert forall i :: 1 <= i <= |s| ==> (OccursAt(s, i, pat) <==> OccursAt(s[1..], i - 1, pat));
      assert s[0..] == s;
      if r < 0 then -1 else r + 1
  }

  function RewriteAt(s: string, i: nat, width: nat, c: char): string
    requires i + width <= |s|
  {
    s[..i] + [c] + s[i + width..]
  }

  /** Rewrites the leftmost occurrence of `pat` to `c` until none is left. */
  function Fix(s: string, pat: string, c: char): string
    requires |pat| >= 2
    decreases |s|
  {
    var i := Find(s, pat);
    if i < 0 then s else Fix(RewriteAt(s, i, |pat|, c), pat, c)
  }

  // --------------------------------------------------------- the ampersand loop

  const AMP := "&amp;"

  function SkipAmps(s: string): (r: string)
    ensures |r| <= |s|
  {
    if "amp;" <= s then SkipAmps(s[4..]) else s
  }

  /** One left-to-right pass: '&' and any number of "amp;" after it become one '&'. */
  function CollapseAmp(s: string): string
    decreases |s|
  {
    if s == [] then []
    else if s[0] == '&' then ['&'] + CollapseAmp(SkipAmps(s[1..]))
    else [s[0]] + CollapseAmp(s[1..])
  }

  lemma {:induction false} SkipAmpsAppend(p: string, r: string)
    requires r != [] && r[0] == '&'
    ensures SkipAmps(p + r) == SkipAmps(p) + r
    decreases |p|
  {
    if "amp;" <= p {
      assert (p + r)[4..] == p[4..] + r;
      SkipAmpsAppend(p[4..], r);
    } else {
      assert |p| < 4 ==> (p + r)[|p|] == '&' && "amp;"[|p|] != '&';
      assert |p| >= 4 ==> (p + r)[..4] == p[..4];
    }
  }

  /** Rewriting any occurrence of "&amp;" leaves the single pass unchanged. */
  lemma {:induction false} CollapseRewrite(p: string, r: string)
    ensures CollapseAmp(p + (AMP + r)) == CollapseAmp(p + ("&" + r))
    decreases |p|
  {
    if p == [] {
      CollapseOne(r);
      assert p + (AMP + r) == AMP + r && p + ("&" + r) == "&" + r;
    } else {
      CollapseTower(p, AMP + r);
      CollapseTower(p, "&" + r);
      CollapseRewrite(if p[0] == '&' then SkipAmps(p[1..]) else p[1..], r);
    }
  }

  lemma CollapseOne(r: string)
    ensures CollapseAmp(AMP + r) == CollapseAmp("&" + r)
  {
    assert (AMP + r)[1..] == "amp;" + r && ("&" + r)[1..] == r;
    assert ("amp;" + r)[4..] == r;
  }

  lemma CollapseTower(p: string, r: string)
    requires p != [] && r != [] && r[0] == '&'
    ensures CollapseAmp(p + r) == [p[0]] + CollapseAmp((if p[0] == '&' then SkipAmps(p[1..]) else p[1..]) + r)
  {
    assert (p + r)[1..] == p[1..] + r;
    SkipAmpsAppend(p[1..], r);
  }

  lemma {:induction false} CollapseIdle(s: string)
    requires !Occurs(s, AMP)
    ensures CollapseAmp(s) == s
  {
    if s != [] {
      AmpOccursAtHead(s);
      assert !OccursAt(s, 0, AMP);
      NoOccurrenceInTail(s, AMP);
      CollapseIdle(s[1..]);
    }
  }

  lemma NoOccurrenceInTail(s: string, pat: string)
    requires s != [] && !Occurs(s, pat)
    ensures !Occurs(s[1..], pat)
  {
    forall i | 0 <= i <= |s[1..]| ensures !OccursAt(s[1..], i, pat) {
      assert s[1..][i..] == s[i + 1..];
      assert !OccursAt(s, i + 1, pat);
    }
  }

  lemma SplitAtOccurrence(s: string, i: nat, pat: string)
    requires OccursAt(s, i, pat)
    ensures i + |pat| <= |s| && s == s[..i] + pat + s[i + |pat|..]
  {
    assert s[i..][..|pat|] == pat;
    assert s[i..] == s[i..][..|pat|] + s[i..][|pat|..];
  }

  /** The restart-from-the-left loop and the single pass agree on every text. */
  lemma {:induction false} AmpLoopIsSinglePass(s: string)
    ensures Fix(s, AMP, '&') == CollapseAmp(s)
    decreases |s|
  {
    var i := Find(s, AMP);
    if i < 0 {
      CollapseIdle(s);
    } else {
      SplitAtOccurrence(s, i, AMP);
      AmpLoopIsSinglePass(RewriteAt(s, i, 5, '&'));
      RewriteSplits(s, i, AMP, '&');
      CollapseRewrite(s[..i], s[i + 5..]);
    }
  }

  // ----------------------------------------------------- the four other entities

  /** Entity words (the name after the ampersand) and the character each stands for. */
  type Dictionary = map<string, char>

  const ENTITIES: Dictionary := map["lt;" := '<', "gt;" := '>', "quot;" := '"', "apos;" := '\'']

  /** The character an entity decodes to occurs in no word, nor does the ampersand. */
  predicate Plain(p: string, d: Dictionary) {
    forall c | c in p :: c != '&' && c !in d.Values
  }

  ghost predicate Good(d: Dictionary) {
    && '&' !in d.Values
    && (forall k | k in d :: k != "" && Plain(k, d))
    && (forall j, k | j in d && k in d && j <= k :: j == k)
  }

  lemma EntityTable()
    ensures ENTITIES.Keys == {"lt;", "gt;", "quot;", "apos;"}
    ensures ENTITIES.Values == {'<', '>', '"', '\''}
    ensures ENTITIES["lt;"] == '<' && ENTITIES["gt;"] == '>' && ENTITIES["quot;"] == '"' && ENTITIES["apos;"] == '\''
  {
    assert "lt;"[0] == 'l' && "gt;"[0] == 'g' && "quot;"[0] == 'q' && "apos;"[0] == 'a';
  }

  lemma EntitiesGood()
    ensures Good(ENTITIES)
  {
    EntityTable();
    EntityWordsPlain();
    EntityWordsApart();
  }

  lemma EntityWordsPlain()
    ensures forall k | k in ENTITIES :: k != "" && Plain(k, ENTITIES)
  {
    EntityTable();
    var letters := {'l', 't', ';', 'g', 'q', 'u', 'o', 'a', 'p', 's'};
    assert forall c | c in letters :: c != '&' && c !in ENTITIES.Values;
    forall k | k in ENTITIES ensures k != "" && forall c | c in k :: c in letters {
    }
  }

  lemma EntityWordsApart()
    ensures forall j, k | j in ENTITIES && k in ENTITIES && j <= k :: j == k
  {
    EntityTable();
    forall j, k | j in ENTITIES && k in ENTITIES && j <= k ensures j == k {
      assert j[0] == k[0];
    }
  }

  /** The word of `d` that `u` starts with. A good dictionary has at most one. */
  ghost function Word(u: string, d: Dictionary): (w: Option<string>)
    ensures w.Some? ==> w.value in d && w.value <= u
    ensures w.None? ==> forall k | k in d :: !(k <= u)
  {
    if k :| k in d && k <= u then Some(k) else None
  }

  lemma WordUnique(u: string, d: Dictionary, k: string)
    requires Good(d) && k in d && k <= u
    ensures Word(u, d) == Some(k)
  {
    var j := Word(u, d).value;
    assert if |j| <= |k| then j <= k else k <= j;
  }

  /** The entity that starts at the head of `s`, if `s` starts with '&' and a word. */
  ghost function Head(s: string, d: Dictionary): (w: Option<string>)
    ensures w.Some? ==> w.value in d && 1 + |w.value| <= |s|
  {
    if s != [] && s[0] == '&' then Word(s[1..], d) else None
  }

  /** Replaces the entities with words in `T` simultaneously, reading the text once. */
  ghost function Subst(s: string, d: Dictionary, T: set<string>): string
    decreases |s|
  {
    if s == [] then []
    else
      var h := Head(s, d);
      if h.Some? && h.value in T then [d[h.value]] + Subst(s[1 + |h.value|..], d, T)
      else [s[0]] + Subst(s[1..], d, T)
  }

  /** How far one step of the pass reads. */
  ghost function Stride(s: string, d: Dictionary, T: set<string>): (n: nat)
    requires s != []
    ensures 1 <= n <= |s|
  {
    var h := Head(s, d);
    if h.Some? && h.value in T then 1 + |h.value| else 1
  }

  lemma SubstUnfold(s: string, d: Dictionary, T: set<string>, rest: string)
    requires s != [] && rest == Subst(s[Stride(s, d, T)..], d, T)
    ensures var h := Head(s, d); Subst(s, d, T) == [if h.Some? && h.value in T then d[h.value] else s[0]] + rest
  {
  }

  lemma {:induction false} SubstPassesPlain(p: string, r: string, d: Dictionary, T: set<string>)
    requires '&' !in p
    ensures Subst(p + r, d, T) == p + Subst(r, d, T)
  {
    if p == [] {
      assert p + r == r;
    } else {
      assert p[0] in p && (p + r)[0] == p[0];
      assert (p + r)[1..] == p[1..] + r;
      SubstPassesPlain(p[1..], r, d, T);
    }
  }

  /** A plain word shows up in the output only where the input has it. */
  lemma {:induction false} SubstCreatesNoWord(p: string, u: string, d: Dictionary, T: set<string>)
    requires Plain(p, d) && p <= Subst(u, d, T)
    ensures p <= u
  {
    if p != [] {
      var v := Subst(u, d, T);
      assert p[0] in p && v[0] == p[0];
      assert v == [u[0]] + Subst(u[1..], d, T);
      assert p[1..] <= v[1..];
      assert forall c | c in p[1..] :: c in p;
      SubstCreatesNoWord(p[1..], u[1..], d, T);
      assert u == [u[0]] + u[1..] && p == [p[0]] + p[1..];
    }
  }

  lemma WordOfSubst(u: string, d: Dictionary, T: set<string>)
    requires Good(d)
    ensures Word(Subst(u, d, T), d) == Word(u, d)
  {
    var v := Subst(u, d, T);
    if Word(u, d).Some? {
      var k := Word(u, d).value;
      assert u == k + u[|k|..];
      SubstPassesPlain(k, u[|k|..], d, T);
      WordUnique(v, d, k);
    } else if Word(v, d).Some? {
      SubstCreatesNoWord(Word(v, d).value, u, d, T);
    }
  }

  /** Two passes are one pass over the union, so passes commute and repeat harmlessly. */
  lemma {:induction false} SubstCompose(s: string, d: Dictionary, T: set<string>, U: set<string>)
    requires Good(d)
    ensures Subst(Subst(s, d, T), d, U) == Subst(s, d, T + U)
    decreases |s|
  {
    if s == [] {
      return;
    }
    var h := Head(s, d);
    var u := s[1..];
    var v := Subst(u, d, T);
    if h.Some? && h.value in T {
      var rest := s[1 + |h.value|..];
      assert d[h.value] in d.Values;
      SubstPassesPlain([d[h.value]], Subst(rest, d, T), d, U);
      SubstCompose(rest, d, T, U);
    } else {
      var w := Subst(s, d, T);
      assert w == [s[0]] + v && w[1..] == v;
      WordOfSubst(u, d, T);
      assert Head(w, d) == h;
      if h.Some? && h.value in U {
        var k := h.value;
        assert u == k + u[|k|..];
        SubstPassesPlain(k, u[|k|..], d, T);
        assert w[1 + |k|..] == v[|k|..] == Subst(u[|k|..], d, T);
        assert s[1 + |k|..] == u[|k|..];
        SubstCompose(u[|k|..], d, T, U);
      } else {
        SubstCompose(u, d, T, U);
      }
    }
  }

  lemma PrefixSplit(k: string, p: string, c: char, r: string)
    requires c !in k
    ensures k <= p + [c] + r <==> k <= p
  {
    if |k| <= |p| {
      assert (p + [c] + r)[..|k|] == p[..|k|];
    } else {
      assert (p + [c] + r)[|p|] == c;
      assert k[|p|] in k;
    }
  }

  /** A pass for one word alone. */
  lemma SubstOne(s: string, d: Dictionary, k: string, rest: string)
    requires Good(d) && k in d && s != []
    requires rest == Subst(if s[0] == '&' && k <= s[1..] then s[1 + |k|..] else s[1..], d, {k})
    ensures Subst(s, d, {k}) == [if s[0] == '&' && k <= s[1..] then d[k] else s[0]] + rest
  {
    if s[0] == '&' && k <= s[1..] {
      WordUnique(s[1..], d, k);
    }
    SubstUnfold(s, d, {k}, rest);
  }

  /** Replacing one occurrence first does not change what the pass returns. */
  lemma {:induction false} SubstRewrite(p: string, k: string, r: string, d: Dictionary)
    requires Good(d) && k in d
    ensures Subst(p + ("&" + k + r), d, {k}) == Subst(p + ([d[k]] + r), d, {k})
    decreases |p|
  {
    var x, y := "&" + k + r, [d[k]] + r;
    assert d[k] in d.Values;
    if p == [] {
      assert p + x == x && p + y == y;
      SubstEntity(k, r, d, {k});
      SubstPassesPlain([d[k]], r, d, {k});
    } else {
      var n := if p[0] == '&' && k <= p[1..] then 1 + |k| else 1;
      SameStride(p, k, "&" + k, r, d);
      SameStride(p, k, [d[k]], r, d);
      SubstRewrite(p[n..], k, r, d);
      SubstOne(p + x, d, k, Subst(p[n..] + x, d, {k}));
      SubstOne(p + y, d, k, Subst(p[n..] + y, d, {k}));
    }
  }

  /** What follows a text does not decide whether the word `k` lies in front of it. */
  lemma SameStride(p: string, k: string, x: string, r: string, d: Dictionary)
    requires p != [] && x != [] && x[0] !in k
    ensures var s := p + (x + r);
      && s != [] && s[0] == p[0] && (k <= s[1..] <==> k <= p[1..]) && s[1..] == p[1..] + (x + r)
      && (k <= p[1..] ==> 1 + |k| <= |p| && s[1 + |k|..] == p[1 + |k|..] + (x + r))
  {
    var s := p + (x + r);
    assert s[1..] == p[1..] + [x[0]] + (x[1..] + r);
    PrefixSplit(k, p[1..], x[0], x[1..] + r);
  }

  lemma HeadOccurs(s: string, d: Dictionary, k: string)
    requires Good(d) && k in d
    ensures Head(s, d) == Some(k) <==> OccursAt(s, 0, "&" + k)
  {
    assert s[0..] == s;
    if Head(s, d) == Some(k) {
      assert s == "&" + s[1..];
      assert "&" + k <= "&" + s[1..];
    }
    if "&" + k <= s {
      assert s[0] == ("&" + k)[0];
      assert s[..1 + |k|][1..] == k;
      WordUnique(s[1..], d, k);
    }
  }

  lemma OccursFromTail(s: string, pat: string)
    requires s != [] && !OccursAt(s, 0, pat) && !Occurs(s[1..], pat)
    ensures !Occurs(s, pat)
  {
    forall i | 0 <= i <= |s| ensures !OccursAt(s, i, pat) {
      if i > 0 {
        assert s[i..] == s[1..][i - 1..];
        assert !OccursAt(s[1..], i - 1, pat);
      }
    }
  }

  lemma {:induction false} SubstIdle(s: string, d: Dictionary, T: set<string>)
    requires Good(d) && T <= d.Keys
    requires forall k | k in T :: !Occurs(s, "&" + k)
    ensures Subst(s, d, T) == s
  {
    if s != [] {
      forall k | k in T ensures !Occurs(s[1..], "&" + k) && Head(s, d) != Some(k) {
        NoOccurrenceInTail(s, "&" + k);
        HeadOccurs(s, d, k);
        assert OccursAt(s, 0, "&" + k) ==> Occurs(s, "&" + k);
      }
      SubstIdle(s[1..], d, T);
    }
  }

  /** A pass shortens the text exactly when it finds something to replace. */
  lemma {:induction false} SubstShrinks(s: string, d: Dictionary, T: set<string>)
    requires Good(d) && T <= d.Keys
    ensures |Subst(s, d, T)| <= |s|
    ensures |Subst(s, d, T)| == |s| ==> Subst(s, d, T) == s && forall k | k in T :: !Occurs(s, "&" + k)
    decreases |s|
  {
    var h := Head(s, d);
    if s == [] {
      forall k | k in T ensures !Occurs(s, "&" + k) {
        assert forall i | 0 <= i <= |s| :: !OccursAt(s, i, "&" + k);
      }
    } else {
      var n := Stride(s, d, T);
      var rest := Subst(s[n..], d, T);
      SubstShrinks(s[n..], d, T);
      SubstUnfold(s, d, T, rest);
      WordsNotEmpty(s, d, T);
      if n == 1 && |rest| == |s| - 1 {
        forall k | k in T ensures !Occurs(s, "&" + k) {
          HeadOccurs(s, d, k);
          OccursFromTail(s, "&" + k);
        }
      }
    }
  }

  lemma WordsNotEmpty(s: string, d: Dictionary, T: set<string>)
    requires Good(d) && s != []
    ensures Stride(s, d, T) == 1 <==> !(Head(s, d).Some? && Head(s, d).value in T)
  {
  }

  /** Each entity loop equals one pass that replaces that entity. */
  lemma {:induction false} EntityLoopIsSinglePass(s: string, d: Dictionary, k: string)
    requires Good(d) && k in d
    ensures Fix(s, "&" + k, d[k]) == Subst(s, d, {k})
    decreases |s|
  {
    var pat := "&" + k;
    var i := Find(s, pat);
    if i < 0 {
      SubstIdle(s, d, {k});
    } else {
      SplitAtOccurrence(s, i, pat);
      var t := RewriteAt(s, i, |pat|, d[k]);
      EntityLoopIsSinglePass(t, d, k);
      RewriteSplits(s, i, pat, d[k]);
      SubstRewrite(s[..i], k, s[i + |pat|..], d);
    }
  }

  lemma RewriteSplits(s: string, i: nat, pat: string, c: char)
    requires pat != "" && OccursAt(s, i, pat)
    ensures i + |pat| <= |s| && s == s[..i] + (pat + s[i + |pat|..])
    ensures RewriteAt(s, i, |pat|, c) == s[..i] + ([c] + s[i + |pat|..])
  {
    assert s[i..] == pat + s[i + |pat|..];
  }

  /** The loops of the entities in `order`, run one after the other. */
  function Loops(s: string, d: Dictionary, order: seq<string>): string
    requires forall k | k in order :: k in d && k != ""
  {
    if order == [] then s
    else
      var k := order[|order| - 1];
      Fix(Loops(s, d, order[..|order| - 1]), "&" + k, d[k])
  }

  /** In whatever order the loops run, the result is the simultaneous substitution. */
  lemma {:induction false} LoopsCommute(s: string, d: Dictionary, order: seq<string>)
    requires Good(d) && forall k | k in order :: k in d
    ensures Loops(s, d, order) == Subst(s, d, set k | k in order)
  {
    var T := set k | k in order;
    if order == [] {
      SubstIdle(s, d, T);
    } else {
      var init, k := order[..|order| - 1], order[|order| - 1];
      LoopsCommute(s, d, init);
      EntityLoopIsSinglePass(Loops(s, d, init), d, k);
      var U := set j | j in init;
      SubstCompose(s, d, U, {k});
      assert order == init + [k];
      assert U + {k} == T;
    }
  }

  // ---------------------------------------------------------------- the decoding

  const ORDER: seq<string> := ["lt;", "gt;", "quot;", "apos;"]

  lemma OrderCoversEntities()
    ensures (set k | k in ORDER) == ENTITIES.Keys
  {
    assert ORDER[0] == "lt;" && ORDER[1] == "gt;" && ORDER[2] == "quot;" && ORDER[3] == "apos;";
  }

  /** The five loops in source order. */
  function Decode(s: string): string {
    Loops(Fix(s, AMP, '&'), ENTITIES, ORDER)
  }

  ghost predicate EntityFree(s: string) {
    !Occurs(s, AMP) && forall k | k in ENTITIES :: !Occurs(s, "&" + k)
  }

  /** Decoding reads the text twice: collapse ampersands, then substitute. */
  lemma DecodeIsTwoPasses(s: string)
    ensures Decode(s) == Subst(CollapseAmp(s), ENTITIES, ENTITIES.Keys)
  {
    AmpLoopIsSinglePass(s);
    EntitiesGood();
    LoopsCommute(CollapseAmp(s), ENTITIES, ORDER);
    OrderCoversEntities();
  }

  lemma {:induction false} FixLeavesNone(s: string, pat: string, c: char)
    requires |pat| >= 2
    ensures !Occurs(Fix(s, pat, c), pat)
    ensures |Fix(s, pat, c)| <= |s|
    ensures Occurs(s, pat) ==> |Fix(s, pat, c)| < |s|
    decreases |s|
  {
    var i := Find(s, pat);
    if i >= 0 {
      FixLeavesNone(RewriteAt(s, i, |pat|, c), pat, c);
    }
  }

  lemma AmpOccursAtHead(s: string)
    requires s != []
    ensures OccursAt(s, 0, AMP) <==> s[0] == '&' && "amp;" <= s[1..]
  {
    assert s[0..] == s == [s[0]] + s[1..];
    assert AMP == "&" + "amp;" && AMP[1..] == "amp;";
    assert AMP <= s ==> AMP[1..] <= s[1..];
    assert "amp;" <= s[1..] ==> ['&'] + "amp;" <= ['&'] + s[1..];
  }

  lemma {:induction false} NoOccurrenceAfter(s: string, n: nat, pat: string)
    requires n <= |s| && !Occurs(s, pat)
    ensures !Occurs(s[n..], pat)
  {
    forall i | 0 <= i <= |s[n..]| ensures !OccursAt(s[n..], i, pat) {
      assert s[n..][i..] == s[i + n..];
      assert !OccursAt(s, i + n, pat);
    }
  }

  lemma {:induction false} SubstMakesNoAmp(s: string, d: Dictionary, T: set<string>)
    requires Good(d) && Plain("amp;", d) && !Occurs(s, AMP)
    ensures !Occurs(Subst(s, d, T), AMP)
    decreases |s|
  {
    var v := Subst(s, d, T);
    if s == [] {
      return;
    }
    var h := Head(s, d);
    if h.Some? && h.value in T {
      var n := 1 + |h.value|;
      NoOccurrenceAfter(s, n, AMP);
      SubstMakesNoAmp(s[n..], d, T);
      assert d[h.value] in d.Values;
      AmpOccursAtHead(v);
      assert v[1..] == Subst(s[n..], d, T);
    } else {
      NoOccurrenceAfter(s, 1, AMP);
      SubstMakesNoAmp(s[1..], d, T);
      assert v[1..] == Subst(s[1..], d, T);
      AmpOccursAtHead(v);
      AmpOccursAtHead(s);
      assert !OccursAt(s, 0, AMP);
      if "amp;" <= v[1..] {
        SubstCreatesNoWord("amp;", s[1..], d, T);
      }
    }
    OccursFromTail(v, AMP);
  }

  /** The decoded text holds no entity, and decoding shortens any text that holds one. */
  lemma DecodeLeavesNoEntity(s: string)
    ensures EntityFree(Decode(s))
    ensures |Decode(s)| <= |s|
    ensures EntityFree(s) <==> |Decode(s)| == |s|
    ensures EntityFree(s) <==> Decode(s) == s
  {
    var c, d, T := Fix(s, AMP, '&'), ENTITIES, ENTITIES.Keys;
    EntitiesGood();
    FixLeavesNone(s, AMP, '&');
    AmpLoopIsSinglePass(s);
    DecodeIsTwoPasses(s);
    SubstMakesNoAmp(c, d, T);
    SubstShrinks(c, d, T);
    SubstCompose(c, d, T, T);
    assert T + T == T;
    SubstShrinks(Decode(s), d, T);
    if EntityFree(s) {
      SubstIdle(s, d, T);
    }
  }

  // -------------------------------------------------------------- escaping first

  const ESCAPES: map<char, string> := map['<' := "lt;", '>' := "gt;", '"' := "quot;", '\'' := "apos;"]

  /** The escape of XML text: '&' becomes "&amp;", the other four likewise. */
  function Escape(t: string): string {
    if t == [] then []
    else (if t[0] == '&' then AMP else if t[0] in ESCAPES then "&" + ESCAPES[t[0]] else [t[0]]) + Escape(t[1..])
  }

  /** Escapes the characters in `e` only, leaving ampersands alone. */
  function EscapeSome(t: string, e: map<char, string>): string {
    if t == [] then []
    else (if t[0] in e then "&" + e[t[0]] else [t[0]]) + EscapeSome(t[1..], e)
  }

  /** `e` escapes exactly the characters `d` decodes to, with words of `d`. */
  ghost predicate Inverse(e: map<char, string>, d: Dictionary) {
    e.Keys == d.Values && forall c | c in e :: e[c] in d && d[e[c]] == c
  }

  lemma EscapesInverse()
    ensures Inverse(ESCAPES, ENTITIES)
  {
    assert ENTITIES["lt;"] == '<' && ENTITIES["gt;"] == '>' && ENTITIES["quot;"] == '"' && ENTITIES["apos;"] == '\'';
    assert forall c | c in ENTITIES.Values :: c in ESCAPES;
    assert forall c | c in ESCAPES :: c in ENTITIES.Values;
  }

  lemma {:induction false} EscapeSomeWord(p: string, t: string, e: map<char, string>)
    requires forall c | c in p :: c != '&' && c !in e
    ensures p <= EscapeSome(t, e) <==> p <= t
    ensures p <= t ==> EscapeSome(t, e)[|p|..] == EscapeSome(t[|p|..], e)
  {
    if p != [] && t != [] {
      assert p[0] in p;
      var w, r := EscapeSome(t, e), EscapeSome(t[1..], e);
      assert forall c | c in p[1..] :: c in p;
      EscapeSomeWord(p[1..], t[1..], e);
      assert t == [t[0]] + t[1..] && p == [p[0]] + p[1..];
      if p[0] == t[0] {
        assert w == [t[0]] + r && w[1..] == r;
        assert p <= t ==> w[|p|..] == r[|p| - 1..] && t[|p|..] == t[1..][|p| - 1..];
      } else {
        assert w[0] != p[0];
      }
    }
  }

  lemma WordOfEscape(u: string, d: Dictionary, e: map<char, string>)
    requires Good(d) && Inverse(e, d)
    ensures Word(EscapeSome(u, e), d) == Word(u, d)
    ensures Word(u, d).Some? ==>
      var n := |Word(u, d).value|; n <= |EscapeSome(u, e)| && EscapeSome(u, e)[n..] == EscapeSome(u[n..], e)
  {
    var r := EscapeSome(u, e);
    if Word(u, d).Some? {
      var k := Word(u, d).value;
      EscapeSomeWord(k, u, e);
      WordUnique(r, d, k);
    } else if Word(r, d).Some? {
      EscapeSomeWord(Word(r, d).value, u, e);
    }
  }

  lemma SubstEntity(k: string, r: string, d: Dictionary, T: set<string>)
    requires Good(d) && k in d && k in T
    ensures Subst("&" + k + r, d, T) == [d[k]] + Subst(r, d, T)
  {
    var s := "&" + k + r;
    assert s[1..] == k + r && s[1 + |k|..] == r;
    WordUnique(s[1..], d, k);
  }

  /** Escaping what the dictionary decodes is undone by the pass, on any text. */
  lemma {:induction false} SubstOfEscape(t: string, d: Dictionary, e: map<char, string>)
    requires Good(d) && Inverse(e, d)
    ensures Subst(EscapeSome(t, e), d, d.Keys) == Subst(t, d, d.Keys)
    decreases |t|
  {
    if t == [] {
    } else if t[0] in e {
      SubstOfEscape(t[1..], d, e);
      SubstEntity(e[t[0]], EscapeSome(t[1..], e), d, d.Keys);
      assert t[0] in d.Values;
    } else {
      SubstOfEscapeStep(t, d, e);
    }
  }

  lemma {:induction false} SubstOfEscapeStep(t: string, d: Dictionary, e: map<char, string>)
    requires Good(d) && Inverse(e, d) && t != [] && t[0] !in e
    ensures Subst(EscapeSome(t, e), d, d.Keys) == Subst(t, d, d.Keys)
    decreases |t|, 0
  {
    var w, n := EscapeSome(t, e), Stride(t, d, d.Keys);
    HeadOfEscape(t, d, e, EscapeSome(t[1..], e));
    SubstOfEscape(t[n..], d, e);
    SubstUnfold(w, d, d.Keys, Subst(w[n..], d, d.Keys));
    SubstUnfold(t, d, d.Keys, Subst(t[n..], d, d.Keys));
  }

  lemma HeadOfEscape(t: string, d: Dictionary, e: map<char, string>, r: string)
    requires Good(d) && Inverse(e, d) && t != [] && t[0] !in e && r == EscapeSome(t[1..], e)
    ensures var w, n := EscapeSome(t, e), Stride(t, d, d.Keys);
      && w != [] && w[0] == t[0] && Head(w, d) == Head(t, d) && n <= |w| && w[n..] == EscapeSome(t[n..], e)
  {
    var w, n := [t[0]] + r, Stride(t, d, d.Keys);
    assert w[1..] == r;
    assert w == EscapeSome(t, e);
    WordOfEscape(t[1..], d, e);
    if n > 1 {
      TailOf(w, n);
      TailOf(t, n);
    }
  }

  lemma TailOf(s: string, n: nat)
    requires 1 <= n <= |s|
    ensures s[n..] == s[1..][n - 1..]
  {
  }

  lemma {:induction false} SkipAmpsOfEscape(t: string)
    ensures SkipAmps(Escape(t)) == Escape(SkipAmps(t))
  {
    EscapeKeepsWord("amp;", t);
    if "amp;" <= t {
      SkipAmpsOfEscape(t[4..]);
    }
  }

  /** A plain word starts an escaped text exactly if it starts the text. */
  lemma {:induction false} EscapeKeepsWord(p: string, t: string)
    requires forall c | c in p :: c != '&' && c !in ESCAPES
    ensures p <= Escape(t) <==> p <= t
    ensures p <= t ==> Escape(t)[|p|..] == Escape(t[|p|..])
  {
    if p != [] && t != [] {
      assert p[0] in p;
      var w, r := Escape(t), Escape(t[1..]);
      assert forall c | c in p[1..] :: c in p;
      EscapeKeepsWord(p[1..], t[1..]);
      assert t == [t[0]] + t[1..] && p == [p[0]] + p[1..];
      if p[0] == t[0] {
        assert w == [t[0]] + r && w[1..] == r;
        assert p <= t ==> w[|p|..] == r[|p| - 1..] && t[|p|..] == t[1..][|p| - 1..];
      } else {
        assert w[0] != p[0];
      }
    }
  }

  lemma {:induction false} CollapsePassesPlain(p: string, r: string)
    requires '&' !in p
    ensures CollapseAmp(p + r) == p + CollapseAmp(r)
  {
    if p == [] {
      assert p + r == r;
    } else {
      assert p[0] in p && (p + r)[0] == p[0];
      assert (p + r)[1..] == p[1..] + r;
      CollapsePassesPlain(p[1..], r);
    }
  }

  /** An ampersand that starts another entity is kept as it is. */
  lemma CollapsePassesEntity(k: string, r: string)
    requires k in ENTITIES
    ensures CollapseAmp("&" + k + r) == "&" + k + CollapseAmp(r)
  {
    EntitiesGood();
    var s := "&" + k + r;
    assert s[1..] == k + r;
    assert s[1..][0] == k[0] && s[1..][1] == k[1];
    assert SkipAmps(s[1..]) == s[1..];
    CollapsePassesPlain(k, r);
  }

  lemma {:induction false} CollapseOfEscape(t: string)
    ensures CollapseAmp(Escape(t)) == EscapeSome(CollapseAmp(t), ESCAPES)
    decreases |t|
  {
    if t == [] {
      return;
    }
    var s, r, u := Escape(t), Escape(t[1..]), CollapseAmp(t);
    if t[0] == '&' {
      assert s == AMP + r && s[1..] == "amp;" + r && s[1..][4..] == r;
      SkipAmpsOfEscape(t[1..]);
      CollapseOfEscape(SkipAmps(t[1..]));
      assert u[1..] == CollapseAmp(SkipAmps(t[1..]));
    } else {
      CollapseOfEscape(t[1..]);
      assert u[1..] == CollapseAmp(t[1..]);
      if t[0] in ESCAPES {
        EscapesInverse();
        CollapsePassesEntity(ESCAPES[t[0]], r);
      } else {
        assert s == [t[0]] + r && s[1..] == r;
      }
    }
  }

  lemma DecodeOfEscape(t: string)
    ensures Decode(Escape(t)) == Decode(t)
  {
    DecodeIsTwoPasses(Escape(t));
    DecodeIsTwoPasses(t);
    CollapseOfEscape(t);
    EntitiesGood();
    EscapesInverse();
    SubstOfEscape(CollapseAmp(t), ENTITIES, ESCAPES);
  }

  // ---------------------------------------------------------------- tag stripping

  /** Position `i` lies inside a tag: some '<' before it is not closed by a later '>'. */
  predicate InTag(s: string, i: nat)
    requires i <= |s|
  {
    exists j | 0 <= j < i :: OpenFrom(s, j, i)
  }

  predicate OpenFrom(s: string, j: nat, i: nat)
    requires j < i <= |s|
  {
    s[j] == '<' && '>' !in s[j..i]
  }

  predicate Visible(s: string, i: nat)
    requires i < |s|
  {
    s[i] != '<' && s[i] != '>' && !InTag(s, i)
  }

  /** The characters of the first `n` that lie outside tags and are no brackets. */
  function Kept(s: string, n: nat): (r: string)
    requires n <= |s|
    ensures |r| <= n
    ensures forall c :: c in r ==> c in s && c != '<' && c != '>'
  {
    if n == 0 then []
    else Kept(s, n - 1) + (if Visible(s, n - 1) then [s[n - 1]] else [])
  }

  function Stripped(s: string): string {
    Kept(s, |s|)
  }

  lemma {:induction false} KeptWithoutBrackets(s: string, n: nat)
    requires n <= |s|
    requires '<' !in s && '>' !in s
    ensures Kept(s, n) == s[..n]
  {
    if n > 0 {
      KeptWithoutBrackets(s, n - 1);
      assert s[n - 1] in s;
      assert forall j | 0 <= j < n - 1 :: s[j] in s;
      assert s[..n] == s[..n - 1] + [s[n - 1]];
    }
  }

  /** Once a tag is left open nothing after it is kept. */
  lemma {:induction false} OpenTagSwallowsRest(s: string, i: nat, n: nat)
    requires i <= n <= |s| && InTag(s, i)
    requires '>' !in s[i..n]
    ensures Kept(s, n) == Kept(s, i)
  {
    if i < n {
      OpenTagSwallowsRest(s, i, n - 1);
      var j :| 0 <= j < i && OpenFrom(s, j, i);
      assert s[j..n - 1] == s[j..i] + s[i..n - 1];
      assert OpenFrom(s, j, n - 1);
    }
  }

  /** The text in front of a place outside tags and the text behind it are stripped apart. */
  lemma {:induction false} StrippedApart(h: string, x: string, y: string, n: nat)
    requires n <= |y| && !InTag(h + y, |h|) && Kept(h + y, |h|) == x
    ensures Kept(h + y, |h| + n) == x + Kept(y, n) && (InTag(h + y, |h| + n) <==> InTag(y, n))
  {
    if n > 0 {
      StrippedApart(h, x, y, n - 1);
      ApartStep(h + y, |h| + n - 1, x, y, n);
    }
  }

  lemma ApartStep(s: string, i: nat, x: string, y: string, n: nat)
    requires 0 < n <= |y| && i < |s| && s[i] == y[n - 1]
    requires Kept(s, i) == x + Kept(y, n - 1) && (InTag(s, i) <==> InTag(y, n - 1))
    ensures Kept(s, i + 1) == x + Kept(y, n) && (InTag(s, i + 1) <==> InTag(y, n))
  {
    InTagStep(s, i, i + 1);
    InTagStep(y, n - 1, n);
    KeptStep(s, i, i + 1);
    KeptStep(y, n - 1, n);
  }

  lemma KeptStep(s: string, i: nat, n: nat)
    requires i < |s| && n == i + 1
    ensures Kept(s, n) == Kept(s, i) + if s[i] != '<' && s[i] != '>' && !InTag(s, i) then [s[i]] else []
  {
  }

  /** Up to a place inside brackets of its own the scan has seen what stands in front. */
  lemma {:induction false} TagOpens(x: string, u: string, s: string, n: nat)
    requires '<' !in x && '>' !in x && '>' !in u && n <= |u|
    requires |x| + 1 + |u| <= |s| && s[..|x|] == x && s[|x|] == '<' && s[|x| + 1..|x| + 1 + |u|] == u
    ensures InTag(s, |x| + 1 + n) && Kept(s, |x| + 1 + n) == x
  {
    var i := |x| + n;
    if n == 0 {
      PlainStart(s, |x|);
      InTagStep(s, i, i + 1);
    } else {
      TagOpens(x, u, s, n - 1);
      assert s[i] == s[|x| + 1..|x| + 1 + |u|][n - 1] == u[n - 1] && u[n - 1] in u;
      InTagStep(s, i, i + 1);
    }
  }

  /** In front of the first bracket everything is kept. */
  lemma {:induction false} PlainStart(s: string, n: nat)
    requires n <= |s| && '<' !in s[..n] && '>' !in s[..n]
    ensures !InTag(s, n) && Kept(s, n) == s[..n]
  {
    if n > 0 {
      assert s[..n] == s[..n - 1] + [s[n - 1]];
      PlainStart(s, n - 1);
      InTagStep(s, n - 1, n);
    }
  }

  /** A closed tag is taken out, with all that stands in it, and the text goes on behind it. */
  lemma ClosedTagGoes(x: string, u: string, y: string)
    requires '<' !in x && '>' !in x && '>' !in u
    ensures Stripped(x + "<" + u + ">" + y) == x + Stripped(y)
  {
    var h := x + "<" + u + ">";
    var s := h + y;
    var i := |x| + 1 + |u|;
    assert s[..|x|] == x && s[|x| + 1..i] == u;
    TagOpens(x, u, s, |u|);
    InTagStep(s, i, i + 1);
    StrippedApart(h, x, y, |y|);
  }

  /** A closing bracket outside a tag disappears. */
  lemma StrayBracketGoes(x: string, y: string)
    requires '<' !in x && '>' !in x
    ensures Stripped(x + ">" + y) == x + Stripped(y)
  {
    var h := x + ">";
    var s := h + y;
    assert s[..|x|] == x;
    PlainStart(s, |x|);
    InTagStep(s, |x|, |x| + 1);
    StrippedApart(h, x, y, |y|);
  }

  /** From an opening bracket that is never closed nothing is kept. */
  lemma OpenTagEndsText(x: string, u: string)
    requires '<' !in x && '>' !in x && '>' !in u
    ensures Stripped(x + "<" + u) == x
  {
    var s := x + "<" + u;
    assert s[..|x|] == x && s[|x| + 1..] == u;
    TagOpens(x, u, s, |u|);
  }

  lemma PlainTextStays(x: string, y: string)
    requires '<' !in x && '>' !in x
    ensures Stripped(x + y) == x + Stripped(y) && Stripped([]) == []
  {
    assert (x + y)[..|x|] == x;
    PlainStart(x + y, |x|);
    StrippedApart(x, x, y, |y|);
  }

  /** So the whole function does not see closed tags, stray closing brackets, or what follows an
      opening bracket never closed; text without brackets it decodes. These cases together
      are all texts, taken from the left. */
  lemma StripSsmlByCases(x: string, u: string, y: string)
    requires '<' !in x && '>' !in x && '>' !in u
    ensures StripSsmlSpec(x + "<" + u + ">" + y) == StripSsmlSpec(x + y)
    ensures StripSsmlSpec(x + ">" + y) == StripSsmlSpec(x + y)
    ensures StripSsmlSpec(x + "<" + u) == StripSsmlSpec(x)
    ensures StripSsmlSpec(x) == Decode(x)
  {
    ClosedTagGoes(x, u, y);
    StrayBracketGoes(x, y);
    OpenTagEndsText(x, u);
    PlainTextStays(x, y);
    PlainTextStays(x, []);
    assert x + [] == x;
  }

  lemma {:induction false} EscapeHasNoBrackets(t: string)
    ensures '<' !in Escape(t) && '>' !in Escape(t)
  {
    if t != [] {
      EscapeHasNoBrackets(t[1..]);
    }
  }

  /** What the whole function returns for a text. */
  function StripSsmlSpec(s: string): string {
    Decode(Stripped(s))
  }

  /** On escaped text only the decoding shows: the escape is undone, and then decoding
      reads the text a second time. */
  lemma StripOfEscape(t: string)
    ensures StripSsmlSpec(Escape(t)) == Decode(t)
  {
    EscapeHasNoBrackets(t);
    KeptWithoutBrackets(Escape(t), |Escape(t)|);
    assert Escape(t)[..|Escape(t)|] == Escape(t);
    DecodeOfEscape(t);
  }

  /** Escaping is undone exactly for texts that contain none of the five entities. */
  lemma StripUndoesEscapeIff(t: string)
    ensures StripSsmlSpec(Escape(t)) == t <==> EntityFree(t)
  {
    StripOfEscape(t);
    DecodeLeavesNoEntity(t);
  }

  // -------------------------------------------------------------- the C functions

  method StrLen(a: array<char>, start: nat) returns (n: nat)
    requires start <= a.Length && NUL in a[start..]
    ensures n == |CString(a[start..])|
    ensures start + n < a.Length && a[start + n] == NUL
    ensures NUL !in a[start..start + n]
  {
    n := 0;
    while a[start + n] != NUL
      invariant start + n < a.Length
      invariant NUL !in a[start..start + n]
      invariant NUL in a[start + n..]
      decreases a.Length - n
    {
      assert a[start + n..][0] == a[start + n];
      assert a[start + n + 1..] == a[start + n..][1..];
      assert a[start..start + n + 1] == a[start..start + n] + [a[start + n]];
      n := n + 1;
    }
    assert a[start..][..n] == a[start..start + n];
    CStringUnique(a[start..], a[start..start + n]);
  }

  /** strstr: the index of the leftmost occurrence of `pat`, or -1. */
  lemma OccurrenceMatches(s: string, i: nat, pat: string, k: nat)
    requires k < |pat|
    ensures OccursAt(s, i, pat) ==> i + k < |s| && s[i + k] == pat[k]
  {
    if OccursAt(s, i, pat) {
      assert s[i + k] == s[i..][k];
    }
  }

  lemma MatchGrows(t: string, p: nat, pat: string, k: nat)
    requires p + k < |t| && k < |pat| && t[p..p + k] == pat[..k] && t[p + k] == pat[k]
    ensures t[p..p + k + 1] == pat[..k + 1]
  {
    assert t[p..p + k + 1] == t[p..p + k] + [t[p + k]];
    assert pat[..k + 1] == pat[..k] + [pat[k]];
  }

  lemma MatchWhole(t: string, p: nat, pat: string)
    requires p + |pat| <= |t| && t[p..p + |pat|] == pat[..|pat|]
    ensures OccursAt(t, p, pat)
  {
    assert t[p..][..|pat|] == t[p..p + |pat|] && pat[..|pat|] == pat;
  }

  /** Whether `pat` lies at `p`: the comparison strstr makes at each place. */
  method MatchesAt(a: array<char>, p: nat, pat: string, ghost t: string) returns (found: bool)
    requires Reads(a, t) && p < |t| && pat != [] && NUL !in pat
    ensures found <==> OccursAt(t, p, pat)
  {
    var k := 0;
    while k < |pat| && a[p + k] == pat[k]
      invariant 0 <= k <= |pat| && p + k <= |t|
      invariant t[p..p + k] == pat[..k]
    {
      assert pat[k] in pat;
      MatchGrows(t, p, pat, k);
      k := k + 1;
    }
    found := k == |pat|;
    if found {
      MatchWhole(t, p, pat);
    } else {
      OccurrenceMatches(t, p, pat, k);
    }
  }

  /** The array holds `t` and then a NUL. */
  ghost predicate Reads(a: array<char>, t: string)
    reads a
  {
    |t| < a.Length && a[|t|] == NUL && forall i | 0 <= i < |t| :: a[i] == t[i] && t[i] != NUL
  }

  method StrStr(a: array<char>, pat: string) returns (p: int)
    requires Terminated(a) && pat != [] && NUL !in pat
    ensures p == Find(Text(a), pat)
  {
    TextReads(a);
    ghost var t := Text(a);
    p := 0;
    while a[p] != NUL
      invariant 0 <= p <= |t|
      invariant forall i :: 0 <= i < p ==> !OccursAt(t, i, pat)
      decreases |t| - p
    {
      var found := MatchesAt(a, p, pat, t);
      if found {
        return;
      }
      p := p + 1;
    }
    OccurrenceMatches(t, p, pat, 0);
    p := -1;
  }

  lemma TextReads(a: array<char>)
    requires Terminated(a)
    ensures Reads(a, Text(a))
  {
    TextFits(a);
    var t := Text(a);
    assert forall i | 0 <= i < |t| :: a[i] == a[..|t|][i] == t[i] && t[i] in t;
  }

  /** memmove towards the front: `n` characters from `src` to `dst`. */
  method MoveLeft(a: array<char>, dst: nat, src: nat, n: nat)
    requires dst <= src && src + n <= a.Length
    modifies a
    ensures a[..] == Moved(old(a[..]), dst, src, n)
  {
    ghost var was := a[..];
    var i := 0;
    while i < n
      invariant 0 <= i <= n
      invariant a[..] == Moved(was, dst, src, i)
    {
      MovedStep(was, dst, src, i);
      assert a[src + i] == a[..][src + i];
      a[dst + i] := a[src + i];
      i := i + 1;
    }
  }

  function Moved(s: string, dst: nat, src: nat, n: nat): string
    requires dst <= src && src + n <= |s|
  {
    s[..dst] + s[src..src + n] + s[dst + n..]
  }

  lemma MovedStep(s: string, dst: nat, src: nat, n: nat)
    requires dst <= src && src + n < |s|
    ensures Moved(s, dst, src, n)[src + n] == s[src + n]
    ensures Moved(s, dst, src, n + 1) == Moved(s, dst, src, n)[dst + n := s[src + n]]
  {
  }

  /** Storing `c` and moving the tail with its NUL rewrites the occurrence. */
  lemma RewriteByMove(s: string, t: string, p: nat, width: nat, c: char)
    requires 1 <= width && p + width <= |t| < |s| && NUL !in t && c != NUL
    requires s[..|t|] == t && s[|t|] == NUL
    ensures CString(Moved(s[p := c], p + 1, p + width, |t| - p - width + 1)) == RewriteAt(t, p, width, c)
    ensures NUL in Moved(s[p := c], p + 1, p + width, |t| - p - width + 1)
  {
    var q, m := p + width, |t| - p - width;
    var r, u := Moved(s[p := c], p + 1, q, m + 1), RewriteAt(t, p, width, c);
    assert s[p := c][..p + 1] == t[..p] + [c];
    assert s[p := c][q..q + m + 1] == s[q..q + m + 1] == t[q..] + [NUL];
    assert r[..|u| + 1] == u + [NUL];
    assert r[..|u|] == r[..|u| + 1][..|u|] == u;
    assert r[|u|] == r[..|u| + 1][|u|] == NUL;
    CStringUnique(r, u);
  }

  /** Rewrites the occurrence at `p` in place: store `c`, close the gap with memmove. */
  method RewriteInPlace(out: array<char>, p: nat, width: nat, c: char)
    requires Terminated(out) && 1 <= width && p + width <= |Text(out)| && c != NUL
    modifies out
    ensures Terminated(out)
    ensures Text(out) == RewriteAt(old(Text(out)), p, width, c)
  {
    ghost var s, t := out[..], Text(out);
    TextFits(out);
    assert s[..|t|] == t && s[|t|] == NUL;
    var n := RestLength(out, p + width);
    RewriteByMove(s, t, p, width, c);
    StoreAndClose(out, p, width, n + 1, c);
  }

  method StoreAndClose(out: array<char>, p: nat, width: nat, n: nat, c: char)
    requires 1 <= width && p + width + n <= out.Length
    modifies out
    ensures out[..] == Moved(old(out[..])[p := c], p + 1, p + width, n)
  {
    out[p] := c;
    MoveLeft(out, p + 1, p + width, n);
  }

  /** strlen of the text from `q` on. */
  method RestLength(out: array<char>, q: nat) returns (n: nat)
    requires Terminated(out) && q <= |Text(out)|
    ensures q + n == |Text(out)|
  {
    TextFits(out);
    ghost var t := Text(out);
    ghost var rest := t[q..];
    assert out[q..][..|rest|] == out[..|t|][q..] == rest;
    assert out[q..][|rest|] == NUL;
    n := StrLen(out, q);
    CStringUnique(out[q..], rest);
  }

  /** One entity loop: rewrite the leftmost occurrence in place until none is found. */
  method EntityLoop(out: array<char>, pat: string, c: char)
    requires Terminated(out) && |pat| >= 2 && NUL !in pat && c != NUL
    modifies out
    ensures Terminated(out)
    ensures Text(out) == Fix(old(Text(out)), pat, c)
  {
    var p := StrStr(out, pat);
    while p >= 0
      invariant Terminated(out)
      invariant p == Find(Text(out), pat)
      invariant Fix(Text(out), pat, c) == Fix(old(Text(out)), pat, c)
      decreases |Text(out)|
    {
      SplitAtOccurrence(Text(out), p, pat);
      RewriteInPlace(out, p, |pat|, c);
      p := StrStr(out, pat);
    }
  }

  method StripSsml(ssml: string) returns (out: array<char>)
    requires NUL !in ssml
    ensures fresh(out) && Terminated(out)
    ensures Text(out) == StripSsmlSpec(ssml)
  {
    var len := |ssml|;
    out := new char[len + 1];
    var j, inTag := 0, false;
    for i := 0 to len
      invariant inTag == InTag(ssml, i)
      invariant j == |Kept(ssml, i)| && j <= i
      invariant out[..j] == Kept(ssml, i)
    {
      InTagStep(ssml, i, i + 1);
      if ssml[i] == '<' {
        inTag := true;
      } else if ssml[i] == '>' {
        inTag := false;
      } else if !inTag {
        out[j] := ssml[i];
        j := j + 1;
        assert out[..j] == Kept(ssml, i) + [ssml[i]];
      }
    }
    out[j] := NUL;
    assert out[..][j] == NUL;
    CStringUnique(out[..], Kept(ssml, len));
    EntityLoop(out, AMP, '&');
    EntityLoop(out, "&lt;", '<');
    EntityLoop(out, "&gt;", '>');
    EntityLoop(out, "&quot;", '"');
    EntityLoop(out, "&apos;", '\'');
    UnfoldLoops(Fix(Stripped(ssml), AMP, '&'));
  }

  lemma InTagStep(s: string, i: nat, n: nat)
    requires i < |s| && n == i + 1
    ensures InTag(s, n) <==> s[i] == '<' || (InTag(s, i) && s[i] != '>')
  {
    assert s[i..n] == [s[i]];
    assert s[i] == '<' <==> OpenFrom(s, i, n);
    forall j | 0 <= j < i
      ensures OpenFrom(s, j, n) <==> OpenFrom(s, j, i) && s[i] != '>'
    {
      assert s[j..n] == s[j..i] + [s[i]];
    }
  }

  lemma UnfoldLoops(s: string)
    ensures Loops(s, ENTITIES, ORDER)
         == Fix(Fix(Fix(Fix(s, "&lt;", '<'), "&gt;", '>'), "&quot;", '"'), "&apos;", '\'')
  {
    var d := ENTITIES;
    assert ORDER[..3] == ["lt;", "gt;", "quot;"] && ORDER[..2] == ["lt;", "gt;"] && ORDER[..1] == ["lt;"];
    assert ORDER[..3][..2] == ORDER[..2] && ORDER[..2][..1] == ORDER[..1] && ORDER[..1][..0] == [];
    assert "&" + "lt;" == "&lt;" && "&" + "gt;" == "&gt;" && "&" + "quot;" == "&quot;" && "&" + "apos;" == "&apos;";
    assert Loops(s, d, []) == s;
    assert Loops(s, d, ORDER[..1]) == Fix(s, "&lt;", '<');
    assert Loops(s, d, ORDER[..2]) == Fix(Loops(s, d, ORDER[..1]), "&gt;", '>');
    assert Loops(s, d, ORDER[..3]) == Fix(Loops(s, d, ORDER[..2]), "&quot;", '"');
  }
}
