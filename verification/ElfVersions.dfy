/** The glibc version names the patcher knows, and the ELF hash of a name
    (System V gABI, chapter 5, "Hash Table"). */
module ElfVersions {
  import opened Bytes

  // ------------------------------------------------------------------- the hash

  /** Exclusive or of two bits. */
  function Xor1(a: nat, b: nat): (r: nat)
    ensures r < 2
  {
    if a % 2 == b % 2 then 0 else 1
  }

  /** Exclusive or of two four-bit values. */
  function Xor4(a: nat, b: nat): (r: nat)
    requires a < 16 && b < 16
    ensures r < 16
    ensures b == 0 ==> r == a
  {
    Xor1(a / 8, b / 8) * 8 + Xor1(a / 4, b / 4) * 4 + Xor1(a / 2, b / 2) * 2 + Xor1(a, b)
  }

  /** Bit by bit: a sum without carry. */
  lemma XorBits(a: nat, b: nat)
    requires a < 16 && b < 16
    ensures var x := Xor4(a, b);
      && x % 2 == (a + b) % 2 && x / 2 % 2 == (a / 2 + b / 2) % 2
      && x / 4 % 2 == (a / 4 + b / 4) % 2 && x / 8 % 2 == (a / 8 + b / 8) % 2
  {
    XorBit(a, b);
    XorBit(a / 2, b / 2);
    XorBit(a / 4, b / 4);
    XorBit(a / 8, b / 8);
    BitsOf(Xor1(a / 8, b / 8), Xor1(a / 4, b / 4), Xor1(a / 2, b / 2), Xor1(a, b));
  }

  lemma XorBit(a: nat, b: nat)
    ensures Xor1(a, b) == (a + b) % 2
  {
  }

  lemma BitsOf(w: nat, x: nat, y: nat, z: nat)
    requires w < 2 && x < 2 && y < 2 && z < 2
    ensures var n := w * 8 + x * 4 + y * 2 + z; n % 2 == z && n / 2 % 2 == y && n / 4 % 2 == x && n / 8 % 2 == w
  {
  }

  /** Folds the top nibble of a word into bits 4 to 7 and clears it. */
  function Fold(t: uint32): (r: nat)
    ensures r < 0x1000_0000
    ensures r % 16 == t % 16
  {
    var g := t / 0x1000_0000;
    var n := t / 16 % 16;
    t / 256 % 0x10_0000 * 256 + Xor4(n, g) * 16 + t % 16
  }

  /** Folding first and clearing after, as the code does, comes to the same. */
  lemma FoldByParts(t: uint32)
    ensures var g, n := t / 0x1000_0000, t / 16 % 16;
      Fold(t) == t - n * 16 + Xor4(n, g) * 16 - g * 0x1000_0000 && (g == 0 ==> Fold(t) == t)
  {
    var u := t / 256;
    assert t == u * 256 + t / 16 % 16 * 16 + t % 16;
    assert t / 0x1000_0000 == u / 0x10_0000;
  }

  /** One round of the hash: shift the byte in, then fold. */
  function HashStep(h: nat, c: byte): (r: nat)
    ensures r < 0x1000_0000
    ensures r % 16 == c % 16
  {
    ShiftIn(h, c);
    Fold((h * 16 + c) % TWO32)
  }

  lemma ShiftIn(h: nat, c: byte)
    ensures (h * 16 + c) % TWO32 % 16 == c % 16
  {
    var q, t := (h * 16 + c) / TWO32, (h * 16 + c) % TWO32;
    assert t == (h - q * 0x1000_0000) * 16 + c;
  }

  function ElfHash(name: seq<byte>): (h: nat)
    ensures h < 0x1000_0000
  {
    if name == [] then 0 else HashStep(ElfHash(name[..|name| - 1]), name[|name| - 1])
  }

  method ComputeElfHash(name: seq<byte>) returns (h: nat)
    ensures h == ElfHash(name)
    ensures h < 0x1000_0000
  {
    h := 0;
    for i := 0 to |name|
      invariant h == ElfHash(name[..i])
    {
      HashOneMore(name, i, h);
      h := HashRound(h, name[i]);
    }
    assert name[..|name|] == name;
  }

  lemma HashOneMore(name: seq<byte>, i: nat, h: nat)
    requires i < |name| && h == ElfHash(name[..i])
    ensures ElfHash(name[..i + 1]) == HashStep(h, name[i])
  {
    assert name[..i + 1][..i] == name[..i];
  }

  method HashRound(h: nat, c: byte) returns (r: nat)
    ensures r == HashStep(h, c)
  {
    r := FoldInPlace((h * 16 + c) % TWO32);
  }

  /** The two masks and the exclusive or of one round. */
  method FoldInPlace(t: uint32) returns (h: nat)
    ensures h == Fold(t)
  {
    FoldByParts(t);
    h := t;
    var g := h / 0x1000_0000;
    if g != 0 {
      var n := h / 16 % 16;
      h := h - n * 16 + Xor4(n, g) * 16;
    }
    h := h - g * 0x1000_0000;
  }

  // ------------------------------------------------------------- version names

  // "GLIBC_2."
  const STEM: seq<byte> := [71, 76, 73, 66, 67, 95, 50, 46]
  const V20: seq<byte> := STEM + [48]
  const V21: seq<byte> := STEM + [49]
  const V213: seq<byte> := STEM + [49, 46, 51]
  const V23: seq<byte> := STEM + [51]
  const V232: seq<byte> := STEM + [51, 46, 50]
  const NEW: seq<byte> := STEM + [52]

  const OLD: set<seq<byte>> := {V20, V21, V213, V23, V232}

  const G: byte := 71

  predicate Reads(v: seq<byte>, s: string) {
    |v| == |s| && forall i :: 0 <= i < |v| ==> v[i] == s[i] as int
  }

  /** The names in letters. */
  lemma NamesSpelledOut()
    ensures Reads(V20, "GLIBC_2.0") && Reads(V21, "GLIBC_2.1") && Reads(V213, "GLIBC_2.1.3")
    ensures Reads(V23, "GLIBC_2.3") && Reads(V232, "GLIBC_2.3.2") && Reads(NEW, "GLIBC_2.4")
  {
  }

  /** The bytes searched for: the name with its terminating NUL. */
  function Pattern(v: seq<byte>): seq<byte> {
    v + [0]
  }

  /** What they become: the new name, padded with NULs to the same length. */
  function Padded(v: seq<byte>): (r: seq<byte>)
    requires |v| >= |NEW|
    ensures |r| == |Pattern(v)|
  {
    NEW + seq(|v| + 1 - |NEW|, _ => 0)
  }

  /** All the patcher's correctness needs to know about an old name. */
  lemma OldNameShape(v: seq<byte>)
    requires v in OLD
    ensures |v| >= |NEW| == 9
    ensures v[0] == G && (forall k :: 0 < k < |v| ==> v[k] != G) && 0 !in v
    ensures v[8] != NEW[8]
    ensures v[|v| - 1] % 16 != NEW[8] % 16
  {
  }

  lemma LongNameEnds(v: seq<byte>)
    requires v in OLD && |v| > |NEW|
    ensures v[|v| - 1] % 16 != 0
  {
  }

  lemma NewNameShape()
    ensures |NEW| == 9 && NEW[0] == G && (forall k :: 0 < k < 9 ==> NEW[k] != G) && 0 !in NEW
    ensures NEW !in OLD
  {
    if NEW in OLD {
      OldNameShape(NEW);
    }
  }

  function HashesOf(names: set<seq<byte>>): set<nat> {
    set v | v in names :: ElfHash(v)
  }

  const OLD_HASHES: set<nat> := HashesOf(OLD)
  const NEW_HASH: nat := ElfHash(NEW)

  /** The new hash is not mistaken for an old one, so a hash is never patched twice. */
  lemma NewHashIsNotOld()
    ensures NEW_HASH !in OLD_HASHES
  {
    forall v | v in OLD ensures ElfHash(v) != NEW_HASH {
      OldNameShape(v);
      NewNameShape();
      LastByteShows(v);
      LastByteShows(NEW);
    }
  }

  /** The low nibble of the hash is that of the last byte. */
  lemma LastByteShows(name: seq<byte>)
    requires name != []
    ensures ElfHash(name) % 16 == name[|name| - 1] % 16
  {
  }

  // ------------------------------------------------------------- some hashes by value

  lemma StepIsFold(h: nat, c: byte, t: uint32)
    requires t == h * 16 + c
    ensures HashStep(h, c) == Fold(t)
  {
    NoWrap(t);
    StepFolds(h, c, t);
  }

  lemma NoWrap(t: uint32)
    ensures t % TWO32 == t
  {
  }

  lemma StepFolds(h: nat, c: byte, t: uint32)
    requires (h * 16 + c) % TWO32 == t
    ensures HashStep(h, c) == Fold(t)
  {
  }

  lemma FoldOf(g: nat, u: nat, n: nat, l: nat, x: nat)
    requires g < 16 && u < 0x10_0000 && n < 16 && l < 16 && x == Xor4(n, g)
    ensures Fold(g * 0x1000_0000 + u * 256 + n * 16 + l) == u * 256 + x * 16 + l
  {
    var t := g * 0x1000_0000 + u * 256 + n * 16 + l;
    TopNibble(g, u * 256 + n * 16 + l);
    LowNibbles(g * 0x10_0000 + u, n, l);
    FoldByParts(t);
  }

  lemma TopNibble(g: nat, r: nat)
    requires r < 0x1000_0000
    ensures (g * 0x1000_0000 + r) / 0x1000_0000 == g
  {
  }

  lemma LowNibbles(w: nat, n: nat, l: nat)
    requires n < 16 && l < 16
    ensures (w * 256 + n * 16 + l) / 16 % 16 == n
  {
    assert (w * 256 + n * 16 + l) / 16 == w * 16 + n;
  }

  predicate Marked(s: seq<byte>) {
    true
  }

  /** The first `k` bytes of `v` hash to `h`; said so that it is looked into on demand only. */
  ghost predicate HashesTo(v: seq<byte>, k: nat, h: nat)
    requires k <= |v|
  {
    forall s {:trigger Marked(s)} :: Marked(s) && s == v[..k] ==> ElfHash(s) == h
  }

  lemma HashesToIs(v: seq<byte>, h: nat)
    requires HashesTo(v, |v|, h)
    ensures ElfHash(v) == h
  {
    assert Marked(v) && v[..|v|] == v;
  }

  lemma NothingHashed(v: seq<byte>)
    ensures HashesTo(v, 0, 0)
  {
  }

  /** The round for byte `i` from the value `h` when nothing is shifted into the top nibble. */
  lemma RoundAt(v: seq<byte>, i: nat, h: nat, r: nat)
    requires i < |v| && HashesTo(v, i, h) && r == h * 16 + v[i] < 0x1000_0000
    ensures HashesTo(v, i + 1, r)
  {
    assert Marked(v[..i]);
    HashOneMore(v, i, h);
    StepIsFold(h, v[i], r);
    FoldByParts(r);
  }

  /** And when something is: the shifted word is given by its top nibble `g`, its next five
      nibbles `u`, and its last two, `n` and `l`; `x` is what becomes of `n`. */
  lemma FoldAt(v: seq<byte>, i: nat, h: nat, u: nat, n: nat, l: nat, g: nat, x: nat)
    requires i < |v| && HashesTo(v, i, h) && h * 16 + v[i] == g * 0x1000_0000 + u * 256 + n * 16 + l
    requires g < 16 && u < 0x10_0000 && n < 16 && l < 16 && x == Xor4(n, g)
    ensures HashesTo(v, i + 1, u * 256 + x * 16 + l)
  {
    assert Marked(v[..i]);
    HashOneMore(v, i, h);
    StepIsFold(h, v[i], g * 0x1000_0000 + u * 256 + n * 16 + l);
    FoldOf(g, u, n, l, x);
  }

  lemma HashOfGlib(v: seq<byte>)
    requires |v| >= 9 && v[0] == 71 && v[1] == 76 && v[2] == 73 && v[3] == 66
    ensures HashesTo(v, 4, 0x4c0d2)
  {
    NothingHashed(v);
    RoundAt(v, 0, 0x0, 0x47);
    RoundAt(v, 1, 0x47, 0x4bc);
    RoundAt(v, 2, 0x4bc, 0x4c09);
    RoundAt(v, 3, 0x4c09, 0x4c0d2);
  }

  lemma HashOfStem(v: seq<byte>)
    requires |v| >= 9 && v[0] == 71 && v[1] == 76 && v[2] == 73 && v[3] == 66 && v[4] == 67
    requires v[5] == 95 && v[6] == 50 && v[7] == 46
    ensures HashesTo(v, 8, 0xd6968e)
  {
    HashOfGlib(v);
    RoundAt(v, 4, 0x4c0d2, 0x4c0d63);
    RoundAt(v, 5, 0x4c0d63, 0x4c0d68f);
    FoldAt(v, 6, 0x4c0d68f, 0xc0d69, 2, 2, 4, 6);
    FoldAt(v, 7, 0xc0d6962, 0xd696, 4, 14, 12, 8);
  }

  lemma HashOf20(v: seq<byte>)
    requires v == V20
    ensures ElfHash(v) == 0xd696910
  {
    HashOfStem(v);
    RoundAt(v, 8, 0xd6968e, 0xd696910);
    HashesToIs(v, 0xd696910);
  }

  lemma HashOfNew(v: seq<byte>)
    requires v == NEW
    ensures ElfHash(v) == 0xd696914
  {
    HashOfStem(v);
    RoundAt(v, 8, 0xd6968e, 0xd696914);
    HashesToIs(v, 0xd696914);
  }

  // "LIBC_2.4"
  lemma HashOfTail1(v: seq<byte>)
    requires |v| == 8 && v[0] == 76 && v[1] == 73 && v[2] == 66 && v[3] == 67 && v[4] == 95 && v[5] == 50 && v[6] == 46 && v[7] == 52
    ensures HashesTo(v, 8, 0xd692214)
  {
    NothingHashed(v);
    RoundAt(v, 0, 0x0, 0x4c);
    RoundAt(v, 1, 0x4c, 0x509);
    RoundAt(v, 2, 0x509, 0x50d2);
    RoundAt(v, 3, 0x50d2, 0x50d63);
    RoundAt(v, 4, 0x50d63, 0x50d68f);
    RoundAt(v, 5, 0x50d68f, 0x50d6922);
    FoldAt(v, 6, 0x50d6922, 0xd692, 4, 14, 5, 1);
    RoundAt(v, 7, 0xd6921e, 0xd692214);
  }

  // "IBC_2.4"
  lemma HashOfTail2(v: seq<byte>)
    requires |v| == 7 && v[0] == 73 && v[1] == 66 && v[2] == 67 && v[3] == 95 && v[4] == 50 && v[5] == 46 && v[6] == 52
    ensures HashesTo(v, 7, 0xd692554)
  {
    NothingHashed(v);
    RoundAt(v, 0, 0x0, 0x49);
    RoundAt(v, 1, 0x49, 0x4d2);
    RoundAt(v, 2, 0x4d2, 0x4d63);
    RoundAt(v, 3, 0x4d63, 0x4d68f);
    RoundAt(v, 4, 0x4d68f, 0x4d6922);
    RoundAt(v, 5, 0x4d6922, 0x4d6924e);
    FoldAt(v, 6, 0x4d6924e, 0xd6925, 1, 4, 4, 5);
  }

  /** The most a name of `k` seven-bit characters can hash to, folding or not. */
  function Most(k: nat): nat {
    if k == 0 then 0 else 16 * Most(k - 1) + 127
  }

  lemma FoldShrinks(t: uint32)
    ensures Fold(t) <= t
  {
    FoldByParts(t);
  }

  lemma StepAtMost(h: nat, c: byte)
    requires h < 0x1000_0000
    ensures HashStep(h, c) <= 16 * h + c
  {
    FoldShrinks((h * 16 + c) % TWO32);
    ModShrinks(h * 16 + c);
  }

  lemma ModShrinks(x: nat)
    ensures x % TWO32 <= x
  {
  }

  lemma {:induction false} HashAtMost(name: seq<byte>)
    requires forall c :: c in name ==> c < 128
    ensures ElfHash(name) <= Most(|name|)
  {
    if name != [] {
      var n := |name| - 1;
      assert forall c :: c in name[..n] ==> c in name;
      assert name[n] in name;
      HashAtMost(name[..n]);
      StepAtMost(ElfHash(name[..n]), name[n]);
      LastStep(name, n, ElfHash(name[..n]));
    }
  }

  lemma LastStep(name: seq<byte>, n: nat, h: nat)
    requires |name| == n + 1 && h == ElfHash(name[..n])
    ensures ElfHash(name) == HashStep(h, name[n])
  {
  }

  lemma {:induction false} MostGrows(j: nat, k: nat)
    requires j <= k
    ensures Most(j) <= Most(k)
  {
    if j < k {
      MostGrows(j, k - 1);
    }
  }

  /** No proper tail of the new version has the new version's hash: from its third byte on it
      is too short for one so large, and the two longer tails hash differently. */
  lemma NewTailsHashDifferently(j: nat, v: seq<byte>)
    requires 0 < j <= 9 && v == NEW[j..]
    ensures ElfHash(v) != NEW_HASH
  {
    HashOfNew(NEW);
    if j == 1 {
      HashOfTail1(v);
      HashesToIs(v, 0xd692214);
    } else if j == 2 {
      HashOfTail2(v);
      HashesToIs(v, 0xd692554);
    } else {
      HashAtMost(v);
      MostGrows(|v|, 6);
      MostOfSix();
    }
  }

  lemma MostOfSix()
    ensures Most(6) < 0xd696914
  {
    assert Most(3) == 127 + 16 * (127 + 16 * 127);
  }

  // "XGLIBC_2.0"
  const SUFFIXED: seq<byte> := [88] + V20

  lemma HashOfSuffixed(v: seq<byte>)
    requires |v| == 10 && v[0] == 88 && v[1] == 71 && v[2] == 76 && v[3] == 73 && v[4] == 66 && v[5] == 67
    requires v[6] == 95 && v[7] == 50 && v[8] == 46 && v[9] == 48
    ensures HashesTo(v, 10, 0xd6ee910)
  {
    NothingHashed(v);
    RoundAt(v, 0, 0x0, 0x58);
    RoundAt(v, 1, 0x58, 0x5c7);
    RoundAt(v, 2, 0x5c7, 0x5cbc);
    RoundAt(v, 3, 0x5cbc, 0x5cc09);
    RoundAt(v, 4, 0x5cc09, 0x5cc0d2);
    RoundAt(v, 5, 0x5cc0d2, 0x5cc0d63);
    FoldAt(v, 6, 0x5cc0d63, 0xcc0d6, 8, 15, 5, 13);
    FoldAt(v, 7, 0xcc0d6df, 0xc0d6e, 2, 2, 12, 14);
    FoldAt(v, 8, 0xc0d6ee2, 0xd6ee, 4, 14, 12, 8);
    RoundAt(v, 9, 0xd6ee8e, 0xd6ee910);
  }

  /** A name that ends in an old version without having an old hash. */
  lemma SuffixedIsNotOld()
    ensures ElfHash(SUFFIXED) !in OLD_HASHES
  {
    HashOf20(V20);
    HashOfSuffixed(SUFFIXED);
    HashesToIs(SUFFIXED, 0xd6ee910);
    forall v | v in OLD && v != V20 ensures ElfHash(v) % 16 != 0 {
      OldLastByte(v);
      LastByteShows(v);
    }
  }

  lemma OldLastByte(v: seq<byte>)
    requires v in OLD
    ensures v != [] && (v != V20 ==> v[|v| - 1] % 16 != 0)
  {
  }
}
