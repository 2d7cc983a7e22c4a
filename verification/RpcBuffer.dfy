/** The growable buffer requests and responses are built in, and the cursor they are
    read back with. */
module RpcBuffer {
  import opened Bytes
  import opened Codec

  const FIRST_CAP: uint32 := 256
  const TOP: uint32 := 0x8000_0000

  // --------------------------------------------------------------- the doubling loop

  function Pow2(k: nat): nat {
    if k == 0 then 1 else 2 * Pow2(k - 1)
  }

  /** The capacities the buffer takes on: 256 times a power of two, up to 2^31. */
  predicate Capacity(c: uint32) {
    exists k | 0 <= k <= 23 :: c == 256 * Pow2(k)
  }

  /** `c` doubled `n` times in a 32-bit word. */
  function Doubled(c: uint32, n: nat): uint32 {
    if n == 0 then c else Doubled(c, n - 1) * 2 % TWO32
  }

  lemma CapacityDoubles(c: uint32)
    requires Capacity(c)
    ensures c <= TOP && (c < TOP ==> Capacity(2 * c))
  {
    var k :| 0 <= k <= 23 && c == 256 * Pow2(k);
    Pow2Bound(k);
    if c < TOP {
      assert Pow2(23) == 0x80_0000 by {
        Pow2At23();
      }
      assert k < 23;
      assert 2 * c == 256 * Pow2(k + 1);
    }
  }

  lemma Pow2At23()
    ensures Pow2(23) == 0x80_0000
  {
    assert Pow2(8) == 256;
    assert Pow2(16) == 0x1_0000;
  }

  lemma {:induction false} Pow2Bound(k: nat)
    requires k <= 23
    ensures 1 <= Pow2(k) && Pow2(k) * Pow2(23 - k) == Pow2(23) && Pow2(k) <= 0x80_0000
  {
    Pow2At23();
    if k > 0 {
      Pow2Bound(k - 1);
      assert Pow2(23 - (k - 1)) == 2 * Pow2(23 - k);
      Regroup(Pow2(k - 1), Pow2(23 - k));
      Pow2Positive(23 - k);
      Factor(Pow2(k), Pow2(23 - k));
    }
  }

  lemma Regroup(a: nat, b: nat)
    ensures a * (2 * b) == (2 * a) * b
  {
  }

  lemma Factor(a: nat, b: nat)
    requires b >= 1
    ensures a <= a * b
  {
  }

  lemma {:induction false} Pow2Positive(k: nat)
    ensures Pow2(k) >= 1
  {
    if k > 0 {
      Pow2Positive(k - 1);
    }
  }

  /** Doubling passes through capacities only, until it wraps to zero for good. */
  lemma {:induction false} DoubledStaysCapacity(c: uint32, n: nat)
    requires Capacity(c)
    ensures Capacity(Doubled(c, n)) || Doubled(c, n) == 0
  {
    if n > 0 {
      DoubledStaysCapacity(c, n - 1);
      var d := Doubled(c, n - 1);
      if d != 0 {
        CapacityDoubles(d);
      }
      TwiceInAWord(d);
    }
  }

  lemma TwiceInAWord(d: uint32)
    requires d <= TOP
    ensures d * 2 % TWO32 == if d < TOP then 2 * d else 0
  {
  }

  /** From any capacity the loop can reach the top. */
  lemma {:induction false} TopReachable(c: uint32) returns (n: nat)
    requires Capacity(c)
    ensures Doubled(c, n) == TOP
    decreases TOP - c
  {
    CapacityDoubles(c);
    if c == TOP {
      n := 0;
    } else {
      assert c > 0 by {
        var k :| 0 <= k <= 23 && c == 256 * Pow2(k);
        Pow2Positive(k);
      }
      var m := TopReachable(2 * c);
      DoubledFirst(c, m);
      n := m + 1;
    }
  }

  lemma {:induction false} DoubledFirst(c: uint32, n: nat)
    requires 2 * c < TWO32
    ensures Doubled(c, n + 1) == Doubled(2 * c, n)
  {
    if n > 0 {
      DoubledFirst(c, n - 1);
    } else {
      assert Doubled(c, 1) == Doubled(c, 0) * 2 % TWO32;
    }
  }

  /** The loop `while (newcap < need) newcap *= 2` ends exactly when need is at most 2^31;
      above that it wraps to zero and runs for ever. */
  lemma DoublingEndsIff(c: uint32, need: uint32)
    requires Capacity(c)
    ensures (exists n :: Doubled(c, n) >= need) <==> need <= TOP
  {
    forall n ensures Doubled(c, n) <= TOP {
      DoubledStaysCapacity(c, n);
      if Doubled(c, n) != 0 {
        CapacityDoubles(Doubled(c, n));
      }
    }
    var n := TopReachable(c);
    assert need <= TOP ==> Doubled(c, n) >= need;
  }

  function Start(cap: uint32): uint32 {
    if cap != 0 then cap else FIRST_CAP
  }

  /** rpc_buf_ensure returns with this capacity, given the need it computes. */
  ghost predicate GrowsTo(cap: uint32, need: uint32, newcap: uint32) {
    if need <= cap then newcap == cap else exists n :: FirstEnough(Start(cap), need, n) && newcap == Doubled(Start(cap), n)
  }

  ghost predicate FirstEnough(c: uint32, need: uint32, n: nat) {
    Doubled(c, n) >= need && forall m | 0 <= m < n :: Doubled(c, m) < need
  }

  lemma {:induction false} LeastEnough(c: uint32, need: uint32, n: nat) returns (k: nat)
    requires Doubled(c, n) >= need
    ensures FirstEnough(c, need, k)
  {
    if m :| 0 <= m < n && Doubled(c, m) >= need {
      k := LeastEnough(c, need, m);
    } else {
      k := n;
    }
  }

  lemma GrownStaysBelowTop(cap: uint32, need: uint32, newcap: uint32)
    requires (cap == 0 || Capacity(cap)) && GrowsTo(cap, need, newcap)
    ensures newcap <= TOP && (newcap == cap || newcap == 0 || Capacity(newcap))
  {
    StartsAsCapacity(cap);
    if cap != 0 {
      CapacityDoubles(cap);
    }
    if need > cap {
      var n :| FirstEnough(Start(cap), need, n) && newcap == Doubled(Start(cap), n);
      DoubledStaysCapacity(Start(cap), n);
      if newcap != 0 {
        CapacityDoubles(newcap);
      }
    }
  }

  /** The sum the buffer computes may wrap. The call returns exactly when the wrapped sum is at
      most 2^31, and has made room for what was asked exactly when the true sum is: in between
      it never returns, and from 2^32 on it may return without room. */
  lemma EnsureMakesRoomIff(cap: uint32, len: uint32, extra: uint32)
    requires cap == 0 || Capacity(cap)
    ensures (exists newcap :: GrowsTo(cap, Add32(len, extra), newcap)) <==> Add32(len, extra) <= TOP
    ensures (exists newcap :: GrowsTo(cap, Add32(len, extra), newcap) && len + extra <= newcap) <==> len + extra <= TOP
  {
    var need := Add32(len, extra);
    assert len + extra <= TOP ==> need == len + extra;
    forall newcap: uint32 | GrowsTo(cap, need, newcap) ensures newcap <= TOP && need <= newcap {
      GrownStaysBelowTop(cap, need, newcap);
    }
    if need <= TOP {
      var newcap := SomeCapacity(cap, need);
      assert GrowsTo(cap, need, newcap);
    }
  }

  lemma SomeCapacity(cap: uint32, need: uint32) returns (newcap: uint32)
    requires (cap == 0 || Capacity(cap)) && need <= TOP
    ensures GrowsTo(cap, need, newcap)
  {
    newcap := cap;
    if need > cap {
      StartsAsCapacity(cap);
      DoublingEndsIff(Start(cap), need);
      var n :| Doubled(Start(cap), n) >= need;
      var k := LeastEnough(Start(cap), need, n);
      newcap := Doubled(Start(cap), k);
    }
  }

  // ----------------------------------------------------------------------- the buffer

  /** The doubling loop, for a need it ends for. */
  method GrownCapacity(cap: uint32, need: uint32) returns (newcap: uint32)
    requires (cap == 0 || Capacity(cap)) && cap < need <= TOP
    ensures Capacity(newcap) && need <= newcap && 2 * cap <= newcap && GrowsTo(cap, need, newcap)
    ensures newcap <= FIRST_CAP || newcap < 2 * need
  {
    newcap := if cap != 0 then cap else FIRST_CAP;
    ghost var n := 0;
    StartsAsCapacity(cap);
    while newcap < need
      invariant Capacity(newcap) && Growing(cap, need, n, newcap)
      invariant newcap == FIRST_CAP || newcap == cap || newcap < 2 * need
      invariant newcap == cap || cap == 0 || newcap >= 2 * cap
      decreases need - newcap
    {
      GrowOn(cap, need, n, newcap);
      newcap := newcap * 2 % TWO32;
      n := n + 1;
    }
    GrownTo(cap, need, n, newcap);
  }

  /** The loop has gone round `n` times, each for too small a capacity. */
  ghost predicate Growing(cap: uint32, need: uint32, n: nat, newcap: uint32) {
    newcap >= FIRST_CAP && newcap == Doubled(Start(cap), n) && forall m | 0 <= m < n :: Doubled(Start(cap), m) < need
  }

  lemma GrowOn(cap: uint32, need: uint32, n: nat, newcap: uint32)
    requires Growing(cap, need, n, newcap) && Capacity(newcap) && newcap < need <= TOP
    ensures newcap * 2 % TWO32 == 2 * newcap && Capacity(2 * newcap) && Growing(cap, need, n + 1, 2 * newcap)
  {
    CapacityDoubles(newcap);
    TwiceInAWord(newcap);
    assert Doubled(Start(cap), n + 1) == Doubled(Start(cap), n) * 2 % TWO32;
  }

  lemma GrownTo(cap: uint32, need: uint32, n: nat, newcap: uint32)
    requires Growing(cap, need, n, newcap) && newcap >= need > cap
    ensures GrowsTo(cap, need, newcap)
  {
    assert FirstEnough(Start(cap), need, n);
  }

  class Buffer {
    var data: array<byte>
    var len: uint32
    var cap: uint32
    // bytes moved by realloc so far
    ghost var moved: nat

    ghost predicate Valid()
      reads this
    {
      && data.Length == cap && len <= cap
      && (cap == 0 || Capacity(cap))
      && (cap <= FIRST_CAP || cap < 2 * len)
      && moved <= cap
    }

    ghost function Contents(): seq<byte>
      requires Valid()
      reads this, data
    {
      data[..len]
    }

    constructor ()
      ensures Valid() && fresh(data) && Contents() == []
    {
      data := new byte[0];
      len, cap, moved := 0, 0, 0;
    }

    /** Makes room for `extra` more bytes, unless the sum wraps: then nothing happens to the
        contents, but the room is not there. The need must be one the loop ends for. What was
        written is kept, and the capacity at least doubles, so all the copying ever done stays
        below the capacity. */
    method Ensure(extra: uint32)
      requires Valid() && Add32(len, extra) <= TOP
      modifies this
      ensures data == old(data) || fresh(data)
      ensures data.Length == cap && len == old(len) <= cap && data[..len] == old(data[..len])
      ensures GrowsTo(old(cap), Add32(len, extra), cap)
      ensures len + extra <= cap <==> len + extra <= TOP
      ensures (cap == 0 || Capacity(cap)) && cap >= old(cap)
      ensures cap <= FIRST_CAP || cap < 2 * (len + extra)
      ensures moved <= cap
    {
      var need := Add32(len, extra);
      NeedIs(len, extra);
      if cap != 0 {
        CapacityDoubles(cap);
      }
      if need <= cap {
        return;
      }
      var newcap := GrownCapacity(cap, need);
      CapacityDoubles(newcap);
      Realloc(newcap);
    }

    /** Room for a sum that does not wrap. */
    method Reserve(extra: uint32)
      requires Valid() && len + extra <= TOP
      modifies this
      ensures data == old(data) || fresh(data)
      ensures data.Length == cap && len == old(len) && len + extra <= cap
      ensures data[..len] == old(data[..len])
      ensures (cap == 0 || Capacity(cap)) && cap >= old(cap)
      ensures cap <= FIRST_CAP || cap < 2 * (len + extra)
      ensures moved <= cap
    {
      NeedIs(len, extra);
      Ensure(extra);
    }

    method Realloc(newcap: uint32)
      requires data.Length == cap && len <= cap <= newcap
      modifies this
      ensures fresh(data) && data.Length == cap == newcap
      ensures len == old(len) && data[..len] == old(data[..len])
      ensures moved == old(moved) + old(cap)
    {
      var fresher := new byte[newcap];
      for i := 0 to cap
        invariant data.Length == cap <= fresher.Length && fresher != data
        invariant data == old(data) && len == old(len) && cap == old(cap) && moved == old(moved)
        invariant data[..] == old(data[..])
        invariant fresher[..i] == data[..i]
      {
        fresher[i] := data[i];
      }
      assert fresher[..len] == fresher[..cap][..len] == old(data[..len]);
      moved := moved + cap;
      data := fresher;
      cap := newcap;
    }

    /** memcpy behind the contents and advance. */
    method Append(bytes: seq<byte>)
      requires Valid() && len + |bytes| <= TOP
      modifies this, data
      ensures data == old(data) || fresh(data)
      ensures Valid() && Contents() == old(Contents()) + bytes && cap >= old(cap)
    {
      Reserve(|bytes|);
      Store(bytes);
    }

    method Store(bytes: seq<byte>)
      requires data.Length == cap && len + |bytes| <= cap
      modifies this`len, data
      ensures len == old(len) + |bytes|
      ensures data[..len] == old(data[..len]) + bytes
    {
      for i := 0 to |bytes|
        invariant len == old(len)
        invariant data[..len + i] == old(data[..len]) + bytes[..i]
      {
        data[len + i] := bytes[i];
        assert bytes[..i + 1] == bytes[..i] + [bytes[i]];
      }
      assert bytes[..|bytes|] == bytes;
      len := len + |bytes|;
    }

    method EncodeRaw(bytes: seq<byte>)
      requires Valid() && len + |bytes| <= TOP
      modifies this, data
      ensures data == old(data) || fresh(data)
      ensures Valid() && Contents() == old(Contents()) + bytes && cap >= old(cap)
    {
      Append(bytes);
    }

    /** Reserve for the whole argument, then tag, length and bytes. */
    method EncodeValue(a: Arg)
      requires Valid() && Encodable(a) && len + |EncodeArg(a)| <= TOP
      modifies this, data
      ensures data == old(data) || fresh(data)
      ensures Valid() && Contents() == old(Contents()) + EncodeArg(a) && cap >= old(cap)
    {
      match a {
        case Int32(i) => Append(EncodeWord(ARG_INT32, AsUnsigned(i)));
        case Uint32(u) => Append(EncodeWord(ARG_UINT32, u));
        case Handle(h) => Append(EncodeWord(ARG_HANDLE, h));
        case Null => Append([ARG_NULL]);
        case Str(s) => EncodeBlockArg(ARG_STRING, s);
        case Buf(s) => EncodeBlockArg(ARG_BUFFER, s);
      }
    }

    method EncodeBlockArg(tag: byte, s: seq<byte>)
      requires Valid() && |s| < TWO32 && len + 5 + |s| <= TOP
      modifies this, data
      ensures data == old(data) || fresh(data)
      ensures Valid() && Contents() == old(Contents()) + EncodeBlock(tag, s) && cap >= old(cap)
    {
      Reserve(5 + |s|);
      Store([tag]);
      Store(Be32(|s|));
      Store(s);
    }
  }

  lemma NeedIs(len: uint32, extra: uint32)
    ensures Add32(len, extra) == if len + extra < TWO32 then len + extra else len + extra - TWO32
  {
  }

  lemma StartsAsCapacity(cap: uint32)
    requires cap == 0 || Capacity(cap)
    ensures Capacity(FIRST_CAP) && (cap != 0 ==> cap >= FIRST_CAP)
  {
    assert FIRST_CAP == 256 * Pow2(0);
    if cap != 0 {
      var k :| 0 <= k <= 23 && cap == 256 * Pow2(k);
      Pow2Positive(k);
    }
  }

  // ----------------------------------------------------------------------- the cursor

  /** Arguments decoded already, in front of what the rest of the frame gives. */
  function Prefixed(args: seq<Arg>, g: Got<seq<Arg>>): Got<seq<Arg>> {
    Got(if g.value.Some? then Some(args + g.value.value) else None, g.pos)
  }

  lemma PrefixedStep(buf: seq<byte>, pos: uint32, args: seq<Arg>, kinds: seq<Kind>, i: nat)
    requires Frame(buf) && pos <= |buf| && i < |kinds|
    ensures var a := DecodeKind(buf, pos, kinds[i]);
      Prefixed(args, DecodeArgs(buf, pos, kinds[i..]))
      == if a.value.None? then Got(None, a.pos) else Prefixed(args + [a.value.value], DecodeArgs(buf, a.pos, kinds[i + 1..]))
  {
    assert kinds[i..][1..] == kinds[i + 1..];
    var a := DecodeKind(buf, pos, kinds[i]);
    if a.value.Some? {
      var rest := DecodeArgs(buf, a.pos, kinds[i + 1..]);
      assert rest.value.Some? ==> args + ([a.value.value] + rest.value.value) == args + [a.value.value] + rest.value.value;
    }
  }

  class Reader {
    const buf: array<byte>
    var pos: uint32

    constructor (buf: array<byte>)
      ensures this.buf == buf && pos == 0
    {
      this.buf := buf;
      pos := 0;
    }

    ghost predicate Valid()
      reads this, buf
    {
      Frame(buf[..]) && pos <= buf.Length
    }

    method DecodeTagged(tag: byte) returns (ok: bool, n: uint32)
      requires Valid()
      modifies this`pos
      ensures Valid()
      ensures Got(if ok then Some(n) else None, pos) == DecodeWord(buf[..], old(pos), tag)
    {
      n := 0;
      if Add32(pos, 5) > buf.Length {
        return false, n;
      }
      if buf[pos] != tag {
        return false, n;
      }
      pos := pos + 1;
      n := ReadWord();
      ok := true;
    }

    /** memcpy of four bytes and ntohl. */
    method ReadWord() returns (n: uint32)
      requires Valid() && pos + 4 <= buf.Length
      modifies this`pos
      ensures pos == old(pos) + 4 && n == BeAt(buf[..], old(pos), old(pos) + 4)
    {
      n := BeAt(buf[..], pos, pos + 4);
      pos := pos + 4;
    }

    method RequestHeaderIn() returns (h: Option<Request>)
      requires Valid()
      modifies this`pos
      ensures Valid() && Got(h, pos) == DecodeRequestHeader(buf[..], old(pos))
    {
      if Add32(pos, 6) > buf.Length {
        return None;
      }
      var number := ReadWord();
      h := Some(Request(number, BeAt(buf[..], pos, pos + 2)));
      pos := pos + 2;
    }

    /** rpc_decode_string and rpc_decode_buffer. */
    method DecodeBytes(tag: byte, limit: nat) returns (ok: bool, r: Option<seq<byte>>)
      requires Valid() && limit <= MAX_BUFFER_SIZE && tag != ARG_NULL
      modifies this`pos
      ensures Valid()
      ensures Got(if ok then Some(r) else None, pos) == DecodeBlock(buf[..], old(pos), tag, limit)
    {
      r := None;
      if Add32(pos, 1) > buf.Length {
        return false, r;
      }
      var t := buf[pos];
      if t == ARG_NULL {
        pos := pos + 1;
        return true, r;
      }
      if t != tag || Add32(pos, 5) > buf.Length {
        return false, r;
      }
      pos := pos + 1;
      var n := ReadWord();
      if n > limit || Add32(pos, n) > buf.Length {
        return false, r;
      }
      r := Some(buf[pos..pos + n]);
      assert buf[pos..pos + n] == buf[..][pos..pos + n];
      pos := pos + n;
      ok := true;
    }

    /** One argument of a dispatch branch. */
    method Decode(k: Kind) returns (r: Option<Arg>)
      requires Valid()
      modifies this`pos
      ensures Valid() && Got(r, pos) == DecodeKind(buf[..], old(pos), k)
    {
      match k {
        case KInt32 =>
          var ok, n := DecodeTagged(ARG_INT32);
          r := if ok then Some(Int32(AsSigned(n))) else None;
        case KUint32 =>
          var ok, n := DecodeTagged(ARG_UINT32);
          r := if ok then Some(Uint32(n)) else None;
        case KHandle =>
          var ok, n := DecodeTagged(ARG_HANDLE);
          r := if ok then Some(Handle(n)) else None;
        case KStr =>
          var ok, s := DecodeBytes(ARG_STRING, MAX_STRING_LEN);
          r := if !ok then None else if s.None? then Some(Null) else Some(Str(s.value));
        case KBuf =>
          var ok, s := DecodeBytes(ARG_BUFFER, MAX_BUFFER_SIZE);
          r := if !ok then None else if s.None? then Some(Null) else Some(Buf(s.value));
      }
    }

    /** All arguments of a dispatch branch, up to the first failure. */
    method DecodeAll(kinds: seq<Kind>) returns (r: Option<seq<Arg>>)
      requires Valid()
      modifies this`pos
      ensures Valid() && Got(r, pos) == DecodeArgs(buf[..], old(pos), kinds)
    {
      var args: seq<Arg> := [];
      ghost var whole := DecodeArgs(buf[..], pos, kinds);
      assert kinds[0..] == kinds;
      assert whole.value.Some? ==> [] + whole.value.value == whole.value.value;
      for i := 0 to |kinds|
        invariant Valid()
        invariant whole == Prefixed(args, DecodeArgs(buf[..], pos, kinds[i..]))
        invariant buf[..] == old(buf[..])
      {
        PrefixedStep(buf[..], pos, args, kinds, i);
        var a := Decode(kinds[i]);
        if a.None? {
          return None;
        }
        args := args + [a.value];
      }
      assert kinds[|kinds|..] == [] && args + [] == args;
      r := Some(args);
    }
  }
}
