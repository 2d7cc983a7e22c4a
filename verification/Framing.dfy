/** Messages over a byte stream: a four byte length, a type byte, the data. The stream hands
    over and takes any number of bytes at a time, with interruptions in between. */
module Framing {
  import opened Bytes
  import opened Codec

  datatype Msg = Msg(kind: byte, data: seq<byte>)

  function FrameBytes(m: Msg): (b: seq<byte>)
    requires |m.data| < TWO32
    ensures |b| == 5 + |m.data|
  {
    Be32((1 + |m.data|) % TWO32) + [m.kind] + m.data
  }

  datatype Parsed = Parsed(msg: Msg, rest: seq<byte>)

  /** What rpc_read_msg makes of the bytes that will ever arrive. */
  function ParseMsg(bytes: seq<byte>): Option<Parsed> {
    if |bytes| < 5 then None
    else
      var payload := BeAt(bytes, 0, 4);
      if payload < 1 || payload > MAX_MSG_SIZE || |bytes| < 4 + payload then None
      else Some(Parsed(Msg(bytes[4], bytes[5..4 + payload]), bytes[4 + payload..]))
  }

  predicate Fits(m: Msg) {
    |m.data| < MAX_MSG_SIZE
  }

  /** A written message is read back exactly when its data leaves room for the type byte in
      MAX_MSG_SIZE; otherwise the reader gives up. */
  lemma FrameParsesIff(m: Msg, rest: seq<byte>)
    requires |m.data| < TWO32
    ensures ParseMsg(FrameBytes(m) + rest) == if Fits(m) then Some(Parsed(m, rest)) else None
  {
    var b := FrameBytes(m) + rest;
    var payload := (1 + |m.data|) % TWO32;
    assert b[0..4] == Be32(payload);
    Be32RoundTrip(payload, b, 0);
    if Fits(m) {
      assert b[4] == m.kind && b[5..4 + payload] == m.data && b[4 + payload..] == rest;
    }
  }

  /** The reader accepts nothing but frames. */
  lemma ParsedWasFramed(bytes: seq<byte>)
    requires ParseMsg(bytes).Some?
    ensures var p := ParseMsg(bytes).value; Fits(p.msg) && bytes == FrameBytes(p.msg) + p.rest
  {
    var n := BeAt(bytes, 0, 4);
    Be32Inverse(bytes, 0);
    FrameFields(bytes, 4 + n);
    FrameOf(bytes[0..4], bytes[4], bytes[5..4 + n], n);
  }

  lemma FrameOf(length: seq<byte>, kind: byte, data: seq<byte>, n: uint32)
    requires length == Be32(n) && 1 <= n <= MAX_MSG_SIZE && |data| == n - 1
    ensures FrameBytes(Msg(kind, data)) == length + [kind] + data
  {
  }

  lemma FrameFields(b: seq<byte>, n: nat)
    requires 5 <= n <= |b|
    ensures b == b[0..4] + [b[4]] + b[5..n] + b[n..]
  {
  }

  function FrameAll(ms: seq<Msg>): seq<byte>
    requires forall m :: m in ms ==> |m.data| < TWO32
  {
    if ms == [] then [] else FrameBytes(ms[0]) + FrameAll(ms[1..])
  }

  /** The messages a receive loop gets before rpc_read_msg fails, and what is left then. */
  function ParseAll(bytes: seq<byte>): (r: (seq<Msg>, seq<byte>))
    decreases |bytes|
  {
    var p := ParseMsg(bytes);
    if p.None? then ([], bytes)
    else
      assert |p.value.rest| < |bytes|;
      var r := ParseAll(p.value.rest);
      ([p.value.msg] + r.0, r.1)
  }

  /** How many messages get through before the first one that does not fit. */
  function Through(ms: seq<Msg>): (n: nat)
    ensures n <= |ms| && (n < |ms| ==> !Fits(ms[n])) && forall i :: 0 <= i < n ==> Fits(ms[i])
  {
    if ms == [] || !Fits(ms[0]) then 0 else 1 + Through(ms[1..])
  }

  /** A receive loop gets the sent messages up to the first that does not fit, and stops in
      front of it: all of them, at the end of the stream, exactly when all fit. */
  lemma AllFramesParse(ms: seq<Msg>)
    requires forall m :: m in ms ==> |m.data| < TWO32
    ensures ParseAll(FrameAll(ms)) == (ms[..Through(ms)], FrameAll(ms[Through(ms)..]))
  {
    FramesParse(ms, FrameAll(ms), ParseAll(FrameAll(ms)), Through(ms));
  }

  lemma {:induction false} FramesParse(ms: seq<Msg>, f: seq<byte>, r: (seq<Msg>, seq<byte>), n: nat)
    requires forall m :: m in ms ==> |m.data| < TWO32
    requires f == FrameAll(ms) && r == ParseAll(f) && n == Through(ms)
    ensures r == (ms[..n], FrameAll(ms[n..]))
    decreases |ms|
  {
    if ms == [] {
      assert ParseMsg([]).None?;
    } else {
      assert ms[0] in ms;
      var rest := FrameAll(ms[1..]);
      FrameAllStep(ms, FrameBytes(ms[0]), rest);
      ParseAllOne(ms[0], rest, ParseAll(rest));
      if Fits(ms[0]) {
        FramesParse(ms[1..], rest, ParseAll(rest), Through(ms[1..]));
        FirstApart(ms, n);
      } else {
        assert ms[0..] == ms && ms[..0] == [];
      }
    }
  }

  lemma FirstApart(ms: seq<Msg>, n: nat)
    requires 0 < n <= |ms|
    ensures ms[..n] == [ms[0]] + ms[1..][..n - 1] && ms[n..] == ms[1..][n - 1..]
  {
  }

  lemma ParseAllOne(m: Msg, rest: seq<byte>, r: (seq<Msg>, seq<byte>))
    requires |m.data| < TWO32 && r == ParseAll(rest)
    ensures ParseAll(FrameBytes(m) + rest) == if Fits(m) then ([m] + r.0, r.1) else ([], FrameBytes(m) + rest)
  {
    FrameParsesIff(m, rest);
    ParseAllStep(FrameBytes(m) + rest);
  }

  lemma ParseAllStep(bytes: seq<byte>)
    ensures ParseAll(bytes) == (if ParseMsg(bytes).None? then ([], bytes)
                                else ([ParseMsg(bytes).value.msg] + ParseAll(ParseMsg(bytes).value.rest).0,
                                      ParseAll(ParseMsg(bytes).value.rest).1))
  {
  }

  /** Whatever the loop read, the stream was those messages and then the rest. */
  lemma {:induction false} ParseAllInverse(bytes: seq<byte>)
    ensures var (ms, rest) := ParseAll(bytes);
      (forall m :: m in ms ==> Fits(m)) && bytes == FrameAll(ms) + rest
    decreases |bytes|
  {
    var p := ParseMsg(bytes);
    if p.None? {
      assert bytes == [] + bytes;
    } else {
      ParsedWasFramed(bytes);
      ParseAllInverse(p.value.rest);
      var (tail, rest) := ParseAll(p.value.rest);
      FrameAllJoin(p.value.msg, tail, rest, p.value.rest);
    }
  }

  lemma FrameAllJoin(m: Msg, tail: seq<Msg>, rest: seq<byte>, behind: seq<byte>)
    requires Fits(m) && (forall x :: x in tail ==> Fits(x) && |x.data| < TWO32) && behind == FrameAll(tail) + rest
    ensures (forall x :: x in [m] + tail ==> Fits(x)) && FrameBytes(m) + behind == FrameAll([m] + tail) + rest
  {
    assert ([m] + tail)[1..] == tail;
    FrameAllStep([m] + tail, FrameBytes(m), FrameAll(tail));
    assert FrameBytes(m) + (FrameAll(tail) + rest) == (FrameBytes(m) + FrameAll(tail)) + rest;
  }

  lemma FrameAllStep(ms: seq<Msg>, x: seq<byte>, y: seq<byte>)
    requires (forall m :: m in ms ==> |m.data| < TWO32) && ms != []
    requires (forall m :: m in ms[1..] ==> |m.data| < TWO32) && |ms[0].data| < TWO32
    requires x == FrameBytes(ms[0]) && y == FrameAll(ms[1..])
    ensures FrameAll(ms) == x + y
  {
  }

  lemma FrameAllFrom(ms: seq<Msg>, i: nat, before: seq<byte>)
    requires i < |ms| && forall m :: m in ms ==> |m.data| < TWO32
    ensures before + FrameAll(ms[i..]) == (before + FrameBytes(ms[i])) + FrameAll(ms[i + 1..])
  {
    assert ms[i..][1..] == ms[i + 1..];
    FrameAllStep(ms[i..], FrameBytes(ms[i]), FrameAll(ms[i + 1..]));
  }

  // ----------------------------------------------------------------- the byte stream

  type positive = n: int | n > 0 witness 1

  /** What the kernel does with one read or write call. */
  datatype Turn = Interrupted | Broken | UpTo(n: positive)
  datatype Outcome = Eintr | Error | Moved(n: nat)

  /** The bytes in transit, and what the coming calls will do; once the turns are used up a
      call moves all it is asked to. A turn moves at least one byte, so any run of short
      transfers with finitely many interruptions is such a list. */
  class Stream {
    var bytes: seq<byte>
    var turns: seq<Turn>

    constructor (bytes: seq<byte>, turns: seq<Turn>)
      ensures this.bytes == bytes && this.turns == turns
    {
      this.bytes, this.turns := bytes, turns;
    }

    method Turn() returns (t: Turn)
      modifies this`turns
      ensures if old(turns) == [] then turns == [] && t.UpTo? else turns == old(turns)[1..] && t == old(turns)[0]
      ensures t.UpTo? && old(turns) == [] ==> t == UpTo(TWO32 * TWO32)
    {
      if turns == [] {
        return UpTo(TWO32 * TWO32);
      }
      t := turns[0];
      turns := turns[1..];
    }

    /** read(2) into buf at `at`, at most `most` bytes; zero at the end of the stream. */
    method Read(buf: array<byte>, at: nat, most: positive) returns (r: Outcome)
      requires at + most <= buf.Length
      modifies this, buf
      ensures r.Moved? ==> r.n <= most && r.n <= |old(bytes)| && (r.n == 0 ==> old(bytes) == [])
      ensures var n := if r.Moved? then r.n else 0;
        bytes == old(bytes)[n..] && buf[..at + n] == old(buf[..at]) + old(bytes)[..n]
      ensures Spent(old(turns), turns) && (r.Eintr? ==> |turns| < |old(turns)|)
      ensures r.Error? ==> Broken in old(turns)
    {
      var t := Turn();
      var n := if t.UpTo? then Least(t.n, Least(most, |bytes|)) else 0;
      for i := 0 to n
        invariant bytes == old(bytes) && turns == old(turns)[if old(turns) == [] then 0 else 1..]
        invariant buf[..at + i] == old(buf[..at]) + bytes[..i]
      {
        buf[at + i] := bytes[i];
      }
      bytes := bytes[n..];
      r := match t case Interrupted => Eintr case Broken => Error case UpTo(_) => Moved(n);
    }

    /** write(2): `out[at..]` goes onto the end of the stream, or a first part of it. */
    method Write(out: seq<byte>, at: nat) returns (r: Outcome)
      requires at < |out|
      modifies this
      ensures r.Moved? ==> 0 < r.n <= |out| - at
      ensures var n := if r.Moved? then r.n else 0; bytes == old(bytes) + out[at..at + n]
      ensures Spent(old(turns), turns) && (r.Eintr? ==> |turns| < |old(turns)|)
      ensures r.Error? ==> Broken in old(turns)
    {
      var t := Turn();
      var n := if t.UpTo? then Least(t.n, |out| - at) else 0;
      bytes := bytes + out[at..at + n];
      r := match t case Interrupted => Eintr case Broken => Error case UpTo(_) => Moved(n);
    }
  }

  function Least(a: nat, b: nat): nat {
    if a < b then a else b
  }

  /** Some turns were used; no failure was added. */
  predicate Spent(was: seq<Turn>, now: seq<Turn>) {
    |now| <= |was| && (Broken in now ==> Broken in was)
  }

  /** Fills `n` bytes of the buffer however the bytes come; fails only at the end of the
      stream or on a real error. */
  method ReadExact(s: Stream, buf: array<byte>, n: nat) returns (ok: bool)
    requires n <= buf.Length
    modifies s, buf
    ensures ok ==> n <= |old(s.bytes)| && buf[..n] == old(s.bytes)[..n] && s.bytes == old(s.bytes)[n..]
    ensures !ok ==> n > |old(s.bytes)| || Broken in old(s.turns)
    ensures |s.bytes| <= |old(s.bytes)|
    ensures Spent(old(s.turns), s.turns)
  {
    var p: nat, remaining: nat := 0, n;
    while remaining > 0
      invariant p + remaining == n && p <= |old(s.bytes)|
      invariant s.bytes == old(s.bytes)[p..]
      invariant buf[..p] == old(s.bytes)[..p]
      invariant Spent(old(s.turns), s.turns)
      decreases remaining, |s.turns|
    {
      var r := s.Read(buf, p, remaining);
      if r.Eintr? {
        continue;
      }
      if r.Error? || r.n == 0 {
        return false;
      }
      p := p + r.n;
      remaining := remaining - r.n;
    }
    ok := true;
  }

  /** Writes all of `out` however little is taken at a time; on a real error a proper
      prefix of it has gone out. */
  method WriteExact(s: Stream, out: seq<byte>) returns (ok: bool)
    modifies s
    ensures ok ==> s.bytes == old(s.bytes) + out
    ensures !ok ==> Broken in old(s.turns)
    ensures !ok ==> exists k | 0 <= k < |out| :: s.bytes == old(s.bytes) + out[..k]
    ensures Spent(old(s.turns), s.turns)
  {
    var p: nat, remaining: nat := 0, |out|;
    while remaining > 0
      invariant p + remaining == |out|
      invariant s.bytes == old(s.bytes) + out[..p]
      invariant Spent(old(s.turns), s.turns)
      decreases remaining, |s.turns|
    {
      var r := s.Write(out, p);
      if r.Eintr? {
        continue;
      }
      if r.Error? {
        return false;
      }
      assert out[..p] + out[p..p + r.n] == out[..p + r.n];
      p := p + r.n;
      remaining := remaining - r.n;
    }
    assert out[..|out|] == out;
    ok := true;
  }

  /** Without a real error the message read is the one the bytes parse to, and the stream
      is left behind it. */
  method ReadMsg(s: Stream) returns (m: Option<Msg>)
    modifies s
    ensures m.Some? ==> ParseMsg(old(s.bytes)) == Some(Parsed(m.value, s.bytes))
    ensures m.None? ==> ParseMsg(old(s.bytes)).None? || Broken in old(s.turns)
    ensures |s.bytes| <= |old(s.bytes)| && (m.Some? ==> |s.bytes| < |old(s.bytes)|)
    ensures Spent(old(s.turns), s.turns)
  {
    ghost var was := s.bytes;
    var word := new byte[4];
    var ok := ReadExact(s, word, 4);
    if !ok {
      return None;
    }
    var payload := BeAt(word[..], 0, 4);
    SameValue(was, word[..]);
    if payload < 1 || payload > MAX_MSG_SIZE {
      return None;
    }
    var kind := new byte[1];
    ok := ReadExact(s, kind, 1);
    if !ok {
      return None;
    }
    var data := new byte[payload - 1];
    ok := ReadExact(s, data, payload - 1);
    if !ok {
      return None;
    }
    m := Some(Msg(kind[0], data[..]));
    assert kind[0] == kind[..1][0] && data[..payload - 1] == data[..];
    assert was[4] == was[4..][..1][0];
    assert was[5..4 + payload] == was[4..][1..][..payload - 1];
    assert was[4 + payload..] == was[4..][1..][payload - 1..];
  }

  lemma SameValue(was: seq<byte>, word: seq<byte>)
    requires |was| >= 4 && |word| == 4 && word == was[..4]
    ensures BeAt(word, 0, 4) == BeAt(was, 0, 4)
  {
    assert was[0..4] == word[0..4];
    Be32Inverse(was, 0);
    Be32RoundTrip(BeAt(was, 0, 4), word, 0);
  }

  /** Without a real error the frame is on the stream; with one, at most a part of it. */
  method WriteMsg(s: Stream, m: Msg) returns (ok: bool)
    requires |m.data| < TWO32
    modifies s
    ensures ok ==> s.bytes == old(s.bytes) + FrameBytes(m)
    ensures !ok ==> Broken in old(s.turns)
    ensures !ok ==> exists k | 0 <= k < 5 + |m.data| :: s.bytes == old(s.bytes) + FrameBytes(m)[..k]
    ensures Spent(old(s.turns), s.turns)
  {
    ghost var was, b := s.bytes, FrameBytes(m);
    var word := Be32((1 + |m.data|) % TWO32);
    ok := WriteExact(s, word);
    if !ok {
      assert was + [] == was && [] + word + ([m.kind] + m.data) == b;
      PrefixOfWhole(was, [], word, [m.kind] + m.data, s.bytes);
      return;
    }
    ok := WriteExact(s, [m.kind]);
    if !ok {
      PrefixOfWhole(was, word, [m.kind], m.data, s.bytes);
      return;
    }
    ok := WriteExact(s, m.data);
    if !ok {
      assert was + word + [m.kind] == was + (word + [m.kind]) && b + [] == b;
      PrefixOfWhole(was, word + [m.kind], m.data, [], s.bytes);
    }
    assert was + word + [m.kind] + m.data == was + b;
  }

  /** A part of the middle piece behind the whole first piece is a part of the whole. */
  lemma PrefixOfWhole(was: seq<byte>, a: seq<byte>, b: seq<byte>, c: seq<byte>, now: seq<byte>)
    requires exists k | 0 <= k < |b| :: now == (was + a) + b[..k]
    ensures exists k | 0 <= k < |a + b + c| :: now == was + (a + b + c)[..k]
  {
    var k :| 0 <= k < |b| && now == (was + a) + b[..k];
    assert (a + b + c)[..|a| + k] == a + b[..k];
  }

  /** A receive loop, as in client_thread and callback_thread: it sees exactly the messages
      the bytes parse to, and stops where they stop. */
  method ReadAll(s: Stream) returns (ms: seq<Msg>)
    modifies s
    ensures Broken !in old(s.turns) ==>
      var (sent, rest) := ParseAll(old(s.bytes)); ms == sent && (rest == [] ==> s.bytes == [])
  {
    ms := [];
    ghost var whole := ParseAll(s.bytes);
    var going := true;
    assert [] + whole.0 == whole.0;
    while going
      invariant Broken !in old(s.turns) ==> Broken !in s.turns
      invariant Broken !in old(s.turns) && going ==> whole == (ms + ParseAll(s.bytes).0, ParseAll(s.bytes).1)
      invariant Broken !in old(s.turns) && !going ==> ms == whole.0 && |s.bytes| <= |whole.1|
      decreases |s.bytes|, going
    {
      ParseAllStep(s.bytes);
      ghost var now := s.bytes;
      var m := ReadMsg(s);
      if m.None? {
        going := false;
      } else {
        assert ParseMsg(now).Some? ==> ms + ParseAll(now).0 == ms + [ParseMsg(now).value.msg] + ParseAll(ParseMsg(now).value.rest).0;
        ms := ms + [m.value];
      }
    }
  }

  /** A list of messages written under one pattern of short writes. */
  method WriteAll(s: Stream, ms: seq<Msg>) returns (ok: bool)
    requires forall m :: m in ms ==> |m.data| < TWO32
    modifies s
    ensures ok ==> s.bytes == old(s.bytes) + FrameAll(ms)
    ensures !ok ==> Broken in old(s.turns)
    ensures Spent(old(s.turns), s.turns)
  {
    assert ms[0..] == ms;
    for i := 0 to |ms|
      invariant s.bytes + FrameAll(ms[i..]) == old(s.bytes) + FrameAll(ms)
      invariant Spent(old(s.turns), s.turns)
    {
      FrameAllFrom(ms, i, s.bytes);
      ok := WriteMsg(s, ms[i]);
      if !ok {
        return;
      }
    }
    assert ms[|ms|..] == [] && s.bytes + [] == s.bytes;
    ok := true;
  }

  /** Whatever the short transfers and interruptions on the way, a list of messages is read
      back as it was written, and the stream is left at its end; with a message that does not
      fit, the reader gets those in front of it. */
  method SendAndReceive(s: Stream, ms: seq<Msg>) returns (got: seq<Msg>)
    requires s.bytes == [] && Broken !in s.turns && forall m :: m in ms ==> |m.data| < TWO32
    modifies s
    ensures got == ms[..Through(ms)]
    ensures (forall m :: m in ms ==> Fits(m)) <==> got == ms
    ensures got == ms ==> s.bytes == []
  {
    var ok := WriteAll(s, ms);
    assert s.bytes == FrameAll(ms);
    AllFramesParse(ms);
    ThroughAllIff(ms);
    got := ReadAll(s);
  }

  lemma ThroughAllIff(ms: seq<Msg>)
    ensures (forall m :: m in ms ==> Fits(m)) <==> Through(ms) == |ms|
    ensures Through(ms) == |ms| <==> ms[..Through(ms)] == ms
    ensures Through(ms) == |ms| ==> ms[Through(ms)..] == []
  {
    var n := Through(ms);
    if n < |ms| {
      assert ms[n] in ms && |ms[..n]| == n;
    }
  }
}
