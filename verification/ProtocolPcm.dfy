/** The end of the samples' way: the accumulator of the command line program, fed by its
    callback, holds what the engine has produced. */
module ProtocolPcm {
  import opened Bytes
  import opened Events
  import opened Protocol
  import opened ProtocolInvariant
  import opened ProtocolHistory
  import opened ProtocolAudio
  import opened PcmBuffer
  import Host = CallbackTable

  /** Two bytes as a sample of the little-endian host. */
  function Sample(low: byte, high: byte): int16 {
    var n := low + 256 * high;
    if n >= 0x8000 then n - 0x1_0000 else n
  }

  function SamplesOf(b: seq<byte>): (s: seq<int16>)
    ensures |s| == |b| / 2
  {
    if |b| < 2 then [] else [Sample(b[0], b[1])] + SamplesOf(b[2..])
  }

  /** Two bytes to a sample, in order, least significant first, as the host's memory has them. */
  lemma {:induction false} SamplesBytes(b: seq<byte>, k: nat)
    requires 2 * k + 1 < |b|
    ensures SamplesOf(b)[k] % 256 == b[2 * k] && SamplesOf(b)[k] / 256 % 256 == b[2 * k + 1]
  {
    if k > 0 {
      SamplesBytes(b[2..], k - 1);
    } else {
      SampleBytes(b[0], b[1]);
    }
  }

  lemma SampleBytes(low: byte, high: byte)
    ensures Sample(low, high) % 256 == low && Sample(low, high) / 256 % 256 == high
  {
    var n: nat := low + 256 * Wide(high);
    assert n / 256 == high && n % 256 == low;
    if n >= 0x8000 {
      assert (n - 0x1_0000) / 256 == high - 256 && (n - 0x1_0000) % 256 == low;
    }
  }

  function Wide(b: byte): nat {
    b
  }

  lemma {:induction false} SamplesAppend(a: seq<byte>, b: seq<byte>)
    requires |a| % 2 == 0
    ensures SamplesOf(a + b) == SamplesOf(a) + SamplesOf(b)
  {
    if a == [] {
      assert a + b == b;
    } else {
      assert (a + b)[2..] == a[2..] + b;
      SamplesAppend(a[2..], b);
    }
  }

  /** What the callback of handle `h` found on this occasion. */
  function BlockOf(e: Handled, h: uint32): seq<byte> {
    if e.handle == h && e.heard.Some? then e.heard.value else []
  }

  /** Whole samples, and no more than the callback buffer holds. */
  predicate Playable(e: Handled) {
    e.heard.Some? ==> |e.heard.value| % 2 == 0 && |e.heard.value| <= 2 * CALLBACK_BUF_SIZE
  }

  lemma {:induction false} AccumulatedEven(handled: seq<Handled>, h: uint32)
    requires forall k :: 0 <= k < |handled| ==> Playable(handled[k])
    ensures |Accumulated(handled, h)| % 2 == 0
  {
    if handled != [] {
      AccumulatedEven(handled[..|handled| - 1], h);
    }
  }

  lemma OneMoreBlock(handled: seq<Handled>, h: uint32, k: nat)
    requires k < |handled| && forall i :: 0 <= i < |handled| ==> Playable(handled[i])
    ensures SamplesOf(Accumulated(handled[..k + 1], h))
         == SamplesOf(Accumulated(handled[..k], h)) + SamplesOf(BlockOf(handled[k], h))
  {
    assert handled[..k + 1][..k] == handled[..k];
    AccumulatedEven(handled[..k], h);
    SamplesAppend(Accumulated(handled[..k], h), BlockOf(handled[k], h));
  }

  lemma {:induction false} AccumulatedGrows(handled: seq<Handled>, h: uint32, k: nat)
    requires k <= |handled|
    ensures |Accumulated(handled[..k], h)| <= |Accumulated(handled, h)|
  {
    if k < |handled| {
      var n := |handled| - 1;
      assert handled[..n][..k] == handled[..k];
      AccumulatedGrows(handled[..n], h, k);
    } else {
      assert handled[..k] == handled;
    }
  }

  /** One call of the program's callback, the samples already in its buffer. */
  method Hear(pcm: Pcm, block: seq<int16>)
    requires pcm.Valid() && |block| <= CALLBACK_BUF_SIZE && pcm.len + |block| <= LIMIT
    modifies pcm, pcm.data, pcm.callbackBuffer
    ensures pcm.Valid() && (pcm.data == old(pcm.data) || fresh(pcm.data))
    ensures pcm.Contents() == old(pcm.Contents()) + block
  {
    for i := 0 to |block|
      invariant pcm.callbackBuffer[..i] == block[..i]
      modifies pcm.callbackBuffer
    {
      pcm.callbackBuffer[i] := block[i];
    }
    assert block[..|block|] == block;
    pcm.Append(|block|);
  }

  /** All of them, in the order the callback was called. */
  method Collect(pcm: Pcm, handled: seq<Handled>, h: uint32)
    requires pcm.Valid() && pcm.len == 0 && forall k :: 0 <= k < |handled| ==> Playable(handled[k])
    requires |Accumulated(handled, h)| <= 2 * LIMIT
    modifies pcm, pcm.data, pcm.callbackBuffer
    ensures pcm.Valid() && pcm.Contents() == SamplesOf(Accumulated(handled, h))
  {
    for k := 0 to |handled|
      invariant pcm.Valid() && (pcm.data == old(pcm.data) || fresh(pcm.data))
      invariant pcm.Contents() == SamplesOf(Accumulated(handled[..k], h))
    {
      OneMoreBlock(handled, h, k);
      AccumulatedGrows(handled, h, k + 1);
      Hear(pcm, SamplesOf(BlockOf(handled[k], h)));
    }
    assert handled[..|handled|] == handled;
  }

  // ---------------------------------------------------------------- blocks in whole runs

  predicate AllSamples(h: History) {
    forall k :: 0 <= k < |h.sent| ==> Samples(h.sent[k])
  }

  lemma StepKeepsSamples(s: Sys, step: Step)
    requires AllSamples(s.hist) && Next(s, step).Some?
    ensures AllSamples(Next(s, step).value.hist)
  {
    if step.Raise? {
      OneMoreSample(s.hist.sent, Next(s, step).value.hist.sent, step.e);
    } else {
      assert Next(s, step).value.hist.sent == s.hist.sent;
    }
  }

  lemma OneMoreSample(sent: seq<Event>, more: seq<Event>, e: Event)
    requires (forall k :: 0 <= k < |sent| ==> Samples(sent[k])) && (more == sent || (more == sent + [e] && Samples(e)))
    ensures forall k :: 0 <= k < |more| ==> Samples(more[k])
  {
  }

  lemma {:induction false} RunKeepsSamples(s: Sys, steps: seq<Step>)
    requires AllSamples(s.hist) && Run(s, steps).Some?
    ensures AllSamples(Run(s, steps).value.hist)
    decreases |steps|
  {
    if steps != [] {
      StepKeepsSamples(s, steps[0]);
      RunKeepsSamples(Next(s, steps[0]).value, steps[1..]);
    }
  }

  lemma HandledIsPlayable(programs: seq<seq<Call>>, table: seq<Host.Entry>, mem: map<nat, seq<byte>>, steps: seq<Step>, t: Sys)
    requires AllTyped(programs) && Run(Init(programs, table, mem), steps) == Some(t)
    requires InFullRun(Init(programs, table, mem), steps)
    requires forall k :: 0 <= k < |t.hist.sent| ==> |t.hist.sent[k].data| <= 2 * CALLBACK_BUF_SIZE
    ensures forall k :: 0 <= k < |t.hist.handled| ==> Playable(t.hist.handled[k])
  {
    var s := Init(programs, table, mem);
    InitAtRest(programs, table, mem);
    RunHistory(s, Quiet, steps);
    AllHeardIff(programs, table, mem, steps);
    RunKeepsSamples(s, steps);
    PlayableFrom(t.hist);
  }

  lemma PlayableFrom(h: History)
    requires AllHeard(h) && AllSamples(h) && |h.handled| <= |h.sent|
    requires forall k :: 0 <= k < |h.sent| ==> |h.sent[k].data| <= 2 * CALLBACK_BUF_SIZE
    ensures forall k :: 0 <= k < |h.handled| ==> Playable(h.handled[k])
  {
    forall k | 0 <= k < |h.handled| ensures Playable(h.handled[k]) {
      assert Samples(h.sent[k]) && h.handled[k].heard == Some(h.sent[k].data);
    }
  }

  /** From the engine to the program: after any run whose deliveries were in full, with blocks
      that fit the callback buffer and no more than 2^30 samples in all, the accumulator fed by
      the callback holds exactly the samples the engine of that handle has produced. */
  method ProgramHasTheAudio(pcm: Pcm, ghost programs: seq<seq<Call>>, ghost table: seq<Host.Entry>, ghost mem: map<nat, seq<byte>>,
                            ghost steps: seq<Step>, handled: seq<Handled>, h: uint32)
    requires AllTyped(programs) && Run(Init(programs, table, mem), steps).Some?
    requires InFullRun(Init(programs, table, mem), steps)
    requires var t := Run(Init(programs, table, mem), steps).value;
      && handled == t.hist.handled && !t.bridge.Awaiting?
      && (forall k :: 0 <= k < |t.hist.sent| ==> |t.hist.sent[k].data| <= 2 * CALLBACK_BUF_SIZE)
      && |Produced(t.hist.sent, h)| <= 2 * LIMIT
    requires pcm.Valid() && pcm.len == 0
    modifies pcm, pcm.data, pcm.callbackBuffer
    ensures pcm.Valid()
    ensures pcm.Contents() == SamplesOf(Produced(Run(Init(programs, table, mem), steps).value.hist.sent, h))
    ensures var bytes := Produced(Run(Init(programs, table, mem), steps).value.hist.sent, h);
      && |pcm.Contents()| == |bytes| / 2
      && forall k :: 0 <= k < |pcm.Contents()| ==>
           pcm.Contents()[k] % 256 == bytes[2 * k] && pcm.Contents()[k] / 256 % 256 == bytes[2 * k + 1]
  {
    AudioConserved(programs, table, mem, steps, h);
    HandledIsPlayable(programs, table, mem, steps, Run(Init(programs, table, mem), steps).value);
    Collect(pcm, handled, h);
    forall k | 0 <= k < |pcm.Contents()|
      ensures var bytes := Produced(Run(Init(programs, table, mem), steps).value.hist.sent, h);
        pcm.Contents()[k] % 256 == bytes[2 * k] && pcm.Contents()[k] / 256 % 256 == bytes[2 * k + 1]
    {
      SamplesBytes(Produced(Run(Init(programs, table, mem), steps).value.hist.sent, h), k);
    }
  }
}
