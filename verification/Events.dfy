/** The two messages of the callback channel: an engine's event, and the answer of the
    application's callback to it. */
module Events {
  import opened Bytes
  import opened Codec
  import opened Framing
  import opened RpcBuffer

  const MSG_RPC_REQUEST: byte := 1
  const MSG_RPC_RESPONSE: byte := 2
  const MSG_CALLBACK_EVENT: byte := 3
  const MSG_CALLBACK_RETURN: byte := 4

  const WAVEFORM_BUFFER: int32 := 0
  const DATA_PROCESSED: int32 := 1

  /** A callback of the engine: the samples, if any, are what its output buffer holds. */
  datatype Event = Event(handle: uint32, msg: int32, lparam: int32, data: seq<byte>)

  function EventHeader(e: Event): (b: seq<byte>)
    requires |e.data| < TWO32
    ensures |b| == 16
  {
    Be32(e.handle) + Be32(AsUnsigned(e.msg)) + Be32(AsUnsigned(e.lparam)) + Be32(|e.data|)
  }

  predicate EventFits(e: Event) {
    17 + |e.data| <= MAX_MSG_SIZE
  }

  function EventMsg(e: Event): Msg
    requires |e.data| < TWO32
  {
    Msg(MSG_CALLBACK_EVENT, EventHeader(e) + e.data)
  }

  function ReturnMsg(handle: uint32, ret: int32): Msg {
    Msg(MSG_CALLBACK_RETURN, Be32(handle) + Be32(AsUnsigned(ret)))
  }

  /** What the callback thread reads: the announced length and the bytes really there. */
  datatype Arrival = Arrival(handle: uint32, msg: int32, lparam: int32, length: uint32, rest: seq<byte>)

  /** None for messages the thread skips. */
  function ReadEvent(m: Msg): Option<Arrival> {
    if m.kind != MSG_CALLBACK_EVENT || |m.data| < 16 then None
    else Some(Arrival(BeAt(m.data, 0, 4), AsSigned(BeAt(m.data, 4, 8)), AsSigned(BeAt(m.data, 8, 12)),
                     BeAt(m.data, 12, 16), m.data[16..]))
  }

  /** The bridge's reading of an answer; anything unexpected counts as data processed. */
  function ReadReturn(m: Msg): int32 {
    if m.kind != MSG_CALLBACK_RETURN || |m.data| < 8 then DATA_PROCESSED else AsSigned(BeAt(m.data, 4, 8))
  }

  function Seen(e: Event): Arrival
    requires |e.data| < TWO32
  {
    Arrival(e.handle, e.msg, e.lparam, |e.data|, e.data)
  }

  /** The callback thread sees the event the engine raised. */
  lemma EventRoundTrip(e: Event)
    requires |e.data| < TWO32
    ensures ReadEvent(EventMsg(e)) == Some(Seen(e))
  {
    var b, h := EventMsg(e).data, EventHeader(e);
    assert b[0..4] == h[0..4] == Be32(e.handle);
    assert b[4..8] == h[4..8] == Be32(AsUnsigned(e.msg));
    assert b[8..12] == h[8..12] == Be32(AsUnsigned(e.lparam));
    assert b[12..16] == h[12..16] == Be32(|e.data|);
    Be32RoundTrip(e.handle, b, 0);
    Be32RoundTrip(AsUnsigned(e.msg), b, 4);
    Be32RoundTrip(AsUnsigned(e.lparam), b, 8);
    Be32RoundTrip(|e.data|, b, 12);
    CastRoundTrip(e.msg, 0);
    CastRoundTrip(e.lparam, 0);
    assert b[16..] == e.data;
  }

  /** The engine gets the number the application's callback returned. */
  lemma ReturnRoundTrip(handle: uint32, ret: int32)
    ensures ReadReturn(ReturnMsg(handle, ret)) == ret
  {
    var b := ReturnMsg(handle, ret).data;
    assert b[4..8] == Be32(AsUnsigned(ret));
    Be32RoundTrip(AsUnsigned(ret), b, 4);
    CastRoundTrip(ret, 0);
  }

  /** An event passes the framing layer exactly when 17 bytes and its samples are within
      MAX_MSG_SIZE. */
  lemma EventFitsIff(e: Event)
    requires |e.data| < TWO32
    ensures Fits(EventMsg(e)) <==> EventFits(e)
  {
  }

  /** bridge_internal_callback appends the event field by field. */
  method BuildEvent(e: Event) returns (b: Buffer)
    requires 16 + |e.data| <= TOP
    ensures fresh(b) && fresh(b.data) && b.Valid() && b.Contents() == EventMsg(e).data
  {
    b := new Buffer();
    b.EncodeRaw(Be32(e.handle));
    b.EncodeRaw(Be32(AsUnsigned(e.msg)));
    b.EncodeRaw(Be32(AsUnsigned(e.lparam)));
    b.EncodeRaw(Be32(|e.data|));
    assert b.Contents() == EventHeader(e);
    if |e.data| > 0 {
      b.EncodeRaw(e.data);
    }
  }
}
