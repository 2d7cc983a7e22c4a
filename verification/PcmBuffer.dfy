/** The command line program's sample accumulator: the receiving end of a conversion. */
module PcmBuffer {
  import opened Bytes
  import opened RpcBuffer

  type int16 = x: int | -0x8000 <= x < 0x8000

  const CALLBACK_BUF_SIZE := 8192
  const FIRST_SAMPLES: int32 := 65536
  const LIMIT: int32 := 0x4000_0000

  /** The capacity doubles inside an int, as long as what is stored stays within 2^30. */
  lemma DoublesInRange(cap: int32)
    requires 0 < cap < LIMIT && Capacity(cap)
    ensures Capacity(2 * cap) && 2 * cap <= LIMIT
  {
    CapacityDoubles(cap);
    CapacityDoubles(2 * cap);
    CapacityDoubles(4 * cap);
  }

  lemma FirstIsCapacity()
    ensures Capacity(FIRST_SAMPLES)
  {
    assert Pow2(8) == 256;
    assert FIRST_SAMPLES == 256 * Pow2(8);
  }

  class Pcm {
    var data: array<int16>
    var len: int32
    var cap: int32
    const callbackBuffer: array<int16>

    ghost predicate Valid()
      reads this
    {
      && callbackBuffer.Length == CALLBACK_BUF_SIZE && data != callbackBuffer
      && data.Length == cap && 0 <= len <= cap <= LIMIT
      && (cap == 0 || Capacity(cap))
      && (cap <= FIRST_SAMPLES || cap < 2 * len)
    }

    /** Everything accumulated so far. */
    ghost function Contents(): seq<int16>
      requires Valid()
      reads this, data
    {
      data[..len]
    }

    constructor ()
      ensures Valid() && Contents() == []
      ensures fresh(data) && fresh(callbackBuffer)
    {
      callbackBuffer := new int16[CALLBACK_BUF_SIZE](i => 0);
      data := new int16[0];
      len, cap := 0, 0;
    }

    /** my_callback on a waveform event: the samples now in the callback buffer go behind
        the ones before, all of them and once. */
    method Append(samples: int32)
      requires Valid() && samples <= CALLBACK_BUF_SIZE
      requires len + samples <= LIMIT
      modifies this, data
      ensures Valid() && (data == old(data) || fresh(data))
      ensures Contents() == old(Contents()) + if samples > 0 then callbackBuffer[..samples] else []
    {
      if samples <= 0 {
        return;
      }
      Grow(samples);
      for i := 0 to samples
        invariant Grown(samples) && len == old(len)
        invariant callbackBuffer[..] == old(callbackBuffer[..])
        invariant data[..len + i] == old(data[..len]) + callbackBuffer[..i]
        modifies data
      {
        data[len + i] := callbackBuffer[i];
      }
      len := len + samples;
    }

    predicate Grown(samples: int32)
      reads this
    {
      && callbackBuffer.Length == CALLBACK_BUF_SIZE && data != callbackBuffer
      && data.Length == cap && 0 <= len && len + samples <= cap
    }

    method Grow(samples: int32)
      requires Valid() && 0 < samples && len + samples <= LIMIT
      modifies this
      ensures Grown(samples) && cap <= LIMIT && Capacity(cap)
      ensures data == old(data) || fresh(data)
      ensures len == old(len) && data[..len] == old(data[..len])
      ensures cap <= FIRST_SAMPLES || cap < 2 * (len + samples)
    {
      while len + samples > cap
        invariant callbackBuffer.Length == CALLBACK_BUF_SIZE && data != callbackBuffer
        invariant data.Length == cap && 0 <= len <= cap <= LIMIT && len == old(len)
        invariant data[..len] == old(data[..len])
        invariant data == old(data) || fresh(data)
        invariant cap == 0 || Capacity(cap)
        invariant cap <= FIRST_SAMPLES || cap < 2 * (len + samples)
        decreases LIMIT - cap
      {
        FirstIsCapacity();
        if cap != 0 {
          DoublesInRange(cap);
        }
        Realloc(if cap != 0 then cap * 2 else FIRST_SAMPLES);
      }
      FirstIsCapacity();
    }

    method Realloc(newcap: int32)
      requires data.Length == cap && 0 <= len <= cap < newcap && data != callbackBuffer
      modifies this
      ensures fresh(data) && data != callbackBuffer && data.Length == cap == newcap
      ensures len == old(len) && data[..len] == old(data[..len])
    {
      var bigger := new int16[newcap];
      for i := 0 to cap
        invariant bigger[..i] == data[..i]
        modifies bigger
      {
        bigger[i] := data[i];
      }
      assert bigger[..len] == bigger[..cap][..len] == old(data[..len]);
      data := bigger;
      cap := newcap;
    }
  }
}
