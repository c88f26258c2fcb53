/** The DHT driver object: its rate limiter, the capture into its frame
    buffer, the per-family update of its cached reading, and the read-out of
    that cache through a caller's pointers.

    The driver's clock `millis()` is the parameter `now`, and the data line is
    the sequence `counts` of spin counts it produces for one capture (see
    module Decoder). */
module Sensor {
  import opened DhtConstants
  import opened Frame
  import opened Decoder

  /** `now - last` on two `unsigned long` values: wraps modulo 2^32. */
  function Elapsed(now: uint32, last: uint32): (e: uint32)
    ensures (last + e) % TWO_POW_32 == now
  {
    (now - last) % TWO_POW_32
  }

  /** The unsigned subtraction gives the true elapsed time whenever less than
      2^32 ms have passed, even if the clock wrapped in between. */
  lemma ElapsedAcrossWrap(lastTime: nat, nowTime: nat)
    requires lastTime <= nowTime < lastTime + TWO_POW_32
    ensures Elapsed(nowTime % TWO_POW_32, lastTime % TWO_POW_32) == nowTime - lastTime
  {
    var q := lastTime / TWO_POW_32;
    var last := lastTime % TWO_POW_32;
    var now := nowTime % TWO_POW_32;
    var d := nowTime - lastTime;
    assert lastTime == q * TWO_POW_32 + last;
    if last + d < TWO_POW_32 {
      assert nowTime == q * TWO_POW_32 + (last + d);
      assert now == last + d;
    } else {
      assert nowTime == (q + 1) * TWO_POW_32 + (last + d - TWO_POW_32);
      assert now == last + d - TWO_POW_32;
    }
  }

  /** The rate limiter's decision: answer from the cache, without touching
      the line, when this is not the first read and less than the minimum
      interval has elapsed since the last capture began. */
  predicate ReuseCache(firstRead: bool, lastReadTime: uint32, maxIntervalRead: uint16, now: uint32)
  {
    Elapsed(now, lastReadTime) < maxIntervalRead && !firstRead
  }

  /** After a capture that began at time t, a read d ms later (the clock may
      have wrapped) answers from the cache exactly when d is below the
      interval. The first read never does. */
  lemma ReuseWindow(t: uint32, d: nat, maxIntervalRead: uint16, now: uint32)
    requires d < TWO_POW_32 && now == (t + d) % TWO_POW_32
    ensures ReuseCache(false, t, maxIntervalRead, now) <==> d < maxIntervalRead
    ensures !ReuseCache(true, t, maxIntervalRead, now)
  {
    ElapsedAcrossWrap(t, t + d);
  }

  /** A capture of the line as a sensor drives it for a five-byte frame
      yields that frame in bytes 0-4 (byte 5 keeps its old value), and the
      frame is accepted exactly when its checksum byte is right. */
  lemma CaptureOfSensorFrame(frame: seq<uint8>, buffer: seq<uint8>)
    requires |frame| == 5 && |buffer| == BUFFER_LENGTH
    ensures var bits := CapturedBits(EncodeTrace(frame));
            var captured := FrameBuffer(bits, Cleared(buffer));
            captured == frame + [buffer[5]] &&
            (Accepted(|bits|, captured) <==> ChecksumMatches(frame))
  {
    var bits := CapturedBits(EncodeTrace(frame));
    CaptureEncodeTrace(frame);
    assert |bits| == FRAME_BITS;
    FrameBufferOfFrameBits(frame, Cleared(buffer));
    var captured := FrameBuffer(bits, Cleared(buffer));
    assert captured == frame + [buffer[5]];
    assert PayloadSum(captured) == PayloadSum(frame) && captured[4] == frame[4];
  }

  /** End to end: a reading a supported family can carry, sent by the sensor
      as a checksummed frame, is captured, accepted and becomes the cache,
      whatever the buffer and the cache held before. */
  lemma ReadingRoundTrip(sensorType: uint8, r: Reading, buffer: seq<uint8>, cache: Reading)
    requires Supported(sensorType) && Representable(sensorType, r)
    requires |buffer| == BUFFER_LENGTH
    ensures var frame := WithChecksum(EncodeReading(sensorType, r));
            var bits := CapturedBits(EncodeTrace(frame));
            var captured := FrameBuffer(bits, Cleared(buffer));
            Accepted(|bits|, captured) && Refresh(sensorType, captured, cache) == r
  {
    var frame := WithChecksum(EncodeReading(sensorType, r));
    CaptureOfSensorFrame(frame, buffer);
    DecodeEncode(sensorType, r);
    assert (frame + [buffer[5]])[..4] == frame[..4];
  }

  /** A caller's `float` variable that the driver writes through a pointer;
      it holds tenths, like the cache. */
  class Cell {
    var value: int

    constructor (value: int)
      ensures this.value == value
    {
      this.value := value;
    }
  }

  class Dht {
    const pin: uint8
    const sensorType: uint8
    const pullupEnabled: bool
    const maxIntervalRead: uint16

    /** `m_data[6]`: the frame buffer. */
    const data: array<uint8>

    var firstRead: bool
    var lastReadTime: uint32
    /** The cache, in tenths; undefined until the first accepted frame. */
    var lastTemp: int
    var lastHumid: int

    ghost predicate Valid()
      reads this
    {
      data.Length == BUFFER_LENGTH
    }

    /** A new driver has not read yet, so its first read must capture. */
    constructor (pin: uint8, sensorType: uint8, pullup: bool := false,
                 maxIntervalRead: uint16 := DSHEET_READ_INTERVAL)
      ensures Valid() && fresh(data)
      ensures this.pin == pin && this.sensorType == sensorType
      ensures pullupEnabled == pullup && this.maxIntervalRead == maxIntervalRead
      ensures firstRead && lastReadTime == 0
    {
      this.pin := pin;
      this.sensorType := sensorType;
      pullupEnabled := pullup;
      this.maxIntervalRead := maxIntervalRead;
      firstRead := true;
      lastReadTime := 0;
      data := new uint8[BUFFER_LENGTH];
    }

    /** The rate limiter answered from the cache: ok, and nothing changed. */
    twostate predicate ReuseEffect(ok: bool)
      requires old(Valid()) && Valid()
      reads this, data
    {
      ok && !firstRead && lastReadTime == old(lastReadTime) &&
      data[..] == old(data[..]) &&
      lastTemp == old(lastTemp) && lastHumid == old(lastHumid)
    }

    /** A capture began at `now`: the read is no longer the first, the buffer
        holds the captured bits, ok says whether the frame was accepted, and
        only an accepted frame refreshes the cache. */
    twostate predicate CaptureEffect(now: uint32, counts: seq<SpinCount>, ok: bool)
      requires old(Valid()) && Valid()
      reads this, data
    {
      var bits := CapturedBits(counts);
      !firstRead && lastReadTime == now &&
      data[..] == FrameBuffer(bits, Cleared(old(data[..]))) &&
      ok == Accepted(|bits|, data[..]) &&
      Reading(lastTemp, lastHumid) ==
        if ok then Refresh(sensorType, data[..], Reading(old(lastTemp), old(lastHumid)))
        else Reading(old(lastTemp), old(lastHumid))
    }

    /** `read()`: rate limiter, capture, checksum test and cache update. */
    method Read(now: uint32, counts: seq<SpinCount>) returns (ok: bool)
      requires Valid()
      modifies this, data
      ensures Valid()
      ensures ReuseCache(old(firstRead), old(lastReadTime), maxIntervalRead, now) ==> ReuseEffect(ok)
      ensures !ReuseCache(old(firstRead), old(lastReadTime), maxIntervalRead, now) ==>
              CaptureEffect(now, counts, ok)
    {
      if Elapsed(now, lastReadTime) < maxIntervalRead && !firstRead {
        return true;
      }
      firstRead := false;
      lastReadTime := now;
      var j := CaptureFrame(counts);
      ok := CheckFrame(j);
      if ok {
        UpdateInternalCache();
      }
    }

    /** The acceptance test of `read()`: at least 40 bits arrived and byte 4 equals
        the low eight bits of the sum of bytes 0-3. */
    method CheckFrame(j: nat) returns (ok: bool)
      requires Valid()
      ensures ok == Accepted(j, data[..])
    {
      ok := j >= FRAME_BITS &&
            data[4] as int == (data[0] as int + data[1] as int + data[2] as int + data[3] as int) % 0x100;
    }

    /** The capture part of `read()`: clear bytes 0-4, then walk the
        half-cycles, shifting the bit of every even half-cycle from 4 on into
        byte j / 8, until a half-cycle times out. The guard adds `j < 48` to
        the C loop guard `i < MAXTIMINGS || j >= 40`, which does not stop a line
        that keeps toggling before j / 8 passes the buffer (see
        Decoder.AsWrittenLoop). Returns the bit count j. */
    method CaptureFrame(counts: seq<SpinCount>) returns (j: nat)
      requires Valid()
      modifies data
      ensures j == |CapturedBits(counts)|
      ensures data[..] == FrameBuffer(CapturedBits(counts), Cleared(old(data[..])))
    {
      data[0], data[1], data[2], data[3], data[4] := 0, 0, 0, 0, 0;
      ghost var start := data[..];
      assert start == Cleared(old(data[..]));
      ghost var stop := StopIndex(counts);
      var i: nat := 0;
      j := 0;
      FrameBufferEmpty(start);
      while (i < MAXTIMINGS || j >= FRAME_BITS) && j < BUFFER_BITS
        invariant i <= stop && j == BitsBefore(i)
        invariant data[..] == FrameBuffer(SampledBits(counts, j), start)
        decreases stop - i
      {
        var counter := CountAt(counts, i);
        if counter == SPIN_TIMEOUT {
          break;
        }
        assert i < stop;
        BitsBeforeStep(i);
        if i >= 4 && i % 2 == 0 {
          var bit := counter > ONE_DURATION_THRESH_US;
          SampleCarriesBit(counts, i);
          SampledBitsStep(counts, j);
          FrameBufferAppend(SampledBits(counts, j), bit, start);
          ShiftBitIn(j, bit);
          j := j + 1;
        }
        i := i + 1;
      }
      assert i == stop;
    }

    /** `m_data[j / 8] <<= 1`, then `m_data[j / 8] |= 1` for a '1': shift bit
        number j into byte j / 8. */
    method ShiftBitIn(j: nat, bit: bool)
      requires Valid() && j < BUFFER_BITS
      modifies data
      ensures data[..] == old(data[..])[j / 8 := ShiftIn(old(data[j / 8]), bit)]
    {
      data[j / 8] := ShiftLeft1(data[j / 8]);
      if bit {
        data[j / 8] := SetLowBit(data[j / 8]);
      }
    }

    /** `updateInternalCache()`: decode bytes 0-3 under the sensor family and
        overwrite the cache; an unknown family leaves it as it was. */
    method UpdateInternalCache()
      requires Valid()
      modifies this`lastTemp, this`lastHumid
      ensures Reading(lastTemp, lastHumid) ==
              Refresh(sensorType, data[..], Reading(old(lastTemp), old(lastHumid)))
    {
      if sensorType == DHT11 {
        lastTemp := data[2] as int * 10;
        lastHumid := data[0] as int * 10;
      } else if sensorType == DHT22 || sensorType == DHT21 {
        var f: int := Low7(data[2]);
        f := f * 256;
        f := f + data[3];
        if Bit7(data[2]) {
          f := -f;
        }
        lastTemp := f;
        f := data[0];
        f := f * 256;
        f := f + data[1];
        lastHumid := f;
      }
    }

    /** `readTempAndHumidity(temp, humid)` in Celsius: read, and on success
        copy the cache through each non-null pointer, temperature first. */
    method ReadTempAndHumidity(now: uint32, counts: seq<SpinCount>, temp: Cell?, humid: Cell?)
      returns (ok: bool)
      requires Valid()
      modifies this, data, temp, humid
      ensures Valid()
      ensures ReuseCache(old(firstRead), old(lastReadTime), maxIntervalRead, now) ==> ReuseEffect(ok)
      ensures !ReuseCache(old(firstRead), old(lastReadTime), maxIntervalRead, now) ==>
              CaptureEffect(now, counts, ok)
      ensures !ok ==> (temp != null ==> temp.value == old(temp.value)) &&
                      (humid != null ==> humid.value == old(humid.value))
      ensures ok && humid != null ==> humid.value == lastHumid
      ensures ok && temp != null && temp != humid ==> temp.value == lastTemp
    {
      ok := false;
      var success := Read(now, counts);
      if success {
        if temp != null {
          temp.value := lastTemp;
        }
        if humid != null {
          humid.value := lastHumid;
        }
        ok := true;
      }
    }
  }

  /** A new driver whose first capture finds a quiet line reports failure,
      yet a second read d < interval ms later reports success from a cache
      that no accepted frame ever filled: the cache is as constructed. */
  method StaleCacheAfterFailedCapture(sensorType: uint8, interval: uint16, t: uint32, d: nat)
    returns (first: bool, second: bool, constructed: Reading, served: Reading)
    requires d < interval
    ensures !first && second && served == constructed
  {
    var sensor := new Dht(0, sensorType, false, interval);
    constructed := Reading(sensor.lastTemp, sensor.lastHumid);
    assert CapturedBits([]) == [] by {
      assert TimedOut([], 0);
      StopIndexIs([], 0);
    }
    first := sensor.Read(t, []);
    var later := (t + d) % TWO_POW_32;
    ReuseWindow(t, d, interval, later);
    second := sensor.Read(later, []);
    served := Reading(sensor.lastTemp, sensor.lastHumid);
  }
}
