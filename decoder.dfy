/** The capture of a frame from the data line, as a specification over the
    sequence of half-cycle spin counts the line produced.

    Half-cycle i lasted `CountAt(counts, i)` spins. Half-cycles 0-3 are the
    sensor's acknowledgement; from half-cycle 4 on, every even half-cycle is
    the high pulse of one bit, a '1' when it lasted more than
    ONE_DURATION_THRESH_US spins. Past the end of the recorded trace the line
    is quiet, so every later half-cycle times out. */
module Decoder {
  import opened DhtConstants

  /** The number of bit positions in the six-byte buffer. */
  const BUFFER_BITS: nat := 48

  /** Spin count of half-cycle i; a quiet line after the recorded trace. */
  function CountAt(counts: seq<SpinCount>, i: nat): SpinCount
  {
    if i < |counts| then counts[i] else SPIN_TIMEOUT
  }

  /** Half-cycle i never ended: the spin loop gave up at 255. */
  predicate TimedOut(counts: seq<SpinCount>, i: nat)
  {
    CountAt(counts, i) == SPIN_TIMEOUT
  }

  /** Half-cycle i carries a bit: past the preamble and even. */
  predicate IsSample(i: nat)
  {
    i >= 4 && i % 2 == 0
  }

  /** The number of bit-carrying half-cycles among half-cycles 0 .. i-1,
      which is the bit counter j when the loop reaches half-cycle i. */
  function BitsBefore(i: nat): (n: nat)
    ensures n == if i <= 4 then 0 else (i - 3) / 2
  {
    if i == 0 then 0 else BitsBefore(i - 1) + (if IsSample(i - 1) then 1 else 0)
  }

  /** Passing half-cycle i adds one bit exactly when it carries one. */
  lemma BitsBeforeStep(i: nat)
    ensures BitsBefore(i + 1) == BitsBefore(i) + (if IsSample(i) then 1 else 0)
  {
  }

  /** The bit carried by the k-th bit-carrying half-cycle (half-cycle 4 + 2k). */
  function BitAt(counts: seq<SpinCount>, k: nat): bool
  {
    CountAt(counts, 4 + 2 * k) > ONE_DURATION_THRESH_US
  }

  /** The first n bits the line carries. */
  function SampledBits(counts: seq<SpinCount>, n: nat): seq<bool>
  {
    seq(n, k requires 0 <= k < n => BitAt(counts, k))
  }

  /** A bit-carrying half-cycle i carries bit number BitsBefore(i). */
  lemma SampleCarriesBit(counts: seq<SpinCount>, i: nat)
    requires IsSample(i)
    ensures i == 4 + 2 * BitsBefore(i)
    ensures BitAt(counts, BitsBefore(i)) == (CountAt(counts, i) > ONE_DURATION_THRESH_US)
  {
  }

  /** One more sampled bit extends the sampled prefix by that bit. */
  lemma SampledBitsStep(counts: seq<SpinCount>, n: nat)
    ensures SampledBits(counts, n + 1) == SampledBits(counts, n) + [BitAt(counts, n)]
  {
  }

  /** The half-cycle at which the capture stops: the first one that times out,
      or the one at which all 48 bit positions of the buffer are used,
      whichever comes first. */
  function StopIndex(counts: seq<SpinCount>): (s: nat)
    ensures BitsBefore(s) <= BUFFER_BITS
    ensures TimedOut(counts, s) || BitsBefore(s) == BUFFER_BITS
    ensures forall i :: 0 <= i < s ==> !TimedOut(counts, i) && BitsBefore(i) < BUFFER_BITS
  {
    StopFrom(counts, 0)
  }

  function StopFrom(counts: seq<SpinCount>, from: nat): (s: nat)
    requires BitsBefore(from) <= BUFFER_BITS
    requires forall i :: 0 <= i < from ==> !TimedOut(counts, i) && BitsBefore(i) < BUFFER_BITS
    ensures from <= s && BitsBefore(s) <= BUFFER_BITS
    ensures TimedOut(counts, s) || BitsBefore(s) == BUFFER_BITS
    ensures forall i :: 0 <= i < s ==> !TimedOut(counts, i) && BitsBefore(i) < BUFFER_BITS
    decreases 100 - from
  {
    if TimedOut(counts, from) || BitsBefore(from) >= BUFFER_BITS then from
    else StopFrom(counts, from + 1)
  }

  /** The bits a capture records: one per bit-carrying half-cycle before the
      stop. None comes from a half-cycle that timed out, and there are never
      more than the buffer holds. */
  function CapturedBits(counts: seq<SpinCount>): (bits: seq<bool>)
    ensures |bits| <= BUFFER_BITS
    ensures forall k :: 0 <= k < |bits| ==> !TimedOut(counts, 4 + 2 * k)
  {
    var s := StopIndex(counts);
    SampledBits(counts, BitsBefore(s))
  }

  /** `m_data[j/8] <<= 1` followed, for a '1', by `m_data[j/8] |= 1`. */
  function ShiftIn(byte: uint8, bit: bool): uint8
  {
    if bit then SetLowBit(ShiftLeft1(byte)) else ShiftLeft1(byte)
  }

  /** A byte that started as init after the bits were shifted in, first bit
      first; bits shifted out at the top are lost, as in a `uint8_t`. */
  function Packed(init: uint8, bits: seq<bool>): uint8
    decreases |bits|
  {
    if |bits| == 0 then init
    else ShiftIn(Packed(init, bits[..|bits| - 1]), bits[|bits| - 1])
  }

  function Min(a: int, b: int): int
  {
    if a < b then a else b
  }

  /** The bits that land in byte b: positions 8b .. 8b+7. */
  function Chunk(bits: seq<bool>, b: nat): seq<bool>
  {
    bits[Min(8 * b, |bits|) .. Min(8 * b + 8, |bits|)]
  }

  /** `m_data[0] = ... = m_data[4] = 0` in `DHT::read`: bytes 0-4 cleared,
      byte 5 left as it was. */
  function Cleared(buffer: seq<uint8>): (start: seq<uint8>)
    requires |buffer| == BUFFER_LENGTH
    ensures |start| == BUFFER_LENGTH && start[5] == buffer[5]
    ensures forall b :: 0 <= b < 5 ==> start[b] == 0
  {
    [0, 0, 0, 0, 0, buffer[5]]
  }

  /** The buffer after the bits were recorded into a buffer that began as
      start: bit j goes into byte j / 8, so each byte packs its eight bits
      most significant first. */
  function FrameBuffer(bits: seq<bool>, start: seq<uint8>): (buffer: seq<uint8>)
    requires |bits| <= BUFFER_BITS && |start| == BUFFER_LENGTH
    ensures |buffer| == BUFFER_LENGTH
  {
    seq(BUFFER_LENGTH, b requires 0 <= b < BUFFER_LENGTH => Packed(start[b], Chunk(bits, b)))
  }

  /** Recording no bits leaves the buffer as it began. */
  lemma FrameBufferEmpty(start: seq<uint8>)
    requires |start| == BUFFER_LENGTH
    ensures FrameBuffer([], start) == start
  {
  }

  /** Recording one more bit changes only byte j / 8, by shifting the bit in. */
  lemma {:induction false} FrameBufferAppend(bits: seq<bool>, x: bool, start: seq<uint8>)
    requires |bits| < BUFFER_BITS && |start| == BUFFER_LENGTH
    ensures var before := FrameBuffer(bits, start);
            FrameBuffer(bits + [x], start) == before[|bits| / 8 := ShiftIn(before[|bits| / 8], x)]
  {
    var n, m := |bits|, |bits| / 8;
    var longer := bits + [x];
    var before := FrameBuffer(bits, start);
    var after := FrameBuffer(longer, start);
    forall b | 0 <= b < BUFFER_LENGTH
      ensures after[b] == before[m := ShiftIn(before[m], x)][b]
    {
      if b == m {
        assert Chunk(longer, b) == bits[8 * m .. n] + [x];
        assert Chunk(bits, b) == bits[8 * m .. n];
        assert Chunk(longer, b)[..|Chunk(longer, b)| - 1] == Chunk(bits, b);
      } else if b < m {
        assert Chunk(longer, b) == Chunk(bits, b);
      } else {
        assert Chunk(longer, b) == [] == Chunk(bits, b);
      }
    }
  }

  /** The weight of each bit of a byte, most significant first. */
  const BIT_WEIGHTS: seq<int> := [128, 64, 32, 16, 8, 4, 2, 1]

  /** The bits of a byte, most significant first, as the sensor sends them. */
  function ByteBits(x: uint8): (bits: seq<bool>)
    ensures |bits| == 8
  {
    seq(8, p requires 0 <= p < 8 => x / BIT_WEIGHTS[p] % 2 == 1)
  }

  lemma PackedPrefixStep(init: uint8, bits: seq<bool>, k: nat)
    requires k < |bits|
    ensures Packed(init, bits[..k + 1]) == ShiftIn(Packed(init, bits[..k]), bits[k])
  {
    assert bits[..k + 1][..k] == bits[..k];
  }

  /** Halving twice is dividing by four, and so on up the bit weights. */
  lemma HalfOfQuotient(x: uint8, d: int)
    requires d in {1, 2, 4, 8, 16, 32, 64}
    ensures x / (2 * d) == x / d / 2
  {
    if d == 1 {
    } else if d == 2 {
    } else if d == 4 {
    } else if d == 8 {
    } else if d == 16 {
    } else if d == 32 {
    } else {
    }
  }

  /** Shifting the lowest bit of n into n's other bits rebuilds n. */
  lemma ShiftInLowBit(n: uint8)
    ensures ShiftIn(n / 2, n % 2 == 1) == n
  {
  }

  /** Shifting bit d of x into x's bits above d gives x's bits from d up. */
  lemma ShiftInHalf(x: uint8, d: int)
    requires d in {1, 2, 4, 8, 16, 32, 64}
    ensures ShiftIn(x / (2 * d), x / d % 2 == 1) == x / d
  {
    HalfOfQuotient(x, d);
    ShiftInLowBit(x / d);
  }

  /** The first k + 1 bits of a byte, shifted into a cleared byte, give the
      byte's bits from weight BIT_WEIGHTS[k] up. */
  lemma {:induction false} PackedBytePrefix(x: uint8, k: nat)
    requires k < 8
    ensures Packed(0, ByteBits(x)[..k + 1]) == x / BIT_WEIGHTS[k]
  {
    var bits := ByteBits(x);
    PackedPrefixStep(0, bits, k);
    if k == 0 {
      assert bits[..0] == [];
    } else {
      PackedBytePrefix(x, k - 1);
      assert BIT_WEIGHTS[k - 1] == 2 * BIT_WEIGHTS[k];
      ShiftInHalf(x, BIT_WEIGHTS[k]);
    }
  }

  /** Shifting a byte's bits, most significant first, into a cleared byte
      rebuilds the byte. */
  lemma PackedByteBits(x: uint8)
    ensures Packed(0, ByteBits(x)) == x
  {
    PackedBytePrefix(x, 7);
    assert ByteBits(x)[..8] == ByteBits(x);
  }

  /** The 40 bits of a five-byte frame in the order they are sent. */
  function FrameBits(frame: seq<uint8>): (bits: seq<bool>)
    requires |frame| == 5
    ensures |bits| == FRAME_BITS
  {
    seq(FRAME_BITS, k requires 0 <= k < FRAME_BITS => ByteBits(frame[k / 8])[k % 8])
  }

  /** Spin counts of an acknowledgement: the sensor pulls the line low, then
      holds it low and high for about 80 us each, then low before bit 0. */
  const PREAMBLE: seq<SpinCount> := [20, 80, 80, 50]

  /** Spin count of a bit's high pulse: about 70 us for a '1', 27 for a '0'. */
  function HighCount(bit: bool): SpinCount
  {
    if bit then 70 else 27
  }

  /** Spin count of the low gap that precedes every bit and ends the frame. */
  const LOW_COUNT: SpinCount := 50

  /** The half-cycles of a well-behaved sensor sending a frame, after which
      the line stays high. */
  function EncodeTrace(frame: seq<uint8>): (counts: seq<SpinCount>)
    requires |frame| == 5
    ensures |counts| == 4 + 2 * FRAME_BITS
  {
    var bits := FrameBits(frame);
    PREAMBLE + seq(2 * FRAME_BITS, i requires 0 <= i < 2 * FRAME_BITS =>
                     if i % 2 == 0 then HighCount(bits[i / 2]) else LOW_COUNT)
  }

  /** A sensor's frame ends at half-cycle 84, the first one past the trace. */
  lemma EncodeTraceStops(frame: seq<uint8>)
    requires |frame| == 5
    ensures StopIndex(EncodeTrace(frame)) == 4 + 2 * FRAME_BITS
  {
    var counts := EncodeTrace(frame);
    var s := StopIndex(counts);
    if s > 84 {
      assert TimedOut(counts, 84);
    }
  }

  lemma FrameBitsChunk(frame: seq<uint8>, b: nat)
    requires |frame| == 5 && b < 5
    ensures Chunk(FrameBits(frame), b) == ByteBits(frame[b])
  {
    var bits := FrameBits(frame);
    assert Chunk(bits, b) == bits[8 * b .. 8 * b + 8];
    forall p | 0 <= p < 8
      ensures bits[8 * b + p] == ByteBits(frame[b])[p]
    {
      assert (8 * b + p) / 8 == b && (8 * b + p) % 8 == p;
    }
  }

  /** Capturing what a sensor sends records exactly the frame's 40 bits. */
  lemma CaptureEncodeTrace(frame: seq<uint8>)
    requires |frame| == 5
    ensures CapturedBits(EncodeTrace(frame)) == FrameBits(frame)
  {
    var counts := EncodeTrace(frame);
    var bits := FrameBits(frame);
    EncodeTraceStops(frame);
    assert BitsBefore(StopIndex(counts)) == FRAME_BITS;
    var captured := CapturedBits(counts);
    assert captured == SampledBits(counts, FRAME_BITS);
    forall k | 0 <= k < FRAME_BITS
      ensures captured[k] == bits[k]
    {
      EncodeTraceAt(frame, k);
    }
  }

  lemma EncodeTraceAt(frame: seq<uint8>, k: nat)
    requires |frame| == 5 && k < FRAME_BITS
    ensures CountAt(EncodeTrace(frame), 4 + 2 * k) == HighCount(FrameBits(frame)[k])
  {
    var bits := FrameBits(frame);
    var tail := seq(2 * FRAME_BITS, i requires 0 <= i < 2 * FRAME_BITS =>
                      if i % 2 == 0 then HighCount(bits[i / 2]) else LOW_COUNT);
    assert EncodeTrace(frame) == PREAMBLE + tail;
    assert (PREAMBLE + tail)[4 + 2 * k] == tail[2 * k];
    assert (2 * k) / 2 == k && (2 * k) % 2 == 0;
  }

  /** Recording a frame's 40 bits into a buffer whose bytes 0-4 are clear
      leaves the frame in bytes 0-4 and byte 5 untouched. */
  lemma FrameBufferOfFrameBits(frame: seq<uint8>, start: seq<uint8>)
    requires |frame| == 5 && |start| == BUFFER_LENGTH
    requires forall b :: 0 <= b < 5 ==> start[b] == 0
    ensures FrameBuffer(FrameBits(frame), start) == frame + [start[5]]
  {
    var bits := FrameBits(frame);
    var buffer := FrameBuffer(bits, start);
    forall b | 0 <= b < 5
      ensures buffer[b] == frame[b]
    {
      FrameBitsChunk(frame, b);
      PackedByteBits(frame[b]);
    }
    assert Chunk(bits, 5) == [];
  }

  /** The capture loop's guard as written, `i < MAXTIMINGS || j >= 40`, holds
      at every half-cycle the loop reaches: by half-cycle MAXTIMINGS the loop
      has recorded 41 bits. So the loop ends only when a half-cycle times
      out. */
  lemma AsWrittenGuardNeverFails(i: nat)
    ensures i < MAXTIMINGS || BitsBefore(i) >= FRAME_BITS
    ensures BitsBefore(MAXTIMINGS) == FRAME_BITS + 1
    ensures (BitsBefore(MAXTIMINGS) - 1) / 8 == 5
  {
  }

  /** How the capture loop as written ends: with the bits it recorded, or at
      the half-cycle whose bit would be written past the six-byte buffer. */
  datatype LoopEnd = Finished(bits: seq<bool>) | Overrun(at: nat)

  /** The capture loop exactly as written, from half-cycle i with the bits
      recorded so far. Its guard does not bound j, so a line that keeps
      toggling drives j to 48 and `m_data[j / 8]` to `m_data[6]`. */
  function AsWrittenLoop(counts: seq<SpinCount>, i: nat, bits: seq<bool>): LoopEnd
    requires |bits| == BitsBefore(i) && i <= 100
    decreases 100 - i
  {
    if !(i < MAXTIMINGS || |bits| >= FRAME_BITS) then Finished(bits)
    else if TimedOut(counts, i) then Finished(bits)
    else if IsSample(i) then
      if |bits| / 8 >= BUFFER_LENGTH then Overrun(i)
      else AsWrittenLoop(counts, i + 1, bits + [CountAt(counts, i) > ONE_DURATION_THRESH_US])
    else AsWrittenLoop(counts, i + 1, bits)
  }

  /** No half-cycle from i through 100 times out. */
  predicate BusyFrom(counts: seq<SpinCount>, i: nat)
  {
    forall k :: i <= k <= 100 ==> !TimedOut(counts, k)
  }

  lemma BusyFromStep(counts: seq<SpinCount>, i: nat)
    requires i < 100 && !TimedOut(counts, i)
    ensures BusyFrom(counts, i) <==> BusyFrom(counts, i + 1)
  {
  }

  /** The stop index is the first half-cycle that times out or fills the
      buffer. */
  lemma StopIndexIs(counts: seq<SpinCount>, i: nat)
    requires forall k :: 0 <= k < i ==> !TimedOut(counts, k) && BitsBefore(k) < BUFFER_BITS
    requires TimedOut(counts, i) || BitsBefore(i) == BUFFER_BITS
    ensures StopIndex(counts) == i
  {
  }

  /** Where the line times out before the buffer is full, the loop as
      written and the bounded capture both end with the bits so far. */
  lemma AsWrittenTimesOut(counts: seq<SpinCount>, i: nat, bits: seq<bool>)
    requires i <= 100 && |bits| == BitsBefore(i)
    requires bits == SampledBits(counts, |bits|)
    requires forall k :: 0 <= k < i ==> !TimedOut(counts, k)
    requires TimedOut(counts, i)
    ensures AsWrittenLoop(counts, i, bits) == Finished(bits) == Finished(CapturedBits(counts))
  {
    AsWrittenGuardNeverFails(i);
    var stop := if i < 99 then i else 99;
    StopIndexIs(counts, stop);
    assert BitsBefore(stop) == |bits|;
  }

  /** The bits recorded after half-cycle i. */
  function Advance(counts: seq<SpinCount>, i: nat, bits: seq<bool>): seq<bool>
  {
    if IsSample(i) then bits + [CountAt(counts, i) > ONE_DURATION_THRESH_US] else bits
  }

  /** A half-cycle that neither times out nor overruns moves the loop as
      written one step on, still holding the bits the line carried. */
  lemma AsWrittenStep(counts: seq<SpinCount>, i: nat, bits: seq<bool>)
    requires i <= 100 && |bits| == BitsBefore(i)
    requires bits == SampledBits(counts, |bits|)
    requires !TimedOut(counts, i)
    requires !(IsSample(i) && |bits| / 8 >= BUFFER_LENGTH)
    ensures i < 100
    ensures |Advance(counts, i, bits)| == BitsBefore(i + 1)
    ensures Advance(counts, i, bits) == SampledBits(counts, |Advance(counts, i, bits)|)
    ensures AsWrittenLoop(counts, i, bits) == AsWrittenLoop(counts, i + 1, Advance(counts, i, bits))
  {
    AsWrittenGuardNeverFails(i);
    if IsSample(i) {
      SampleCarriesBit(counts, i);
      SampledBitsStep(counts, |bits|);
    }
  }

  /** A bit-carrying half-cycle with 48 bits already recorded is half-cycle
      100, and the loop as written writes its bit past the buffer. */
  lemma AsWrittenOverrunAt(counts: seq<SpinCount>, i: nat, bits: seq<bool>)
    requires i <= 100 && |bits| == BitsBefore(i)
    requires !TimedOut(counts, i)
    requires IsSample(i) && |bits| / 8 >= BUFFER_LENGTH
    ensures i == 100 && BusyFrom(counts, i)
    ensures AsWrittenLoop(counts, i, bits) == Overrun(100)
  {
    AsWrittenGuardNeverFails(i);
  }

  lemma {:induction false} AsWrittenFrom(counts: seq<SpinCount>, i: nat, bits: seq<bool>)
    requires i <= 100 && |bits| == BitsBefore(i)
    requires bits == SampledBits(counts, |bits|)
    requires forall k :: 0 <= k < i ==> !TimedOut(counts, k)
    ensures AsWrittenLoop(counts, i, bits) ==
            if BusyFrom(counts, i) then Overrun(100) else Finished(CapturedBits(counts))
    decreases 100 - i
  {
    if TimedOut(counts, i) {
      AsWrittenTimesOut(counts, i, bits);
    } else if IsSample(i) && |bits| / 8 >= BUFFER_LENGTH {
      AsWrittenOverrunAt(counts, i, bits);
    } else {
      AsWrittenStep(counts, i, bits);
      AsWrittenFrom(counts, i + 1, Advance(counts, i, bits));
      BusyFromStep(counts, i);
    }
  }

  /** The loop as written overruns the buffer exactly when the line keeps
      toggling through half-cycle 100, and it does so at half-cycle 100.
      Otherwise it records the same bits as the bounded capture. */
  lemma AsWrittenCapture(counts: seq<SpinCount>)
    ensures AsWrittenLoop(counts, 0, []) ==
            if BusyFrom(counts, 0) then Overrun(100) else Finished(CapturedBits(counts))
  {
    AsWrittenFrom(counts, 0, []);
  }

  /** A line that toggles every 27 spins for 101 half-cycles. */
  const BUSY_TRACE: seq<SpinCount> := seq(101, _ => 27)

  /** On that line the loop as written writes bit 48 to `m_data[6]`, one byte
      past the buffer, while the bounded capture stops with the buffer full. */
  lemma AsWrittenOverrunsOnBusyLine()
    ensures AsWrittenLoop(BUSY_TRACE, 0, []) == Overrun(100)
    ensures BitsBefore(100) / 8 == BUFFER_LENGTH
    ensures |CapturedBits(BUSY_TRACE)| == BUFFER_BITS
  {
    assert BusyFrom(BUSY_TRACE, 0) by {
      forall i | 0 <= i <= 100 ensures !TimedOut(BUSY_TRACE, i) {
        assert BUSY_TRACE[i] == 27;
      }
    }
    AsWrittenCapture(BUSY_TRACE);
  }
}
