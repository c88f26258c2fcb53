/** The five-byte frame a DHT sensor sends: its checksum and how each sensor
    family's payload becomes a temperature and a humidity. */
module Frame {
  import opened DhtConstants

  datatype Option<T> = None | Some(value: T)

  /** A reading as the driver caches it, held exactly in tenths: tenths of a
      degree Celsius and tenths of a percent of relative humidity. */
  datatype Reading = Reading(tempTenths: int, humidTenths: int)

  /** The sum of the four payload bytes, as C sums `uint8_t` values in `int`. */
  function PayloadSum(frame: seq<uint8>): (s: int)
    requires |frame| >= 4
    ensures 0 <= s <= 4 * 255
  {
    frame[0] as int + frame[1] as int + frame[2] as int + frame[3] as int
  }

  /** The checksum byte a frame must carry: the low eight bits of the payload
      sum (`& 0xFF` on a non-negative int). */
  function Checksum(frame: seq<uint8>): uint8
    requires |frame| >= 4
  {
    PayloadSum(frame) % 0x100
  }

  predicate ChecksumMatches(frame: seq<uint8>)
    requires |frame| >= 5
  {
    frame[4] == Checksum(frame)
  }

  /** The acceptance test applied after a capture: at least 40 bits were
      recorded and byte 4 matches the checksum of bytes 0-3. */
  predicate Accepted(bits: nat, buffer: seq<uint8>)
    requires |buffer| >= 5
  {
    bits >= FRAME_BITS && ChecksumMatches(buffer)
  }

  /** The frame a sensor sends for a payload: the payload and its checksum. */
  function WithChecksum(payload: seq<uint8>): (frame: seq<uint8>)
    requires |payload| == 4
    ensures |frame| == 5 && frame[..4] == payload
    ensures ChecksumMatches(frame)
  {
    payload + [Checksum(payload)]
  }

  /** A frame passes the checksum test exactly when it is its payload followed
      by that payload's checksum. */
  lemma ChecksumMatchesIffCompleted(frame: seq<uint8>)
    requires |frame| == 5
    ensures ChecksumMatches(frame) <==> frame == WithChecksum(frame[..4])
  {
    var completed := WithChecksum(frame[..4]);
    assert PayloadSum(frame[..4]) == PayloadSum(frame);
    if ChecksumMatches(frame) {
      assert frame[4] == completed[4];
      assert frame == frame[..4] + [frame[4]];
    }
  }

  /** Changing any one payload byte of a good frame, without updating byte 4,
      is always detected: a change of one byte moves the sum by less than 256
      but not by 0. */
  lemma {:induction false} PayloadByteCorruptionDetected(frame: seq<uint8>, b: nat, x: uint8)
    requires |frame| == 5 && ChecksumMatches(frame)
    requires b < 4 && x != frame[b]
    ensures !ChecksumMatches(frame[b := x])
  {
    var corrupted := frame[b := x];
    var d := x as int - frame[b] as int;
    assert PayloadSum(corrupted) == PayloadSum(frame) + d;
  }

  /** `x ^ (1 << k)`: byte x with its bit k inverted. */
  function FlipBit(x: uint8, k: nat): (y: uint8)
    requires k < 8
    ensures y != x
  {
    var mask := [1, 2, 4, 8, 16, 32, 64, 128][k];
    if (x / mask) % 2 == 1 then x - mask else x + mask
  }

  /** A single flipped bit in bytes 0-3 of a good frame is detected. */
  lemma SingleBitCorruptionDetected(frame: seq<uint8>, b: nat, k: nat)
    requires |frame| == 5 && ChecksumMatches(frame)
    requires b < 4 && k < 8
    ensures !ChecksumMatches(frame[b := FlipBit(frame[b], k)])
  {
    PayloadByteCorruptionDetected(frame, b, FlipBit(frame[b], k));
  }

  /** The two-byte sign-magnitude temperature of the DHT22/DHT21 layout, in
      tenths of a degree: bit 7 of the high byte is the sign, the other 15
      bits the magnitude. */
  function SignMagnitude(hi: uint8, lo: uint8): (t: int)
    ensures -0x7FFF <= t <= 0x7FFF
    ensures t < 0 ==> Bit7(hi)
    ensures !Bit7(hi) ==> t == hi * 256 + lo
  {
    var magnitude := Low7(hi) * 256 + lo;
    if Bit7(hi) then -magnitude else magnitude
  }

  /** The sensor families whose payload layout the driver knows. */
  predicate Supported(sensorType: uint8)
  {
    sensorType == DHT11 || sensorType == DHT22 || sensorType == DHT21
  }

  /** The readings a family's layout can carry. */
  predicate Representable(sensorType: uint8, r: Reading)
  {
    if sensorType == DHT11 then
      0 <= r.tempTenths <= 2550 && r.tempTenths % 10 == 0 &&
      0 <= r.humidTenths <= 2550 && r.humidTenths % 10 == 0
    else
      -0x7FFF <= r.tempTenths <= 0x7FFF && 0 <= r.humidTenths <= 0xFFFF
  }

  /** The reading a frame holds under a sensor family's layout, or None for a
      family the driver does not know.
      DHT11: whole degrees in byte 2 and whole percent in byte 0.
      DHT22/DHT21: humidity in bytes 0-1, signed temperature in bytes 2-3. */
  function DecodeReading(sensorType: uint8, frame: seq<uint8>): (r: Option<Reading>)
    requires |frame| >= 4
    ensures r.Some? <==> Supported(sensorType)
    ensures r.Some? ==> Representable(sensorType, r.value)
  {
    if sensorType == DHT11 then
      Some(Reading(frame[2] as int * 10, frame[0] as int * 10))
    else if sensorType == DHT22 || sensorType == DHT21 then
      Some(Reading(SignMagnitude(frame[2], frame[3]), frame[0] as int * 256 + frame[1] as int))
    else
      None
  }

  /** The cache after a successful frame: the decoded reading, or the old
      cache untouched for a family the driver does not know. */
  function Refresh(sensorType: uint8, frame: seq<uint8>, cache: Reading): (r: Reading)
    requires |frame| >= 4
    ensures !Supported(sensorType) ==> r == cache
    ensures Supported(sensorType) ==> Representable(sensorType, r)
  {
    match DecodeReading(sensorType, frame)
    case Some(decoded) => decoded
    case None => cache
  }

  /** The payload a sensor of a supported family sends for a reading. */
  function EncodeReading(sensorType: uint8, r: Reading): (payload: seq<uint8>)
    requires Supported(sensorType) && Representable(sensorType, r)
    ensures |payload| == 4
  {
    if sensorType == DHT11 then
      [r.humidTenths / 10, 0, r.tempTenths / 10, 0]
    else
      var magnitude := if r.tempTenths < 0 then -r.tempTenths else r.tempTenths;
      var sign := if r.tempTenths < 0 then 0x80 else 0;
      [r.humidTenths / 256, r.humidTenths % 256, magnitude / 256 + sign, magnitude % 256]
  }

  /** Every reading a family can carry survives encoding, checksumming and
      decoding unchanged. */
  lemma DecodeEncode(sensorType: uint8, r: Reading)
    requires Supported(sensorType) && Representable(sensorType, r)
    ensures DecodeReading(sensorType, WithChecksum(EncodeReading(sensorType, r))) == Some(r)
  {
  }

  /** Conversely, a DHT22/DHT21 payload is exactly the encoding of what it
      decodes to, except for the "negative zero" payload (byte 2 = 0x80,
      byte 3 = 0), which decodes to the same reading as a positive zero. */
  lemma EncodeDecodeTwoByte(sensorType: uint8, frame: seq<uint8>)
    requires sensorType == DHT22 || sensorType == DHT21
    requires |frame| >= 4
    ensures EncodeReading(sensorType, DecodeReading(sensorType, frame).value) == frame[..4]
            <==> !(frame[2] == 0x80 && frame[3] == 0)
  {
    var payload := EncodeReading(sensorType, DecodeReading(sensorType, frame).value);
    if !(frame[2] == 0x80 && frame[3] == 0) {
      assert payload[2] == frame[2];
      assert payload == frame[..4];
    } else {
      assert payload[2] == 0;
    }
  }

  /** The DHT11 layout reads only bytes 0 and 2: re-encoding a DHT11 frame
      gives back those bytes and clears the fractional bytes 1 and 3. */
  lemma EncodeDecodeDht11(frame: seq<uint8>)
    requires |frame| >= 4
    ensures EncodeReading(DHT11, DecodeReading(DHT11, frame).value) == [frame[0], 0, frame[2], 0]
  {
  }

  /** The AM2301 shares the DHT21 type code, so it takes the two-byte path. */
  lemma Am2301DecodesAsDht22(frame: seq<uint8>)
    requires |frame| >= 4
    ensures DecodeReading(AM2301, frame) == DecodeReading(DHT22, frame)
  {
  }
}
