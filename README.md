# libDHT acquisition path in Dafny

A model of the part of the libDHT Arduino driver that turns the data line of a
DHT11, DHT22 or DHT21/AM2301 temperature and humidity sensor into a cached
reading:

- the rate limiter of `DHT::read`, which answers from the cache when the
  previous capture began less than `m_maxIntervalRead` milliseconds ago (on a
  32-bit `millis()` clock that may wrap), and never on the first read;
- the capture loop, which times each half-cycle of the line, shifts one bit per
  even half-cycle from half-cycle 4 on into the six-byte buffer `m_data`, and
  stops when a half-cycle times out;
- the acceptance test (at least 40 bits, byte 4 equal to the low eight bits of
  the sum of bytes 0-3);
- `DHT::updateInternalCache`, which decodes the payload under the sensor
  family's layout (whole units in bytes 0 and 2 for the DHT11, 16-bit
  humidity and 16-bit sign-magnitude temperature in tenths for the DHT22 and
  DHT21) and leaves the cache alone for an unknown family;
- `DHT::readTempAndHumidity`, which reads and then copies the cache through
  the caller's non-null pointers.

Files:

- `dht_constants.dfy` (module `DhtConstants`): the header's constants, the C
  integer widths and the byte operations `<<= 1`, `|= 1`, `& 0x7F`, `& 0x80`.
- `frame.dfy` (module `Frame`): the checksum and the per-family payload layout
  as pure functions, with the encoding a sensor uses and the round trips
  between the two.
- `decoder.dfy` (module `Decoder`): the capture as a specification over the
  spin counts of the half-cycles (`CapturedBits`, `FrameBuffer`), the trace a
  sensor produces for a frame, and the capture loop exactly as written
  (`AsWrittenLoop`), whose defect is described under Findings.
- `sensor.dfy` (module `Sensor`): the driver object as a class `Dht` whose
  methods update its fields and its `m_data` array in place, each proved
  against the functions of the other modules.

The data line is the parameter `counts`: `counts[i]` is the number of
1-microsecond spins half-cycle i lasted, 255 meaning the spin loop gave up.
Past the end of `counts` the line is taken as quiet, so every later
half-cycle times out. The clock `millis()` is the parameter `now`.

The cache holds tenths (of a degree Celsius, of a percent of relative
humidity) as integers, where the driver holds `float` values equal to a tenth
of those numbers.

Some consequences of the code that the model keeps:

- The capture time is stamped when a capture begins (`DHT.cpp:276-277`),
  whether or not the frame is then accepted.
- The DHT22 and DHT21 share one layout (`DHT.cpp:231-232`).
- A frame that passes the checksum makes `read` return true even for an
  unknown sensor family, whose cache is then left as it was
  (`DHT.cpp:249-251`, `DHT.cpp:349-350`).
- Because the capture time is stamped even for a failed capture, a read
  within the interval after it returns true from the cache
  (`DHT.cpp:271-273`). If no frame was ever accepted, that cache was never
  filled, and `readTempAndHumidity` then copies unset values to the caller
  (`DHT.cpp:58-69`). `Sensor.StaleCacheAfterFailedCapture` states this.

## Model

| member | source | states |
|---|---|---|
| `Frame.WithChecksum` | DHT.cpp:346-347 | the frame a sensor sends for a payload keeps the payload in bytes 0-3 and passes the checksum test |
| `Frame.ChecksumMatchesIffCompleted` | DHT.cpp:346-347 | a five-byte frame passes the checksum test if and only if it is its payload followed by that payload's checksum |
| `Frame.PayloadByteCorruptionDetected` | DHT.cpp:346-347 | changing any single payload byte of a good frame always makes the checksum test fail |
| `Frame.SingleBitCorruptionDetected` | DHT.cpp:346-347 | flipping any one bit of bytes 0-3 of a good frame makes the checksum test fail |
| `Frame.SignMagnitude` | DHT.cpp:233-240 | the DHT22 temperature lies in -32767..32767 tenths, is negative only when bit 7 of byte 2 is set, and with bit 7 clear is the plain 16-bit value |
| `Frame.DecodeReading` | DHT.cpp:225-248 | a frame decodes to a reading exactly for the DHT11, DHT22 and DHT21 codes, and the reading lies in that family's representable range |
| `Frame.Refresh` | DHT.cpp:221-253 | an unknown sensor family leaves the cache unchanged; a known one yields a representable reading |
| `Frame.DecodeEncode` | DHT.cpp:225-248 | every reading a family can carry, encoded and checksummed as the sensor sends it, decodes back to itself |
| `Frame.EncodeDecodeTwoByte` | DHT.cpp:231-247 | a DHT22/DHT21 payload is the encoding of its decoded reading if and only if it is not the negative-zero payload (byte 2 = 0x80, byte 3 = 0) |
| `Frame.EncodeDecodeDht11` | DHT.cpp:227-229 | the DHT11 layout reads only bytes 0 and 2; re-encoding gives those bytes back with bytes 1 and 3 cleared |
| `Frame.Am2301DecodesAsDht22` | DHT.h:31-33 | the AM2301 code equals the DHT21 code, so it decodes exactly like a DHT22 |
| `Decoder.BitsBefore` | DHT.cpp:316-327 | the bit counter j on reaching half-cycle i is 0 up to half-cycle 4 and (i - 3) / 2 after, counting the even half-cycles from 4 on |
| `Decoder.StopIndex` | DHT.cpp:299-314 | the capture stops at the first half-cycle that times out or that finds all 48 buffer bits used, and no earlier half-cycle did either |
| `Decoder.CapturedBits` | DHT.cpp:299-328 | the recorded bits number at most 48, and none comes from a half-cycle that timed out |
| `Decoder.Cleared` | DHT.cpp:279 | the capture clears bytes 0-4 and leaves byte 5 as it was |
| `Decoder.FrameBufferAppend` | DHT.cpp:320-326 | recording one more bit changes only byte j / 8, by shifting the bit into its low end |
| `Decoder.PackedByteBits` | DHT.cpp:320-326 | shifting a byte's eight bits, most significant first, into a cleared byte rebuilds the byte |
| `Decoder.CaptureEncodeTrace` | DHT.cpp:299-328 | a capture of the line as a sensor drives it for a frame records exactly the frame's 40 bits, most significant first |
| `Decoder.FrameBufferOfFrameBits` | DHT.cpp:279-328 | the 40 bits of a frame recorded into a buffer with bytes 0-4 cleared give the frame in bytes 0-4 and leave byte 5 alone |
| `Decoder.AsWrittenGuardNeverFails` | DHT.cpp:299 | the loop guard (i below MAXTIMINGS, or j at least 40) holds at every half-cycle the loop reaches, since 41 bits are recorded by half-cycle 85 |
| `Decoder.AsWrittenCapture` | DHT.cpp:299-328 | the loop as written overruns the buffer at half-cycle 100 exactly when no half-cycle up to 100 times out, and otherwise records the same bits as the bounded capture |
| `Decoder.AsWrittenOverrunsOnBusyLine` | DHT.cpp:320-326 | a line toggling every 27 spins makes the loop as written write bit 48 into byte 6 of the six-byte buffer |
| `Sensor.Elapsed` | DHT.cpp:270-271 | the unsigned difference of two 32-bit clock values is the time that, added to the earlier one modulo 2^32, gives the later |
| `Sensor.ElapsedAcrossWrap` | DHT.cpp:270-271 | the unsigned difference is the true elapsed time whenever less than 2^32 ms passed, even across a clock wrap |
| `Sensor.ReuseWindow` | DHT.cpp:270-274 | after a capture at time t, a read d ms later answers from the cache if and only if d is below the interval; the first read never does |
| `Sensor.StaleCacheAfterFailedCapture` | DHT.cpp:271-277 | a new driver whose first capture fails answers the next read within the interval with true from the cache, which no accepted frame ever filled |
| `Sensor.CaptureOfSensorFrame` | DHT.cpp:279-353 | capturing a sensor's frame puts it in bytes 0-4, and the frame is accepted if and only if its checksum byte is right |
| `Sensor.ReadingRoundTrip` | DHT.cpp:221-353 | a representable reading sent by the sensor is captured, accepted and becomes the cache, whatever the buffer and cache held |
| `Sensor.Dht.constructor` | DHT.h:47-49 | a new driver keeps its pin, type, pullup and interval, has a six-byte buffer, has not read yet and has last-read time 0 |
| `Sensor.Dht.Read` | DHT.cpp:255-353 | within the interval after a capture (not the first read) it answers true with nothing changed; otherwise it stamps the capture time, leaves the captured bits in the buffer, returns whether the frame was accepted, and refreshes the cache only on acceptance |
| `Sensor.Dht.CheckFrame` | DHT.cpp:346-347 | true if and only if at least 40 bits arrived and byte 4 is the checksum of bytes 0-3 |
| `Sensor.Dht.CaptureFrame` | DHT.cpp:279-328 | returns the number of bits the line carried before the stop, and leaves the buffer equal to those bits packed into the cleared buffer |
| `Sensor.Dht.ShiftBitIn` | DHT.cpp:320-326 | bit j is shifted into byte j / 8 and no other byte changes |
| `Sensor.Dht.UpdateInternalCache` | DHT.cpp:221-253 | the cache becomes the payload decoded under the sensor family, or stays as it was for an unknown family |
| `Sensor.Dht.ReadTempAndHumidity` | DHT.cpp:54-73 | has the effect of `Read`; on success the humidity pointer and, if it is a different variable, the temperature pointer receive the cache; on failure neither is written |

## Left out

- Pin I/O (`pinMode`, `digitalWrite`, `digitalRead`, `pullup`), the delays
  (`delay(250)` on the first read, `delay(20)`, `delayMicroseconds`) and
  `cli`/`sei`: hardware effects; the line is the input `counts` instead, so
  the pin, pull-up and first-read delay have no modelled effect.
- The timing of each half-cycle (the spin loop that counts up to 255 and the
  `laststate` tracking): abstracted into the spin count per half-cycle.
- The two `millis()` calls of `read` are taken as the same instant `now`.
- `float` arithmetic: the cache is exact tenths, so the rounding of `f /= 10`
  and the negative zero the driver can store for a negative-zero payload are
  not modelled; `Frame.EncodeDecodeTwoByte` names that payload.
- `Sensor.Dht.ReadTempAndHumidity`: the Fahrenheit conversion when
  `bFarenheit` is set is left out (floating point); only the Celsius path is
  modelled.
- `convertCtoF`, `convertFtoC`, `computeHeatIndexC`, `computeHeatIndexF`,
  `computeDewPoint` and its four algorithms, `comfortRatio`: floating-point
  formulas outside the acquisition path.
- `readTemperature` and `readHumidity`: thin float wrappers; `readSensor` is
  declared in `DHT.h:53` but has no definition, and `begin` is not part of
  this model.
- The debug prints under `DHT_DEBUG` and the `Serial.println` diagnostic for an
  unknown sensor family: output only.
- The contents of `m_data`, `m_lastTemp` and `m_lastHumid` before the first
  capture, which C leaves unspecified: the model starts from whatever values
  the fields hold.
- The `uint8_t` loop counters `i` and `j` of the capture never wrap, since the
  loop ends by half-cycle 100; they are unbounded integers here.

## Findings

| source | as written | input that shows it | evidently intended | confidence | as-written member | corrected member |
|---|---|---|---|---|---|---|
| DHT.cpp:299 | the loop guard (i below MAXTIMINGS, or j at least 40) is true at every half-cycle, because j reaches 41 at i = 85; the loop ends only when a half-cycle times out | a line whose first 101 half-cycles each last 27 spins (no timeout): at half-cycle 100, j = 48 and the bit is shifted into `m_data[6]`, one byte past the buffer | the capture never writes past the six-byte buffer; it stops once all 48 bit positions are used | not executed | `Decoder.AsWrittenOverrunsOnBusyLine` | `Sensor.Dht.CaptureFrame` |
