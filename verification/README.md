# USB CDC-ACM virtual serial port (SAMD Arduino core)

A Dafny model of the receive path and control-request handling of the SAMD
core's USB CDC-ACM serial port, `hardware/arduino/samd/cores/arduino/USB/CDC.cpp`:

- `bytes.dfy` (`Bytes`): `uint8_t`/`uint32_t` ranges and little-endian encoding, with both round trips.
- `ring_buffer.dfy` (`RingBuffer`): the 1024-byte receive ring `cdc_rx_buffer`.
  Its `head` and `tail` are kept below 1024. The `Contents` abstraction maps
  it to the queue of unread bytes. `Available`, `Peek`, the store done by
  `accept` (`Push`) and the tail advance done by `read` (`Pop`) are specified
  by their effect on that queue.
- `receive.dfy` (`Receive`): `Serial_::accept` (the receive pump) and `Serial_::read`.
  The OUT endpoint is modelled as a queue of pending bytes, and `UDD_ReleaseRX`
  as a returned flag. The FIFO property covers successive reads.
- `line_coding.dfy` (`LineCoding`): the `LineInfo` record, its power-on value
  and its 7-byte wire form. This is the line coding structure of section
  6.3.11 of the USB CDC PSTN Subclass 1.2. The firmware reads and writes the
  struct's raw bytes. The struct is a uint32_t then four uint8_t with no
  padding, so bytes 0-6 are dwDTERate (little-endian), bCharFormat,
  bParityType and bDataBits, and lineState is the eighth byte. That raw
  overlay becomes explicit `Encode`/`Overlay` functions.
- `control.dfy` (`Control`): `CDC_Setup` for GET_LINE_CODING, SET_LINE_CODING and
  SET_CONTROL_LINE_STATE, including the 1200-baud touch that schedules or
  cancels a bootloader reset. The reply and the reset action are returned as
  values.
- `facade.dfy` (`Facade`): `operator bool` (is the port open), and how `write`
  turns the send result into a return value and a write-error flag.

The ring indices are reduced modulo 1024 on every update, so they never reach
the 32-bit wrap-around. The model keeps them as naturals below 1024.

Request-type and request codes come from `USBCore.h`, which is not part of this
model. They are taken from section 9.3 of USB 2.0 and section 6.3 of the CDC
PSTN Subclass 1.2: `0xA1`/`0x21` for class/interface requests, and
`0x20`/`0x21`/`0x22` for SET_LINE_CODING/GET_LINE_CODING/SET_CONTROL_LINE_STATE.

## Model

| member | source | states |
|---|---|---|
| `Bytes.FromLeToLe` | hardware/arduino/samd/cores/arduino/USB/CDC.cpp:52-59 | decoding the little-endian bytes of a value gives the value back (the `uint32_t dwDTERate` laid out LSB first) |
| `Bytes.ToLeFromLe` | hardware/arduino/samd/cores/arduino/USB/CDC.cpp:121-123 | encoding the value of any byte string gives the same bytes back, so the raw byte copy loses nothing |
| `Bytes.FromLe` | hardware/arduino/samd/cores/arduino/USB/CDC.cpp:54 | a little-endian value of n bytes always fits in n bytes (below 256^n) |
| `RingBuffer.Initial` | hardware/arduino/samd/cores/arduino/USB/CDC.cpp:50 | the statically initialised buffer satisfies the index invariant and holds no unread bytes |
| `RingBuffer.Available` | hardware/arduino/samd/cores/arduino/USB/CDC.cpp:182-186 | the count is the length of the unread queue, is at most 1023, and is 0 exactly when head equals tail |
| `RingBuffer.WindowLength` | hardware/arduino/samd/cores/arduino/USB/CDC.cpp:43-48 | walking forward from tail to head, with wrap-around, passes exactly the forward distance between them |
| `RingBuffer.DistanceMod` | hardware/arduino/samd/cores/arduino/USB/CDC.cpp:185 | the forward distance from tail to head is what `(1024 + head - tail) % 1024` computes, and it is below 1024 |
| `RingBuffer.ContentsAt` | hardware/arduino/samd/cores/arduino/USB/CDC.cpp:43-48 | the i-th unread byte is stored i slots after tail, modulo 1024 |
| `RingBuffer.FullIffAtCapacity` | hardware/arduino/samd/cores/arduino/USB/CDC.cpp:162-168 | the pump's stop test `(head+1)%1024 == tail` holds exactly when 1023 bytes are unread, so one slot always stays empty |
| `RingBuffer.Peek` | hardware/arduino/samd/cores/arduino/USB/CDC.cpp:188-200 | returns -1 exactly when the queue is empty, otherwise its oldest byte (0..255); it is a function of the buffer, so it changes nothing and repeated peeks agree |
| `RingBuffer.Push` | hardware/arduino/samd/cores/arduino/USB/CDC.cpp:175-176 | storing at head and advancing head appends the byte to the back of the queue, keeps the indices in range and leaves tail alone |
| `RingBuffer.Pop` | hardware/arduino/samd/cores/arduino/USB/CDC.cpp:213-214 | advancing tail drops exactly the front of the queue and leaves head alone |
| `Receive.Accept` | hardware/arduino/samd/cores/arduino/USB/CDC.cpp:159-180 | moves a prefix of the endpoint queue, in order, to the back of the buffer. Nothing is lost or reordered, and tail is unchanged. Afterwards the unread count is min(old count + pending, 1023). The endpoint is drained or the buffer full. ReleaseRX happens exactly when old count + pending < 1023 |
| `Receive.Read` | hardware/arduino/samd/cores/arduino/USB/CDC.cpp:202-219 | returns what peek returns. On empty it changes nothing. Otherwise the byte is the front of the stream (buffer then endpoint), the rest of the stream is kept, and tail advances by one mod 1024. It refills only when the endpoint has data, and the pump is left settled. ReleaseRX happens exactly when a byte was read, the endpoint had data, and the remaining unread count plus pending is below 1023 |
| `Receive.SettledEmpty` | hardware/arduino/samd/cores/arduino/USB/CDC.cpp:168-173 | once the pump has run, an empty buffer means the endpoint holds nothing either |
| `Receive.ReadMany` | hardware/arduino/samd/cores/arduino/USB/CDC.cpp:202-219 | n successive reads return the first n bytes of the stream in arrival order and leave the rest queued |
| `Receive.Deliver` | hardware/arduino/samd/cores/arduino/USB/CDC.cpp:159-219 | bytes the host sends to a freshly started port come out of successive reads exactly as sent, even beyond the buffer's capacity |
| `LineCoding.Encode` | hardware/arduino/samd/cores/arduino/USB/CDC.cpp:106-112 | the GET_LINE_CODING reply is 7 bytes: the baud rate as little-endian u32, then char format, parity and data bits |
| `LineCoding.Overlay` | hardware/arduino/samd/cores/arduino/USB/CDC.cpp:117-125 | copying the 7 received bytes over the record makes its wire form exactly those bytes and leaves lineState as it was |
| `LineCoding.OverlayEncode` | hardware/arduino/samd/cores/arduino/USB/CDC.cpp:110-123 | copying a record's own wire form back over it leaves it unchanged |
| `LineCoding.EncodeInjective` | hardware/arduino/samd/cores/arduino/USB/CDC.cpp:52-59 | two records with the same wire form agree on all four line-coding fields |
| `LineCoding.DefaultEncoding` | hardware/arduino/samd/cores/arduino/USB/CDC.cpp:62-68 | at power-on (115200, 0, 0, 8, lineState 0) the wire form is 00 C2 01 00 00 00 08 |
| `Control.HandleSetup` | hardware/arduino/samd/cores/arduino/USB/CDC.cpp:101-144 | returns true only for GET_LINE_CODING, which replies with the current wire form and changes nothing. SET_LINE_CODING makes the wire form the 7 received bytes and keeps lineState. SET_CONTROL_LINE_STATE sets lineState to wValueL and applies the touch rule. Anything else changes nothing |
| `Control.ResetOnlyOnTouch` | hardware/arduino/samd/cores/arduino/USB/CDC.cpp:127-139 | a reset is started or cancelled only by SET_CONTROL_LINE_STATE at exactly 1200 baud; it is started (250 ms) exactly when the new DTR bit is clear |
| `Control.SetThenGet` | hardware/arduino/samd/cores/arduino/USB/CDC.cpp:106-125 | after SET_LINE_CODING, GET_LINE_CODING returns exactly the 7 bytes sent, and lineState is unchanged |
| `Control.GetThenSet` | hardware/arduino/samd/cores/arduino/USB/CDC.cpp:106-125 | sending back the GET_LINE_CODING reply with SET_LINE_CODING leaves the line info as it was |
| `Control.TouchScenario` | hardware/arduino/samd/cores/arduino/USB/CDC.cpp:127-141 | at 1200 baud, lineState 0 schedules a reset after 250 ms and a following lineState 1 cancels it |
| `Control.NoTouchAt9600` | hardware/arduino/samd/cores/arduino/USB/CDC.cpp:132 | at 9600 baud no line-state value schedules or cancels a reset |
| `Facade.IsOpen` | hardware/arduino/samd/cores/arduino/USB/CDC.cpp:262-277 | never open before 500 ms; afterwards open exactly when lineState is non-zero |
| `Facade.ClosedAtStartup` | hardware/arduino/samd/cores/arduino/USB/CDC.cpp:62-68 | with the power-on line info the port reads closed at every time |
| `Facade.OpenFollowsControlLineState` | hardware/arduino/samd/cores/arduino/USB/CDC.cpp:127-129 | after 500 ms the open test follows the value of the last SET_CONTROL_LINE_STATE; the other requests do not change it |
| `Facade.WriteOutcome` | hardware/arduino/samd/cores/arduino/USB/CDC.cpp:226-248 | write returns the count the send reported. The write-error flag becomes set exactly when that count is 0 or the flag was already set |

## Left out

- The interface descriptor `_cdcInterface` and `CDC_GetInterface`/`CDC_GetInterfaceLength` (lines 70-99): a constant table built from descriptor macros whose definitions are not part of this model.
- The busy-wait `while (UDD_FifoByteCount(EP0) < 15)` in SET_LINE_CODING: it waits on hardware state. It is replaced by the precondition that the data stage holds at least 7 bytes. The code waits for 15 bytes in the FIFO (the 8-byte setup packet plus the 7 data bytes), not for 7; only the 7 data bytes are copied, and the model follows that copy.
- `begin`, `end` (empty bodies) and `flush` (a single `USBD_Flush` call): nothing to model. `write(uint8_t)` is `write` of one byte, and the transmit itself is the endpoint's, so only the handling of its result is modelled. The unreachable lines 246-247 are not modelled. The comment at lines 228-232 speaks of sending only while the port is open, but the code sends whatever lineState is; the model follows the code.
- `delay(10)` inside `operator bool`, `millis()` and the reset timer: timing side effects. Elapsed time is a parameter, and `initiateReset(250)`/`cancelReset()` are the returned `ResetAction`.
- Concurrency between the USB interrupt and the application on the volatile indices: each operation is one atomic step. The interrupt runs `accept` when new endpoint data arrives; its caller is in `USBCore.cpp`, which is not part of this model. `read` also runs `accept` itself (lines 215-216), so `head` is written from both contexts. The atomic-step model hides a race between those two writers, and so does not establish the single-writer split for `head`.
- The unused global `_serialPeek`.
- `libraries/Ciao/src/lib/UnowifiCiao.cpp`: string forwarding to an external REST/MQTT library that is not part of this model.
