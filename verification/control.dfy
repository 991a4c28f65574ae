/**
 `CDC_Setup`: the handler for the CDC class-specific control requests that
 arrive on endpoint 0 (section 6.3 of the USB CDC PSTN Subclass 1.2):
 GET_LINE_CODING, SET_LINE_CODING and SET_CONTROL_LINE_STATE, plus the
 "1200-baud touch" that resets the board into its bootloader.

 The control-endpoint transmit and the reset timer are not called here; the
 handler returns the reply it would send and the reset action it would take.
 */
module Control {
  import opened Bytes
  import opened LineCoding

  /** bmRequestType: device-to-host, class request, interface recipient. */
  const DeviceToHostClassInterface: byte := 0xA1
  /** bmRequestType: host-to-device, class request, interface recipient. */
  const HostToDeviceClassInterface: byte := 0x21

  /** bRequest codes of the CDC requests handled. */
  const SetLineCodingRequest: byte := 0x20
  const GetLineCodingRequest: byte := 0x21
  const SetControlLineStateRequest: byte := 0x22

  /** The baud rate at which dropping DTR asks for a bootloader reset. */
  const TouchBaud: nat := 1200
  /** Delay, in milliseconds, passed to `initiateReset`. */
  const ResetDelayMs: nat := 250

  /** The fields of the setup packet the handler looks at, and the data stage
      bytes that follow it in the endpoint 0 FIFO. */
  datatype Setup = Setup(bmRequestType: byte, bRequest: byte, wValueL: byte, data: seq<byte>)

  /** What the handler does to the board's reset timer. */
  datatype ResetAction = NoReset | InitiateReset(delayMs: nat) | CancelReset

  /** The handler's return value, the line info afterwards, the bytes sent back
      on endpoint 0 and the reset action. */
  datatype Outcome = Outcome(handled: bool, line: LineInfo, reply: seq<byte>, reset: ResetAction)

  predicate IsGetLineCoding(s: Setup) {
    s.bmRequestType == DeviceToHostClassInterface && s.bRequest == GetLineCodingRequest
  }

  predicate IsSetLineCoding(s: Setup) {
    s.bmRequestType == HostToDeviceClassInterface && s.bRequest == SetLineCodingRequest
  }

  predicate IsSetControlLineState(s: Setup) {
    s.bmRequestType == HostToDeviceClassInterface && s.bRequest == SetControlLineStateRequest
  }

  /** Data Terminal Ready is bit 0 of lineState. */
  predicate Dtr(lineState: byte) {
    lineState % 2 == 1
  }

  /** The reset rule: only at exactly 1200 baud does the DTR bit matter; a
      cleared DTR schedules a reset, a set DTR cancels a pending one. */
  function TouchReset(dteRate: u32, lineState: byte): ResetAction {
    if dteRate != TouchBaud then NoReset
    else if !Dtr(lineState) then InitiateReset(ResetDelayMs)
    else CancelReset
  }

  /** `CDC_Setup`. A SET_LINE_CODING request needs its 7 data bytes; the
      firmware waits for them to arrive before it copies them. */
  function HandleSetup(li: LineInfo, s: Setup): (o: Outcome)
    requires IsSetLineCoding(s) ==> |s.data| >= CodingSize
    ensures o.handled <==> IsGetLineCoding(s)
    ensures o.handled ==> o.line == li && o.reply == Encode(li) && o.reset == NoReset
    ensures !o.handled ==> o.reply == []
    ensures IsSetLineCoding(s) ==>
      o.line.lineState == li.lineState && Encode(o.line) == s.data[..CodingSize] && o.reset == NoReset
    ensures IsSetControlLineState(s) ==>
      o.line == li.(lineState := s.wValueL) && o.reset == TouchReset(li.dteRate, s.wValueL)
    ensures !IsGetLineCoding(s) && !IsSetLineCoding(s) && !IsSetControlLineState(s) ==>
      o.line == li && o.reset == NoReset
  {
    if IsGetLineCoding(s) then
      Outcome(true, li, Encode(li), NoReset)
    else if IsSetLineCoding(s) then
      Outcome(false, Overlay(li, s.data), [], NoReset)
    else if IsSetControlLineState(s) then
      var li' := li.(lineState := s.wValueL);
      Outcome(false, li', [], TouchReset(li'.dteRate, li'.lineState))
    else
      Outcome(false, li, [], NoReset)
  }

  /** A reset is started or cancelled only by SET_CONTROL_LINE_STATE at 1200
      baud, and then it is started exactly when the new DTR bit is clear. */
  lemma ResetOnlyOnTouch(li: LineInfo, s: Setup)
    requires IsSetLineCoding(s) ==> |s.data| >= CodingSize
    ensures HandleSetup(li, s).reset != NoReset <==> IsSetControlLineState(s) && li.dteRate == TouchBaud
    ensures HandleSetup(li, s).reset == InitiateReset(ResetDelayMs) <==>
      IsSetControlLineState(s) && li.dteRate == TouchBaud && !Dtr(s.wValueL)
  {
  }

  /** After SET_LINE_CODING, GET_LINE_CODING returns exactly the 7 bytes the
      host sent, and the line state is unchanged. */
  lemma SetThenGet(li: LineInfo, setCoding: Setup, get: Setup)
    requires IsSetLineCoding(setCoding) && |setCoding.data| >= CodingSize
    requires IsGetLineCoding(get)
    ensures HandleSetup(HandleSetup(li, setCoding).line, get).reply == setCoding.data[..CodingSize]
    ensures HandleSetup(HandleSetup(li, setCoding).line, get).line.lineState == li.lineState
  {
  }

  /** GET_LINE_CODING followed by a SET_LINE_CODING of the bytes it returned
      leaves the line info as it was. */
  lemma GetThenSet(li: LineInfo, get: Setup, wValueL: byte)
    requires IsGetLineCoding(get)
    ensures var reply := HandleSetup(li, get).reply;
            HandleSetup(li, Setup(HostToDeviceClassInterface, SetLineCodingRequest, wValueL, reply)).line == li
  {
    OverlayEncode(li);
  }

  /** The host opens the port at 1200 baud and closes it again: closing
      (DTR low) schedules a reset after 250 ms, reopening (DTR high) cancels it. */
  lemma TouchScenario(li: LineInfo)
    requires li.dteRate == 1200
    ensures var closed := HandleSetup(li, Setup(HostToDeviceClassInterface, SetControlLineStateRequest, 0x00, []));
            && closed.reset == InitiateReset(250)
            && HandleSetup(closed.line, Setup(HostToDeviceClassInterface, SetControlLineStateRequest, 0x01, [])).reset
               == CancelReset
  {
  }

  /** At any other baud rate, dropping DTR does not schedule a reset. */
  lemma NoTouchAt9600(li: LineInfo, wValueL: byte)
    requires li.dteRate == 9600
    ensures HandleSetup(li, Setup(HostToDeviceClassInterface, SetControlLineStateRequest, wValueL, [])).reset == NoReset
  {
  }
}
