/**
 The rest of the `Serial_` facade that carries logic: the "is the port open"
 test (`operator bool`) and the result handling of `write`. The clock and the
 transmit endpoint are parameters: `millis()` becomes the elapsed time passed
 in, and `USBD_Send` becomes the byte count it reported.
 */
module Facade {
  import opened Bytes
  import opened LineCoding
  import opened Control

  /** For this long after start-up the port never reports open, so that a
      host still holding the port from a firmware upload is not mistaken for
      a terminal. */
  const StartupQuietMs: nat := 500

  /** `Serial_::operator bool`: open once the start-up interval has passed and
      the host has set any bit of lineState. */
  function IsOpen(millis: u32, lineState: byte): (open: bool)
    ensures open <==> millis >= StartupQuietMs && lineState != 0
  {
    if millis < StartupQuietMs then false
    else lineState > 0
  }

  /** At power-on the port is closed whatever the time. */
  lemma ClosedAtStartup(millis: u32)
    ensures !IsOpen(millis, Default.lineState)
  {
  }

  /** After start-up, the port is open exactly when the last
      SET_CONTROL_LINE_STATE carried a non-zero value; SET_LINE_CODING and
      GET_LINE_CODING do not change the answer. */
  lemma OpenFollowsControlLineState(li: LineInfo, s: Setup, millis: u32)
    requires millis >= StartupQuietMs
    requires IsSetLineCoding(s) ==> |s.data| >= CodingSize
    ensures IsSetControlLineState(s) ==> (IsOpen(millis, HandleSetup(li, s).line.lineState) <==> s.wValueL != 0)
    ensures !IsSetControlLineState(s) ==>
      IsOpen(millis, HandleSetup(li, s).line.lineState) == IsOpen(millis, li.lineState)
  {
  }

  /** The observable result of `Serial_::write`: the count to return and the
      sticky write-error flag afterwards. */
  datatype WriteResult = WriteResult(written: nat, writeError: bool)

  /** `Serial_::write` given the number of bytes `USBD_Send` reported: a
      positive count is returned as is; zero sets the write-error flag. */
  function WriteOutcome(sent: u32, writeError: bool): (r: WriteResult)
    ensures r.written == sent
    ensures r.writeError <==> writeError || sent == 0
  {
    if sent > 0 then WriteResult(sent, writeError)
    else WriteResult(0, true)
  }
}
