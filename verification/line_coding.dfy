/**
 The CDC line-coding record `LineInfo` and its 7-byte wire form, the line
 coding structure of section 6.3.11 of the USB CDC PSTN Subclass 1.2:
 dwDTERate as a little-endian 32-bit integer, then bCharFormat, bParityType
 and bDataBits, one byte each. The firmware's struct holds a uint32_t and then
 four uint8_t, so it has no padding: bytes 0-6 are exactly this wire form, and
 the eighth byte (offset 7) is lineState, which is not part of it.
 */
module LineCoding {
  import opened Bytes

  datatype LineInfo = LineInfo(
    dteRate: u32,      // baud rate
    charFormat: byte,  // stop bits: 0 = 1, 1 = 1.5, 2 = 2
    parityType: byte,  // 0 = none, 1 = odd, 2 = even, 3 = mark, 4 = space
    dataBits: byte,    // 5, 6, 7, 8 or 16
    lineState: byte    // bit 0 = DTR, bit 1 = RTS
  )

  /** Number of bytes in the wire form. */
  const CodingSize: nat := 7

  /** The power-on line info: 115200 baud, 1 stop bit, no parity, 8 data bits, port closed. */
  const Default: LineInfo := LineInfo(115200, 0, 0, 8, 0)

  /** The 7 bytes GET_LINE_CODING sends: the first 7 bytes of the struct in memory. */
  function Encode(li: LineInfo): (bs: seq<byte>)
    ensures |bs| == CodingSize
    ensures FromLe(bs[..4]) == li.dteRate
    ensures bs[4] == li.charFormat && bs[5] == li.parityType && bs[6] == li.dataBits
  {
    Pow256Four();
    var rate := ToLe(li.dteRate, 4);
    FromLeToLe(li.dteRate, 4);
    var bs := rate + [li.charFormat, li.parityType, li.dataBits];
    assert bs[..4] == rate;
    bs
  }

  /** SET_LINE_CODING's byte-for-byte copy of 7 received bytes over the start of
      the record: the four line-coding fields are replaced, lineState is kept. */
  function Overlay(li: LineInfo, data: seq<byte>): (li': LineInfo)
    requires |data| >= CodingSize
    ensures li'.lineState == li.lineState
    ensures Encode(li') == data[..CodingSize]
  {
    Pow256Four();
    var li' := LineInfo(FromLe(data[..4]), data[4], data[5], data[6], li.lineState);
    ToLeFromLe(data[..4]);
    assert data[..4][..4] == data[..4];
    assert Encode(li')[..4] == data[..CodingSize][..4];
    li'
  }

  /** Copying a record's own wire form over it changes nothing. */
  lemma OverlayEncode(li: LineInfo)
    ensures Overlay(li, Encode(li)) == li
  {
  }

  /** The wire form determines the four line-coding fields. */
  lemma EncodeInjective(a: LineInfo, b: LineInfo)
    requires Encode(a) == Encode(b)
    ensures a.(lineState := 0) == b.(lineState := 0)
  {
  }

  /** At power-on the wire form is 00 C2 01 00 00 00 08. */
  lemma DefaultEncoding()
    ensures Encode(Default) == [0x00, 0xC2, 0x01, 0x00, 0x00, 0x00, 0x08]
  {
    Pow256Four();
    assert ToLe(115200, 4) == [0x00, 0xC2, 0x01, 0x00];
  }
}
