/** The printer's 15-byte status frame and its decoder (`parsePrinterStatus`).

    Three bytes are coded through closed tables; every byte outside a table
    decodes to that table's `Unknown`. The other twelve bytes are copied
    from their fixed offsets. The string values of the source's enums are
    represented by the constructors. */
module PrinterStatusFrame {
  import opened Options
  import opened TypedArray

  datatype PrinterReadyStatus = Ready | LidOpen | NoPaper | Busy | Unknown

  datatype LabelColor = Transparent | White | Pink | Blue | Yellow | Unknown

  datatype PaperType = Continuous | Gapped | BlackMark | Unknown

  /** The decoded record; field names follow the source, including the
      spelling of `maximunLabelWidth`. */
  datatype PrinterStatus = PrinterStatus(
    printerStatus: PrinterReadyStatus,
    dataLength: byte,
    dataUnknown: byte,
    dataUnknown2: byte,
    labelColor: LabelColor,
    borderRadius: byte,
    dataUnknown3: byte,
    paperType: PaperType,
    dataUnknown4: byte,
    dataUnknown5: byte,
    dataUnknown6: byte,
    labelLength: byte,
    maximunLabelWidth: byte,
    labelWidth: byte,
    dataUnknown7: byte)

  /** Number of bytes a frame must have for the decoder to accept it. */
  const FrameLength := 15

  function PrinterStatusFromByte(b: byte): (r: PrinterReadyStatus)
    ensures r == Ready <==> b == 0
    ensures r == LidOpen <==> b == 1
    ensures r == NoPaper <==> b == 4
    ensures r == Busy <==> b == 32
    ensures r == PrinterReadyStatus.Unknown <==> b !in {0, 1, 4, 32}
  {
    match b
    case 0 => Ready
    case 1 => LidOpen
    case 4 => NoPaper
    case 32 => Busy
    case _ => PrinterReadyStatus.Unknown
  }

  function LabelColorFromByte(b: byte): (r: LabelColor)
    ensures r == Transparent <==> b == 2
    ensures r == White <==> b == 3
    ensures r == Pink <==> b == 4
    ensures r == Blue <==> b == 5
    ensures r == Yellow <==> b == 6
    ensures r == LabelColor.Unknown <==> !(2 <= b <= 6)
  {
    match b
    case 2 => Transparent
    case 3 => White
    case 4 => Pink
    case 5 => Blue
    case 6 => Yellow
    case _ => LabelColor.Unknown
  }

  function PaperTypeFromByte(b: byte): (r: PaperType)
    ensures r == Continuous <==> b == 0
    ensures r == Gapped <==> b == 1
    ensures r == BlackMark <==> b == 2
    ensures r == PaperType.Unknown <==> 2 < b
  {
    match b
    case 0 => Continuous
    case 1 => Gapped
    case 2 => BlackMark
    case _ => PaperType.Unknown
  }

  /** Decodes a status frame; `None` stands for the source's `null`. */
  function ParsePrinterStatus(data: seq<byte>): (r: Option<PrinterStatus>)
    ensures r.None? <==> |data| < FrameLength
  {
    if |data| < FrameLength then None
    else Some(PrinterStatus(
      printerStatus := PrinterStatusFromByte(Load(data, 0)),
      dataLength := Load(data, 1),
      dataUnknown := Load(data, 2),
      dataUnknown2 := Load(data, 3),
      labelColor := LabelColorFromByte(Load(data, 4)),
      borderRadius := Load(data, 5),
      dataUnknown3 := Load(data, 6),
      paperType := PaperTypeFromByte(Load(data, 7)),
      dataUnknown4 := Load(data, 8),
      dataUnknown5 := Load(data, 9),
      dataUnknown6 := Load(data, 10),
      labelLength := Load(data, 11),
      maximunLabelWidth := Load(data, 12),
      labelWidth := Load(data, 13),
      dataUnknown7 := Load(data, 14)))
  }

  // ---------------------------------------------------------------------------
  // Encoding: the inverse of the decoder on the records it can produce with
  // every coded field known. It exists to state the frame layout as a
  // round trip; the printer software itself never builds status frames.
  // ---------------------------------------------------------------------------

  function PrinterStatusCode(s: PrinterReadyStatus): Option<byte> {
    match s
    case Ready => Some(0)
    case LidOpen => Some(1)
    case NoPaper => Some(4)
    case Busy => Some(32)
    case Unknown => None
  }

  function LabelColorCode(c: LabelColor): Option<byte> {
    match c
    case Transparent => Some(2)
    case White => Some(3)
    case Pink => Some(4)
    case Blue => Some(5)
    case Yellow => Some(6)
    case Unknown => None
  }

  function PaperTypeCode(p: PaperType): Option<byte> {
    match p
    case Continuous => Some(0)
    case Gapped => Some(1)
    case BlackMark => Some(2)
    case Unknown => None
  }

  /** Every known status has a code that decodes back to it, and every byte
      that decodes to a known status is that status's code. */
  lemma PrinterStatusCodeRoundTrip(s: PrinterReadyStatus, b: byte)
    ensures PrinterStatusCode(s).None? <==> s == PrinterReadyStatus.Unknown
    ensures PrinterStatusCode(s).Some? ==> PrinterStatusFromByte(PrinterStatusCode(s).value) == s
    ensures PrinterStatusFromByte(b) != PrinterReadyStatus.Unknown ==> PrinterStatusCode(PrinterStatusFromByte(b)) == Some(b)
  {
  }

  lemma LabelColorCodeRoundTrip(c: LabelColor, b: byte)
    ensures LabelColorCode(c).None? <==> c == LabelColor.Unknown
    ensures LabelColorCode(c).Some? ==> LabelColorFromByte(LabelColorCode(c).value) == c
    ensures LabelColorFromByte(b) != LabelColor.Unknown ==> LabelColorCode(LabelColorFromByte(b)) == Some(b)
  {
  }

  lemma PaperTypeCodeRoundTrip(p: PaperType, b: byte)
    ensures PaperTypeCode(p).None? <==> p == PaperType.Unknown
    ensures PaperTypeCode(p).Some? ==> PaperTypeFromByte(PaperTypeCode(p).value) == p
    ensures PaperTypeFromByte(b) != PaperType.Unknown ==> PaperTypeCode(PaperTypeFromByte(b)) == Some(b)
  {
  }

  /** The frame a printer would send for `st`, or `None` when one of its
      coded fields is `Unknown` (no byte is known to produce it). */
  function EncodeStatus(st: PrinterStatus): (r: Option<seq<byte>>)
    ensures r.Some? <==> (st.printerStatus != PrinterReadyStatus.Unknown
                          && st.labelColor != LabelColor.Unknown
                          && st.paperType != PaperType.Unknown)
    ensures r.Some? ==> |r.value| == FrameLength
  {
    match (PrinterStatusCode(st.printerStatus), LabelColorCode(st.labelColor), PaperTypeCode(st.paperType))
    case (Some(s), Some(c), Some(p)) =>
      Some([s, st.dataLength, st.dataUnknown, st.dataUnknown2, c, st.borderRadius,
            st.dataUnknown3, p, st.dataUnknown4, st.dataUnknown5, st.dataUnknown6,
            st.labelLength, st.maximunLabelWidth, st.labelWidth, st.dataUnknown7])
    case _ => None
  }

  /** Decoding an encoded record gives the record back. */
  lemma ParseEncode(st: PrinterStatus)
    requires st.printerStatus != PrinterReadyStatus.Unknown
    requires st.labelColor != LabelColor.Unknown
    requires st.paperType != PaperType.Unknown
    ensures EncodeStatus(st).Some?
    ensures ParsePrinterStatus(EncodeStatus(st).value) == Some(st)
  {
    PrinterStatusCodeRoundTrip(st.printerStatus, 0);
    LabelColorCodeRoundTrip(st.labelColor, 0);
    PaperTypeCodeRoundTrip(st.paperType, 0);
  }

  /** Re-encoding a decoded frame whose coded bytes are all known gives back
      its first 15 bytes: each field sits at its fixed offset and nothing
      past offset 14 is read. */
  lemma EncodeParse(data: seq<byte>)
    requires FrameLength <= |data|
    requires PrinterStatusFromByte(data[0]) != PrinterReadyStatus.Unknown
    requires LabelColorFromByte(data[4]) != LabelColor.Unknown
    requires PaperTypeFromByte(data[7]) != PaperType.Unknown
    ensures ParsePrinterStatus(data).Some?
    ensures EncodeStatus(ParsePrinterStatus(data).value) == Some(data[..FrameLength])
  {
    PrinterStatusCodeRoundTrip(Ready, data[0]);
    LabelColorCodeRoundTrip(White, data[4]);
    PaperTypeCodeRoundTrip(Continuous, data[7]);
    var st := ParsePrinterStatus(data).value;
    var frame := [data[0], st.dataLength, st.dataUnknown, st.dataUnknown2, data[4], st.borderRadius,
                  st.dataUnknown3, data[7], st.dataUnknown4, st.dataUnknown5, st.dataUnknown6,
                  st.labelLength, st.maximunLabelWidth, st.labelWidth, st.dataUnknown7];
    assert frame == data[..FrameLength];
  }

  /** Every frame of at least 15 bytes decodes, with each plain field equal
      to the byte at its offset: the fallback to 0 is never taken. */
  lemma ParseFieldOffsets(data: seq<byte>)
    requires FrameLength <= |data|
    ensures ParsePrinterStatus(data).Some?
    ensures var st := ParsePrinterStatus(data).value;
      && st.printerStatus == PrinterStatusFromByte(data[0])
      && st.dataLength == data[1]
      && st.dataUnknown == data[2]
      && st.dataUnknown2 == data[3]
      && st.labelColor == LabelColorFromByte(data[4])
      && st.borderRadius == data[5]
      && st.dataUnknown3 == data[6]
      && st.paperType == PaperTypeFromByte(data[7])
      && st.dataUnknown4 == data[8]
      && st.dataUnknown5 == data[9]
      && st.dataUnknown6 == data[10]
      && st.labelLength == data[11]
      && st.maximunLabelWidth == data[12]
      && st.labelWidth == data[13]
      && st.dataUnknown7 == data[14]
  {
  }

  /** Only the first 15 bytes matter. */
  lemma ParseReadsOnlyFrame(a: seq<byte>, b: seq<byte>)
    requires FrameLength <= |a| && FrameLength <= |b|
    requires a[..FrameLength] == b[..FrameLength]
    ensures ParsePrinterStatus(a) == ParsePrinterStatus(b)
  {
    assert forall i :: 0 <= i < FrameLength ==> a[i] == a[..FrameLength][i] == b[i];
  }

  /** The frame a PM220 reports with 40x30 white labels loaded. */
  lemma Pm220Sample()
    ensures ParsePrinterStatus([0, 10, 1, 34, 3, 0, 3, 0, 6, 18, 21, 40, 60, 30, 45])
         == Some(PrinterStatus(Ready, 10, 1, 34, White, 0, 3, Continuous, 6, 18, 21, 40, 60, 30, 45))
  {
  }

}
