/** The fixed-size records the collector exchanges with the heating controller
    (schedule switch points, holiday dates, error log entries), their byte
    layout, and the text lines `buildRecordResponse` makes of them. */
module Records {
  import opened Numeric

  /** `sizeof` of the three record structures. */
  const ScheduleEntrySize: nat := 2
  const HolidayEntrySize: nat := 3
  const ErrorRecordSize: nat := 12

  /** One switch point of a schedule: a 4-bit on flag, a 4-bit day (twice the weekday
      index), and the time of day in steps of ten minutes. */
  datatype ScheduleEntry = ScheduleEntry(on: Nibble, day: Nibble, time: Byte)

  /** The entry written by `schedule <index> unset`. */
  const UnsetEntry := ScheduleEntry(7, 0xe, 0x90)

  /** A holiday or vacation boundary; the year counts from 2000. */
  datatype HolidayEntry = HolidayEntry(year: Byte, month: Byte, day: Byte)

  /** One entry of an error log. The code and the duration are kept as the two
      big-endian bytes the device sends; the year is a 7-bit field beside the
      has-date bit. */
  datatype ErrorRecord = ErrorRecord(
    ascii0: Byte, ascii1: Byte,
    codeHi: Byte, codeLo: Byte,
    year: int, hasDate: bool,
    month: Byte, hour: Byte, day: Byte, minute: Byte,
    durationHi: Byte, durationLo: Byte,
    source: Byte)

  predicate WellFormedError(r: ErrorRecord) { 0 <= r.year < 128 }

  function EncodeSchedule(e: ScheduleEntry): (b: seq<Byte>)
    ensures |b| == ScheduleEntrySize
  {
    [e.on + 16 * e.day, e.time]
  }

  function DecodeSchedule(b: seq<Byte>): ScheduleEntry
    requires |b| == ScheduleEntrySize
  {
    ScheduleEntry(b[0] % 16, b[0] / 16, b[1])
  }

  function EncodeHoliday(e: HolidayEntry): (b: seq<Byte>)
    ensures |b| == HolidayEntrySize
  {
    [e.year, e.month, e.day]
  }

  function DecodeHoliday(b: seq<Byte>): HolidayEntry
    requires |b| == HolidayEntrySize
  {
    HolidayEntry(b[0], b[1], b[2])
  }

  function EncodeError(r: ErrorRecord): (b: seq<Byte>)
    requires WellFormedError(r)
    ensures |b| == ErrorRecordSize
  {
    [r.ascii0, r.ascii1, r.codeHi, r.codeLo,
     r.year + (if r.hasDate then 128 else 0),
     r.month, r.hour, r.day, r.minute,
     r.durationHi, r.durationLo, r.source]
  }

  function DecodeError(b: seq<Byte>): (r: ErrorRecord)
    requires |b| == ErrorRecordSize
    ensures WellFormedError(r)
  {
    ErrorRecord(b[0], b[1], b[2], b[3], b[4] % 128, b[4] >= 128,
                b[5], b[6], b[7], b[8], b[9], b[10], b[11])
  }

  /** The byte layouts are faithful: decoding undoes encoding, and every byte
      string of the right size is the encoding of what it decodes to. */
  lemma ScheduleLayoutRoundTrip(e: ScheduleEntry, b: seq<Byte>)
    requires |b| == ScheduleEntrySize
    ensures DecodeSchedule(EncodeSchedule(e)) == e
    ensures EncodeSchedule(DecodeSchedule(b)) == b
  {
  }

  lemma HolidayLayoutRoundTrip(e: HolidayEntry, b: seq<Byte>)
    requires |b| == HolidayEntrySize
    ensures DecodeHoliday(EncodeHoliday(e)) == e
    ensures EncodeHoliday(DecodeHoliday(b)) == b
  {
  }

  lemma ErrorLayoutRoundTrip(r: ErrorRecord, b: seq<Byte>)
    requires WellFormedError(r)
    requires |b| == ErrorRecordSize
    ensures DecodeError(EncodeError(r)) == r
    ensures EncodeError(DecodeError(b)) == b
  {
  }

  const DayNames: seq<string> := ["MO", "TU", "WE", "TH", "FR", "SA", "SU"]

  /** `dayNames[i]`; an index past the table reads memory the program does not own,
      which this model renders as "??". */
  function DayName(i: nat): string
  {
    if i < |DayNames| then DayNames[i] else "??"
  }

  /** The char a byte stands for when it is printed as a `char`. */
  function ByteChar(b: Byte): char
  {
    b as char
  }

  /** `buildRecordResponse(const ScheduleEntry*)`: "DAY HH:MM ON|OFF", or the empty
      text for an unset entry (a time of 0x90 or later). */
  function FormatSchedule(e: ScheduleEntry): (r: string)
    ensures r == [] <==> e.time >= 0x90
  {
    if e.time >= 0x90 then ""
    else
      var minutes := e.time * 10;
      DayName(e.day / 2) + " " + ClockText(minutes / 60, minutes % 60) + " " + OnText(e.on)
  }

  /** "HH:MM" with both fields zero-padded to two digits. */
  function ClockText(hours: nat, minutes: nat): string
  {
    ZeroPad(hours, 2) + ":" + ZeroPad(minutes, 2)
  }

  function OnText(on: Nibble): string
  {
    if on != 0 then "ON" else "OFF"
  }

  /** `buildRecordResponse(const char *type, const HolidayEntry*)`: "TYPE DD-MM-YYYY". */
  function FormatHoliday(tag: string, e: HolidayEntry): (r: string)
    ensures |r| >= |tag| + 11 && r[..|tag| + 1] == tag + " "
  {
    var date := HolidayDate(e);
    assert (tag + " " + date)[..|tag| + 1] == tag + " ";
    tag + " " + date
  }

  /** "DD-MM-YYYY": day and month zero-padded to two digits, the year (from 2000) padded
      to four characters with the zero fill that is still in force. */
  function HolidayDate(e: HolidayEntry): (r: string)
    ensures |r| >= 10
  {
    ZeroPad(e.day, 2) + "-" + ZeroPad(e.month, 2) + "-" + ZeroPad(2000 + e.year, 4)
  }

  /** The date part of an error line: "YYYY-MM-DD HH:MM", or a placeholder when the
      record carries no date. */
  function ErrorDate(r: ErrorRecord): string
    requires WellFormedError(r)
  {
    if r.hasDate then
      PadLeft(Decimal(2000 + r.year), 4, ' ') + "-" + ZeroPad(r.month, 2) + "-" + ZeroPad(r.day, 2) + " "
        + ZeroPad(r.hour, 2) + ":" + ZeroPad(r.minute, 2)
    else "xxxx-xx-xx xx:xx"
  }

  /** `buildRecordResponse(const ErrorRecord*)`: date, source address in hex, the two
      code characters, the numeric code and the duration in minutes (both decoded
      from big-endian), or the empty text when there is no error at this position. */
  function FormatError(r: ErrorRecord): (line: string)
    requires WellFormedError(r)
    ensures line == [] <==> r.ascii0 == 0
  {
    if r.ascii0 == 0 then ""
    else
      ErrorDate(r) + " " + Hex(r.source) + " " + [ByteChar(r.ascii0), ByteChar(r.ascii1)] + " "
        + Decimal(Be16(r.codeHi, r.codeLo)) + " " + Decimal(Be16(r.durationHi, r.durationLo))
  }

  /** The date of a dated error line is read back field by field: the year, month, day,
      hour and minute at their fixed positions. */
  lemma ErrorLineDateFields(r: ErrorRecord)
    requires WellFormedError(r) && r.ascii0 != 0 && r.hasDate
    requires r.month < 100 && r.day < 100 && r.hour < 100 && r.minute < 100
    ensures var line := FormatError(r);
      |line| > 17
      && AllDigits(line[..4]) && DigitsValue(line[..4]) == 2000 + r.year && line[4] == '-'
      && AllDigits(line[5..7]) && DigitsValue(line[5..7]) == r.month && line[7] == '-'
      && AllDigits(line[8..10]) && DigitsValue(line[8..10]) == r.day && line[10] == ' '
      && AllDigits(line[11..13]) && DigitsValue(line[11..13]) == r.hour && line[13] == ':'
      && AllDigits(line[14..16]) && DigitsValue(line[14..16]) == r.minute && line[16] == ' '
  {
    FourDigits(2000 + r.year);
    var Y := Decimal(2000 + r.year);
    assert PadLeft(Y, 4, ' ') == Y;
    var M, D, h, mi := ZeroPad(r.month, 2), ZeroPad(r.day, 2), ZeroPad(r.hour, 2), ZeroPad(r.minute, 2);
    ZeroPadValue(r.month, 2);
    ZeroPadValue(r.day, 2);
    ZeroPadValue(r.hour, 2);
    ZeroPadValue(r.minute, 2);
    assert ErrorDate(r) == Y + "-" + M + "-" + D + " " + h + ":" + mi;
    ErrorLineAfterDate(r);
    DatedLineLayout(Y, M, D, h, mi, ErrorLineRest(r));
  }

  /** After the date, a line carries the source address in hex and the two code
      characters, each field followed by a space. */
  lemma ErrorLineSourceFields(r: ErrorRecord)
    requires WellFormedError(r) && r.ascii0 != 0
    ensures var line := FormatError(r);
      var d, k := |ErrorDate(r)|, |Hex(r.source)|;
      |line| > d + k + 4 && line[d] == ' '
      && line[d + 1..d + 1 + k] == Hex(r.source) && HexValue(line[d + 1..d + 1 + k]) == r.source
      && line[d + 1 + k] == ' ' && line[d + 2 + k] == ByteChar(r.ascii0)
      && line[d + 3 + k] == ByteChar(r.ascii1) && line[d + 4 + k] == ' '
  {
    var H := Hex(r.source);
    var d := |ErrorDate(r)|;
    var rest := ErrorLineRest(r);
    ErrorLineAfterDate(r);
    assert rest == " " + H + " " + [ByteChar(r.ascii0), ByteChar(r.ascii1)] + ErrorLineTail(r);
    SourceLayout(H, ByteChar(r.ascii0), ByteChar(r.ascii1), ErrorLineTail(r));
    assert FormatError(r)[d + 1..d + 1 + |H|] == rest[1..1 + |H|];
  }

  /** The numeric code and the duration, each behind a space. */
  function ErrorLineTail(r: ErrorRecord): string
  {
    " " + Decimal(Be16(r.codeHi, r.codeLo)) + " " + Decimal(Be16(r.durationHi, r.durationLo))
  }

  /** What follows the date on an error line. */
  function ErrorLineRest(r: ErrorRecord): string
  {
    " " + Hex(r.source) + " " + [ByteChar(r.ascii0), ByteChar(r.ascii1)] + ErrorLineTail(r)
  }

  lemma ErrorLineAfterDate(r: ErrorRecord)
    requires WellFormedError(r) && r.ascii0 != 0
    ensures FormatError(r) == ErrorDate(r) + ErrorLineRest(r)
  {
  }

  /** Where the fields of "YYYY-MM-DD HH:MM" sit when each has its full width. */
  lemma DatedLineLayout(Y: string, M: string, D: string, h: string, mi: string, rest: string)
    requires |Y| == 4 && |M| == 2 && |D| == 2 && |h| == 2 && |mi| == 2
    ensures var line := Y + "-" + M + "-" + D + " " + h + ":" + mi + rest;
      line[..4] == Y && line[4] == '-' && line[5..7] == M && line[7] == '-'
      && line[8..10] == D && line[10] == ' ' && line[11..13] == h && line[13] == ':'
      && line[14..16] == mi && line[16..] == rest
  {
  }

  /** Where the source address and the code characters sit after the date. */
  lemma SourceLayout(H: string, c0: char, c1: char, tail: string)
    ensures var rest := " " + H + " " + [c0, c1] + tail;
      |rest| >= |H| + 4 && rest[0] == ' ' && rest[1..1 + |H|] == H && rest[1 + |H|] == ' '
      && rest[2 + |H|] == c0 && rest[3 + |H|] == c1 && rest[4 + |H|..] == tail
  {
    var rest := " " + H + " " + [c0, c1] + tail;
    assert rest[1..1 + |H|] == H;
  }

  /** An error line whose record carries no date starts with the placeholder. */
  lemma ErrorLineWithoutDate(r: ErrorRecord)
    requires WellFormedError(r) && r.ascii0 != 0 && !r.hasDate
    ensures var line := FormatError(r);
      |line| > 17 && line[..16] == "xxxx-xx-xx xx:xx" && line[16] == ' '
  {
  }

  /** An error line read from raw record bytes ends with the code and the duration
      as decimal numbers, each the big-endian value of its two bytes. */
  lemma ErrorLineEndsWithCodes(b: seq<Byte>, code: nat, duration: nat)
    requires |b| == ErrorRecordSize && b[0] != 0
    requires code < 0x1_0000 && duration < 0x1_0000
    requires b[2] == code / 256 && b[3] == code % 256
    requires b[9] == duration / 256 && b[10] == duration % 256
    ensures var line := FormatError(DecodeError(b));
      var tail := " " + Decimal(code) + " " + Decimal(duration);
      |line| > |tail| && line[|line| - |tail|..] == tail
  {
    var r := DecodeError(b);
    assert Be16(r.codeHi, r.codeLo) == code;
    assert Be16(r.durationHi, r.durationLo) == duration;
    var head := ErrorDate(r) + " " + Hex(r.source) + " " + [ByteChar(r.ascii0), ByteChar(r.ascii1)];
    var tail := " " + Decimal(code) + " " + Decimal(duration);
    assert FormatError(r) == head + tail;
    assert (head + tail)[|head + tail| - |tail|..] == tail;
  }
}
