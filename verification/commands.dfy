/** The text commands of a `CommandConnection` (`handleCommand` and the handlers it
    dispatches to): each request line is read word by word and turned into at most
    one action on the bus, a write (`sendCommand`), a chunked read (`startRequest`)
    or a help text (`respond`). */
module Commands {
  import opened Numeric
  import opened TextStream
  import opened Records
  import opened Parsers

  /** Bus addresses of the boiler controller, the BC10 base controller and the room
      controller. */
  const AddressUBA: Byte := 0x08
  const AddressBC10: Byte := 0x09
  const AddressRC: Byte := 0x10

  /** The four results of a command handler, and a lexical_cast exception that leaves
      the handler uncaught. */
  datatype CommandResult = Ok | InvalidCmd | InvalidArgs | Aborted

  /** What an accepted command asks the connection to do. */
  datatype Action =
    | NoAction
    | Help(topic: HelpTopic)
    | Send(dest: Byte, msgType: Byte, offset: Byte, payload: seq<Byte>)
    | Request(source: Byte, requestType: Byte, start: nat, length: nat)

  datatype Outcome = Outcome(result: CommandResult, action: Action)

  /** The help texts; each `help` subcommand responds with one of them. */
  datatype HelpTopic = MainTopic | HkTopic | WwTopic | RcTopic | UbaTopic

  function HelpText(topic: HelpTopic): string
  {
    match topic
    case MainTopic => "Available commands (help with '<command> help'):\nhk[1|2|3|4]\nuba\nrc\n"
    case HkTopic => "Available subcommands:\nmode [day|night|auto]\ndaytemperature <temp>\nnighttemperature <temp>\nholidaytemperature <temp>\ngetholiday\nholidaymode <start:YYYY-MM-DD> <end:YYYY-MM-DD>\ngetvacation\nvacationmode <start:YYYY-MM-DD> <end:YYYY-MM-DD>\npartymode <hours>\ngetschedule\nschedule <index> unset\nschedule <index> [MO|TU|WE|TH|FR|SA|SU] HH:MM [ON|OFF]\n"
    case WwTopic => "Available subcommands:\ntemperature <temp>\nlimittemperature <temp>\nloadonce\ncancelload\ngetschedule\nschedule <index> unset\nschedule <index> [MO|TU|WE|TH|FR|SA|SU] HH:MM [ON|OFF]\nselectschedule [custom|hk]\nshowloadindicator [on|off]\nthermdesinfect mode [on|off]\nthermdesinfect day [monday|tuesday|wednesday|thursday|friday|saturday|sunday]\nthermdesinfect hour <hour>\nthermdesinfect temperature <temp>\nzirkpump mode [on|off|auto]\nzirkpump count [1|2|3|4|5|6|alwayson]\nzirkpump getschedule\nzirkpump schedule <index> unset\nzirkpump schedule <index> [MO|TU|WE|TH|FR|SA|SU] HH:MM [ON|OFF]\nzirkpump selectschedule [custom|hk]\n"
    case RcTopic => "Available subcommands:\ngeterrors\ngetcontactinfo\nsetcontactinfo [1|2] <text>\n"
    case UbaTopic => "Available subcommands:\nantipendel <minutes>\nhyst [on|off] <kelvin>\npumpmodulation <minpercent> <maxpercent>\npumpdelay <minutes>\ngeterrors\n"
  }

  /** A command takes an action exactly when it succeeds. */
  predicate Consistent(o: Outcome)
  {
    o.result == Ok <==> o.action != NoAction
  }

  function Accept(a: Action): (r: Outcome)
    requires a != NoAction
    ensures Consistent(r) && r.result == Ok
  {
    Outcome(Ok, a)
  }

  const BadArgs := Outcome(InvalidArgs, NoAction)
  const BadCommand := Outcome(InvalidCmd, NoAction)
  const Thrown := Outcome(Aborted, NoAction)

  /** `sendCommand` with a one-byte payload. */
  function SendByte(dest: Byte, msgType: Byte, offset: Byte, value: Byte): (r: Outcome)
    ensures Consistent(r) && r.result == Ok
  {
    Accept(Send(dest, msgType, offset, [value]))
  }

  /** The text of a string as the bytes `c_str()` hands over. */
  function TextBytes(s: string): (b: seq<Byte>)
    ensures |b| == |s|
    ensures forall i :: 0 <= i < |s| ==> b[i] == ToByte(s[i] as int)
  {
    seq(|s|, i requires 0 <= i < |s| => ToByte(s[i] as int))
  }

  /** `handleCommand`: the first word chooses the handler. */
  function HandleCommand(st: Stream): (r: Outcome)
    ensures Consistent(r)
  {
    var (category, s) := ReadWord(st);
    if category == "help" then Accept(Help(MainTopic))
    else if HkCircuit(category).Some? then HkCommand(s, HkCircuit(category).value)
    else if category == "ww" then WwCommand(s)
    else if category == "rc" then RcCommand(s)
    else if category == "uba" then UbaCommand(s)
    else if category == "getversion" then Accept(Request(AddressUBA, 0x02, 0, 3))
    else BadCommand
  }

  /** The parameter message of heating circuit `hk1` to `hk4`. */
  function HkCircuit(category: string): (r: Option<Byte>)
    ensures r.Some? ==> r.value <= 253
  {
    if category == "hk1" then Some(61)
    else if category == "hk2" then Some(71)
    else if category == "hk3" then Some(81)
    else if category == "hk4" then Some(91)
    else None
  }

  /** `handleRcCommand`. */
  function RcCommand(st: Stream): (r: Outcome)
    ensures Consistent(r)
  {
    var (cmd, s) := ReadWord(st);
    if cmd == "help" then Accept(Help(RcTopic))
    else if cmd == "getcontactinfo" then Accept(Request(AddressRC, 0xa4, 0, 42))
    else if cmd == "setcontactinfo" then
      var (line, s1) := ReadUnsigned(s);
      if !s1.good || line < 1 || line > 2 then BadArgs
      else Accept(Send(AddressRC, 0xa4, line, TextBytes(ContactText(s1))))
    else if cmd == "geterrors" then Accept(Request(AddressRC, 0x12, 0, 4 * ErrorRecordSize))
    else BadCommand
  }

  /** The words of the rest of the request, each followed by one space, as the loop of
      `setcontactinfo` collects them; the read that finds no word adds an empty word
      and its space as well. */
  function ContactBuffer(st: Stream): (r: string)
    decreases |st.rest|
  {
    if !st.good then ""
    else
      var (token, s) := ReadWord(st);
      token + " " + (if s.good then ContactBuffer(s) else "")
  }

  const ContactWidth: nat := 21

  /** The 21 characters written to one contact-info line: the collected words, padded
      with spaces. */
  function ContactText(st: Stream): (r: string)
    ensures |r| == ContactWidth
  {
    (ContactBuffer(st) + seq(ContactWidth, _ => ' '))[..ContactWidth]
  }

  /** `uba pumpmodulation <min> <max>`: both percentages, the maximum first. */
  function PumpModulationCommand(st: Stream): (r: Outcome)
    ensures Consistent(r)
  {
    var (min, s1) := ReadUnsigned(st);
    var (max, s2) := ReadUnsigned(s1);
    if !s2.good || min > max || max > 100 then BadArgs
    else Accept(Send(AddressUBA, 0x16, 9, [max, min]))
  }

  /** `handleUbaCommand`. */
  function UbaCommand(st: Stream): (r: Outcome)
    ensures Consistent(r)
  {
    var (cmd, s) := ReadWord(st);
    if cmd == "help" then Accept(Help(UbaTopic))
    else if cmd == "geterrors" then Accept(Request(AddressUBA, 0x10, 0, 8 * ErrorRecordSize))
    else if cmd == "antipendel" then
      match IntParameter(s, 120)
      case None => BadArgs
      case Some(minutes) => SendByte(AddressUBA, 0x16, 6, minutes)
    else if cmd == "hyst" then
      var (direction, s1) := ReadWord(s);
      if !s1.good || (direction != "on" && direction != "off") then BadArgs
      else
        match IntParameter(s1, 20)
        case None => BadArgs
        case Some(hyst) => SendByte(AddressUBA, 0x16, if direction == "on" then 5 else 4, hyst)
    else if cmd == "pumpmodulation" then PumpModulationCommand(s)
    else if cmd == "pumpdelay" then
      match IntParameter(s, 120)
      case None => BadArgs
      case Some(minutes) => SendByte(AddressUBA, 0x16, 8, minutes)
    else BadCommand
  }

  /** Offsets of the holiday and the vacation period in a heating circuit's schedule. */
  const HolidayOffset: Byte := 93
  const VacationOffset: Byte := 87

  /** Number of switch points of a schedule. */
  const ScheduleEntries: nat := 42

  /** `handleHkCommand` for the heating circuit whose parameter message is `hkType`; its
      schedule message is `hkType + 2`. */
  function HkCommand(st: Stream, hkType: Byte): (r: Outcome)
    requires hkType <= 253
    ensures Consistent(r)
  {
    var (cmd, s) := ReadWord(st);
    if cmd == "help" then Accept(Help(HkTopic))
    else if cmd == "mode" then
      var (mode, _) := ReadWord(s);
      if mode == "day" then SendByte(AddressRC, hkType, 7, 0x01)
      else if mode == "night" then SendByte(AddressRC, hkType, 7, 0x00)
      else if mode == "auto" then SendByte(AddressRC, hkType, 7, 0x02)
      else BadArgs
    else if cmd == "daytemperature" then HkTemperatureCommand(s, hkType, 2)
    else if cmd == "nighttemperature" then HkTemperatureCommand(s, hkType, 1)
    else if cmd == "holidaytemperature" then HkTemperatureCommand(s, hkType, 3)
    else if cmd == "holidaymode" then SetHolidayCommand(s, hkType + 2, HolidayOffset)
    else if cmd == "vacationmode" then SetHolidayCommand(s, hkType + 2, VacationOffset)
    else if cmd == "partymode" then
      match IntParameter(s, 99)
      case None => BadArgs
      case Some(hours) => SendByte(AddressRC, hkType, 86, hours)
    else if cmd == "schedule" then ScheduleCommand(s, hkType + 2)
    else if cmd == "getschedule" then
      Accept(Request(AddressRC, hkType + 2, 0, ScheduleEntries * ScheduleEntrySize))
    else if cmd == "getvacation" then
      Accept(Request(AddressRC, hkType + 2, VacationOffset, 2 * HolidayEntrySize))
    else if cmd == "getholiday" then
      Accept(Request(AddressRC, hkType + 2, HolidayOffset, 2 * HolidayEntrySize))
    else BadCommand
  }

  /** The byte offset of schedule slot `index` (counted from 1): `(index - 1)` in
      `unsigned int`, times the entry size, truncated to the one-byte offset field. */
  function ScheduleOffset(index: nat): (offset: Byte)
    requires index <= MaxU32
    ensures 1 <= index <= ScheduleEntries ==> offset == (index - 1) * ScheduleEntrySize
  {
    ToByte(SubU32(index, 1) * ScheduleEntrySize)
  }

  /** The `schedule <index> ...` subcommand shared by the heating circuits, the hot water
      and the circulation pump: an index of at most 42 and a switch point. */
  function ScheduleCommand(st: Stream, msgType: Byte): (r: Outcome)
    ensures Consistent(r)
    ensures r.result == Ok ==> ReadUnsigned(st).0 <= ScheduleEntries
  {
    var (index, s) := ReadUnsigned(st);
    if !s.good || index > ScheduleEntries then BadArgs
    else
      match ScheduleEntryOf(s)
      case Rejected => BadArgs
      case Threw => Thrown
      case Parsed(entry) => Accept(Send(AddressRC, msgType, ScheduleOffset(index), EncodeSchedule(entry)))
  }

  /** `static_cast` of a float to an integer: truncation toward zero. */
  function Truncate(x: real): int
  {
    if x >= 0.0 then x.Floor else -((-x).Floor)
  }

  /** `handleHkTemperatureCommand`: a temperature in degrees, sent in half degrees;
      `numeric_cast<uint8_t>` refuses a doubled value outside (-1, 256), and the result
      must lie in 20..60. */
  function HkTemperatureCommand(st: Stream, hkType: Byte, offset: Byte): (r: Outcome)
    ensures Consistent(r)
  {
    var (value, s) := ReadReal(st);
    if !s.good then BadArgs
    else
      var doubled := 2.0 * value;
      if doubled <= -1.0 || doubled >= 256.0 then BadArgs
      else
        var halfDegrees := Truncate(doubled);
        if halfDegrees < 20 || halfDegrees > 60 then BadArgs
        else SendByte(AddressRC, hkType, offset, halfDegrees)
  }

  /** `handleSetHolidayCommand`: two dates, the first not after the second, sent as two
      holiday records. */
  function SetHolidayCommand(st: Stream, msgType: Byte, offset: Byte): (r: Outcome)
    ensures Consistent(r)
  {
    var (beginText, s1) := ReadWord(st);
    var (endText, s2) := ReadWord(s1);
    if !s2.good then BadArgs
    else
      match HolidayEntryOf(beginText)
      case Rejected => BadArgs
      case Threw => Thrown
      case Parsed(begin) =>
        match HolidayEntryOf(endText)
        case Rejected => BadArgs
        case Threw => Thrown
        case Parsed(end) =>
          if !NotAfter(begin, end) then BadArgs
          else Accept(Send(AddressRC, msgType, offset, EncodeHoliday(begin) + EncodeHoliday(end)))
  }

  /** `handleWwCommand`: hot water. */
  function WwCommand(st: Stream): (r: Outcome)
    ensures Consistent(r)
  {
    var (cmd, s) := ReadWord(st);
    if cmd == "help" then Accept(Help(WwTopic))
    else if cmd == "thermdesinfect" then ThermDesinfectCommand(s)
    else if cmd == "zirkpump" then ZirkPumpCommand(s)
    else if cmd == "mode" then
      var (mode, _) := ReadWord(s);
      if mode == "on" then SendByte(AddressRC, 0x37, 2, 0x01)
      else if mode == "off" then SendByte(AddressRC, 0x37, 2, 0x00)
      else if mode == "auto" then SendByte(AddressRC, 0x37, 2, 0x02)
      else BadArgs
    else if cmd == "temperature" then
      match IntParameter(s, 80)
      case None => BadArgs
      case Some(temperature) =>
        if temperature < 30 then BadArgs else SendByte(AddressUBA, 0x33, 2, temperature)
    else if cmd == "limittemperature" then
      match IntParameter(s, 80)
      case None => BadArgs
      case Some(temperature) =>
        if temperature < 30 then BadArgs else SendByte(AddressRC, 0x37, 8, temperature)
    else if cmd == "loadonce" then SendByte(AddressUBA, 0x35, 0, 35)
    else if cmd == "cancelload" then SendByte(AddressUBA, 0x35, 0, 3)
    else if cmd == "showloadindicator" then
      var (mode, _) := ReadWord(s);
      if mode == "on" then SendByte(AddressRC, 0x37, 9, 0xff)
      else if mode == "off" then SendByte(AddressRC, 0x37, 9, 0x00)
      else BadArgs
    else if cmd == "getschedule" then Accept(Request(AddressRC, 0x38, 0, ScheduleEntries * ScheduleEntrySize))
    else if cmd == "schedule" then ScheduleCommand(s, 0x38)
    else if cmd == "selectschedule" then
      var (schedule, _) := ReadWord(s);
      if schedule == "custom" then SendByte(AddressRC, 0x37, 0, 0xff)
      else if schedule == "hk" then SendByte(AddressRC, 0x37, 0, 0x00)
      else BadArgs
    else BadCommand
  }

  const DesinfectDays: seq<string> := ["monday", "tuesday", "wednesday", "thursday", "friday", "saturday", "sunday", "everyday"]

  /** The weekday of a thermal desinfection, 0 for monday up to 6 for sunday, and 7 for
      every day. */
  function DesinfectDay(day: string): (r: Option<Byte>)
    ensures r.Some? ==> r.value < |DesinfectDays| && DesinfectDays[r.value] == day
    ensures r.None? ==> day !in DesinfectDays
  {
    if day == "monday" then Some(0x00)
    else if day == "tuesday" then Some(0x01)
    else if day == "wednesday" then Some(0x02)
    else if day == "thursday" then Some(0x03)
    else if day == "friday" then Some(0x04)
    else if day == "saturday" then Some(0x05)
    else if day == "sunday" then Some(0x06)
    else if day == "everyday" then Some(0x07)
    else None
  }

  /** `handleThermDesinfectCommand`. */
  function ThermDesinfectCommand(st: Stream): (r: Outcome)
    ensures Consistent(r)
  {
    var (cmd, s) := ReadWord(st);
    if cmd == "mode" then
      var (mode, _) := ReadWord(s);
      if mode == "on" then SendByte(AddressRC, 0x37, 4, 0xff)
      else if mode == "off" then SendByte(AddressRC, 0x37, 4, 0x00)
      else BadArgs
    else if cmd == "day" then
      var (day, _) := ReadWord(s);
      match DesinfectDay(day)
      case None => BadArgs
      case Some(d) => SendByte(AddressRC, 0x37, 5, d)
    else if cmd == "hour" then
      match IntParameter(s, 23)
      case None => BadArgs
      case Some(hour) => SendByte(AddressRC, 0x37, 6, hour)
    else if cmd == "temperature" then
      match IntParameter(s, 80)
      case None => BadArgs
      case Some(temperature) =>
        if temperature < 60 then BadArgs else SendByte(AddressUBA, 0x33, 8, temperature)
    else BadCommand
  }

  /** The count of `zirkpump count`: "alwayson" is 7; otherwise the number, cast to the
      one-byte field before its range 1..6 is checked; a word that is not a number is
      refused. */
  function ZirkPumpCount(countText: string): (r: Option<Byte>)
    ensures r.Some? ==> 1 <= r.value <= 7
  {
    if countText == "alwayson" then Some(0x07)
    else
      match LexicalCast(countText)
      case None => None
      case Some(n) =>
        var count := ToByte(n);
        if count < 1 || count > 6 then None else Some(count)
  }

  /** `handleZirkPumpCommand`: the circulation pump. */
  function ZirkPumpCommand(st: Stream): (r: Outcome)
    ensures Consistent(r)
  {
    var (cmd, s) := ReadWord(st);
    if cmd == "mode" then
      var (mode, _) := ReadWord(s);
      if mode == "on" then SendByte(AddressRC, 0x37, 3, 0x01)
      else if mode == "off" then SendByte(AddressRC, 0x37, 3, 0x00)
      else if mode == "auto" then SendByte(AddressRC, 0x37, 3, 0x02)
      else BadArgs
    else if cmd == "count" then
      var (countText, _) := ReadWord(s);
      match ZirkPumpCount(countText)
      case None => BadArgs
      case Some(count) => SendByte(AddressUBA, 0x33, 7, count)
    else if cmd == "getschedule" then Accept(Request(AddressRC, 0x39, 0, ScheduleEntries * ScheduleEntrySize))
    else if cmd == "schedule" then ScheduleCommand(s, 0x39)
    else if cmd == "selectschedule" then
      var (schedule, _) := ReadWord(s);
      if schedule == "custom" then SendByte(AddressRC, 0x37, 1, 0xff)
      else if schedule == "hk" then SendByte(AddressRC, 0x37, 1, 0x00)
      else BadArgs
    else BadCommand
  }
}
