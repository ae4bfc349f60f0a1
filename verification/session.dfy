/** The state of one command connection as a value, and what each of its operations
    does to it: the busy flag, the chunked read of a block of device memory into a
    byte buffer, the walk over the fixed-size records of that buffer, and the replies
    to the bus messages that arrive while a command is pending. */
module SessionModel {
  import opened Numeric
  import opened TextStream
  import opened Records
  import opened Commands

  /** A message handed to the bus: destination, type, payload, and whether an answer
      is awaited. */
  datatype EmsMessage = EmsMessage(dest: Byte, msgType: Byte, data: seq<Byte>, expectResponse: bool)

  /** A message from the bus to this collector. Its first data byte is the offset the
      payload was read from. */
  datatype PcMessage = PcMessage(source: Byte, msgType: Byte, data: seq<Byte>)

  /** The fields of a `CommandConnection`, with the text it responded and the messages
      it handed to the bus, in order. `timerArmed` says that the response timeout is
      running, so that its expiry will be handled. */
  datatype Session = Session(
    waiting: bool,
    timerArmed: bool,
    response: seq<Byte>,
    position: nat,
    counter: nat,
    offset: nat,
    length: nat,
    dest: Byte,
    requestType: Byte,
    responses: seq<string>,
    sent: seq<EmsMessage>)

  /** The parse position never passes the end of the received bytes. */
  predicate Valid(s: Session)
  {
    s.position <= |s.response|
  }

  /** A fresh connection: not waiting, nothing received, nothing said. */
  const Initial := Session(false, false, [], 0, 0, 0, 0, 0, 0, [], [])

  /** `respond`. */
  function Respond(s: Session, text: string): (r: Session)
    ensures r == s.(responses := s.responses + [text])
  {
    s.(responses := s.responses + [text])
  }

  /** `sendCommand`: the payload is the offset byte followed by the data, and the
      connection now waits for the answer, with the response timeout started. */
  function SendCommand(s: Session, dest: Byte, msgType: Byte, offset: Byte, data: seq<Byte>, expectResponse: bool): (r: Session)
    ensures r.waiting && r.timerArmed
    ensures r.sent == s.sent + [EmsMessage(dest, msgType, [offset] + data, expectResponse)]
    ensures r.(waiting := s.waiting, timerArmed := s.timerArmed, sent := s.sent) == s
  {
    s.(waiting := true, timerArmed := true, sent := s.sent + [EmsMessage(dest, msgType, [offset] + data, expectResponse)])
  }

  /** `continueRequest`: while fewer bytes than requested have arrived, ask for the rest
      of the block, from where the received bytes end. Offset and count are one-byte
      fields and are truncated. */
  function ContinueRequest(s: Session): (r: (bool, Session))
    ensures r.0 <==> |s.response| < s.length
    ensures !r.0 ==> r.1 == s
    ensures r.0 ==> r.1 == SendCommand(s, s.dest, s.requestType, ToByte(s.offset + |s.response|),
                                       [ToByte(s.length - |s.response|)], true)
  {
    var received := |s.response|;
    if received >= s.length then (false, s)
    else (true, SendCommand(s, s.dest, s.requestType, ToByte(s.offset + received), [ToByte(s.length - received)], true))
  }

  /** `startRequest`: begin reading `length` bytes at `offset` of a device's message
      `msgType`. The buffer and the parse position start over; the record counter starts
      over only for a new request, so that a follow-up block continues the numbering. */
  function StartRequest(s: Session, dest: Byte, msgType: Byte, offset: nat, length: nat, newRequest: bool): (r: Session)
    ensures Valid(r) && r.response == [] && r.position == 0
    ensures r.counter == if newRequest then 0 else s.counter
    ensures r.offset == offset && r.length == length && r.dest == dest && r.requestType == msgType
    ensures r.responses == s.responses
    ensures length > 0 ==> r.waiting && r.timerArmed && r.sent == s.sent + [EmsMessage(dest, msgType, [ToByte(offset), ToByte(length)], true)]
    ensures length == 0 ==> r.waiting == s.waiting && r.timerArmed == s.timerArmed && r.sent == s.sent
  {
    var t := s.(offset := offset, length := length, dest := dest, requestType := msgType,
                response := [], position := 0, counter := if newRequest then 0 else s.counter);
    assert t.offset + |t.response| == offset && t.length - |t.response| == length;
    assert [ToByte(offset)] + [ToByte(length)] == [ToByte(offset), ToByte(length)];
    ContinueRequest(t).1
  }

  /** The record types a block is made of. */
  datatype RecordKind = ScheduleRecords | ErrorRecords

  function RecordSize(kind: RecordKind): (n: nat)
    ensures n > 0
  {
    match kind
    case ScheduleRecords => ScheduleEntrySize
    case ErrorRecords => ErrorRecordSize
  }

  /** `buildRecordResponse` for one record, read from its bytes. */
  function FormatRecord(kind: RecordKind, bytes: seq<Byte>): string
    requires |bytes| == RecordSize(kind)
  {
    match kind
    case ScheduleRecords => FormatSchedule(DecodeSchedule(bytes))
    case ErrorRecords => FormatError(DecodeError(bytes))
  }

  /** The formatter a walk over records of `kind` applies to each record. */
  function Formatter(kind: RecordKind): seq<Byte> -> string
  {
    bytes => if |bytes| == RecordSize(kind) then FormatRecord(kind, bytes) else ""
  }

  /** The numbered line of one record: the prefix, the record number zero-padded to two
      digits, and the record's text. */
  function ResponseLine(prefix: string, number: nat, text: string): string
  {
    prefix + ZeroPad(number, 2) + " " + text
  }

  /** The line builder of a walk whose lines carry `prefix`. */
  function Numbered(prefix: string): (nat, string) -> string
  {
    (number: nat, text: string) => ResponseLine(prefix, number, text)
  }

  /** What the walk over the records of the buffer works on: the received bytes, the
      parse position, the record counter and what was responded. */
  datatype Cursor = Cursor(response: seq<Byte>, position: nat, counter: nat, responses: seq<string>)

  predicate WithinBuffer(c: Cursor)
  {
    c.position <= |c.response|
  }

  /** The loop of `loopOverResponse` over records of `size` bytes read by `format`:
      consume the whole records after the parse position, responding the `line` of each
      record's number and text, until a record formats to nothing (true) or no whole
      record is left (false). */
  function Walk(c: Cursor, format: seq<Byte> -> string, size: nat, line: (nat, string) -> string): (r: (bool, Cursor))
    requires WithinBuffer(c) && size > 0
    ensures WithinBuffer(r.1)
    ensures r.1.response == c.response && r.1.position >= c.position
    ensures c.responses <= r.1.responses
    decreases |c.response| - c.position
  {
    if c.position + size > |c.response| then (false, c)
    else
      var text := format(c.response[c.position..c.position + size]);
      var next := c.(position := c.position + size, counter := c.counter + 1);
      if text == [] then (true, next)
      else Walk(next.(responses := next.responses + [line(next.counter, text)]), format, size, line)
  }

  function CursorOf(s: Session): Cursor
  {
    Cursor(s.response, s.position, s.counter, s.responses)
  }

  /** `loopOverResponse` on the connection: the walk from its parse position, with the
      rest of the connection unchanged. */
  function LoopOver(s: Session, format: seq<Byte> -> string, size: nat, line: (nat, string) -> string): (r: (bool, Session))
    requires Valid(s) && size > 0
    ensures Valid(r.1) && r.1.waiting == s.waiting && s.responses <= r.1.responses
  {
    var (done, c) := Walk(CursorOf(s), format, size, line);
    (done, s.(position := c.position, counter := c.counter, responses := c.responses))
  }

  /** The devices asked for their version, in the order they are asked. */
  const Sources: seq<(Byte, string)> := [(AddressUBA, "UBA"), (AddressBC10, "BC10"), (AddressRC, "RC")]

  /** The position of `source` in the table, or the table's size when it is not there. */
  function SourceIndex(source: Byte): (i: nat)
    ensures i <= |Sources|
    ensures i < |Sources| ==> Sources[i].0 == source
    ensures forall j :: 0 <= j < i && j < |Sources| ==> Sources[j].0 != source
  {
    if source == AddressUBA then 0 else if source == AddressBC10 then 1 else if source == AddressRC then 2 else 3
  }

  /** "NAME version: MAJOR.MINOR" with the minor version zero-padded to two digits. */
  function VersionLine(name: string, major: Byte, minor: Byte): string
  {
    name + " version: " + Decimal(major) + "." + ZeroPad(minor, 2)
  }

  /** The reply to a version request: respond the version of a known device, then ask
      the next device of the table, or finish after the last one. */
  function VersionReply(s: Session, source: Byte, major: Byte, minor: Byte): (r: (bool, Session))
    ensures s.waiting ==> r.1.waiting
    ensures s.responses <= r.1.responses
  {
    var i := SourceIndex(source);
    var s1 := if i < |Sources| then Respond(s, VersionLine(Sources[i].1, major, minor)) else s;
    if i < |Sources| - 1 then (false, StartRequest(s1, Sources[i + 1].0, 0x02, 0, 3, true))
    else (true, s1)
  }

  /** The line prefix of an error log: "S" for the RC's first log (0x12), "L" for the
      boiler's second log (0x11), and "B" for the boiler's first log (0x10), for the RC's
      second log (0x13) and for any other type. */
  function ErrorPrefix(msgType: Byte): (r: string)
    ensures r == "S" <==> msgType == 0x12
    ensures r == "L" <==> msgType == 0x11
    ensures r == "B" <==> msgType != 0x11 && msgType != 0x12
  {
    if msgType == 0x12 then "S" else if msgType == 0x11 then "L" else "B"
  }

  /** The reply to an error-log read. When the first log of the boiler (0x10) or of the
      RC (0x12) is read through, the second log (type + 1) is requested, 5 or 4 records
      long, continuing the numbering. */
  function ErrorReply(s: Session, source: Byte, msgType: Byte): (r: (bool, Session))
    requires Valid(s)
    requires 0x10 <= msgType <= 0x13
    ensures Valid(r.1)
    ensures s.waiting ==> r.1.waiting
    ensures s.responses <= r.1.responses
  {
    var (done, s1) := LoopOver(s, Formatter(ErrorRecords), ErrorRecordSize, Numbered(ErrorPrefix(msgType)));
    if done then (true, s1)
    else
      var (more, s2) := ContinueRequest(s1);
      if !more && (msgType == 0x10 || msgType == 0x12) then
        var count := if msgType == 0x10 then 5 else 4;
        (false, StartRequest(s2, source, msgType + 1, 0, count * ErrorRecordSize, false))
      else (!more, s2)
  }

  /** The reply to a schedule read: walk the switch points, and ask for more while the
      block is incomplete. */
  function ScheduleReply(s: Session): (r: (bool, Session))
    requires Valid(s)
    ensures Valid(r.1)
    ensures s.waiting ==> r.1.waiting
    ensures s.responses <= r.1.responses
  {
    var (done, s1) := LoopOver(s, Formatter(ScheduleRecords), ScheduleEntrySize, Numbered(""));
    if done then (true, s1)
    else
      var (more, s2) := ContinueRequest(s1);
      (!more, s2)
  }

  /** The reply to a holiday or vacation read (an offset past 80 in a schedule message):
      the begin and the end date once both records are there, "FAIL" otherwise. */
  function HolidayReply(s: Session): (r: (bool, Session))
    requires Valid(s)
    ensures Valid(r.1)
    ensures r.1.waiting == s.waiting
    ensures s.responses <= r.1.responses
  {
    if |s.response| >= 2 * HolidayEntrySize then
      var begin := DecodeHoliday(s.response[..HolidayEntrySize]);
      var end := DecodeHoliday(s.response[HolidayEntrySize..2 * HolidayEntrySize]);
      (true, Respond(Respond(s, FormatHoliday("BEGIN", begin)), FormatHoliday("END", end)))
    else (false, Respond(s, "FAIL"))
  }

  /** The C string in a buffer: its characters up to the first zero byte. */
  function CString(bytes: seq<Byte>): (r: string)
    ensures |r| <= |bytes|
  {
    if bytes == [] || bytes[0] == 0 then "" else [ByteChar(bytes[0])] + CString(bytes[1..])
  }

  function Min(a: nat, b: nat): nat { if a <= b then a else b }

  /** The lines of a contact-info reply: its payload cut into pieces of 21 bytes, the
      last one shorter, each read as a C string. */
  function ContactLines(payload: seq<Byte>): (lines: seq<string>)
    decreases |payload|
  {
    if payload == [] then []
    else
      var n := Min(|payload|, ContactWidth);
      [CString(payload[..n])] + ContactLines(payload[n..])
  }

  /** The reply to a contact-info read. An empty answer ends the read as well, since a
      device without contact info answers that way. */
  function ContactReply(s: Session, data: seq<Byte>): (r: (bool, Session))
    requires |data| >= 1
    ensures s.waiting ==> r.1.waiting
    ensures s.responses <= r.1.responses
  {
    var (more, s1) := ContinueRequest(s);
    if !more || |data| == 1 then (true, s1.(responses := s1.responses + ContactLines(data[1..])))
    else (false, s1)
  }

  /** What a bus message must hold for the handler to read it: the offset byte, and the
      two version bytes of a version reply. */
  predicate Readable(msg: PcMessage)
  {
    |msg.data| >= 1 && (msg.msgType == 0x02 ==> |msg.data| >= 4)
  }

  predicate IsHkScheduleType(msgType: Byte)
  {
    msgType == 0x3f || msgType == 0x49 || msgType == 0x53 || msgType == 0x5d
  }

  /** The reply-specific part of `handlePcMessage`, once the payload is appended. */
  function Reply(s: Session, msg: PcMessage): (r: (bool, Session))
    requires Valid(s) && Readable(msg)
  {
    var t := msg.msgType;
    if t == 0x02 then VersionReply(s, msg.source, msg.data[2], msg.data[3])
    else if 0x10 <= t <= 0x13 then ErrorReply(s, msg.source, t)
    else if IsHkScheduleType(t) then
      if msg.data[0] > 80 then HolidayReply(s) else ScheduleReply(s)
    else if t == 0x38 || t == 0x39 then ScheduleReply(s)
    else if t == 0xa4 then ContactReply(s, msg.data)
    else (false, s)
  }

  /** `handlePcMessage`: ignored unless a command is pending; an acknowledgement (0xff)
      ends the command with "FAIL" for a refusal (4) or "OK"; any other answer stops the
      response timeout, appends its payload to the buffer and is handled by type, and a
      finished read ends with "OK". */
  function PcMessageStep(s: Session, msg: PcMessage): (r: Session)
    requires Valid(s)
    requires s.waiting ==> Readable(msg)
  {
    if !s.waiting then s
    else if msg.msgType == 0xff then Respond(s.(waiting := false), if msg.data[0] == 0x04 then "FAIL" else "OK")
    else
      var (done, s1) := Reply(s.(timerArmed := false, response := s.response + msg.data[1..]), msg);
      if done then Respond(s1.(waiting := false), "OK") else s1
  }

  /** The expiry of the response timeout, two seconds after it was last started, which
      calls `responseTimeout`: a command still pending ends with "ERRTIMEOUT". A stopped
      timer never expires, so then nothing happens. */
  function TimeoutStep(s: Session): (r: Session)
    ensures s.timerArmed ==> !r.waiting && !r.timerArmed
    ensures s.timerArmed && s.waiting ==> r.responses == s.responses + ["ERRTIMEOUT"]
    ensures s.timerArmed && !s.waiting ==> r == s.(timerArmed := false)
    ensures !s.timerArmed ==> r == s
  {
    if !s.timerArmed then s
    else if s.waiting then Respond(s.(waiting := false, timerArmed := false), "ERRTIMEOUT")
    else s.(timerArmed := false)
  }

  /** What an accepted command does to the connection. */
  function Perform(s: Session, action: Action): Session
  {
    match action
    case NoAction => s
    case Help(topic) => Respond(s, HelpText(topic))
    case Send(dest, msgType, offset, payload) => SendCommand(s, dest, msgType, offset, payload, false)
    case Request(source, requestType, start, length) => StartRequest(s, source, requestType, start, length, true)
  }

  /** `handleRequest` for one request line. `line` is the text of the read buffer, which
      ends with the line's "\n" terminator, so the size test counts the terminator. The
      request is refused with "ERRBUSY" while a command is pending, ignored when the
      buffer holds at most two characters (an empty line ended by "\r\n"), and
      otherwise handled, with "ERRCMD" or "ERRARGS" for a refusal. The flag says that a
      `lexical_cast` exception left the handler, which then changes none of these
      fields. */
  function RequestStep(s: Session, line: string): (r: (bool, Session))
  {
    if s.waiting then (false, Respond(s, "ERRBUSY"))
    else if |line| <= 2 then (false, s)
    else
      var outcome := HandleCommand(Stream(line, true));
      match outcome.result
      case Ok => (false, Perform(s, outcome.action))
      case InvalidCmd => (false, Respond(s, "ERRCMD"))
      case InvalidArgs => (false, Respond(s, "ERRARGS"))
      case Aborted => (true, s)
  }
}
