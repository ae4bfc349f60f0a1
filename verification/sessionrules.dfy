/** What the connection promises across its operations: the record walk numbers and
    consumes whole records, a pending command ends only with a verdict, only one command
    is pending at a time, and the version query asks the three devices in turn. */
module SessionRules {
  import opened Numeric
  import opened TextStream
  import opened Records
  import opened Parsers
  import opened Commands
  import opened CommandRules
  import opened SessionModel

  /** The bytes taken by `n` records of `size` bytes. */
  function Span(n: nat, size: nat): nat
  {
    if n == 0 then 0 else Span(n - 1, size) + size
  }

  /** The walk consumes whole records and counts each one it consumes. */
  lemma {:induction false} WalkCounts(c: Cursor, format: seq<Byte> -> string, size: nat, line: (nat, string) -> string)
    requires WithinBuffer(c) && size > 0
    ensures var t := Walk(c, format, size, line).1;
      t.counter >= c.counter && t.position == c.position + Span(t.counter - c.counter, size)
    decreases |c.response| - c.position
  {
    var r := Walk(c, format, size, line);
    if c.position + size > |c.response| {
      assert r == (false, c);
    } else {
      var text := format(c.response[c.position..c.position + size]);
      var next := c.(position := c.position + size, counter := c.counter + 1);
      if text == [] {
        assert r == (true, next);
      } else {
        var c2 := next.(responses := next.responses + [line(next.counter, text)]);
        assert r == Walk(c2, format, size, line);
        WalkCounts(c2, format, size, line);
        var m := r.1.counter - c2.counter;
        assert Span(m + 1, size) == Span(m, size) + size;
      }
    }
  }

  /** The walk keeps what was responded before and responds one line for each record it
      consumes, except the empty record that ends it. */
  lemma {:induction false} WalkResponds(c: Cursor, format: seq<Byte> -> string, size: nat, line: (nat, string) -> string)
    requires WithinBuffer(c) && size > 0
    ensures var (done, t) := Walk(c, format, size, line);
      c.responses <= t.responses
      && |t.responses| + (if done then 1 else 0) == |c.responses| + t.counter - c.counter
    decreases |c.response| - c.position
  {
    var r := Walk(c, format, size, line);
    if c.position + size > |c.response| {
      assert r == (false, c);
    } else {
      var text := format(c.response[c.position..c.position + size]);
      var next := c.(position := c.position + size, counter := c.counter + 1);
      if text == [] {
        assert r == (true, next);
      } else {
        var c2 := next.(responses := next.responses + [line(next.counter, text)]);
        assert r == Walk(c2, format, size, line);
        WalkResponds(c2, format, size, line);
        assert c.responses <= c2.responses;
      }
    }
  }

  /** The record of `size` bytes that ends at `end` formats to nothing. */
  predicate EmptyBefore(bytes: seq<Byte>, format: seq<Byte> -> string, size: nat, end: nat)
  {
    size <= end <= |bytes| && format(bytes[end - size..end]) == []
  }

  /** The walk stops just past a record that formats to nothing, or, when it finds none,
      with less than one record left. */
  lemma {:induction false} WalkStops(c: Cursor, format: seq<Byte> -> string, size: nat, line: (nat, string) -> string)
    requires WithinBuffer(c) && size > 0
    ensures var (done, t) := Walk(c, format, size, line);
      (done ==> t.position >= c.position + size && EmptyBefore(c.response, format, size, t.position))
      && (!done ==> t.position + size > |c.response|)
    decreases |c.response| - c.position
  {
    var r := Walk(c, format, size, line);
    if c.position + size > |c.response| {
      assert r == (false, c);
    } else {
      var text := format(c.response[c.position..c.position + size]);
      var next := c.(position := c.position + size, counter := c.counter + 1);
      if text == [] {
        assert r == (true, next);
        assert c.response[r.1.position - size..r.1.position] == c.response[c.position..c.position + size];
      } else {
        var c2 := next.(responses := next.responses + [line(next.counter, text)]);
        assert r == Walk(c2, format, size, line);
        assert c2.response == c.response;
        WalkStops(c2, format, size, line);
      }
    }
  }

  /** The lines of the records at the start of `bytes`, numbered from `counter + 1`, up
      to the first record that formats to nothing or the last whole record. */
  function RecordLines(bytes: seq<Byte>, format: seq<Byte> -> string, size: nat, line: (nat, string) -> string, counter: nat): seq<string>
    requires size > 0
    decreases |bytes|
  {
    if |bytes| < size then []
    else
      var text := format(bytes[..size]);
      if text == [] then [] else [line(counter + 1, text)] + RecordLines(bytes[size..], format, size, line, counter + 1)
  }

  /** A whole record that formats to some text is responded, and the walk goes on after it. */
  lemma WalkOn(c: Cursor, format: seq<Byte> -> string, size: nat, line: (nat, string) -> string)
    requires WithinBuffer(c) && size > 0 && c.position + size <= |c.response|
    requires format(c.response[c.position..c.position + size]) != []
    ensures var text := format(c.response[c.position..c.position + size]);
      Walk(c, format, size, line)
      == Walk(c.(position := c.position + size, counter := c.counter + 1, responses := c.responses + [line(c.counter + 1, text)]), format, size, line)
  {
  }

  /** A first record that formats to some text gives the first line. */
  lemma RecordLinesFirst(bytes: seq<Byte>, format: seq<Byte> -> string, size: nat, line: (nat, string) -> string, counter: nat)
    requires size > 0 && |bytes| >= size && format(bytes[..size]) != []
    ensures RecordLines(bytes, format, size, line, counter)
      == [line(counter + 1, format(bytes[..size]))] + RecordLines(bytes[size..], format, size, line, counter + 1)
  {
  }

  /** The walk responds exactly the lines of the records after the parse position. */
  lemma {:induction false} WalkLines(c: Cursor, format: seq<Byte> -> string, size: nat, line: (nat, string) -> string)
    requires WithinBuffer(c) && size > 0
    ensures Walk(c, format, size, line).1.responses
      == c.responses + RecordLines(c.response[c.position..], format, size, line, c.counter)
    decreases |c.response| - c.position
  {
    var r := Walk(c, format, size, line);
    var bytes := c.response[c.position..];
    if c.position + size > |c.response| {
      assert r == (false, c);
    } else {
      assert bytes[..size] == c.response[c.position..c.position + size];
      var text := format(c.response[c.position..c.position + size]);
      var next := c.(position := c.position + size, counter := c.counter + 1);
      if text == [] {
        assert r == (true, next);
      } else {
        var c2 := next.(responses := next.responses + [line(next.counter, text)]);
        WalkOn(c, format, size, line);
        WalkLines(c2, format, size, line);
        assert bytes[size..] == c2.response[c2.position..];
        var tail := RecordLines(bytes[size..], format, size, line, c.counter + 1);
        RecordLinesFirst(bytes, format, size, line, c.counter);
        assert c2.responses + tail == c.responses + ([line(c.counter + 1, text)] + tail);
      }
    }
  }

  /** The j-th of these lines is the j-th record, numbered `counter + j + 1`. */
  lemma {:induction false} RecordLineAt(bytes: seq<Byte>, format: seq<Byte> -> string, size: nat, line: (nat, string) -> string, counter: nat, j: nat)
    requires size > 0
    requires j < |RecordLines(bytes, format, size, line, counter)|
    ensures Span(j, size) + size <= |bytes|
    ensures var text := format(bytes[Span(j, size)..Span(j, size) + size]);
      text != [] && RecordLines(bytes, format, size, line, counter)[j] == line(counter + j + 1, text)
    decreases |bytes|
  {
    if j > 0 {
      var tail := bytes[size..];
      RecordLineAt(tail, format, size, line, counter + 1, j - 1);
      var start := Span(j - 1, size);
      assert Span(j, size) == start + size;
      assert start + size <= |tail| == |bytes| - size;
      assert tail[start..start + size] == bytes[start + size..start + size + size];
    }
  }

  /** A contact-info payload gives one line per started 21 bytes. */
  lemma {:induction false} ContactLineCount(payload: seq<Byte>)
    ensures |ContactLines(payload)| == (|payload| + ContactWidth - 1) / ContactWidth
    decreases |payload|
  {
    if payload != [] {
      var n := Min(|payload|, ContactWidth);
      ContactLineCount(payload[n..]);
    }
  }

  /** The characters of a byte string. */
  function Chars(bytes: seq<Byte>): (r: string)
    ensures |r| == |bytes|
  {
    seq(|bytes|, i requires 0 <= i < |bytes| => ByteChar(bytes[i]))
  }

  function Concat(lines: seq<string>): string
  {
    if lines == [] then "" else lines[0] + Concat(lines[1..])
  }

  predicate NoNul(bytes: seq<Byte>)
  {
    forall i :: 0 <= i < |bytes| ==> bytes[i] != 0
  }

  /** The C string of a buffer is its characters up to the first zero byte, or all of
      them when it holds none. */
  lemma {:induction false} CStringUpToNul(bytes: seq<Byte>)
    ensures var r := CString(bytes);
      NoNul(bytes[..|r|]) && r == Chars(bytes[..|r|]) && (|r| < |bytes| ==> bytes[|r|] == 0)
  {
    if bytes != [] && bytes[0] != 0 {
      var r := CString(bytes[1..]);
      CStringUpToNul(bytes[1..]);
      assert bytes[..|r| + 1] == [bytes[0]] + bytes[1..][..|r|];
      assert Chars(bytes[..|r| + 1]) == [ByteChar(bytes[0])] + Chars(bytes[1..][..|r|]);
    }
  }

  /** A buffer without a zero byte is read whole. */
  lemma {:induction false} CStringWhole(bytes: seq<Byte>)
    requires NoNul(bytes)
    ensures CString(bytes) == Chars(bytes)
  {
    if bytes != [] {
      CStringWhole(bytes[1..]);
      assert [ByteChar(bytes[0])] + Chars(bytes[1..]) == Chars(bytes);
    }
  }

  /** A payload without zero bytes comes back whole: its lines joined are its text. */
  lemma {:induction false} ContactLinesJoin(payload: seq<Byte>)
    requires NoNul(payload)
    ensures Concat(ContactLines(payload)) == Chars(payload)
    decreases |payload|
  {
    if payload != [] {
      var n := Min(|payload|, ContactWidth);
      CStringWhole(payload[..n]);
      ContactLinesJoin(payload[n..]);
      assert Chars(payload[..n]) + Chars(payload[n..]) == Chars(payload);
    }
  }

  /** Appending text keeps what was responded before. */
  predicate Extends(r: Session, s: Session)
  {
    s.responses <= r.responses
  }

  /** While a command is pending, an answer that does not finish it keeps it pending and
      only adds responses. */
  lemma {:induction false} ReplyKeepsWaiting(s: Session, msg: PcMessage)
    requires Valid(s) && Readable(msg) && s.waiting
    ensures var (done, r) := Reply(s, msg); r.waiting && Valid(r) && Extends(r, s)
  {
    var t := msg.msgType;
    if t == 0x02 {
      assert Reply(s, msg) == VersionReply(s, msg.source, msg.data[2], msg.data[3]);
    } else if 0x10 <= t <= 0x13 {
      assert Reply(s, msg) == ErrorReply(s, msg.source, t);
    } else if IsHkScheduleType(t) && msg.data[0] > 80 {
      assert Reply(s, msg) == HolidayReply(s);
    } else if (IsHkScheduleType(t) && msg.data[0] <= 80) || t == 0x38 || t == 0x39 {
      assert Reply(s, msg) == ScheduleReply(s);
    } else if t == 0xa4 {
      assert Reply(s, msg) == ContactReply(s, msg.data);
    } else {
      assert Reply(s, msg) == (false, s);
    }
  }

  /** `handlePcMessage` ignores every message while no command is pending; otherwise it
      only adds responses, keeps the parse position within the buffer, and ends the
      pending command only with a final "OK" or "FAIL". */
  lemma PcMessageVerdict(s: Session, msg: PcMessage)
    requires Valid(s)
    requires s.waiting ==> Readable(msg)
    ensures var r := PcMessageStep(s, msg);
      (!s.waiting ==> r == s)
      && Valid(r) && Extends(r, s)
      && (s.waiting && !r.waiting ==> |r.responses| > |s.responses| && r.responses[|r.responses| - 1] in {"OK", "FAIL"})
  {
    if s.waiting && msg.msgType != 0xff {
      ReplyKeepsWaiting(s.(timerArmed := false, response := s.response + msg.data[1..]), msg);
    }
  }

  lemma ErrorReplyTimer(s: Session, source: Byte, msgType: Byte)
    requires Valid(s) && 0x10 <= msgType <= 0x13 && !s.timerArmed
    ensures var (done, r) := ErrorReply(s, source, msgType); s.sent <= r.sent && (r.timerArmed <==> |r.sent| > |s.sent|)
  {
    var (done, s1) := LoopOver(s, Formatter(ErrorRecords), ErrorRecordSize, Numbered(ErrorPrefix(msgType)));
    assert s1.sent == s.sent && !s1.timerArmed;
  }

  lemma ScheduleReplyTimer(s: Session)
    requires Valid(s) && !s.timerArmed
    ensures var (done, r) := ScheduleReply(s); s.sent <= r.sent && (r.timerArmed <==> |r.sent| > |s.sent|)
  {
    var (done, s1) := LoopOver(s, Formatter(ScheduleRecords), ScheduleEntrySize, Numbered(""));
    assert s1.sent == s.sent && !s1.timerArmed;
  }

  /** The reply part of an answer sends only by appending, and restarts the response
      timer exactly when it sends. */
  lemma {:induction false} ReplyTimer(s: Session, msg: PcMessage)
    requires Valid(s) && Readable(msg) && !s.timerArmed
    ensures var (done, r) := Reply(s, msg); s.sent <= r.sent && (r.timerArmed <==> |r.sent| > |s.sent|)
  {
    var t := msg.msgType;
    if t == 0x02 {
      assert Reply(s, msg) == VersionReply(s, msg.source, msg.data[2], msg.data[3]);
    } else if 0x10 <= t <= 0x13 {
      assert Reply(s, msg) == ErrorReply(s, msg.source, t);
      ErrorReplyTimer(s, msg.source, t);
    } else if IsHkScheduleType(t) && msg.data[0] > 80 {
      assert Reply(s, msg) == HolidayReply(s);
    } else if (IsHkScheduleType(t) && msg.data[0] <= 80) || t == 0x38 || t == 0x39 {
      assert Reply(s, msg) == ScheduleReply(s);
      ScheduleReplyTimer(s);
    } else if t == 0xa4 {
      assert Reply(s, msg) == ContactReply(s, msg.data);
    } else {
      assert Reply(s, msg) == (false, s);
    }
  }

  /** An answer other than an acknowledgement stops the response timer, and only a
      request sent in reply starts it again. So when an answer neither finishes the
      command nor sends a request, the command stays pending and its timeout never
      comes: the expiry event changes nothing. */
  lemma AnswerStopsTimer(s: Session, msg: PcMessage)
    requires Valid(s) && s.waiting && Readable(msg) && msg.msgType != 0xff
    ensures var r := PcMessageStep(s, msg);
      s.sent <= r.sent && (r.timerArmed <==> |r.sent| > |s.sent|)
      && (!r.timerArmed ==> TimeoutStep(r) == r)
  {
    ReplyTimer(s.(timerArmed := false, response := s.response + msg.data[1..]), msg);
  }

  /** A holiday read whose answer holds less than both records responds "FAIL" but
      leaves the command pending without its timeout, so every later request is refused
      with "ERRBUSY". */
  lemma HolidayFailStalls(s: Session, msg: PcMessage, line: string)
    requires Valid(s) && s.waiting && Readable(msg)
    requires IsHkScheduleType(msg.msgType) && msg.data[0] > 80
    requires |s.response| + |msg.data| - 1 < 2 * HolidayEntrySize
    ensures var r := PcMessageStep(s, msg);
      r.waiting && !r.timerArmed && r.responses == s.responses + ["FAIL"]
      && TimeoutStep(r) == r
      && RequestStep(r, line) == (false, r.(responses := r.responses + ["ERRBUSY"]))
  {
    var a := s.(timerArmed := false, response := s.response + msg.data[1..]);
    assert Reply(a, msg) == HolidayReply(a);
  }

  /** A holiday read whose answer completes both records responds the first date as
      "BEGIN DD-MM-YYYY" from the first three bytes (year from 2000, month, day), the
      second as "END DD-MM-YYYY" from the next three, then "OK", and frees the connection
      without sending anything. */
  lemma HolidayAnswer(s: Session, msg: PcMessage)
    requires Valid(s) && s.waiting && Readable(msg)
    requires IsHkScheduleType(msg.msgType) && msg.data[0] > 80
    requires |s.response| + |msg.data| - 1 >= 2 * HolidayEntrySize
    ensures var b := s.response + msg.data[1..];
      var r := PcMessageStep(s, msg);
      !r.waiting && !r.timerArmed && r.sent == s.sent
      && r.responses == s.responses + [HolidayLine("BEGIN", b[0], b[1], b[2]), HolidayLine("END", b[3], b[4], b[5]), "OK"]
  {
    var a := s.(timerArmed := false, response := s.response + msg.data[1..]);
    assert Reply(a, msg) == HolidayReply(a);
    HolidayReplyLines(a);
  }

  /** "TAG DD-MM-YYYY" for the year (from 2000), month and day bytes of a record. */
  function HolidayLine(tag: string, year: Byte, month: Byte, day: Byte): string
  {
    tag + " " + ZeroPad(day, 2) + "-" + ZeroPad(month, 2) + "-" + Decimal(2000 + year as int)
  }

  lemma HolidayReplyLines(a: Session)
    requires Valid(a) && |a.response| >= 2 * HolidayEntrySize
    ensures var b := a.response;
      HolidayReply(a) == (true, a.(responses := a.responses + [HolidayLine("BEGIN", b[0], b[1], b[2]), HolidayLine("END", b[3], b[4], b[5])]))
  {
    var b := a.response;
    var begin, end := HolidayEntry(b[0], b[1], b[2]), HolidayEntry(b[3], b[4], b[5]);
    assert DecodeHoliday(b[..HolidayEntrySize]) == begin;
    assert DecodeHoliday(b[HolidayEntrySize..2 * HolidayEntrySize]) == end;
    var x, y := FormatHoliday("BEGIN", begin), FormatHoliday("END", end);
    assert HolidayReply(a) == (true, Respond(Respond(a, x), y));
    FormatHolidayLine("BEGIN", begin);
    FormatHolidayLine("END", end);
    assert a.responses + [x] + [y] == a.responses + [x, y];
  }

  lemma FormatHolidayLine(tag: string, e: HolidayEntry)
    ensures FormatHoliday(tag, e) == HolidayLine(tag, e.year, e.month, e.day)
  {
    HolidayDateOfYear(e);
    DateLine(tag, ZeroPad(e.day, 2), ZeroPad(e.month, 2), Decimal(2000 + e.year as int));
  }

  /** Only one command is pending at a time: a request while one is pending is refused
      with "ERRBUSY" and sends nothing, a request that sends a message sends exactly one
      and leaves the connection waiting for its answer, and a request whose handler
      threw changes nothing. */
  lemma OneCommandAtATime(s: Session, line: string)
    ensures var (aborted, r) := RequestStep(s, line);
      (s.waiting ==> !aborted && r == s.(responses := s.responses + ["ERRBUSY"]))
      && (|r.sent| != |s.sent| ==> r.waiting && |r.sent| == |s.sent| + 1 && s.sent <= r.sent)
      && (aborted ==> r == s)
  {
    var (aborted, r) := RequestStep(s, line);
    if !s.waiting && |line| > 2 {
      var outcome := HandleCommand(Stream(line, true));
      if outcome.result == Ok && |r.sent| != |s.sent| {
        assert s.sent <= r.sent;
      }
    }
  }

  /** The length test counts the line terminator the request is buffered with: "\r\n"
      alone is ignored, but "hk\n" is long enough to be handled, and refused as an
      unknown command. */
  lemma ShortRequests(s: Session)
    requires !s.waiting
    ensures RequestStep(s, "\r\n") == (false, s)
    ensures RequestStep(s, "hk\n") == (false, Respond(s, "ERRCMD"))
  {
    assert "hk\n" == "" + "hk" + "\n";
    ReadWordOf("", "hk", "\n");
    HkCircuitOf(1, "hk");
  }

  /** A switch point whose time is not a number, as in `hk1 schedule 3 MO ab:30 ON`,
      makes `lexical_cast` throw out of the handler: the request is reported as aborted,
      with no response and nothing sent. */
  lemma ScheduleBadTimeAborts(s: Session, circuit: string, index: nat, day: string, hh: string, mm: string, mode: string)
    requires !s.waiting && HkCircuit(circuit).Some? && index <= ScheduleEntries
    requires day in DayNames && (mode == "ON" || mode == "OFF")
    requires NoSpace(hh) && NoSpace(mm)
    requires forall i :: 0 <= i < |hh| ==> hh[i] != ':'
    requires LexicalCast(hh).None? || LexicalCast(mm).None?
    ensures RequestStep(s, circuit + " schedule " + Decimal(index) + " " + day + " " + hh + ":" + mm + " " + mode + "\n")
      == (true, s)
  {
    var line := circuit + " schedule " + Decimal(index) + " " + day + " " + hh + ":" + mm + " " + mode + "\n";
    ScheduleBadTimeThrows(circuit, index, day, hh, mm, mode, line);
    AbortedRequest(s, line);
  }

  /** A request of more than two characters whose command throws leaves the session as
      it was and reports the exception. */
  lemma AbortedRequest(s: Session, line: string)
    requires !s.waiting && |line| > 2
    requires HandleCommand(Stream(line, true)) == Thrown
    ensures RequestStep(s, line) == (true, s)
  {
  }

  /** The command `hkN schedule <index> DAY HH:MM MODE` throws when HH or MM is not a number. */
  lemma ScheduleBadTimeThrows(circuit: string, index: nat, day: string, hh: string, mm: string, mode: string, line: string)
    requires HkCircuit(circuit).Some? && index <= ScheduleEntries
    requires day in DayNames && (mode == "ON" || mode == "OFF")
    requires NoSpace(hh) && NoSpace(mm)
    requires forall i :: 0 <= i < |hh| ==> hh[i] != ':'
    requires LexicalCast(hh).None? || LexicalCast(mm).None?
    requires line == circuit + " schedule " + Decimal(index) + " " + day + " " + hh + ":" + mm + " " + mode + "\n"
    ensures |line| > 2 && HandleCommand(Stream(line, true)) == Thrown
  {
    var hkType := HkCircuit(circuit).value;
    var r3 := " " + day + " " + (hh + ":" + mm) + " " + mode + "\n";
    var r2 := " " + Decimal(index) + r3;
    ScheduleRequestShape(circuit, Decimal(index), day, hh, mm, mode);
    ScheduleArgumentsThrow(index, day, hh, mm, mode, r3, hkType + 2);
    ScheduleWordOf(r2);
    CircuitWordOf(line, circuit, " " + "schedule" + r2);
    HkScheduleLineThrows(line, circuit, hkType, " " + "schedule" + r2, r2);
  }

  /** The word `schedule` is read off the front of the circuit command. */
  lemma ScheduleWordOf(r2: string)
    requires r2 != [] && IsSpace(r2[0])
    ensures ReadWord(Stream(" " + "schedule" + r2, true)) == ("schedule", Stream(r2, true))
  {
    ReadWordOf(" ", "schedule", r2);
  }

  /** The circuit name is read off the front of the request. */
  lemma CircuitWordOf(line: string, circuit: string, r1: string)
    requires HkCircuit(circuit).Some? && line == circuit + r1
    requires r1 != [] && IsSpace(r1[0])
    ensures ReadWord(Stream(line, true)) == (circuit, Stream(r1, true))
  {
    HkCircuitOf(1, circuit);
    assert line == "" + circuit + r1;
    ReadWordOf("", circuit, r1);
  }

  /** A request `hkN schedule ARGS` whose arguments throw ends in the exception. */
  lemma HkScheduleLineThrows(line: string, circuit: string, hkType: Byte, r1: string, r2: string)
    requires HkCircuit(circuit) == Some(hkType)
    requires ReadWord(Stream(line, true)) == (circuit, Stream(r1, true))
    requires ReadWord(Stream(r1, true)) == ("schedule", Stream(r2, true))
    requires ScheduleCommand(Stream(r2, true), hkType + 2) == Thrown
    ensures HandleCommand(Stream(line, true)) == Thrown
  {
    HkScheduleThrows(Stream(r1, true), Stream(r2, true), hkType);
  }

  /** The arguments `<index> DAY HH:MM MODE` of a switch point whose time is not a number
      throw. */
  lemma ScheduleArgumentsThrow(index: nat, day: string, hh: string, mm: string, mode: string, r3: string, msgType: Byte)
    requires index <= ScheduleEntries
    requires day in DayNames && (mode == "ON" || mode == "OFF")
    requires NoSpace(hh) && NoSpace(mm)
    requires forall i :: 0 <= i < |hh| ==> hh[i] != ':'
    requires LexicalCast(hh).None? || LexicalCast(mm).None?
    requires r3 == " " + day + " " + (hh + ":" + mm) + " " + mode + "\n"
    ensures ScheduleCommand(Stream(" " + Decimal(index) + r3, true), msgType) == Thrown
  {
    ReadUnsignedOf(" ", index, r3);
    ScheduleCommandThrows(Stream(" " + Decimal(index) + r3, true), index, day, hh, mm, mode, "\n", msgType);
  }

  lemma ScheduleRequestShape(hk: string, number: string, day: string, hh: string, mm: string, mode: string)
    ensures hk + " schedule " + number + " " + day + " " + hh + ":" + mm + " " + mode + "\n"
      == hk + (" " + "schedule" + (" " + number + (" " + day + " " + (hh + ":" + mm) + " " + mode + "\n")))
  {
  }

  /** A request line whose first word is `getversion` starts the version query of the
      boiler, when no command is pending. */
  lemma GetVersionLine(s: Session, line: string, rest: Stream)
    requires !s.waiting && |line| > 2
    requires ReadWord(Stream(line, true)) == ("getversion", rest)
    ensures RequestStep(s, line) == (false, StartRequest(s, AddressUBA, 0x02, 0, 3, true))
  {
    HkCircuitOf(1, "getversion");
    assert HandleCommand(Stream(line, true)) == Accept(Request(AddressUBA, 0x02, 0, 3));
  }

  /** A version reply from `source` with version `major.minor`. */
  function VersionMessage(source: Byte, major: Byte, minor: Byte): PcMessage
  {
    PcMessage(source, 0x02, [0, 0, major, minor])
  }

  /** The message asking `dest` for its version. */
  function VersionQuery(dest: Byte): EmsMessage
  {
    EmsMessage(dest, 0x02, [0, 3], true)
  }

  /** The answer of the i-th device of the table: its version line, then the query to
      the next device, or "OK" after the last. */
  lemma VersionStep(s: Session, i: nat, major: Byte, minor: Byte)
    requires Valid(s) && s.waiting && i < |Sources|
    ensures var a := s.(timerArmed := false, response := s.response + [0, major, minor]);
      var a1 := Respond(a, VersionLine(Sources[i].1, major, minor));
      PcMessageStep(s, VersionMessage(Sources[i].0, major, minor))
        == if i < |Sources| - 1 then StartRequest(a1, Sources[i + 1].0, 0x02, 0, 3, true)
           else Respond(a1.(waiting := false), "OK")
  {
    var msg := VersionMessage(Sources[i].0, major, minor);
    var a := s.(timerArmed := false, response := s.response + [0, major, minor]);
    assert msg.data[1..] == [0, major, minor];
    assert SourceIndex(Sources[i].0) == i;
    assert Reply(a, msg) == VersionReply(a, Sources[i].0, major, minor);
  }

  /** What the answer of the i-th device of the table leaves behind: its version line,
      and either the query to the next device, still waiting, or "OK", done. */
  lemma VersionStepEffect(s: Session, i: nat, major: Byte, minor: Byte)
    requires Valid(s) && s.waiting && i < |Sources|
    ensures var r := PcMessageStep(s, VersionMessage(Sources[i].0, major, minor));
      Valid(r)
      && r.waiting == (i < |Sources| - 1)
      && r.responses == s.responses + [VersionLine(Sources[i].1, major, minor)] + (if i < |Sources| - 1 then [] else ["OK"])
      && r.sent == s.sent + (if i < |Sources| - 1 then [VersionQuery(Sources[i + 1].0)] else [])
  {
    VersionStep(s, i, major, minor);
  }

  /** After the answers of the boiler and the BC10 the RC has been asked, and two
      version lines were responded. */
  lemma VersionRoundFirstTwo(s: Session, v: seq<(Byte, Byte)>)
    requires Valid(s)
    requires |v| == 3
    ensures var s1 := StartRequest(s, AddressUBA, 0x02, 0, 3, true);
      var s2 := PcMessageStep(s1, VersionMessage(AddressUBA, v[0].0, v[0].1));
      var s3 := PcMessageStep(s2, VersionMessage(AddressBC10, v[1].0, v[1].1));
      Valid(s3) && s3.waiting
      && s3.sent == s.sent + [VersionQuery(AddressUBA), VersionQuery(AddressBC10), VersionQuery(AddressRC)]
      && s3.responses == s.responses + [VersionLine("UBA", v[0].0, v[0].1), VersionLine("BC10", v[1].0, v[1].1)]
  {
    var s1 := StartRequest(s, AddressUBA, 0x02, 0, 3, true);
    assert s1.sent == s.sent + [VersionQuery(AddressUBA)];
    VersionStepEffect(s1, 0, v[0].0, v[0].1);
    var s2 := PcMessageStep(s1, VersionMessage(AddressUBA, v[0].0, v[0].1));
    VersionStepEffect(s2, 1, v[1].0, v[1].1);
  }

  /** The version query asks the boiler, the BC10 and the RC in turn, one after the
      answer of the other, responds one version line for each and then "OK", and leaves
      the connection free for the next command. */
  lemma {:induction false} VersionRound(s: Session, v: seq<(Byte, Byte)>)
    requires Valid(s)
    requires |v| == 3
    ensures var s1 := StartRequest(s, AddressUBA, 0x02, 0, 3, true);
      var s2 := PcMessageStep(s1, VersionMessage(AddressUBA, v[0].0, v[0].1));
      var s3 := PcMessageStep(s2, VersionMessage(AddressBC10, v[1].0, v[1].1));
      var s4 := PcMessageStep(s3, VersionMessage(AddressRC, v[2].0, v[2].1));
      !s4.waiting
      && s4.sent == s.sent + [VersionQuery(AddressUBA), VersionQuery(AddressBC10), VersionQuery(AddressRC)]
      && s4.responses == s.responses + [VersionLine("UBA", v[0].0, v[0].1), VersionLine("BC10", v[1].0, v[1].1),
                                        VersionLine("RC", v[2].0, v[2].1), "OK"]
  {
    VersionRoundFirstTwo(s, v);
    var s1 := StartRequest(s, AddressUBA, 0x02, 0, 3, true);
    var s2 := PcMessageStep(s1, VersionMessage(AddressUBA, v[0].0, v[0].1));
    var s3 := PcMessageStep(s2, VersionMessage(AddressBC10, v[1].0, v[1].1));
    VersionStepEffect(s3, 2, v[2].0, v[2].1);
  }

  /** When the first error log of the boiler (0x10) is read through without an empty
      record, its second log (0x11, five records) is requested next, and its lines
      continue the numbering of the first. */
  lemma ErrorLogsChain(s: Session, msg: PcMessage)
    requires Valid(s) && s.waiting && Readable(msg)
    requires msg.msgType == 0x10
    ensures var a := s.(timerArmed := false, response := s.response + msg.data[1..]);
      var (done, t) := LoopOver(a, Formatter(ErrorRecords), ErrorRecordSize, Numbered("B"));
      !done && |a.response| >= a.length ==>
        var r := PcMessageStep(s, msg);
        r.waiting && r.counter == t.counter && r.responses == t.responses && r.response == []
        && r.sent == t.sent + [EmsMessage(msg.source, 0x11, [0, 5 * ErrorRecordSize], true)]
  {
    var a := s.(timerArmed := false, response := s.response + msg.data[1..]);
    var (done, t) := LoopOver(a, Formatter(ErrorRecords), ErrorRecordSize, Numbered("B"));
    if !done && |a.response| >= a.length {
      assert ErrorPrefix(0x10) == "B";
      assert Reply(a, msg) == ErrorReply(a, msg.source, 0x10);
      assert ContinueRequest(t) == (false, t);
      var r := StartRequest(t, msg.source, 0x11, 0, 5 * ErrorRecordSize, false);
      assert ErrorReply(a, msg.source, 0x10) == (false, r);
      assert PcMessageStep(s, msg) == r;
    }
  }
}
