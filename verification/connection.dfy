/** One `CommandConnection` as an object whose methods update its fields in place. Each
    method is proved to change the fields exactly as the matching function of
    `SessionModel` changes a `Session` value, so what `SessionRules` proves about those
    functions holds for the object. */
module Connection {
  import opened Numeric
  import opened TextStream
  import opened Records
  import opened Commands
  import opened SessionModel

  /** The bytes of `data` from index `i` on, none when `i` is past its end. */
  function From(data: seq<Byte>, i: nat): seq<Byte>
  {
    if i < |data| then data[i..] else []
  }

  /** One round of the loop of `loopOverResponse`, when a whole record is left. */
  lemma WalkStep(c: Cursor, format: seq<Byte> -> string, size: nat, line: (nat, string) -> string)
    requires WithinBuffer(c) && size > 0 && c.position + size <= |c.response|
    ensures var text := format(c.response[c.position..c.position + size]);
      var next := c.(position := c.position + size, counter := c.counter + 1);
      Walk(c, format, size, line)
        == if text == [] then (true, next) else Walk(next.(responses := next.responses + [line(next.counter, text)]), format, size, line)
  {
  }

  /** The pieces from index `i` on: the one starting at `i`, then those from `i + 21`. */
  lemma ContactLinesFrom(data: seq<Byte>, i: nat)
    requires i < |data|
    ensures var len := Min(|data| - i, ContactWidth);
      i + len <= |data| && ContactLines(From(data, i)) == [CString(data[i..i + len])] + ContactLines(From(data, i + ContactWidth))
  {
    var len := Min(|data| - i, ContactWidth);
    var rest := data[i..];
    assert rest[..len] == data[i..i + len];
    assert rest[len..] == From(data, i + ContactWidth);
  }

  class CommandConnection {
    /** `m_waitingForResponse` */
    var waiting: bool
    /** whether `m_responseTimeout` is running */
    var timerArmed: bool
    /** `m_requestResponse` */
    var response: seq<Byte>
    /** `m_parsePosition` */
    var position: nat
    /** `m_responseCounter` */
    var counter: nat
    /** `m_requestOffset`, `m_requestLength`, `m_requestDestination`, `m_requestType` */
    var offset: nat
    var length: nat
    var dest: Byte
    var requestType: Byte
    /** what was written to the socket, one entry per `respond` */
    var responses: seq<string>
    /** what was handed to `CommandHandler::sendMessage` */
    var sent: seq<EmsMessage>

    /** The fields as a `Session` value. */
    ghost function State(): Session
      reads this
    {
      Session(waiting, timerArmed, response, position, counter, offset, length, dest, requestType, responses, sent)
    }

    ghost predicate Valid()
      reads this
    {
      position <= |response|
    }

    constructor ()
      ensures State() == Initial
    {
      waiting, timerArmed := false, false;
      response, position, counter := [], 0, 0;
      offset, length, dest, requestType := 0, 0, 0, 0;
      responses, sent := [], [];
    }

    method Respond(text: string)
      modifies this
      ensures State() == SessionModel.Respond(old(State()), text)
    {
      responses := responses + [text];
    }

    method ScheduleResponseTimeout()
      modifies this
      ensures State() == old(State()).(waiting := true, timerArmed := true)
    {
      waiting := true;
      timerArmed := true;
    }

    method SendCommand(destination: Byte, msgType: Byte, start: Byte, data: seq<Byte>, expectResponse: bool)
      modifies this
      ensures State() == SessionModel.SendCommand(old(State()), destination, msgType, start, data, expectResponse)
    {
      var sendData := [start] + data;
      ScheduleResponseTimeout();
      sent := sent + [EmsMessage(destination, msgType, sendData, expectResponse)];
    }

    method ContinueRequest() returns (more: bool)
      modifies this
      ensures (more, State()) == SessionModel.ContinueRequest(old(State()))
    {
      var received := |response|;
      if received >= length {
        return false;
      }
      var start := ToByte(offset + received);
      var remaining := ToByte(length - received);
      SendCommand(dest, requestType, start, [remaining], true);
      return true;
    }

    method StartRequest(destination: Byte, msgType: Byte, start: nat, count: nat, newRequest: bool)
      modifies this
      ensures State() == SessionModel.StartRequest(old(State()), destination, msgType, start, count, newRequest)
    {
      offset, length, dest, requestType := start, count, destination, msgType;
      response := [];
      position := 0;
      if newRequest {
        counter := 0;
      }
      var _ := ContinueRequest();
    }

    /** `loopOverResponse<T>(prefix)`, for records of `size` bytes that `format` reads
        (the size and the `buildRecordResponse` of `T`). */
    method LoopOverResponse(format: seq<Byte> -> string, size: nat, prefix: string) returns (done: bool)
      requires Valid() && size > 0
      modifies this
      ensures Valid()
      ensures (done, State()) == LoopOver(old(State()), format, size, Numbered(prefix))
    {
      while position + size <= |response|
        invariant Valid()
        invariant State() == old(State()).(position := position, counter := counter, responses := responses)
        invariant Walk(CursorOf(old(State())), format, size, Numbered(prefix)) == Walk(CursorOf(State()), format, size, Numbered(prefix))
        decreases |response| - position
      {
        var empty := ConsumeRecord(format, size, prefix);
        if empty {
          return true;
        }
      }
      assert Walk(CursorOf(State()), format, size, Numbered(prefix)) == (false, CursorOf(State()));
      return false;
    }

    /** One round of the loop of `loopOverResponse`: read the record at the parse
        position, step past it and count it, and respond its numbered line unless its
        text is empty. */
    method ConsumeRecord(format: seq<Byte> -> string, size: nat, prefix: string) returns (empty: bool)
      requires Valid() && size > 0 && position + size <= |response|
      modifies this
      ensures Valid() && position == old(position) + size
      ensures State() == old(State()).(position := position, counter := counter, responses := responses)
      ensures Walk(CursorOf(old(State())), format, size, Numbered(prefix))
        == if empty then (true, CursorOf(State())) else Walk(CursorOf(State()), format, size, Numbered(prefix))
    {
      ghost var before := CursorOf(State());
      WalkStep(before, format, size, Numbered(prefix));
      var text := format(response[position..position + size]);
      assert text == format(before.response[before.position..before.position + size]);
      position := position + size;
      counter := counter + 1;
      ghost var next := CursorOf(State());
      assert next == before.(position := before.position + size, counter := before.counter + 1);
      empty := text == [];
      if !empty {
        ghost var line := Numbered(prefix)(next.counter, text);
        assert line == ResponseLine(prefix, counter, text);
        Respond(ResponseLine(prefix, counter, text));
        assert CursorOf(State()) == next.(responses := next.responses + [line]);
      }
    }

    /** The version reply: the version line of the source found in the table, then the
        query to the next device of the table, if any. */
    method ReplyVersion(source: Byte, major: Byte, minor: Byte) returns (done: bool)
      requires Valid()
      modifies this
      ensures Valid()
      ensures (done, State()) == VersionReply(old(State()), source, major, minor)
    {
      var index := 0;
      while index < |Sources|
        invariant index <= |Sources|
        invariant forall j :: 0 <= j < index ==> Sources[j].0 != source
        invariant State() == old(State())
      {
        if Sources[index].0 == source {
          Respond(VersionLine(Sources[index].1, major, minor));
          break;
        }
        index := index + 1;
      }
      assert index == SourceIndex(source);
      if index < |Sources| - 1 {
        StartRequest(Sources[index + 1].0, 0x02, 0, 3, true);
        done := false;
      } else {
        done := true;
      }
    }

    /** The reply to an error-log read. */
    method ReplyErrors(source: Byte, msgType: Byte) returns (done: bool)
      requires Valid() && 0x10 <= msgType <= 0x13
      modifies this
      ensures Valid()
      ensures (done, State()) == ErrorReply(old(State()), source, msgType)
    {
      var prefix := ErrorPrefix(msgType);
      done := LoopOverResponse(Formatter(ErrorRecords), ErrorRecordSize, prefix);
      if !done {
        var more := ContinueRequest();
        done := !more;
        if done && (msgType == 0x10 || msgType == 0x12) {
          var count := if msgType == 0x10 then 5 else 4;
          StartRequest(source, msgType + 1, 0, count * ErrorRecordSize, false);
          done := false;
        }
      }
    }

    /** The reply to a schedule read. */
    method ReplySchedule() returns (done: bool)
      requires Valid()
      modifies this
      ensures Valid()
      ensures (done, State()) == ScheduleReply(old(State()))
    {
      done := LoopOverResponse(Formatter(ScheduleRecords), ScheduleEntrySize, "");
      if !done {
        var more := ContinueRequest();
        done := !more;
      }
    }

    /** The reply to a holiday or vacation read. */
    method ReplyHoliday() returns (done: bool)
      requires Valid()
      modifies this
      ensures Valid()
      ensures (done, State()) == HolidayReply(old(State()))
    {
      if |response| >= 2 * HolidayEntrySize {
        var begin := DecodeHoliday(response[..HolidayEntrySize]);
        var end := DecodeHoliday(response[HolidayEntrySize..2 * HolidayEntrySize]);
        Respond(FormatHoliday("BEGIN", begin));
        Respond(FormatHoliday("END", end));
        done := true;
      } else {
        Respond("FAIL");
        done := false;
      }
    }

    /** The reply to a contact-info read. */
    method ReplyContactInfo(data: seq<Byte>) returns (done: bool)
      requires |data| >= 1
      modifies this
      ensures (done, State()) == ContactReply(old(State()), data)
    {
      var more := ContinueRequest();
      done := !more || |data| == 1;
      if done {
        RespondContactLines(data);
      }
    }

    /** Each piece of 21 bytes of the payload after the offset byte is copied into a
        zero-terminated buffer and responded. */
    method RespondContactLines(data: seq<Byte>)
      requires |data| >= 1
      modifies this
      ensures State() == old(State()).(responses := old(responses) + ContactLines(data[1..]))
    {
      var i := 1;
      while i < |data|
        invariant 1 <= i
        invariant State() == old(State()).(responses := responses)
        invariant responses + ContactLines(From(data, i)) == old(responses) + ContactLines(data[1..])
        decreases |data| - i
      {
        var len := Min(|data| - i, ContactWidth);
        ContactLinesFrom(data, i);
        ghost var lines := ContactLines(From(data, i + ContactWidth));
        var text := CString(data[i..i + len]);
        assert responses + ContactLines(From(data, i)) == (responses + [text]) + lines;
        Respond(text);
        i := i + ContactWidth;
      }
      assert From(data, i) == [];
    }

    /** `handlePcMessage` for one message from the bus. */
    method HandlePcMessage(msg: PcMessage)
      requires Valid() && (waiting ==> Readable(msg))
      modifies this
      ensures Valid()
      ensures State() == PcMessageStep(old(State()), msg)
    {
      if !waiting {
        return;
      }
      if msg.msgType == 0xff {
        waiting := false;
        Respond(if msg.data[0] == 0x04 then "FAIL" else "OK");
        return;
      }
      timerArmed := false;
      response := response + msg.data[1..];
      var done := ReplyByType(msg);
      if done {
        waiting := false;
        Respond("OK");
      }
    }

    /** The `switch` of `handlePcMessage` over the message type. */
    method ReplyByType(msg: PcMessage) returns (done: bool)
      requires Valid() && Readable(msg)
      modifies this
      ensures Valid()
      ensures (done, State()) == Reply(old(State()), msg)
    {
      var data, source, msgType := msg.data, msg.source, msg.msgType;
      done := false;
      if msgType == 0x02 {
        done := ReplyVersion(source, data[2], data[3]);
      } else if 0x10 <= msgType <= 0x13 {
        done := ReplyErrors(source, msgType);
      } else if IsHkScheduleType(msgType) {
        if data[0] > 80 {
          done := ReplyHoliday();
        } else {
          done := ReplySchedule();
        }
      } else if msgType == 0x38 || msgType == 0x39 {
        done := ReplySchedule();
      } else if msgType == 0xa4 {
        done := ReplyContactInfo(data);
      }
    }

    /** The expiry of the response timer, which calls `responseTimeout`. */
    method ResponseTimeout()
      modifies this
      ensures State() == TimeoutStep(old(State()))
    {
      if timerArmed {
        timerArmed := false;
        if waiting {
          Respond("ERRTIMEOUT");
          waiting := false;
        }
      }
    }

    /** What an accepted command does, as its handler does it. */
    method Perform(action: Action)
      modifies this
      ensures State() == SessionModel.Perform(old(State()), action)
    {
      match action
      case NoAction =>
      case Help(topic) => Respond(HelpText(topic));
      case Send(destination, msgType, start, payload) => SendCommand(destination, msgType, start, payload, false);
      case Request(source, msgType, start, count) => StartRequest(source, msgType, start, count, true);
    }

    /** `handleRequest` for one request line; `line` is the text of the read buffer,
        including the line's "\n" terminator. The result says that a `lexical_cast`
        exception left the handler. */
    method HandleRequest(line: string) returns (aborted: bool)
      modifies this
      ensures (aborted, State()) == RequestStep(old(State()), line)
    {
      aborted := false;
      if waiting {
        Respond("ERRBUSY");
      } else if |line| > 2 {
        var outcome := HandleCommand(Stream(line, true));
        match outcome.result
        case Ok => Perform(outcome.action);
        case InvalidCmd => Respond("ERRCMD");
        case InvalidArgs => Respond("ERRARGS");
        case Aborted => aborted := true;
      }
    }
  }
}
