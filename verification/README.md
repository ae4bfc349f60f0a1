# ems-collector command layer, modelled in Dafny

The EMS collector talks to a Buderus heating controller over its EMS bus and offers a
text command port. Each TCP client gets a `CommandConnection`. This project models that
connection, the `CommandHandler` that paces messages to the bus, and proves properties
of both.

The connection reads one request line, such as `hk1 schedule 3 MO 06:30 ON` or
`uba geterrors`, taken with its `\n` terminator as the read buffer holds it. A buffer of
at most two characters, such as an empty line ended by `\r\n`, is ignored. The
connection turns any other line into at most one action:

- a write to a device (`sendCommand`);
- a chunked read of a block of device memory (`startRequest`/`continueRequest`);
- or a help text.

While a command is pending it refuses further requests with `ERRBUSY`. It answers the
bus messages that come back in one of these ways:

- `OK` or `FAIL` for an acknowledgement;
- version lines from the boiler, the BC10 and the RC in turn;
- numbered error-log lines, schedule switch points, holiday dates or contact-info lines,
  each read from the fixed-size records of the received buffer;
- `ERRTIMEOUT` when no answer comes within the response timeout.

The project has two layers.

- Value layer:
  - `Numeric`: machine integers and number text.
  - `TextStream`: `std::istream` extraction over a request line.
  - `Records`: record layouts and `buildRecordResponse`.
  - `Parsers`: `parseScheduleEntry`, `parseHolidayEntry`, `parseIntParameter`.
  - `Commands`: `handleCommand` and the handlers it dispatches to.
  - `SessionModel`: the connection's fields as a `Session` value, with one function per
    operation.
- Object layer:
  - `Connection.CommandConnection` is a class with the connection's fields. Each of its
    methods is proved to change those fields exactly as the matching `SessionModel`
    function does.
  - `Pacing.CommandHandler` holds the last-contact times and the pacing decision of
    `sendMessage`.

Two modules hold the properties: `CommandRules` for the commands and `SessionRules` for
the connection.

## Model

| member | source | states |
|---|---|---|
| Numeric.SubU32 | collector/CommandHandler.cpp:379 | `unsigned int` subtraction: the difference when it is not negative, otherwise the difference plus 2^32 |
| Numeric.Decimal | collector/CommandHandler.cpp:739 | `operator<<` of an unsigned number gives a non-empty digit string that denotes the number, with no leading zero, one digit exactly below 10 |
| Numeric.PadLeft | collector/CommandHandler.cpp:837 | `setw` padding makes the text exactly as long as the width, or leaves it as it is when it is already longer |
| Numeric.ZeroPadValue | collector/CommandHandler.cpp:837 | a zero-padded number is still a digit string with the same value, and as long as the width or its own digits |
| Numeric.ZeroPad2Digits | collector/CommandHandler.cpp:907-908 | a number below 100 in a two-digit field is its tens digit followed by its units digit |
| Numeric.FourDigits | collector/CommandHandler.cpp:872 | a year from 1000 to 9999 prints in exactly four digits, so `setw(4)` adds no padding |
| Numeric.Hex | collector/CommandHandler.cpp:883 | `std::hex` prints a non-empty run of lower-case hex digits whose value is the number |
| Numeric.ToUnsigned | collector/CommandHandler.cpp:960 | conversion to `unsigned int` succeeds exactly when the magnitude fits 32 bits, keeps a positive value, and wraps a negative one modulo 2^32 |
| Numeric.Be16 | collector/CommandHandler.cpp:886-887 | big-endian decoding of two bytes lies below 2^16 |
| Numeric.Be16RoundTrip | collector/CommandHandler.cpp:886-887 | encoding a 16-bit value then decoding it gives it back, and every byte pair is the encoding of its own decoded value |
| TextStream.ReadWord | collector/CommandHandler.cpp:184 | `>>` into a string succeeds exactly when it reads a non-empty word without white space; it only succeeds on a good stream, and then consumes text |
| TextStream.ReadUnsigned | collector/CommandHandler.cpp:1064 | `>>` into an `unsigned int` succeeds only on a good stream, with a value that fits 32 bits, and consumes text |
| TextStream.LexicalCast | collector/CommandHandler.cpp:960-961 | `lexical_cast<unsigned int>` succeeds exactly when the text after an optional sign is a non-empty digit string whose value fits 32 bits; the result is that value, or 2^32 minus it after a minus sign (0 for `-0`) |
| TextStream.ReadReal | collector/CommandHandler.cpp:402 | `>>` into a float succeeds only on a good stream |
| TextStream.ReadRealOf | collector/CommandHandler.cpp:402 | `>>` into a float on the text `A.B` (after white space, A or B possibly empty but not both) yields A + B/10^|B| and leaves the text behind it |
| TextStream.ReadRealWhole | collector/CommandHandler.cpp:402 | `>>` into a float on a digit run with no point yields its value and leaves the text behind it |
| TextStream.ReadWordOf | collector/CommandHandler.cpp:184 | reading a word from text that starts with it, after white space, gives that word and leaves exactly the text behind it |
| TextStream.ReadUnsignedOf | collector/CommandHandler.cpp:1064 | reading an unsigned number from its decimal text, after white space, gives the number and leaves the text behind it |
| TextStream.LexicalCastZeroPad | collector/CommandHandler.cpp:960-961 | a zero-padded decimal field casts back to its number |
| TextStream.ReadThreeWords | collector/CommandHandler.cpp:919-931 | three words separated by single spaces are read back one by one, and the stream stays good |
| Records.EncodeSchedule | collector/CommandHandler.cpp:378-380 | a switch point is stored in exactly two bytes |
| Records.EncodeHoliday | collector/CommandHandler.cpp:452 | a holiday date is stored in exactly three bytes |
| Records.EncodeError | collector/CommandHandler.cpp:826 | an error record is stored in exactly twelve bytes |
| Records.DecodeError | collector/CommandHandler.cpp:826 | twelve bytes read as an error record always give a year that fits its 7-bit field |
| Records.ScheduleLayoutRoundTrip | collector/CommandHandler.cpp:826 | the switch-point layout is faithful: decoding undoes encoding, and every two bytes encode what they decode to |
| Records.HolidayLayoutRoundTrip | collector/CommandHandler.cpp:776-777 | the holiday layout is faithful in both directions |
| Records.ErrorLayoutRoundTrip | collector/CommandHandler.cpp:826 | the error-record layout is faithful in both directions |
| Records.FormatSchedule | collector/CommandHandler.cpp:897-912 | a switch point prints as the empty text exactly when it is unset, that is, its time is 0x90 or later |
| Records.DayName | collector/CommandHandler.cpp:892-894 | no contract of its own: `DayNamesDistinct`, `ScheduleFormatsBack` and `ScheduleParsesBack` state the names and their read-back |
| Records.ClockText | collector/CommandHandler.cpp:907-908 | no contract of its own: `ClockTimeOf` states that the zero-padded `HH:MM` reads back as the same hours and minutes |
| Records.OnText | collector/CommandHandler.cpp:909 | no contract of its own: `ScheduleFormatsBack` and `ScheduleParsesBack` state that ON and OFF read back as the on flag |
| Records.ErrorDate | collector/CommandHandler.cpp:872-880 | no contract of its own: `ErrorLineDateFields` and `ErrorLineWithoutDate` state its fields and its placeholder |
| Records.FormatHoliday | collector/CommandHandler.cpp:972-982 | a holiday line starts with its tag and a space, followed by at least a ten-character date |
| Records.HolidayDate | collector/CommandHandler.cpp:977-979 | the date is at least ten characters long |
| Records.FormatError | collector/CommandHandler.cpp:863-890 | an error record prints as the empty text exactly when its first code character is zero |
| Records.ErrorLineDateFields | collector/CommandHandler.cpp:871-876 | a dated error line holds the year (from 2000) at 0-3, the month at 5-6, the day at 8-9, the hour at 11-12 and the minute at 14-15, each reading back to its field, with `-`, `-`, space, `:` and space between and after them |
| Records.ErrorLineSourceFields | collector/CommandHandler.cpp:881-884 | after the date come a space, the source address in hex (reading back to the address), a space, the two code characters and a space |
| Records.ErrorLineWithoutDate | collector/CommandHandler.cpp:877-881 | an error line whose record has no date starts with `xxxx-xx-xx xx:xx` and a space |
| Records.ErrorLineEndsWithCodes | collector/CommandHandler.cpp:885-887 | the line of an error record read from raw bytes ends with the code and the duration in decimal, each the big-endian value of its two bytes |
| Parsers.Find | collector/CommandHandler.cpp:956 | `find` returns the first position at or after the start that holds the character, or none when no such position exists |
| Parsers.DayIndex | collector/CommandHandler.cpp:944-951 | the index found is one whose table entry is the day name; no index is found exactly when the name is not in the table |
| Parsers.ScheduleFromWords | collector/CommandHandler.cpp:936-966 | an accepted switch point has a time below 0x90, an even day field naming the given day, and an on flag of 1 for ON and 0 for OFF |
| Parsers.ScheduleEntryOf | collector/CommandHandler.cpp:915-969 | the parse yields the unset entry exactly when the first word is `unset` |
| Parsers.FindDay | collector/CommandHandler.cpp:944-954 | the search loop finds a day exactly when the name is in the table, at that index |
| Parsers.JudgeScheduleWords | collector/CommandHandler.cpp:936-966 | the step-by-step judgement of mode, day and time gives the outcome of the three-word rule |
| Parsers.ParseScheduleEntry | collector/CommandHandler.cpp:915-969 | the parser, taking its steps in the source's order, gives the outcome of `ScheduleEntryOf` |
| Parsers.TimeSteps | collector/CommandHandler.cpp:966 | a valid time of day is stored below 0x90, and a time whose minutes are a multiple of ten splits back into the same hours and minutes |
| Parsers.ScheduleFormatsBack | collector/CommandHandler.cpp:897-969 | text to entry to text: an accepted `DAY HH:MM ON\|OFF` prints back with the same day and mode, and with the hours and minutes read, zero-padded to two digits |
| Parsers.ClockTimeOf | collector/CommandHandler.cpp:956-961 | `HH:MM` printed with two-digit fields reads back as the same hours and minutes |
| Parsers.ClockTime | collector/CommandHandler.cpp:956-961 | no contract of its own: `ClockTimeDigits` (split at the colon, a side that is not a number throws, hours first) and `ClockTimeOf` state its behaviour |
| Parsers.DashFields | collector/CommandHandler.cpp:985-996 | no contract of its own: `DashFieldsOf` states that `Y-M-D` with digit fields Y and M splits into Y, M and D |
| Parsers.DashFieldsOf | collector/CommandHandler.cpp:985-996 | the text `Y-M-D` with digit runs Y and M splits at its first two dashes into Y, M and D |
| Parsers.ClockTimeDigits | collector/CommandHandler.cpp:956-961 | a time `HH:MM` without a colon in HH is split at its colon: both casts when both succeed, a throw when either fails |
| Parsers.ScheduleTimeThrows | collector/CommandHandler.cpp:940-961 | a switch point with a valid mode and day whose time has a side that is not a number throws |
| Parsers.ScheduleEntryOfLine | collector/CommandHandler.cpp:915-938 | the three words of a switch point, each behind a space and followed by the line's end, are judged by those words |
| Parsers.DayNameWord | collector/CommandHandler.cpp:892-894 | every day name is a two-letter word, never `unset` |
| Parsers.HolidayCastThrows | collector/CommandHandler.cpp:985-999 | a date `Y-M-D` with digit-run year and month and a field that is not a number throws |
| Parsers.StepsToClock | collector/CommandHandler.cpp:905-908 | every stored time below 0x90 is a valid time of day with minutes a multiple of ten, and it is stored back as itself |
| Parsers.ScheduleWordsAccepted | collector/CommandHandler.cpp:936-966 | a known day, a valid time whose minutes are a multiple of ten, and ON or OFF are accepted as the entry with day 2·index and time (h·60+m)/10 |
| Parsers.ScheduleParsesBack | collector/CommandHandler.cpp:897-969 | entry to text to entry: the line printed for any ON/OFF switch point parses back to that entry |
| Parsers.ScheduleLineParses | collector/CommandHandler.cpp:919-966 | a line of a day, a clock time and a mode parses to the switch point they describe |
| Parsers.ScheduleEntryOfWords | collector/CommandHandler.cpp:919-935 | a three-word line other than `unset` is judged by its words alone |
| Parsers.DayNamesDistinct | collector/CommandHandler.cpp:892-894 | every day name is found at its own index, and is two characters without white space |
| Parsers.HolidayEntryOf | collector/CommandHandler.cpp:985-1009 | every accepted date lies in 2000..2100, month 1..12, day 1..31 |
| Parsers.HolidayFromCasts | collector/CommandHandler.cpp:997-1006 | a date is accepted only when all three casts succeeded and the fields are in range, with the year stored as Y − 2000 |
| Parsers.HolidayFormatsBack | collector/CommandHandler.cpp:972-1009 | text to date to text: an accepted `Y-M-D` prints as `TAG DD-MM-YYYY` with the same day, month and year |
| Parsers.HolidayDateOfYear | collector/CommandHandler.cpp:977-979 | the year of a holiday is printed in full, from 2000 on, with no padding |
| Parsers.DateText | collector/CommandHandler.cpp:985-999 | the `Y-M-D` text of a date is one non-empty word |
| Parsers.HolidayParsesBack | collector/CommandHandler.cpp:985-1009 | date to text to date: every date the parser can produce is read back from its text |
| Parsers.LexicalCastDecimal | collector/CommandHandler.cpp:997-999 | the decimal text of any 32-bit number casts back to it |
| Parsers.IntParameter | collector/CommandHandler.cpp:1060-1071 | the parameter is accepted exactly when a number was read and it is at most the bound, and it is then that number |
| Parsers.IntParameterOf | collector/CommandHandler.cpp:1060-1071 | a number written in decimal is accepted exactly when it does not exceed the bound |
| Parsers.NotAfterIsDateOrder | collector/CommandHandler.cpp:439-450 | the nested year/month/day test refuses a range exactly when it begins after it ends in calendar order, and accepts a one-day range |
| Commands.TextBytes | collector/CommandHandler.cpp:246 | the bytes of a text are as many as its characters, each its character code cut to a byte |
| Commands.HelpText | collector/CommandHandler.cpp:187 | no contract of its own: the five help texts of lines 187, 218, 263, 324 and 463, responded by `Perform` for a `help` subcommand |
| Commands.Truncate | collector/CommandHandler.cpp:408 | no contract of its own: `HkTemperatureOfValue` and `HkTemperatureRange` state the truncated doubled value that is sent |
| Commands.HandleCommand | collector/CommandHandler.cpp:181-209 | a request takes an action exactly when it returns Ok |
| Commands.HkCircuit | collector/CommandHandler.cpp:189-196 | a heating circuit's parameter message leaves room for its schedule message (type + 2) |
| Commands.RcCommand | collector/CommandHandler.cpp:212-254 | an `rc` subcommand takes an action exactly when it returns Ok |
| Commands.ContactText | collector/CommandHandler.cpp:236-245 | a contact-info line is always exactly 21 characters |
| Commands.PumpModulationCommand | collector/CommandHandler.cpp:291-304 | pump modulation takes an action exactly when it returns Ok |
| Commands.UbaCommand | collector/CommandHandler.cpp:257-315 | a `uba` subcommand takes an action exactly when it returns Ok |
| Commands.HkCommand | collector/CommandHandler.cpp:318-394 | an `hkN` subcommand takes an action exactly when it returns Ok |
| Commands.ScheduleOffset | collector/CommandHandler.cpp:378-380 | slots 1..42 are written at twice their index less one |
| Commands.ScheduleCommand | collector/CommandHandler.cpp:368-381 | a schedule write takes an action exactly when it returns Ok, and is accepted only for an index of at most 42 |
| Commands.HkTemperatureCommand | collector/CommandHandler.cpp:397-418 | a temperature command takes an action exactly when it returns Ok |
| Commands.SetHolidayCommand | collector/CommandHandler.cpp:421-454 | a holiday or vacation command takes an action exactly when it returns Ok |
| Commands.WwCommand | collector/CommandHandler.cpp:457-567 | a `ww` subcommand takes an action exactly when it returns Ok |
| Commands.DesinfectDay | collector/CommandHandler.cpp:587-601 | the day number is the position of the name in monday..sunday, everyday; no number is given exactly for any other word |
| Commands.ThermDesinfectCommand | collector/CommandHandler.cpp:570-622 | a `thermdesinfect` subcommand takes an action exactly when it returns Ok |
| Commands.ZirkPumpCount | collector/CommandHandler.cpp:643-660 | an accepted circulation-pump count lies in 1..7 |
| Commands.ZirkPumpCommand | collector/CommandHandler.cpp:625-695 | a `zirkpump` subcommand takes an action exactly when it returns Ok |
| CommandRules.HkCircuitOf | collector/CommandHandler.cpp:189-196 | `hk1`..`hk4` select parameter messages 61, 71, 81 and 91, and no other word selects a circuit |
| CommandRules.HkCategory | collector/CommandHandler.cpp:189-196 | a request starting with `hkN` is handled by the handler of circuit N |
| CommandRules.PumpModulationOf | collector/CommandHandler.cpp:291-304 | `uba pumpmodulation MIN MAX` is accepted exactly when MIN ≤ MAX ≤ 100, and then sends the bytes [MAX, MIN] at offset 9 of message 0x16 |
| CommandRules.WwTemperatureOf | collector/CommandHandler.cpp:501-507 | `ww temperature T` is accepted exactly for 30 ≤ T ≤ 80, and sends T |
| CommandRules.DesinfectTemperatureOf | collector/CommandHandler.cpp:612-618 | `ww thermdesinfect temperature T` is accepted exactly for 60 ≤ T ≤ 80 |
| CommandRules.DesinfectTemperatureWord | collector/CommandHandler.cpp:612-618 | after the word `temperature`, `ww thermdesinfect` refuses a missing or out-of-range (above 80) value and one below 60, and otherwise writes the value to offset 8 of the boiler's message 0x33 |
| CommandRules.DesinfectHourOf | collector/CommandHandler.cpp:605-611 | `ww thermdesinfect hour H` is accepted exactly for H ≤ 23 |
| CommandRules.ZirkPumpCountOf | collector/CommandHandler.cpp:643-660 | a number is accepted as the pump count exactly when it is 1..6 modulo 256, because the byte cast comes before the range check |
| CommandRules.ZirkPumpCountWraps | collector/CommandHandler.cpp:643-660 | "257" is accepted as a count of 1, and "alwayson" as 7 |
| CommandRules.ZirkPumpCountSeven | collector/CommandHandler.cpp:643-660 | the number "7" is refused as a count, so 7 is only reachable as "alwayson" |
| CommandRules.ScheduleSlotOffsets | collector/CommandHandler.cpp:374-380 | slot 0 passes the index check and writes at offset 254, the wrapped-around (0 − 1)·2; slots 1..42 write at 2·(index − 1) |
| CommandRules.ScheduleCommandOf | collector/CommandHandler.cpp:368-381 | `schedule INDEX <switch point>` is accepted exactly for INDEX ≤ 42, slot 0 included, and writes the entry's two bytes at the slot's offset |
| CommandRules.SetHolidayOf | collector/CommandHandler.cpp:421-454 | a holiday or vacation range of two valid dates is accepted exactly when it does not begin after it ends, and then writes both date records |
| CommandRules.ScheduleCommandThrows | collector/CommandHandler.cpp:368-381 | `schedule INDEX DAY HH:MM MODE` with an index in range and a time that is not a number ends in the exception |
| CommandRules.SetHolidayThrows | collector/CommandHandler.cpp:421-436 | `holidaymode`/`vacationmode` whose first date has a field that is not a number ends in the exception, whatever the second date |
| CommandRules.HkScheduleWord | collector/CommandHandler.cpp:368 | the word `schedule` of a heating circuit runs the switch-point command with the circuit's schedule message type |
| CommandRules.HkScheduleThrows | collector/CommandHandler.cpp:368 | a heating circuit's `schedule` whose switch-point command throws throws too |
| CommandRules.HkTemperatureText | collector/CommandHandler.cpp:397-418 | a temperature written `A.B` is accepted exactly when its value lies in [10, 30.5), and then sent as the doubled value truncated |
| CommandRules.HkTemperatureOfValue | collector/CommandHandler.cpp:397-418 | a temperature read as t is accepted exactly when 10 ≤ t < 30.5, and then sent as 2t truncated |
| CommandRules.HkTemperatureAccepted | collector/CommandHandler.cpp:397-418 | `21.5` is sent as 43 half degrees |
| CommandRules.HkTemperatureRefused | collector/CommandHandler.cpp:397-418 | `9.5` is refused as invalid arguments |
| CommandRules.HkTemperatureRange | collector/CommandHandler.cpp:397-418 | a temperature is accepted exactly when it was read and 10 ≤ T < 30.5, and then it is sent in half degrees, truncated |
| CommandRules.ContactBufferOf | collector/CommandHandler.cpp:236-243 | the `setcontactinfo` loop collects every word followed by a space, plus one more space for the read that ends it |
| CommandRules.SetContactInfoOf | collector/CommandHandler.cpp:226-247 | `rc setcontactinfo LINE WORDS` is accepted exactly for lines 1 and 2, and then writes the words, each followed by a space, padded with spaces and cut to 21 characters |
| SessionModel.SendCommand | collector/CommandHandler.cpp:1046-1057 | the message sent carries the offset byte followed by the data; the connection then waits, with its timeout running; nothing else changes |
| SessionModel.ContinueRequest | collector/CommandHandler.cpp:1030-1043 | more is requested exactly when fewer bytes than requested have arrived, from offset plus received for the remaining count, both cut to a byte; otherwise nothing changes |
| SessionModel.StartRequest | collector/CommandHandler.cpp:1012-1027 | the buffer and the parse position start over, the counter only for a new request; a non-empty read sends its first request and waits |
| SessionModel.Walk | collector/CommandHandler.cpp:825-841 | the record loop stays within the buffer, only moves forward, and keeps what was responded before |
| SessionModel.LoopOver | collector/CommandHandler.cpp:822-842 | `loopOverResponse` keeps the parse position within the buffer, the busy flag unchanged and the earlier responses in place |
| SessionModel.SourceIndex | collector/CommandHandler.cpp:735-743 | the loop stops at the first table entry for the source, or after the table when there is none |
| SessionModel.VersionReply | collector/CommandHandler.cpp:720-749 | a version reply keeps a pending command pending and only adds responses |
| SessionModel.ErrorReply | collector/CommandHandler.cpp:751-765 | an error-log reply keeps the parse position within the buffer and a pending command pending, and only adds responses |
| SessionModel.ScheduleReply | collector/CommandHandler.cpp:784-798 | a schedule reply keeps the parse position within the buffer and a pending command pending, and only adds responses |
| SessionModel.HolidayReply | collector/CommandHandler.cpp:771-783 | a holiday reply leaves the busy flag as it was and only adds responses |
| SessionModel.CString | collector/CommandHandler.cpp:805-808 | the C string in a buffer is no longer than the buffer |
| SessionModel.ContactReply | collector/CommandHandler.cpp:799-812 | a contact-info reply keeps a pending command pending and only adds responses |
| SessionModel.TimeoutStep | collector/CommandHandler.cpp:854-860 | an expiry of the running timer ends a pending command with ERRTIMEOUT and stops the timer; a stopped timer changes nothing |
| SessionRules.WalkCounts | collector/CommandHandler.cpp:825-831 | the record loop moves the parse position by exactly one record size for each record it counts |
| SessionRules.WalkResponds | collector/CommandHandler.cpp:825-839 | the record loop responds one line for each record it consumes, except the empty record that ends it |
| SessionRules.WalkStops | collector/CommandHandler.cpp:825-841 | the loop returns true just past a record that formats to nothing, and false only when less than one whole record is left |
| SessionRules.WalkLines | collector/CommandHandler.cpp:825-842 | the loop responds exactly the numbered lines of the records after the parse position, up to the first empty one |
| SessionRules.RecordLineAt | collector/CommandHandler.cpp:836-838 | the j-th line is the prefix, the number counter + j + 1 and the non-empty text of the j-th record |
| SessionRules.ContactLineCount | collector/CommandHandler.cpp:803-804 | a contact-info payload gives one line for each 21 bytes, plus one for any shorter remainder |
| SessionRules.CStringUpToNul | collector/CommandHandler.cpp:805-808 | a line is the characters of its piece up to the first zero byte, or all of them when there is none |
| SessionRules.CStringWhole | collector/CommandHandler.cpp:805-808 | a piece without zero bytes is read whole |
| SessionRules.ContactLinesJoin | collector/CommandHandler.cpp:803-809 | the lines of a payload without zero bytes, joined, are its whole text |
| SessionRules.ReplyKeepsWaiting | collector/CommandHandler.cpp:719-813 | while a command is pending, every typed answer keeps it pending, keeps the parse position within the buffer and only adds responses |
| SessionRules.PcMessageVerdict | collector/CommandHandler.cpp:699-819 | a message is ignored when no command is pending; otherwise it only adds responses, and ends the command only with a last response of OK or FAIL |
| SessionRules.ErrorReplyTimer | collector/CommandHandler.cpp:751-765 | an error-log reply only appends to what was sent, and restarts the timeout exactly when it sends |
| SessionRules.ScheduleReplyTimer | collector/CommandHandler.cpp:784-798 | a schedule reply only appends to what was sent, and restarts the timeout exactly when it sends |
| SessionRules.ReplyTimer | collector/CommandHandler.cpp:719-813 | every typed reply only appends to what was sent, and restarts the timeout exactly when it sends |
| SessionRules.AnswerStopsTimer | collector/CommandHandler.cpp:714-819 | an answer other than an acknowledgement stops the timeout unless it sends a new request; with the timer stopped, the expiry event changes nothing |
| SessionRules.HolidayAnswer | collector/CommandHandler.cpp:771-783 | a holiday read whose answer completes both records responds `BEGIN DD-MM-YYYY` from bytes 0-2, `END DD-MM-YYYY` from bytes 3-5, then OK, and frees the connection without sending |
| SessionRules.HolidayReplyLines | collector/CommandHandler.cpp:771-783 | with both records buffered, the holiday reply responds the two date lines |
| SessionRules.HolidayFailStalls | collector/CommandHandler.cpp:771-783 | a holiday read whose answer holds less than both dates responds FAIL but stays pending with no timeout, so every later request gets ERRBUSY |
| SessionRules.OneCommandAtATime | collector/CommandHandler.cpp:137-170 | a request while a command is pending gets ERRBUSY and changes nothing else; a request that sends sends exactly one message and waits; an aborted request changes none of the modelled fields |
| SessionModel.RequestStep | collector/CommandHandler.cpp:137-170 | no contract of its own: `OneCommandAtATime` (ERRBUSY while pending, at most one send per request, nothing changed on abort), `ShortRequests` (the size test counts the terminator), `AbortedRequest` and `GetVersionLine` state its behaviour |
| SessionModel.PcMessageStep | collector/CommandHandler.cpp:698-818 | no contract of its own: `PcMessageVerdict` (ignored unless pending, ends only with OK or FAIL), `AnswerStopsTimer`, `HolidayAnswer`, `HolidayFailStalls`, `VersionRound` and `ErrorLogsChain` state its behaviour |
| SessionModel.Reply | collector/CommandHandler.cpp:719-813 | no contract of its own: `ReplyKeepsWaiting` (a typed answer keeps the command pending and only adds responses and sends) and `ReplyTimer` state its behaviour |
| SessionModel.Perform | collector/CommandHandler.cpp:137-170 | no contract of its own: the action of an accepted command (help text, one send, or a new request); `OneCommandAtATime` and `GetVersionLine` state its effect through `RequestStep` |
| SessionModel.Respond | collector/CommandHandler.cpp:147-160 | the text becomes the one new last response, and no other field changes |
| SessionModel.VersionLine | collector/CommandHandler.cpp:738-740 | no contract of its own: `VersionStep` and `VersionRound` state the `NAME version: MAJOR.MM` lines it gives |
| SessionModel.ErrorPrefix | collector/CommandHandler.cpp:751-755 | the prefix is S exactly for the RC's first log 0x12, L exactly for the boiler's second log 0x11, and B for every other type, so for the boiler's first log 0x10 and the RC's second log 0x13 |
| SessionRules.ShortRequests | collector/CommandHandler.cpp:150 | the size test counts the terminator: `\r\n` alone is ignored, `hk\n` is handled and refused with ERRCMD |
| SessionRules.ScheduleBadTimeAborts | collector/CommandHandler.cpp:137-170 | `hkN schedule INDEX DAY HH:MM MODE` whose time is not a number is reported as aborted, with no response and nothing sent |
| SessionRules.AbortedRequest | collector/CommandHandler.cpp:137-170 | a request of more than two characters whose command throws leaves the session unchanged and is reported as aborted |
| SessionRules.ScheduleBadTimeThrows | collector/CommandHandler.cpp:181-196 | the command `hkN schedule INDEX DAY HH:MM MODE` whose time is not a number throws |
| SessionRules.HkScheduleLineThrows | collector/CommandHandler.cpp:189-196 | a request `hkN schedule ARGS` throws when the switch-point command on ARGS throws |
| SessionRules.CircuitWordOf | collector/CommandHandler.cpp:184-189 | the circuit name `hkN` is read off the front of the request, leaving the rest of the line |
| SessionRules.ScheduleWordOf | collector/CommandHandler.cpp:368 | the word `schedule` is read off the front of the circuit command, leaving its arguments |
| SessionRules.ScheduleArgumentsThrow | collector/CommandHandler.cpp:368-381 | the arguments `INDEX DAY HH:MM MODE` with a time that is not a number throw |
| SessionRules.GetVersionLine | collector/CommandHandler.cpp:203-205 | `getversion` starts a new 3-byte read of message 0x02 from the boiler |
| SessionRules.VersionStep | collector/CommandHandler.cpp:731-749 | the answer of the i-th device responds its version line, then asks the next device, or ends with OK after the last |
| SessionRules.VersionStepEffect | collector/CommandHandler.cpp:731-749 | after the i-th answer, one version line was added, and the next query was sent with the command still pending, or OK was added and the command ended |
| SessionRules.VersionRoundFirstTwo | collector/CommandHandler.cpp:720-749 | after the boiler's and the BC10's answers, three queries were sent, two version lines were responded, and the command is pending |
| SessionRules.VersionRound | collector/CommandHandler.cpp:720-749 | `getversion` asks the boiler, the BC10 and the RC in turn, responds their three version lines then OK, and leaves the connection free |
| SessionRules.ErrorLogsChain | collector/CommandHandler.cpp:755-763 | a boiler error log read through without an empty record is followed by a read of the second log, five records, whose lines continue the numbering |
| Connection.CommandConnection.constructor | collector/CommandHandler.cpp:121-129 | a new connection is not waiting, has an empty buffer, position and counter 0, and has said nothing |
| Connection.CommandConnection.ScheduleResponseTimeout | collector/CommandHandler.cpp:845-851 | sets the busy flag and starts the timeout, and changes nothing else |
| Connection.CommandConnection.SendCommand | collector/CommandHandler.cpp:1046-1057 | the fields change as `SessionModel.SendCommand` says |
| Connection.CommandConnection.ContinueRequest | collector/CommandHandler.cpp:1030-1043 | the result and the fields are those of `SessionModel.ContinueRequest` |
| Connection.CommandConnection.StartRequest | collector/CommandHandler.cpp:1012-1027 | the fields change as `SessionModel.StartRequest` says |
| Connection.CommandConnection.LoopOverResponse | collector/CommandHandler.cpp:822-842 | the `while` loop over the buffer has the result and the effect of `SessionModel.LoopOver`, so all the walk lemmas hold for it |
| Connection.CommandConnection.ConsumeRecord | collector/CommandHandler.cpp:826-838 | one loop round advances the position by one record size, touches only position, counter and responses, and leaves the rest of the walk as it was |
| Connection.CommandConnection.ReplyVersion | collector/CommandHandler.cpp:720-749 | the table search and the follow-up request have the effect of `SessionModel.VersionReply` |
| Connection.CommandConnection.ReplyErrors | collector/CommandHandler.cpp:751-765 | the result and the fields are those of `SessionModel.ErrorReply` |
| Connection.CommandConnection.ReplySchedule | collector/CommandHandler.cpp:784-798 | the result and the fields are those of `SessionModel.ScheduleReply` |
| Connection.CommandConnection.ReplyHoliday | collector/CommandHandler.cpp:771-783 | the result and the fields are those of `SessionModel.HolidayReply` |
| Connection.CommandConnection.ReplyContactInfo | collector/CommandHandler.cpp:799-812 | the result and the fields are those of `SessionModel.ContactReply` |
| Connection.CommandConnection.RespondContactLines | collector/CommandHandler.cpp:803-809 | the `for` loop over 21-byte pieces responds exactly the lines of the payload after the offset byte, and changes nothing else |
| Connection.CommandConnection.HandlePcMessage | collector/CommandHandler.cpp:699-819 | the fields change as `SessionModel.PcMessageStep` says, so `PcMessageVerdict`, `AnswerStopsTimer` and the version lemmas hold for the object |
| Connection.CommandConnection.ReplyByType | collector/CommandHandler.cpp:719-813 | the `switch` over the message type has the result and the effect of `SessionModel.Reply` |
| Connection.CommandConnection.ResponseTimeout | collector/CommandHandler.cpp:854-860 | the fields change as `SessionModel.TimeoutStep` says |
| Connection.CommandConnection.Perform | collector/CommandHandler.cpp:181-209 | an accepted command's action changes the fields as `SessionModel.Perform` says |
| Connection.CommandConnection.HandleRequest | collector/CommandHandler.cpp:137-170 | the result and the fields are those of `SessionModel.RequestStep`, so `OneCommandAtATime` holds for the object |
| Pacing.ElapsedMs | collector/CommandHandler.cpp:100-102 | `total_milliseconds` is the microsecond distance in whole milliseconds, truncated toward zero for either sign: for a non-negative distance `ms` is the largest whole number of milliseconds not above it, for a negative one the smallest not below it |
| Pacing.Pace | collector/CommandHandler.cpp:93-111 | a message is sent at once exactly when its destination has no last contact, or that contact lies at least MinDistance + 1 ms back; otherwise it is deferred to the last contact plus MinDistance |
| Pacing.PacedSendTime | collector/CommandHandler.cpp:102-104 | a message reaches the bus no earlier than now and no earlier than MinDistance after the last contact; when it waits, it waits exactly until then |
| Pacing.SendTime | collector/CommandHandler.cpp:93-110 | no contract of its own: `PacedSendTime` states that the message goes out no earlier than now nor than the minimum distance after the last contact |
| Pacing.CommandHandler.constructor | collector/CommandHandler.cpp:26-33 | a new handler knows no last contact and has sent and deferred nothing |
| Pacing.CommandHandler.HandlePcMessage | collector/CommandHandler.cpp:74-81 | a message from a device records its arrival time as that device's last contact, and nothing else changes |
| Pacing.CommandHandler.SendMessage | collector/CommandHandler.cpp:93-111 | the decision is `Pace`; a message sent at once is transmitted and becomes the last contact, and a deferred one is handed to the send timer with its expiry time |
| Pacing.CommandHandler.DoSendMessage | collector/CommandHandler.cpp:114-118 | the message goes to the bus and its destination's last contact becomes now |

## Left out

- Sockets and asynchronous I/O are not modelled. This covers `startRead` and `handleWrite`, the accept loop, the connection set (`startConnection`/`stopConnection`) and `close`. Reading a request line also drains the rest of the line; the model handles one request line per call and does not model that drain.
- `respond` writes to the socket. The model records each response as an entry of `responses`, and each message handed to `CommandHandler::sendMessage` as an entry of `sent`.
- Timers are events, not clock time.
  - The response timeout is the `timerArmed` flag. Its expiry is the separate event `TimeoutStep` / `ResponseTimeout`.
  - The two-second delay is not modelled. Neither is the `operation_aborted` callback that a cancelled wait receives; a cancelled or restarted wait is a flag that is cleared or set again.
  - The send timer is modelled only as the `scheduled` list of `Pacing.CommandHandler`. Its expiry is `DoSendMessage`.
  - `m_sendTimer` is a single timer. A second deferral moves its expiry, which ends the first pending wait early. Its handler ignores the error code, so the first message then goes out at once. That early send is not modelled.
- The clock (`microsec_clock::universal_time`) becomes a `now` parameter, in microseconds. `MinDistanceBetweenRequests` comes from CommandHandler.h, which is not part of this model; it is a parameter of `Pacing.CommandHandler`.
- Pacing.CommandHandler.HandlePcMessage: it records the last contact only. The model does not fan the message out to the connections; that step is `Connection.CommandConnection.HandlePcMessage`, applied per connection.
- EmsMessage.h is not part of this model. The following are assumed, consistent with the offsets and sizes the code uses:
  - the record layouts: a switch point of 2 bytes (4-bit on flag, 4-bit day, time), a holiday date of 3 bytes, an error record of 12 bytes;
  - the addresses: UBA 0x08, BC10 0x09, RC 0x10.
- CommandHandler.h, which declares `CommandConnection`, is not part of this model. The default arguments of its members are taken from the calls in CommandHandler.cpp:
  - `sendCommand`'s `expectResponse` defaults to false;
  - `loopOverResponse`'s `prefix` defaults to the empty text, so schedule lines (calls at lines 786 and 794) read `NN TEXT`;
  - `startRequest`'s `newRequest` defaults to true, so the calls at lines 204, 224, 249, 271, 383-389, 536, 664 and 745 restart the record counter; only line 761 passes false.
- Fields the constructor does not initialise (`m_requestOffset`, `m_requestLength`, `m_requestDestination`, `m_requestType`) start as 0 in the model.
- Connection.CommandConnection.HandlePcMessage: requires the offset byte, and for a version reply the two version bytes (`Readable`). The source reads past a shorter payload; that is undefined behaviour, and the model does not give it a meaning.
- A `lexical_cast` exception leaves `handleRequest` before its drain and its `startRead()` (lines 165-169). The connection then reads no further request. The model reports such a request as aborted and keeps its fields as they were; it does not model that the connection stops reading.
- A request's characters are its bytes: each character stands for one byte with code 0..255, and no multi-byte encoding is modelled. So `TextBytes` never changes a character it cuts to a byte, and the 21-character cut of `setcontactinfo` (line 245) counts bytes, as the source does.
- The read buffer can hold text past the first `\n`. The model hands `RequestStep` one line with its terminator.
- Records.ErrorLineDateFields: positions are stated for fields below 100 only. A month, day, hour or minute byte of 100 or more prints in three digits and shifts the fields after it.
- Records.DayName: `dayNames[entry->day / 2]` beyond the table reads memory the program does not own; the model prints "??" for it.
- TextStream.ReadReal: the float is read as an exact decimal, without exponents and without binary rounding. The temperature commands use it over `real`.
- Commands.HandleCommand: its own contract states only that an action is taken exactly on Ok. The outcomes of the individual subcommands are stated by the `CommandRules` lemmas. The mode, hysteresis, anti-pendel, pump-delay, party-mode and select-schedule subcommands are modelled but have no lemma of their own.
- Commands.RcCommand: contract as for `HandleCommand`; `SetContactInfoOf` states the `setcontactinfo` outcome.
- Commands.UbaCommand: contract as for `HandleCommand`; `PumpModulationOf` states the `pumpmodulation` outcome.
- Commands.HkCommand: contract as for `HandleCommand`; `ScheduleCommandOf`, `SetHolidayOf` and `HkTemperatureRange` state the outcomes of its subcommands.
- Commands.WwCommand: contract as for `HandleCommand`; `WwTemperatureOf` and `ScheduleCommandOf` state those outcomes.
- Commands.ThermDesinfectCommand: contract as for `HandleCommand`; `DesinfectTemperatureOf` and `DesinfectHourOf` state those outcomes.
- Commands.ZirkPumpCommand: contract as for `HandleCommand`; `ZirkPumpCountOf` and `ScheduleCommandOf` state those outcomes.
- Commands.PumpModulationCommand: contract as for `HandleCommand`; `PumpModulationOf` and `PumpModulationText` state the outcome.
- Commands.HkTemperatureCommand: contract as for `HandleCommand`; `HkTemperatureRange` and `HkTemperatureText` state the outcome.
- Commands.SetHolidayCommand: contract as for `HandleCommand`; `SetHolidayOf` and `SetHolidayThrows` state the outcome.
- Pacing.PacedSendTime: Dafny proves this lemma from `Pace`'s contract alone. It restates that contract as a property of the send time.
- `handleHkTemperatureCommand`'s `numeric_cast` is modelled over exact reals. The float rounding of `2 * value` is not modelled.
- The PHP web page and the TCP and serial handlers are outside the command layer and are not modelled.
