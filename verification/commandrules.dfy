/** What the command handlers accept and what they send, stated for request text built
    from its parts. */
module CommandRules {
  import opened Numeric
  import opened TextStream
  import opened Records
  import opened Parsers
  import opened Commands

  /** `hk1` to `hk4` address the heating circuits whose parameter messages are 61, 71,
      81 and 91 (0x3d, 0x47, 0x51, 0x5b), and no other word does. */
  lemma HkCircuitOf(n: nat, word: string)
    requires 1 <= n <= 4
    ensures HkCircuit("hk" + [DigitChar(n)]) == Some(51 + 10 * n)
    ensures HkCircuit(word).Some? <==> word in ["hk1", "hk2", "hk3", "hk4"]
  {
    var hk := "hk" + [DigitChar(n)];
    if n == 1 {
      assert hk == "hk1";
    } else if n == 2 {
      assert hk == "hk2";
    } else if n == 3 {
      assert hk == "hk3";
    } else {
      assert hk == "hk4";
    }
  }

  /** The request of a heating circuit is handled by the circuit's handler. */
  lemma HkCategory(st: Stream, n: nat, s: Stream)
    requires 1 <= n <= 4
    requires ReadWord(st) == ("hk" + [DigitChar(n)], s)
    ensures HandleCommand(st) == HkCommand(s, 51 + 10 * n)
  {
    HkCircuitOf(n, "");
    assert "hk" + [DigitChar(n)] != "help";
  }

  /** `uba pumpmodulation <min> <max>` is accepted exactly when min <= max <= 100, and then
      writes the maximum before the minimum. */
  lemma {:induction false} PumpModulationOf(st: Stream, lo: nat, hi: nat)
    requires lo <= MaxU32 && hi <= MaxU32
    requires ReadWord(st) == ("pumpmodulation", Stream(" " + Decimal(lo) + " " + Decimal(hi), true))
    ensures UbaCommand(st) == if lo <= hi <= 100 then Accept(Send(AddressUBA, 0x16, 9, [hi, lo])) else BadArgs
  {
    var second := " " + Decimal(hi);
    assert UbaCommand(st) == PumpModulationCommand(Stream(" " + Decimal(lo) + " " + Decimal(hi), true));
    assert " " + Decimal(lo) + " " + Decimal(hi) == " " + Decimal(lo) + second;
    PumpModulationText(lo, hi, second);
  }

  lemma {:induction false} PumpModulationText(lo: nat, hi: nat, second: string)
    requires lo <= MaxU32 && hi <= MaxU32
    requires second == " " + Decimal(hi)
    ensures PumpModulationCommand(Stream(" " + Decimal(lo) + second, true))
      == if lo <= hi <= 100 then Accept(Send(AddressUBA, 0x16, 9, [hi, lo])) else BadArgs
  {
    ReadUnsignedOf(" ", lo, second);
    assert second == " " + Decimal(hi) + "";
    ReadUnsignedOf(" ", hi, "");
  }

  /** The text of a single number argument. */
  lemma {:induction false} NumberArgument(n: nat, max: Byte)
    requires n <= MaxU32
    ensures IntParameter(Stream(" " + Decimal(n), true), max) == if n <= max then Some(n) else None
  {
    assert " " + Decimal(n) == " " + Decimal(n) + "";
    IntParameterOf(" ", n, "", max);
  }

  /** `ww temperature <t>` is accepted exactly for 30 <= t <= 80. */
  lemma WwTemperatureOf(st: Stream, n: nat)
    requires n <= MaxU32
    requires ReadWord(st) == ("temperature", Stream(" " + Decimal(n), true))
    ensures WwCommand(st) == if 30 <= n <= 80 then SendByte(AddressUBA, 0x33, 2, n) else BadArgs
  {
    NumberArgument(n, 80);
  }

  /** `ww thermdesinfect temperature <t>` is accepted exactly for 60 <= t <= 80. */
  lemma DesinfectTemperatureOf(st: Stream, n: nat)
    requires n <= MaxU32
    requires ReadWord(st) == ("temperature", Stream(" " + Decimal(n), true))
    ensures ThermDesinfectCommand(st) == if 60 <= n <= 80 then SendByte(AddressUBA, 0x33, 8, n) else BadArgs
  {
    NumberArgument(n, 80);
    DesinfectTemperatureWord(st, Stream(" " + Decimal(n), true));
  }

  lemma DesinfectTemperatureWord(st: Stream, s: Stream)
    requires ReadWord(st) == ("temperature", s)
    ensures ThermDesinfectCommand(st)
      == match IntParameter(s, 80)
         case None => BadArgs
         case Some(t) => if t < 60 then BadArgs else SendByte(AddressUBA, 0x33, 8, t)
  {
  }

  /** `ww thermdesinfect hour <h>` is accepted exactly for h <= 23. */
  lemma DesinfectHourOf(st: Stream, n: nat)
    requires n <= MaxU32
    requires ReadWord(st) == ("hour", Stream(" " + Decimal(n), true))
    ensures ThermDesinfectCommand(st) == if n <= 23 then SendByte(AddressRC, 0x37, 6, n) else BadArgs
  {
    NumberArgument(n, 23);
  }

  /** The circulation-pump count is cast to one byte before its range is checked, so a
      number is accepted exactly when it is 1..6 modulo 256. */
  lemma ZirkPumpCountOf(n: nat)
    requires n <= MaxU32
    ensures ZirkPumpCount(Decimal(n)) == if 1 <= n % 256 <= 6 then Some(n % 256) else None
  {
    assert Decimal(n) != "alwayson" by {
      assert IsDigit(Decimal(n)[0]) && !IsDigit('a');
    }
    LexicalCastDecimal(n);
  }

  /** Consequently 257 sets a count of 1, while "alwayson" sets 7. */
  lemma ZirkPumpCountWraps()
    ensures ZirkPumpCount("257") == Some(1)
    ensures ZirkPumpCount("alwayson") == Some(7)
  {
    assert Decimal(257) == "257" by {
      assert Decimal(25) == "25" by {
        assert Decimal(2) == "2";
      }
    }
    ZirkPumpCountOf(257);
  }

  /** A count of 7 can only be asked for as "alwayson": the number 7 is refused. */
  lemma ZirkPumpCountSeven()
    ensures ZirkPumpCount("7") == None
  {
    assert Decimal(7) == "7";
    ZirkPumpCountOf(7);
  }

  /** Slot 0 passes the index check and writes at offset 254, the wrapped-around
      `(0 - 1) * 2`; slots 1..42 write at twice their index less one. */
  lemma ScheduleSlotOffsets(index: nat)
    requires index <= ScheduleEntries
    ensures ScheduleOffset(index) == if index == 0 then 254 else 2 * (index - 1)
  {
  }

  /** `schedule <index> <switch point>` writes the switch point, as its two stored bytes,
      at the offset of its slot, whenever the index is at most 42 (slot 0 included). */
  lemma {:induction false} ScheduleCommandOf(st: Stream, index: nat, e: ScheduleEntry, msgType: Byte)
    requires IsSwitchPoint(e)
    requires ReadUnsigned(st) == (index, Stream(" " + FormatSchedule(e), true))
    ensures ScheduleCommand(st, msgType)
      == if index <= ScheduleEntries then Accept(Send(AddressRC, msgType, ScheduleOffset(index), EncodeSchedule(e)))
         else BadArgs
  {
    var line := FormatSchedule(e);
    ReadWordAfterSpace(line);
    ScheduleParsesBack(e);
    assert ScheduleEntryOf(Stream(" " + line, true)) == Parsed(e);
  }

  /** `holidaymode`/`vacationmode <begin> <end>` with two valid dates is accepted exactly
      when the range does not begin after it ends, and then writes both records. */
  lemma SetHolidayOf(st: Stream, b: HolidayEntry, e: HolidayEntry, s1: Stream, s2: Stream, msgType: Byte, offset: Byte)
    requires ValidDate(b) && ValidDate(e)
    requires ReadWord(st) == (DateText(b), s1) && ReadWord(s1) == (DateText(e), s2)
    ensures SetHolidayCommand(st, msgType, offset)
      == if DateKey(b) <= DateKey(e) then Accept(Send(AddressRC, msgType, offset, EncodeHoliday(b) + EncodeHoliday(e)))
         else BadArgs
  {
    HolidayParsesBack(b);
    HolidayParsesBack(e);
    NotAfterIsDateOrder(b, e);
  }

  /** `schedule <index> DAY HH:MM MODE` whose time has a side that is not a number ends
      in the exception `lexical_cast` throws, for any index in range. */
  lemma ScheduleCommandThrows(st: Stream, index: nat, day: string, hh: string, mm: string,
                              mode: string, rest: string, msgType: Byte)
    requires index <= ScheduleEntries
    requires ReadUnsigned(st) == (index, Stream(" " + day + " " + (hh + ":" + mm) + " " + mode + rest, true))
    requires day in DayNames && (mode == "ON" || mode == "OFF")
    requires NoSpace(hh) && NoSpace(mm)
    requires forall i :: 0 <= i < |hh| ==> hh[i] != ':'
    requires LexicalCast(hh).None? || LexicalCast(mm).None?
    requires rest == [] || IsSpace(rest[0])
    ensures ScheduleCommand(st, msgType) == Thrown
  {
    ClockTimeDigits(hh, mm);
    ScheduleTimeThrows(day, hh, mm, mode);
    DayNameWord(day);
    ScheduleEntryOfLine(day, hh + ":" + mm, mode, rest);
  }

  /** `holidaymode` or `vacationmode` whose first date has a field that is not a number
      ends in the exception `lexical_cast` throws, whatever the second date. */
  lemma SetHolidayThrows(st: Stream, y: string, m: string, d: string, s1: Stream, endText: string, s2: Stream,
                         msgType: Byte, offset: Byte)
    requires ReadWord(st) == (y + "-" + m + "-" + d, s1) && ReadWord(s1) == (endText, s2) && s2.good
    requires AllDigits(y) && AllDigits(m)
    requires LexicalCast(y).None? || LexicalCast(m).None? || LexicalCast(d).None?
    ensures SetHolidayCommand(st, msgType, offset) == Thrown
  {
    HolidayCastThrows(y, m, d);
  }

  /** The word `schedule` of a heating circuit hands the rest of the line to the
      switch-point command for the circuit's schedule message. */
  lemma HkScheduleWord(st: Stream, s: Stream, hkType: Byte)
    requires hkType <= 253
    requires ReadWord(st) == ("schedule", s)
    ensures HkCommand(st, hkType) == ScheduleCommand(s, hkType + 2)
  {
    var cmd := ReadWord(st).0;
    assert |cmd| == 8 && cmd[0] == 's';
    assert cmd != "daytemperature" && cmd != "nighttemperature" && cmd != "holidaytemperature";
    assert cmd != "holidaymode" && cmd != "vacationmode" && cmd != "partymode";
  }

  /** A circuit's `schedule` whose arguments throw ends in the exception. */
  lemma HkScheduleThrows(st: Stream, s: Stream, hkType: Byte)
    requires hkType <= 253
    requires ReadWord(st) == ("schedule", s)
    requires ScheduleCommand(s, hkType + 2) == Thrown
    ensures HkCommand(st, hkType) == Thrown
  {
    HkScheduleWord(st, s, hkType);
  }

  /** The doubled temperature truncated toward zero, for the accepted range. */
  lemma HkTemperatureRange(st: Stream, hkType: Byte, offset: Byte)
    ensures var (value, s) := ReadReal(st);
      HkTemperatureCommand(st, hkType, offset)
        == if s.good && 10.0 <= value < 30.5 then SendByte(AddressRC, hkType, offset, (2.0 * value).Floor)
           else BadArgs
  {
    var (value, s) := ReadReal(st);
    var doubled := 2.0 * value;
    if s.good && -1.0 < doubled < 256.0 {
      if doubled < 0.0 {
        assert Truncate(doubled) == 0;
      } else if 10.0 <= value < 30.5 {
        assert 20.0 <= doubled < 61.0;
        assert 20 <= doubled.Floor <= 60;
      } else if value < 10.0 {
        assert doubled.Floor < 20;
      } else {
        assert doubled.Floor > 60;
      }
    }
  }

  /** A temperature written "A.B" is accepted exactly when its value `t` = A + B / 10^|B|
      lies in [10, 30.5), and then sent as the doubled value truncated. */
  lemma HkTemperatureText(a: string, b: string, rest: string, t: real, hkType: Byte, offset: Byte)
    requires AllDigits(a) && AllDigits(b) && (a != [] || b != [])
    requires rest == [] || !IsDigit(rest[0])
    requires t == DigitsValue(a) as real + DigitsValue(b) as real / Pow10(|b|) as real
    ensures HkTemperatureCommand(Stream(" " + a + "." + b + rest, true), hkType, offset)
      == if 10.0 <= t < 30.5 then SendByte(AddressRC, hkType, offset, (2.0 * t).Floor) else BadArgs
  {
    ReadRealOf(" ", a, b, rest);
    HkTemperatureOfValue(Stream(" " + a + "." + b + rest, true), t, hkType, offset);
  }

  lemma HkTemperatureOfValue(st: Stream, t: real, hkType: Byte, offset: Byte)
    requires ReadReal(st).0 == t && ReadReal(st).1.good
    ensures HkTemperatureCommand(st, hkType, offset)
      == if 10.0 <= t < 30.5 then SendByte(AddressRC, hkType, offset, (2.0 * t).Floor) else BadArgs
  {
    HkTemperatureRange(st, hkType, offset);
  }

  /** "21.5" degrees is sent as 43 half degrees. */
  lemma HkTemperatureAccepted(hkType: Byte, offset: Byte)
    ensures HkTemperatureCommand(Stream(" 21.5", true), hkType, offset) == SendByte(AddressRC, hkType, offset, 43)
  {
    assert Pow10(0) == 1 && Pow10(1) == 10;
    assert DigitsValue("2") == 2 && DigitsValue("21") == 21 && DigitsValue("5") == 5;
    assert " " + "21" + "." + "5" + "" == " 21.5";
    HkTemperatureText("21", "5", "", 21.5, hkType, offset);
    assert (2.0 * 21.5).Floor == 43;
  }

  /** "9.5" degrees is below the range and refused. */
  lemma HkTemperatureRefused(hkType: Byte, offset: Byte)
    ensures HkTemperatureCommand(Stream(" 9.5", true), hkType, offset) == BadArgs
  {
    assert Pow10(0) == 1 && Pow10(1) == 10;
    assert DigitsValue("9") == 9 && DigitsValue("5") == 5;
    assert " " + "9" + "." + "5" + "" == " 9.5";
    HkTemperatureText("9", "5", "", 9.5, hkType, offset);
  }

  /** Words with one space in front of each, as they follow the line number. */
  function Spaced(words: seq<string>): string
  {
    if words == [] then "" else " " + words[0] + Spaced(words[1..])
  }

  /** Words with one space after each, as the loop collects them. */
  function Terminated(words: seq<string>): string
  {
    if words == [] then "" else words[0] + " " + Terminated(words[1..])
  }

  predicate AreWords(words: seq<string>)
  {
    forall i :: 0 <= i < |words| ==> words[i] != [] && NoSpace(words[i])
  }

  /** The loop of `setcontactinfo` collects each word with a space after it, and one
      more space for the read that ends it. */
  lemma {:induction false} ContactBufferOf(words: seq<string>)
    requires AreWords(words)
    ensures ContactBuffer(Stream(Spaced(words), true)) == Terminated(words) + " "
  {
    if words == [] {
      assert ReadWord(Stream("", true)) == ("", Stream("", false));
    } else {
      var w, tail := words[0], Spaced(words[1..]);
      assert tail == [] || tail[0] == ' ';
      assert Spaced(words) == " " + w + tail;
      ReadWordOf(" ", w, tail);
      ContactBufferOf(words[1..]);
    }
  }

  /** `rc setcontactinfo <line> <words>` is accepted for lines 1 and 2 and writes the
      words, each followed by a space, padded with spaces and cut to 21 characters. */
  lemma {:induction false} SetContactInfoOf(st: Stream, line: nat, words: seq<string>)
    requires line <= MaxU32
    requires AreWords(words)
    requires ReadWord(st) == ("setcontactinfo", Stream(" " + Decimal(line) + Spaced(words), true))
    ensures RcCommand(st)
      == if 1 <= line <= 2
         then Accept(Send(AddressRC, 0xa4, line, TextBytes((Terminated(words) + " " + seq(ContactWidth, _ => ' '))[..ContactWidth])))
         else BadArgs
  {
    var rest := Spaced(words);
    assert rest == [] || rest[0] == ' ';
    ReadUnsignedOf(" ", line, rest);
    ContactBufferOf(words);
  }
}
