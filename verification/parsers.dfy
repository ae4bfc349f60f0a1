/** The token parsers of the command layer: a schedule switch point
    (`parseScheduleEntry`), a holiday date (`parseHolidayEntry`) and a bounded
    byte parameter (`parseIntParameter`), with the round trips through the
    record formatters. */
module Parsers {
  import opened Numeric
  import opened TextStream
  import opened Records

  /** How a parser ends: with a value, with a refusal (the `false` return), or with a
      `bad_lexical_cast` exception that nothing on the way up catches. */
  datatype ParseOutcome<T> = Parsed(value: T) | Rejected | Threw

  /** `s.find(c, from)`: the first position at or after `from` that holds `c`. */
  function Find(s: string, c: char, from: nat): (r: Option<nat>)
    ensures r.Some? ==> from <= r.value < |s| && s[r.value] == c
    ensures r.Some? ==> forall j :: from <= j < r.value ==> s[j] != c
    ensures r.None? ==> forall j :: from <= j < |s| ==> s[j] != c
    decreases |s| - from
  {
    if from >= |s| then None else if s[from] == c then Some(from) else Find(s, c, from + 1)
  }

  /** The position of a day name in the table of day names. */
  function DayIndex(day: string): (r: Option<nat>)
    ensures r.Some? ==> r.value < |DayNames| && DayNames[r.value] == day
    ensures r.None? ==> day !in DayNames
  {
    DayIndexFrom(day, 0)
  }

  function DayIndexFrom(day: string, i: nat): (r: Option<nat>)
    requires i <= |DayNames|
    ensures r.Some? ==> i <= r.value < |DayNames| && DayNames[r.value] == day
    ensures r.Some? ==> forall j :: i <= j < r.value ==> DayNames[j] != day
    ensures r.None? ==> forall j :: i <= j < |DayNames| ==> DayNames[j] != day
    decreases |DayNames| - i
  {
    if i == |DayNames| then None else if DayNames[i] == day then Some(i) else DayIndexFrom(day, i + 1)
  }

  /** "HH:MM" split at its first colon, each side read by `lexical_cast`: no colon is a
      refusal, a side that is not a number throws. */
  function ClockTime(time: string): (r: ParseOutcome<(nat, nat)>)
  {
    match Find(time, ':', 0)
    case None => Rejected
    case Some(pos) =>
      match LexicalCast(time[..pos])
      case None => Threw
      case Some(hours) =>
        match LexicalCast(time[pos + 1..])
        case None => Threw
        case Some(minutes) => Parsed((hours, minutes))
  }

  /** The on flag for "ON" and "OFF". */
  function OnFlag(mode: string): Nibble
  {
    if mode == "ON" then 1 else 0
  }

  /** The part of `parseScheduleEntry` that judges the three words "DAY HH:MM MODE". */
  function ScheduleFromWords(day: string, time: string, mode: string): (r: ParseOutcome<ScheduleEntry>)
    ensures r.Parsed? ==>
              && r.value.time < 0x90 && r.value.day % 2 == 0
              && DayName(r.value.day / 2) == day && day in DayNames
              && (r.value.on == 1 <==> mode == "ON") && (r.value.on == 0 <==> mode == "OFF")
  {
    if mode != "ON" && mode != "OFF" then Rejected
    else match DayIndex(day)
      case None => Rejected
      case Some(i) =>
        match ClockTime(time)
        case Rejected => Rejected
        case Threw => Threw
        case Parsed((hours, minutes)) =>
          if hours > 23 || minutes >= 60 || minutes % 10 != 0 then Rejected
          else Parsed(ScheduleEntry(OnFlag(mode), 2 * i, TimeSteps(hours, minutes)))
  }

  /** `parseScheduleEntry`: "unset" alone, or "DAY HH:MM ON|OFF", read from the stream. */
  function ScheduleEntryOf(st: Stream): (r: ParseOutcome<ScheduleEntry>)
    ensures r == Parsed(UnsetEntry) <==> ReadWord(st).0 == "unset"
  {
    var (day, s1) := ReadWord(st);
    if !s1.good then Rejected
    else if day == "unset" then Parsed(UnsetEntry)
    else
      var (time, s2) := ReadWord(s1);
      var (mode, s3) := ReadWord(s2);
      if !s3.good then Rejected else ScheduleFromWords(day, time, mode)
  }

  /** The search of `parseScheduleEntry` through the day-name table. */
  method FindDay(day: string) returns (found: bool, index: nat)
    ensures found <==> DayIndex(day).Some?
    ensures found ==> index == DayIndex(day).value
  {
    found, index := false, 0;
    var i := 0;
    while i < |DayNames|
      invariant 0 <= i <= |DayNames|
      invariant DayIndex(day) == DayIndexFrom(day, i)
    {
      if day == DayNames[i] {
        return true, i;
      }
      i := i + 1;
    }
  }

  /** The judgement of the three words, step by step in the source's order. */
  method JudgeScheduleWords(day: string, time: string, mode: string) returns (r: ParseOutcome<ScheduleEntry>)
    ensures r == ScheduleFromWords(day, time, mode)
  {
    var on: Nibble;
    if mode == "ON" {
      on := 1;
    } else if mode == "OFF" {
      on := 0;
    } else {
      return Rejected;
    }
    var hasDay, i := FindDay(day);
    if !hasDay {
      return Rejected;
    }
    var clock := ClockTime(time);
    if !clock.Parsed? {
      return if clock.Threw? then Threw else Rejected;
    }
    var (hours, minutes) := clock.value;
    if hours > 23 || minutes >= 60 || minutes % 10 != 0 {
      return Rejected;
    }
    r := Parsed(ScheduleEntry(on, 2 * i, TimeSteps(hours, minutes)));
  }

  /** `parseScheduleEntry` in the order the source takes its steps. */
  method ParseScheduleEntry(st: Stream) returns (r: ParseOutcome<ScheduleEntry>)
    ensures r == ScheduleEntryOf(st)
  {
    var (day, s1) := ReadWord(st);
    if !s1.good {
      return Rejected;
    }
    if day == "unset" {
      return Parsed(UnsetEntry);
    }
    var (time, s2) := ReadWord(s1);
    var (mode, s3) := ReadWord(s2);
    if !s3.good {
      return Rejected;
    }
    r := JudgeScheduleWords(day, time, mode);
  }

  /** The time of day in ten-minute steps, `(hours * 60 + minutes) / 10`; a time with
      minutes a multiple of ten splits back into the same hours and minutes. */
  function TimeSteps(h: nat, m: nat): (t: Byte)
    requires h <= 23 && m < 60
    ensures t < 0x90
    ensures m % 10 == 0 ==> t * 10 / 60 == h && t * 10 % 60 == m
  {
    var k := m / 10;
    assert h * 60 + m == 10 * (6 * h + k) + m % 10;
    (h * 60 + m) / 10
  }

  /** Round trip, text to entry to text: an accepted "DAY HH:MM ON|OFF" is printed back
      as the same day name and mode, with the hours and minutes read zero-padded to
      two digits. */
  lemma ScheduleFormatsBack(day: string, time: string, mode: string)
    requires ScheduleFromWords(day, time, mode).Parsed?
    ensures ClockTime(time).Parsed?
    ensures var (h, m) := ClockTime(time).value;
      h <= 23 && m < 60 && m % 10 == 0
      && FormatSchedule(ScheduleFromWords(day, time, mode).value)
         == day + " " + ZeroPad(h, 2) + ":" + ZeroPad(m, 2) + " " + mode
  {
    var i := DayIndex(day).value;
    var (h, m) := ClockTime(time).value;
    var e := ScheduleFromWords(day, time, mode).value;
    assert h <= 23 && m < 60 && m % 10 == 0;
    assert e == ScheduleEntry(OnFlag(mode), 2 * i, TimeSteps(h, m));
    assert e.day / 2 == i && DayNames[i] == day;
    assert e.time * 10 / 60 == h && e.time * 10 % 60 == m;
    assert OnText(e.on) == mode;
    FormatScheduleParts(e);
    ClockLine(day, ZeroPad(h, 2), ZeroPad(m, 2), mode);
  }

  lemma ClockLine(day: string, hh: string, mm: string, mode: string)
    ensures day + " " + (hh + ":" + mm) + " " + mode == day + " " + hh + ":" + mm + " " + mode
  {
  }

  /** The entries a schedule command can write with ON or OFF. */
  predicate IsSwitchPoint(e: ScheduleEntry)
  {
    e.on <= 1 && e.day % 2 == 0 && e.day / 2 < |DayNames| && e.time < 0x90
  }

  lemma DayNamesDistinct(i: nat)
    requires i < |DayNames|
    ensures DayIndex(DayNames[i]) == Some(i)
    ensures |DayNames[i]| == 2 && NoSpace(DayNames[i])
  {
  }

  /** "HH:MM" printed with two-digit fields reads back as the same hours and minutes. */
  lemma {:induction false} ClockTimeOf(h: nat, m: nat)
    requires h < 100 && m < 100
    ensures NoSpace(ClockText(h, m)) && ClockText(h, m) != [] && ClockTime(ClockText(h, m)) == Parsed((h, m))
  {
    var hh, mm := ZeroPad(h, 2), ZeroPad(m, 2);
    ZeroPadValue(h, 2);
    ZeroPadValue(m, 2);
    LexicalCastZeroPad(h, 2);
    LexicalCastZeroPad(m, 2);
    DigitsNoSpace(hh);
    DigitsNoSpace(mm);
    ClockTimeDigits(hh, mm);
  }

  /** A time "HH:MM" is split at its colon and each side cast: a side that is not a
      number throws, the hours first. */
  lemma {:induction false} ClockTimeDigits(hh: string, mm: string)
    requires NoSpace(hh) && NoSpace(mm)
    requires forall i :: 0 <= i < |hh| ==> hh[i] != ':'
    ensures var t := hh + ":" + mm;
      NoSpace(t) && t != [] && ClockTime(t) == match (LexicalCast(hh), LexicalCast(mm))
        case (Some(a), Some(b)) => Parsed((a, b))
        case (None, _) => Threw
        case (_, None) => Threw
  {
    var t := hh + ":" + mm;
    assert t[|hh|] == ':';
    assert forall j :: 0 <= j < |hh| ==> t[j] == hh[j];
    FindAt(t, ':', 0, |hh|);
    assert t[..|hh|] == hh;
    assert t[|hh| + 1..] == mm;
    assert forall j :: 0 <= j < |t| ==> !IsSpace(t[j]) by {
      forall j | 0 <= j < |t| ensures !IsSpace(t[j]) {
        if j < |hh| {
        } else if j > |hh| {
          assert t[j] == mm[j - |hh| - 1];
        }
      }
    }
  }

  /** A switch point whose time has a side that is not a number throws, once its mode
      and its day have been accepted. */
  lemma ScheduleTimeThrows(day: string, hh: string, mm: string, mode: string)
    requires day in DayNames && (mode == "ON" || mode == "OFF")
    requires NoSpace(hh) && NoSpace(mm)
    requires forall i :: 0 <= i < |hh| ==> hh[i] != ':'
    requires LexicalCast(hh).None? || LexicalCast(mm).None?
    ensures ScheduleFromWords(day, hh + ":" + mm, mode) == Threw
  {
    ClockTimeDigits(hh, mm);
  }

  /** A stored time below 0x90 is a time of day whose minutes are a multiple of ten,
      and it is stored back as itself. */
  lemma StepsToClock(t: Byte)
    requires t < 0x90
    ensures var h, m := t * 10 / 60, t * 10 % 60;
      h <= 23 && m < 60 && m % 10 == 0 && TimeSteps(h, m) == t
  {
    var h, m := t * 10 / 60, t * 10 % 60;
    assert t * 10 == 60 * h + m;
    assert m == 10 * (t - 6 * h);
  }

  /** The three words of a switch point are accepted and give the entry they describe. */
  lemma ScheduleWordsAccepted(day: string, time: string, mode: string, i: nat, h: nat, m: nat)
    requires DayIndex(day) == Some(i)
    requires ClockTime(time) == Parsed((h, m))
    requires mode == "ON" || mode == "OFF"
    requires h <= 23 && m < 60 && m % 10 == 0
    ensures ScheduleFromWords(day, time, mode) == Parsed(ScheduleEntry(OnFlag(mode), 2 * i, TimeSteps(h, m)))
  {
  }

  /** Round trip, entry to text to entry: the line printed for a switch point parses
      back to the same entry. */
  lemma {:induction false} ScheduleParsesBack(e: ScheduleEntry)
    requires IsSwitchPoint(e)
    ensures ScheduleEntryOf(Stream(FormatSchedule(e), true)) == Parsed(e)
  {
    var h, m := e.time * 10 / 60, e.time * 10 % 60;
    var i := e.day / 2;
    var line := DayNames[i] + " " + ClockText(h, m) + " " + OnText(e.on);
    var parsed := ScheduleEntry(OnFlag(OnText(e.on)), 2 * i, TimeSteps(h, m));
    assert FormatSchedule(e) == line by {
      FormatScheduleParts(e);
    }
    assert ScheduleEntryOf(Stream(line, true)) == Parsed(parsed) by {
      StepsToClock(e.time);
      DayNamesDistinct(i);
      ClockTimeOf(h, m);
      OnTextWord(e.on);
      ScheduleLineParses(DayNames[i], ClockText(h, m), OnText(e.on), i, h, m);
    }
    assert parsed == e by {
      StepsToClock(e.time);
      OnTextWord(e.on);
    }
  }

  lemma FormatScheduleParts(e: ScheduleEntry)
    requires IsSwitchPoint(e)
    ensures FormatSchedule(e)
      == DayNames[e.day / 2] + " " + ClockText(e.time * 10 / 60, e.time * 10 % 60) + " " + OnText(e.on)
  {
  }

  lemma OnTextWord(on: Nibble)
    ensures OnText(on) == "ON" || OnText(on) == "OFF"
    ensures on <= 1 ==> OnFlag(OnText(on)) == on
  {
  }

  /** A line of three words naming a day, a clock time and a mode is read as the
      switch point they describe. */
  lemma ScheduleLineParses(day: string, time: string, mode: string, i: nat, h: nat, m: nat)
    requires |day| == 2 && NoSpace(day) && time != [] && NoSpace(time)
    requires mode == "ON" || mode == "OFF"
    requires DayIndex(day) == Some(i)
    requires ClockTime(time) == Parsed((h, m))
    requires h <= 23 && m < 60 && m % 10 == 0
    ensures ScheduleEntryOf(Stream(day + " " + time + " " + mode, true))
      == Parsed(ScheduleEntry(OnFlag(mode), 2 * i, TimeSteps(h, m)))
  {
    assert day != "unset";
    ScheduleEntryOfWords(day, time, mode);
    ScheduleWordsAccepted(day, time, mode, i, h, m);
  }

  /** A line of three words other than "unset" is judged by its words. */
  lemma ScheduleEntryOfWords(day: string, time: string, mode: string)
    requires day != [] && NoSpace(day) && time != [] && NoSpace(time) && mode != [] && NoSpace(mode)
    requires day != "unset"
    ensures ScheduleEntryOf(Stream(day + " " + time + " " + mode, true)) == ScheduleFromWords(day, time, mode)
  {
    ReadThreeWords(day, time, mode);
  }

  /** The same for the three words as they follow the index, each behind a space, with
      the end of the request behind them. */
  lemma {:induction false} ScheduleEntryOfLine(day: string, time: string, mode: string, rest: string)
    requires day != [] && NoSpace(day) && time != [] && NoSpace(time) && mode != [] && NoSpace(mode)
    requires day != "unset"
    requires rest == [] || IsSpace(rest[0])
    ensures ScheduleEntryOf(Stream(" " + day + " " + time + " " + mode + rest, true)) == ScheduleFromWords(day, time, mode)
  {
    assert " " + day + " " + time + " " + mode + rest == " " + day + (" " + time + " " + mode + rest);
    ReadWordOf(" ", day, " " + time + " " + mode + rest);
    assert " " + time + " " + mode + rest == " " + time + (" " + mode + rest);
    ReadWordOf(" ", time, " " + mode + rest);
    ReadWordOf(" ", mode, rest);
  }

  /** Every day name is a two-letter word. */
  lemma DayNameWord(day: string)
    requires day in DayNames
    ensures |day| == 2 && NoSpace(day) && day != "unset"
  {
  }

  /** `parseHolidayEntry`: "Y-M-D" with 2000 <= Y <= 2100, 1 <= M <= 12, 1 <= D <= 31,
      the year stored as Y - 2000. */
  function HolidayEntryOf(s: string): (r: ParseOutcome<HolidayEntry>)
    ensures r.Parsed? ==> ValidDate(r.value)
  {
    match DashFields(s)
    case None => Rejected
    case Some((y, m, d)) => HolidayFromCasts(LexicalCast(y), LexicalCast(m), LexicalCast(d))
  }

  /** The text before the first dash, between it and the next dash, and after that one;
      `None` when there are fewer than two dashes. */
  function DashFields(s: string): (r: Option<(string, string, string)>)
  {
    match Find(s, '-', 0)
    case None => None
    case Some(pos) =>
      match Find(s, '-', pos + 1)
      case None => None
      case Some(pos2) => Some((s[..pos], s[pos + 1..pos2], s[pos2 + 1..]))
  }

  /** The judgement of the three casts of "Y-M-D": a failed cast throws, a field out of
      range is refused. */
  function HolidayFromCasts(year: Option<nat>, month: Option<nat>, day: Option<nat>): (r: ParseOutcome<HolidayEntry>)
    ensures r.Parsed? ==> r.value.year <= 100 && 1 <= r.value.month <= 12 && 1 <= r.value.day <= 31
    ensures r.Parsed? ==>
              && year.Some? && month.Some? && day.Some?
              && r.value.year + 2000 == year.value && r.value.month == month.value && r.value.day == day.value
  {
    if year.None? || month.None? || day.None? then Threw
    else if year.value < 2000 || year.value > 2100 || month.value < 1 || month.value > 12
         || day.value < 1 || day.value > 31 then Rejected
    else Parsed(HolidayEntry(year.value - 2000, month.value, day.value))
  }

  /** The three numbers of an accepted "Y-M-D". */
  function HolidayFields(s: string): (nat, nat, nat)
    requires HolidayEntryOf(s).Parsed?
  {
    var (y, m, d) := DashFields(s).value;
    (LexicalCast(y).value, LexicalCast(m).value, LexicalCast(d).value)
  }

  lemma {:induction false} DecimalLength(n: nat)
    ensures n >= 1000 ==> |Decimal(n)| >= 4
  {
    if n >= 10 {
      assert Decimal(n) == Decimal(n / 10) + [DigitChar(n % 10)];
      DecimalLength(n / 10);
      if n >= 1000 {
        assert Decimal(n / 10) == Decimal(n / 10 / 10) + [DigitChar(n / 10 % 10)];
        assert Decimal(n / 10 / 10) == Decimal(n / 10 / 10 / 10) + [DigitChar(n / 10 / 10 % 10)];
      }
    }
  }

  /** Round trip, text to entry to text: the holiday line prints the accepted date back
      as DD-MM-YYYY with the same day, month and year. */
  lemma HolidayFormatsBack(tag: string, s: string)
    requires HolidayEntryOf(s).Parsed?
    ensures var (Y, M, D) := HolidayFields(s);
      2000 <= Y <= 2100 && 1 <= M <= 12 && 1 <= D <= 31
      && FormatHoliday(tag, HolidayEntryOf(s).value)
         == tag + " " + ZeroPad(D, 2) + "-" + ZeroPad(M, 2) + "-" + Decimal(Y)
  {
    var (Y, M, D) := HolidayFields(s);
    var e := HolidayEntryOf(s).value;
    var (y, m, d) := DashFields(s).value;
    assert HolidayEntryOf(s) == HolidayFromCasts(LexicalCast(y), LexicalCast(m), LexicalCast(d));
    assert e == HolidayEntry(Y - 2000, M, D) && 2000 <= Y <= 2100;
    HolidayDateOfYear(e);
    assert e.day == D && e.month == M && 2000 + e.year == Y;
    DateLine(tag, ZeroPad(D, 2), ZeroPad(M, 2), Decimal(Y));
  }

  /** A year of this century is printed in full, with no padding. */
  lemma HolidayDateOfYear(e: HolidayEntry)
    ensures HolidayDate(e) == ZeroPad(e.day, 2) + "-" + ZeroPad(e.month, 2) + "-" + Decimal(2000 + e.year)
  {
    DecimalLength(2000 + e.year);
  }

  lemma DateLine(tag: string, dd: string, mm: string, yyyy: string)
    ensures tag + " " + (dd + "-" + mm + "-" + yyyy) == tag + " " + dd + "-" + mm + "-" + yyyy
  {
  }

  lemma {:induction false} FindAt(s: string, c: char, from: nat, k: nat)
    requires from <= k < |s| && s[k] == c
    requires forall j :: from <= j < k ==> s[j] != c
    ensures Find(s, c, from) == Some(k)
    decreases k - from
  {
    if from < k {
      FindAt(s, c, from + 1, k);
    }
  }

  /** The dates `parseHolidayEntry` accepts. */
  predicate ValidDate(h: HolidayEntry)
  {
    h.year <= 100 && 1 <= h.month <= 12 && 1 <= h.day <= 31
  }

  /** The text "Y-M-D" of a date, in the form `parseHolidayEntry` reads. */
  function DateText(h: HolidayEntry): (r: string)
    ensures r != [] && NoSpace(r)
  {
    var r := Decimal(2000 + h.year) + "-" + Decimal(h.month) + "-" + Decimal(h.day);
    assert forall i :: 0 <= i < |r| ==> IsDigit(r[i]) || r[i] == '-';
    r
  }

  /** Round trip, entry to text to entry: every date the parser can produce is read
      back from its "Y-M-D" text. */
  lemma {:induction false} HolidayParsesBack(e: HolidayEntry)
    requires ValidDate(e)
    ensures HolidayEntryOf(DateText(e)) == Parsed(e)
  {
    var y, m, d := Decimal(2000 + e.year), Decimal(e.month), Decimal(e.day);
    assert DateText(e) == y + "-" + m + "-" + d;
    DashFieldsOf(y, m, d);
    LexicalCastDecimal(2000 + e.year);
    LexicalCastDecimal(e.month);
    LexicalCastDecimal(e.day);
    HolidayFromCastsOf(e);
  }

  lemma HolidayFromCastsOf(e: HolidayEntry)
    requires e.year <= 100 && 1 <= e.month <= 12 && 1 <= e.day <= 31
    ensures HolidayFromCasts(Some(2000 + e.year), Some(e.month), Some(e.day)) == Parsed(e)
  {
  }

  lemma LexicalCastDecimal(n: nat)
    requires n <= MaxU32
    ensures LexicalCast(Decimal(n)) == Some(n)
  {
  }

  /** Three digit runs joined by dashes are split back at the two dashes. */
  lemma {:induction false} DashFieldsOf(y: string, m: string, d: string)
    requires AllDigits(y) && AllDigits(m)
    ensures DashFields(y + "-" + m + "-" + d) == Some((y, m, d))
  {
    var s := y + "-" + m + "-" + d;
    var pos, pos2 := |y|, |y| + 1 + |m|;
    forall j | 0 <= j < pos ensures s[j] != '-' {
      assert s[j] == y[j] && IsDigit(y[j]);
    }
    FindAt(s, '-', 0, pos);
    forall j | pos + 1 <= j < pos2 ensures s[j] != '-' {
      assert s[j] == m[j - pos - 1] && IsDigit(m[j - pos - 1]);
    }
    FindAt(s, '-', pos + 1, pos2);
    assert s[..pos] == y && s[pos + 1..pos2] == m && s[pos2 + 1..] == d;
  }

  /** A date "Y-M-D" whose year and month are digit runs, and one of whose three fields
      is not a number (an empty field, or a day such as "3x"), throws. */
  lemma HolidayCastThrows(y: string, m: string, d: string)
    requires AllDigits(y) && AllDigits(m)
    requires LexicalCast(y).None? || LexicalCast(m).None? || LexicalCast(d).None?
    ensures HolidayEntryOf(y + "-" + m + "-" + d) == Threw
  {
    DashFieldsOf(y, m, d);
  }

  /** `parseIntParameter`: an unsigned number read from the stream, accepted when it is
      at most `max`. */
  function IntParameter(st: Stream, max: Byte): (r: Option<Byte>)
    ensures r.Some? <==> ReadUnsigned(st).1.good && ReadUnsigned(st).0 <= max
    ensures r.Some? ==> r.value == ReadUnsigned(st).0
  {
    var (value, s) := ReadUnsigned(st);
    if !s.good || value > max then None else Some(value)
  }

  /** A number given in decimal after white space is accepted exactly when it does not
      exceed the bound, and is then the parameter's value. */
  lemma {:induction false} IntParameterOf(pre: string, n: nat, rest: string, max: Byte)
    requires forall i :: 0 <= i < |pre| ==> IsSpace(pre[i])
    requires n <= MaxU32
    requires rest == [] || IsSpace(rest[0])
    ensures IntParameter(Stream(pre + Decimal(n) + rest, true), max) == if n <= max then Some(n) else None
  {
    ReadUnsignedOf(pre, n, rest);
  }

  /** The begin-not-after-end test of `handleSetHolidayCommand`, nested as the source
      nests it. */
  predicate NotAfter(b: HolidayEntry, e: HolidayEntry)
  {
    if b.year > e.year then false
    else if b.year == e.year then
      if b.month > e.month then false
      else if b.month == e.month then b.day <= e.day
      else true
    else true
  }

  /** A date as one number whose order is calendar order. */
  function DateKey(h: HolidayEntry): nat
  {
    h.year * 0x1_0000 + h.month * 0x100 + h.day
  }

  /** The nested test is the lexicographic order of (year, month, day): a range is
      refused exactly when it begins after it ends, and a one-day range is accepted. */
  lemma NotAfterIsDateOrder(b: HolidayEntry, e: HolidayEntry)
    ensures NotAfter(b, e) <==> DateKey(b) <= DateKey(e)
    ensures NotAfter(b, b)
  {
    if b.year < e.year {
      assert DateKey(b) < (b.year + 1) * 0x1_0000 <= DateKey(e);
    } else if b.year > e.year {
      assert DateKey(e) < (e.year + 1) * 0x1_0000 <= DateKey(b);
    } else if b.month < e.month {
      assert DateKey(b) < b.year * 0x1_0000 + (b.month + 1) * 0x100 <= DateKey(e);
    } else if b.month > e.month {
      assert DateKey(e) < e.year * 0x1_0000 + (e.month + 1) * 0x100 <= DateKey(b);
    }
  }
}
