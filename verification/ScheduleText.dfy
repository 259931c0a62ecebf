/** The text form of schedules. */
module ScheduleText {
  import opened Tables
  import opened MemoryTables
  import opened Schedules

  /** What is stored for a schedule text: trimmed and in lower case. */
  function Normalized(text: string): string {
    Lower(Strip(text))
  }

  predicate Digit(c: char) {
    '0' <= c <= '9'
  }

  predicate AllDigits(s: string) {
    forall i: nat | i < |s| :: Digit(s[i])
  }

  function DigitValue(c: char): nat
    requires Digit(c)
  {
    c as int - '0' as int
  }

  function NumberOf(s: string): nat
    requires AllDigits(s)
  {
    if |s| == 0 then 0 else NumberOf(s[..|s|-1]) * 10 + DigitValue(s[|s|-1])
  }

  function UnitOf(c: char): Option<Unit> {
    if c == 's' then Some(Seconds) else if c == 'm' then Some(Minutes)
    else if c == 'h' then Some(Hours) else if c == 'd' then Some(Days) else None
  }

  const DayNames := ["mon", "tue", "wed", "thu", "fri", "sat", "sun"]

  function DayIndex(name: string, from: nat): Option<nat>
    requires from <= 7
    decreases 7 - from
  {
    if from == 7 then None else if DayNames[from] == name then Some(from) else DayIndex(name, from + 1)
  }

  /** `HH:MM`, two digits each, as a valid time of day. */
  function ParseClock(s: string): Option<(nat, nat)> {
    if |s| == 5 && AllDigits(s[..2]) && s[2] == ':' && AllDigits(s[3..]) then
      var hour, minute := NumberOf(s[..2]), NumberOf(s[3..]);
      if hour <= 23 && minute <= 59 then Some((hour, minute)) else None
    else None
  }

  /** The three accepted forms, on normalized text. */
  function ParseNormalized(s: string): Option<Schedule> {
    if |s| >= 8 && s[..6] == "every:" && AllDigits(s[6..|s|-1]) && UnitOf(s[|s|-1]).Some? then
      var value := NumberOf(s[6..|s|-1]);
      if value > 0 then Some(Every(value, UnitOf(s[|s|-1]).value)) else None
    else if |s| >= 6 && s[..6] == "daily:" then
      var clock := ParseClock(s[6..]);
      if clock.Some? then Some(Daily(clock.value.0, clock.value.1)) else None
    else if |s| >= 11 && s[..7] == "weekly:" && s[10] == '@' then
      var day := DayIndex(s[7..10], 0);
      var clock := ParseClock(s[11..]);
      if day.Some? && clock.Some? then Some(Weekly(day.value, clock.value.0, clock.value.1)) else None
    else None
  }

  function ParseSchedule(text: string): Option<Schedule> {
    ParseNormalized(Normalized(text))
  }

  lemma {:induction false} DayIndexIsDay(name: string, from: nat)
    requires from <= 7
    ensures DayIndex(name, from).Some? ==> DayIndex(name, from).value < 7
    decreases 7 - from
  {
    if from < 7 { DayIndexIsDay(name, from + 1); }
  }

  /** Whatever parses is acceptable: a positive interval or a real time of day. */
  lemma ParsedIsAcceptable(text: string)
    requires ParseSchedule(text).Some?
    ensures Acceptable(ParseSchedule(text).value)
  {
    var s := Normalized(text);
    if |s| >= 11 { DayIndexIsDay(s[7..10], 0); }
  }

  // --------------------------------------------------------------- stored text

  lemma {:induction false} LowerIsIdempotent(s: string)
    ensures Lower(Lower(s)) == Lower(s) && |Lower(s)| == |s|
    ensures forall i: nat | i < |s| :: IsSpace(Lower(s)[i]) <==> IsSpace(s[i])
  {
    if |s| > 0 {
      LowerIsIdempotent(s[1..]);
      assert Lower(s)[1..] == Lower(s[1..]);
      forall i: nat | i < |s| ensures IsSpace(Lower(s)[i]) <==> IsSpace(s[i]) {
        if i > 0 { assert Lower(s)[i] == Lower(s[1..])[i-1] && s[i] == s[1..][i-1]; }
      }
    }
  }

  predicate Trimmed(s: string) {
    s == "" || (!IsSpace(s[0]) && !IsSpace(s[|s|-1]))
  }

  lemma {:induction false} LStripTrims(s: string)
    ensures LStrip(s) == "" || !IsSpace(LStrip(s)[0])
  {
    if |s| > 0 && IsSpace(s[0]) { LStripTrims(s[1..]); }
  }

  lemma StripTrims(s: string)
    ensures Trimmed(Strip(s))
  {
    LStripTrims(s);
  }

  lemma TrimmedIsStripped(s: string)
    requires Trimmed(s)
    ensures Strip(s) == s
  {}

  /** The stored form of a schedule parses to the same schedule. */
  lemma StoredTextParses(text: string)
    ensures Normalized(Normalized(text)) == Normalized(text)
    ensures ParseSchedule(Normalized(text)) == ParseSchedule(text)
  {
    var s := Strip(text);
    StripTrims(text);
    LowerIsIdempotent(s);
    assert Trimmed(Lower(s));
    TrimmedIsStripped(Lower(s));
  }

  // ---------------------------------------------------------------- round trip

  function DigitChar(d: nat): char
    requires d < 10
  {
    (d + '0' as int) as char
  }

  function Decimal(n: nat): string {
    if n < 10 then [DigitChar(n)] else Decimal(n / 10) + [DigitChar(n % 10)]
  }

  function TwoDigits(n: nat): string
    requires n < 100
  {
    [DigitChar(n / 10), DigitChar(n % 10)]
  }

  function UnitChar(unit: Unit): char {
    match unit
    case Seconds => 's'
    case Minutes => 'm'
    case Hours => 'h'
    case Days => 'd'
  }

  function Render(s: Schedule): string
    requires Acceptable(s)
  {
    match s
    case Every(value, unit) => "every:" + Decimal(value) + [UnitChar(unit)]
    case Daily(hour, minute) => "daily:" + TwoDigits(hour) + ":" + TwoDigits(minute)
    case Weekly(weekday, hour, minute) =>
      "weekly:" + DayNames[weekday] + "@" + TwoDigits(hour) + ":" + TwoDigits(minute)
  }

  lemma {:induction false} DecimalReadsBack(n: nat)
    ensures AllDigits(Decimal(n)) && |Decimal(n)| >= 1 && NumberOf(Decimal(n)) == n
  {
    if n >= 10 {
      DecimalReadsBack(n / 10);
      var front := Decimal(n / 10);
      assert Decimal(n)[..|Decimal(n)|-1] == front;
    } else {
      assert Decimal(n)[..0] == "";
      assert NumberOf("") == 0;
    }
  }

  lemma TwoDigitsReadBack(n: nat)
    requires n < 100
    ensures AllDigits(TwoDigits(n)) && NumberOf(TwoDigits(n)) == n
  {
    var s := TwoDigits(n);
    assert s[..1] == [DigitChar(n / 10)];
    assert s[..1][..0] == "";
    assert NumberOf(s[..1]) == n / 10;
  }

  lemma ClockReadsBack(hour: nat, minute: nat)
    requires hour <= 23 && minute <= 59
    ensures ParseClock(TwoDigits(hour) + ":" + TwoDigits(minute)) == Some((hour, minute))
  {
    var s := TwoDigits(hour) + ":" + TwoDigits(minute);
    TwoDigitsReadBack(hour);
    TwoDigitsReadBack(minute);
    assert s[..2] == TwoDigits(hour) && s[3..] == TwoDigits(minute);
  }

  lemma DayNameReadsBack(weekday: nat)
    requires weekday <= 6
    ensures DayIndex(DayNames[weekday], 0) == Some(weekday) && |DayNames[weekday]| == 3
  {
    NamesDiffer();
    DayIndexFrom(weekday, 0);
  }

  lemma NamesDiffer()
    ensures forall i: nat | i < 7 :: |DayNames[i]| == 3
    ensures forall i: nat, j: nat | i < j < 7 :: DayNames[i] != DayNames[j]
  {
    assert DayNames[0][0] == 'm' && DayNames[1][0] == 't' && DayNames[2][0] == 'w' && DayNames[3][0] == 't';
    assert DayNames[4][0] == 'f' && DayNames[5][0] == 's' && DayNames[6][0] == 's';
    assert DayNames[1][1] == 'u' && DayNames[3][1] == 'h' && DayNames[5][1] == 'a' && DayNames[6][1] == 'u';
  }

  lemma {:induction false} DayIndexFrom(weekday: nat, from: nat)
    requires from <= weekday <= 6
    requires forall i: nat, j: nat | i < j < 7 :: DayNames[i] != DayNames[j]
    ensures DayIndex(DayNames[weekday], from) == Some(weekday)
    decreases weekday - from
  {
    if from < weekday { DayIndexFrom(weekday, from + 1); }
  }

  /** Every acceptable schedule has a text that parses back to it. */
  lemma RenderParsesBack(s: Schedule)
    requires Acceptable(s)
    ensures ParseNormalized(Render(s)) == Some(s)
  {
    var text := Render(s);
    match s
    case Every(value, unit) =>
      DecimalReadsBack(value);
      assert text[..6] == "every:" && text[6..|text|-1] == Decimal(value);
    case Daily(hour, minute) =>
      ClockReadsBack(hour, minute);
      assert text[..6] == "daily:" && text[6..] == TwoDigits(hour) + ":" + TwoDigits(minute);
    case Weekly(weekday, hour, minute) =>
      ClockReadsBack(hour, minute);
      DayNameReadsBack(weekday);
      assert text[..7] == "weekly:" && text[7..10] == DayNames[weekday];
      assert text[11..] == TwoDigits(hour) + ":" + TwoDigits(minute);
  }

  lemma TwoDigitsAre(s: string)
    requires |s| == 2 && AllDigits(s)
    ensures NumberOf(s) < 100 && TwoDigits(NumberOf(s)) == s
  {
    assert s[..1][..0] == "" && NumberOf("") == 0;
    assert NumberOf(s[..1]) == DigitValue(s[0]);
    assert NumberOf(s) == DigitValue(s[0]) * 10 + DigitValue(s[1]);
  }

  lemma ClockIsRead(s: string)
    requires ParseClock(s).Some?
    ensures var clock := ParseClock(s).value;
            clock.0 < 100 && clock.1 < 100 && s == TwoDigits(clock.0) + ":" + TwoDigits(clock.1)
  {
    TwoDigitsAre(s[..2]);
    TwoDigitsAre(s[3..]);
    assert s == s[..2] + [s[2]] + s[3..];
  }

  lemma {:induction false} DayIndexIsName(name: string, from: nat)
    requires from <= 7 && DayIndex(name, from).Some?
    ensures DayIndex(name, from).value < 7 && DayNames[DayIndex(name, from).value] == name
    decreases 7 - from
  {
    if DayNames[from] != name { DayIndexIsName(name, from + 1); }
  }

  /** Nothing else parses: a calendar text is the one text of its schedule, an interval is
      its digits between the keyword and the unit. */
  lemma ParsedIsItsText(s: string)
    requires ParseNormalized(s).Some?
    ensures var x := ParseNormalized(s).value;
            && Acceptable(x)
            && (!x.Every? ==> s == Render(x))
            && (x.Every? ==>
                  exists digits: string ::
                    s == "every:" + digits + [UnitChar(x.unit)] && AllDigits(digits) && NumberOf(digits) == x.value)
  {
    var x := ParseNormalized(s).value;
    match x
    case Every(value, unit) =>
      var digits := s[6..|s|-1];
      assert s == s[..6] + digits + [s[|s|-1]];
      assert s == "every:" + digits + [UnitChar(unit)] && AllDigits(digits) && NumberOf(digits) == value;
    case Daily(hour, minute) =>
      ClockIsRead(s[6..]);
      assert s == s[..6] + s[6..];
    case Weekly(weekday, hour, minute) =>
      DayIndexIsName(s[7..10], 0);
      ClockIsRead(s[11..]);
      assert s == s[..7] + s[7..10] + [s[10]] + s[11..];
  }
}
