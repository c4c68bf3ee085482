/** The `created_at` timestamp of a post, read with the fixed format
    `"%a %b %d %H:%M:%S %z %Y"`, for example `"Wed Oct 10 20:19:24 +0000 2018"`. */
module CreatedAt {
  import opened Wrappers

  /** An aware date-time: a civil date and time plus its UTC offset in minutes. */
  datatype Timestamp = Timestamp(
    year: int, month: int, day: int,
    hour: int, minute: int, second: int,
    offset: int)

  const Weekdays: seq<string> := ["Mon", "Tue", "Wed", "Thu", "Fri", "Sat", "Sun"]
  const Months: seq<string> :=
    ["Jan", "Feb", "Mar", "Apr", "May", "Jun", "Jul", "Aug", "Sep", "Oct", "Nov", "Dec"]

  /** The length of the text the format produces. */
  const Width := 30

  predicate IsLeapYear(y: int) {
    y % 4 == 0 && (y % 100 != 0 || y % 400 == 0)
  }

  function DaysInMonth(y: int, m: int): int
    requires 1 <= m <= 12
  {
    if m == 2 then (if IsLeapYear(y) then 29 else 28)
    else if m == 4 || m == 6 || m == 9 || m == 11 then 30
    else 31
  }

  /** The timestamps Python's `datetime` can hold and `strptime` can produce
      from this format: a four-digit year from 1, a real calendar day, a time
      of day without leap seconds, and an offset strictly inside one day. */
  predicate Valid(t: Timestamp) {
    && 1 <= t.year <= 9999
    && 1 <= t.month <= 12
    && 1 <= t.day <= DaysInMonth(t.year, t.month)
    && 0 <= t.hour < 24
    && 0 <= t.minute < 60
    && 0 <= t.second < 60
    && -1440 < t.offset < 1440
  }

  /** The number of minutes in the offset, whatever its sign. */
  function Magnitude(t: Timestamp): nat {
    if t.offset < 0 then -t.offset else t.offset
  }

  /** The sign Format writes before the offset. */
  function SignOf(t: Timestamp): char {
    if t.offset < 0 then '-' else '+'
  }

  // ---- Fixed-width decimal fields ----

  predicate IsDigit(c: char) {
    '0' <= c <= '9'
  }

  function DigitValue(c: char): nat
    requires IsDigit(c)
  {
    c as int - '0' as int
  }

  function Digit(d: nat): char
    requires d < 10
  {
    ('0' as int + d) as char
  }

  predicate AllDigits(s: string) {
    forall i :: 0 <= i < |s| ==> IsDigit(s[i])
  }

  /** The value of a two-digit field. */
  function Value2(s: string): nat
    requires |s| == 2 && AllDigits(s)
  {
    10 * DigitValue(s[0]) + DigitValue(s[1])
  }

  /** The value of a four-digit field. */
  function Value4(s: string): nat
    requires |s| == 4 && AllDigits(s)
  {
    100 * Value2(s[..2]) + Value2(s[2..])
  }

  /** `n` as a zero-padded two-digit field. */
  function Pad2(n: nat): string
    requires n < 100
  {
    [Digit(n / 10), Digit(n % 10)]
  }

  /** `n` as a zero-padded four-digit field. */
  function Pad4(n: nat): string
    requires n < 10000
  {
    Pad2(n / 100) + Pad2(n % 100)
  }

  lemma Value2OfPad2(n: nat)
    requires n < 100
    ensures AllDigits(Pad2(n)) && Value2(Pad2(n)) == n
  {
  }

  lemma Pad2OfValue2(s: string)
    requires |s| == 2 && AllDigits(s)
    ensures Value2(s) < 100 && Pad2(Value2(s)) == s
  {
    var a, b := DigitValue(s[0]), DigitValue(s[1]);
    assert (10 * a + b) / 10 == a && (10 * a + b) % 10 == b;
    assert Digit(a) == s[0] && Digit(b) == s[1];
  }

  // The two lemmas below go through the two-digit halves; the steps written
  // out keep the proofs stable.

  lemma Value4OfPad4(n: nat)
    requires n < 10000
    ensures AllDigits(Pad4(n)) && Value4(Pad4(n)) == n
  {
    var high, low := n / 100, n % 100;
    Value2OfPad2(high);
    Value2OfPad2(low);
    var s := Pad4(n);
    assert s[..2] == Pad2(high) && s[2..] == Pad2(low);
  }

  lemma Pad4OfValue4(s: string)
    requires |s| == 4 && AllDigits(s)
    ensures Value4(s) < 10000 && Pad4(Value4(s)) == s
  {
    var high, low := s[..2], s[2..];
    Pad2OfValue2(high);
    Pad2OfValue2(low);
    var n := 100 * Value2(high) + Value2(low);
    assert n / 100 == Value2(high) && n % 100 == Value2(low);
    assert s == high + low;
  }

  // ---- Names ----

  /** The month number of a three-letter English month abbreviation. */
  function MonthNumber(name: string): (r: Option<int>)
    ensures r.Some? ==> 1 <= r.value <= 12 && Months[r.value - 1] == name
    ensures r.None? <==> name !in Months
  {
    if name == "Jan" then Some(1) else if name == "Feb" then Some(2)
    else if name == "Mar" then Some(3) else if name == "Apr" then Some(4)
    else if name == "May" then Some(5) else if name == "Jun" then Some(6)
    else if name == "Jul" then Some(7) else if name == "Aug" then Some(8)
    else if name == "Sep" then Some(9) else if name == "Oct" then Some(10)
    else if name == "Nov" then Some(11) else if name == "Dec" then Some(12)
    else None
  }

  lemma MonthNumberOfName(m: int)
    requires 1 <= m <= 12
    ensures MonthNumber(Months[m - 1]) == Some(m)
  {
  }

  // ---- Reading ----

  /** The layout of the format: fixed separators, a weekday name, a month
      abbreviation and decimal digits in every numeric field. */
  predicate WellShaped(s: string) {
    && |s| == Width
    && s[3] == ' ' && s[7] == ' ' && s[10] == ' '
    && s[13] == ':' && s[16] == ':'
    && s[19] == ' ' && (s[20] == '+' || s[20] == '-') && s[25] == ' '
    && s[..3] in Weekdays && s[4..7] in Months
    && AllDigits(s[8..10]) && AllDigits(s[11..13]) && AllDigits(s[14..16])
    && AllDigits(s[17..19]) && AllDigits(s[21..23]) && AllDigits(s[23..25])
    && AllDigits(s[26..30])
  }

  /** The timestamp the fields of a well-shaped text spell out. */
  function Fields(s: string): Timestamp
    requires WellShaped(s)
  {
    var magnitude := Value2(s[21..23]) * 60 + Value2(s[23..25]);
    Timestamp(Value4(s[26..30]), MonthNumber(s[4..7]).value, Value2(s[8..10]),
              Value2(s[11..13]), Value2(s[14..16]), Value2(s[17..19]),
              if s[20] == '-' then -magnitude else magnitude)
  }

  /** `datetime.strptime(s, "%a %b %d %H:%M:%S %z %Y")`: the timestamp the text
      denotes, or None where strptime raises ValueError. The weekday must be a
      weekday name but, as in strptime, is not checked against the date. */
  function Parse(s: string): (r: Option<Timestamp>)
    ensures r.Some? ==> Valid(r.value) && WellShaped(s)
  {
    if WellShaped(s) && Value2(s[21..23]) < 24 && Value2(s[23..25]) < 60 && Valid(Fields(s))
    then Some(Fields(s))
    else None
  }

  // ---- Writing ----

  /** The nine fields of the format and their separators, in order: the date
      and time of day, then the offset and the year. */
  function Assemble(weekday: string, month: string, day: string, hour: string, minute: string,
                    second: string, sign: char, offsetHours: string, offsetMinutes: string,
                    year: string): string
  {
    (weekday + " " + month + " " + day + " " + hour + ":" + minute + ":" + second)
    + (" " + [sign] + offsetHours + offsetMinutes + " " + year)
  }

  /** Where each field sits in an assembled text. The steps written out in
      the body keep the proof stable. */
  lemma AssembleFields(weekday: string, month: string, day: string, hour: string, minute: string,
                       second: string, sign: char, offsetHours: string, offsetMinutes: string,
                       year: string)
    requires |weekday| == 3 && |month| == 3 && |day| == 2 && |hour| == 2 && |minute| == 2
    requires |second| == 2 && |offsetHours| == 2 && |offsetMinutes| == 2 && |year| == 4
    ensures var s := Assemble(weekday, month, day, hour, minute, second, sign,
                              offsetHours, offsetMinutes, year);
            && |s| == Width && s[3] == ' ' && s[7] == ' ' && s[10] == ' '
            && s[13] == ':' && s[16] == ':' && s[19] == ' ' && s[25] == ' ' && s[20] == sign
            && s[..3] == weekday && s[4..7] == month && s[8..10] == day && s[11..13] == hour
            && s[14..16] == minute && s[17..19] == second && s[21..23] == offsetHours
            && s[23..25] == offsetMinutes && s[26..30] == year
  {
    var front := weekday + " " + month + " " + day + " " + hour + ":" + minute + ":" + second;
    var back := " " + [sign] + offsetHours + offsetMinutes + " " + year;
    assert |front| == 19;
    assert front[..3] == weekday && front[4..7] == month && front[8..10] == day;
    assert front[11..13] == hour && front[14..16] == minute && front[17..19] == second;
    assert back[2..4] == offsetHours && back[4..6] == offsetMinutes && back[7..11] == year;
    var s := front + back;
    assert s[..19] == front;
    assert s[..3] == front[..3] && s[4..7] == front[4..7] && s[8..10] == front[8..10];
    assert s[11..13] == front[11..13] && s[14..16] == front[14..16] && s[17..19] == front[17..19];
    assert s[21..23] == back[2..4];
    assert s[23..25] == back[4..6];
    assert s[26..30] == back[7..11];
  }

  /** The text of `t` in the format, opening with the weekday name `weekday`
      and writing `sign` before the offset. */
  function Render(t: Timestamp, weekday: string, sign: char): string
    requires Valid(t) && weekday in Weekdays
  {
    Assemble(weekday, Months[t.month - 1], Pad2(t.day), Pad2(t.hour), Pad2(t.minute),
             Pad2(t.second), sign, Pad2(Magnitude(t) / 60), Pad2(Magnitude(t) % 60), Pad4(t.year))
  }

  /** The text of `t` in the format, opening with the weekday name `weekday`. */
  function Format(t: Timestamp, weekday: string): string
    requires Valid(t) && weekday in Weekdays
  {
    Render(t, weekday, SignOf(t))
  }

  /** The fields of `s` hold the zero-padded fields of `t`. */
  predicate HoldsFields(s: string, t: Timestamp)
    requires Valid(t) && |s| == Width
  {
    && s[4..7] == Months[t.month - 1]
    && s[8..10] == Pad2(t.day) && s[11..13] == Pad2(t.hour)
    && s[14..16] == Pad2(t.minute) && s[17..19] == Pad2(t.second)
    && s[21..23] == Pad2(Magnitude(t) / 60) && s[23..25] == Pad2(Magnitude(t) % 60)
    && s[26..30] == Pad4(t.year)
  }

  /** Where the fields of a rendered timestamp stand in its text. */
  lemma RenderFields(t: Timestamp, weekday: string, sign: char)
    requires Valid(t) && weekday in Weekdays
    ensures var s := Render(t, weekday, sign);
            && |s| == Width && s[3] == ' ' && s[7] == ' ' && s[10] == ' '
            && s[13] == ':' && s[16] == ':' && s[19] == ' ' && s[25] == ' ' && s[20] == sign
            && s[..3] == weekday && HoldsFields(s, t)
  {
    AssembleFields(weekday, Months[t.month - 1], Pad2(t.day), Pad2(t.hour), Pad2(t.minute),
                   Pad2(t.second), sign, Pad2(Magnitude(t) / 60), Pad2(Magnitude(t) % 60),
                   Pad4(t.year));
  }

  // ---- The two directions ----

  /** A text with the layout of the format whose fields hold those of a
      valid timestamp `t`, with the sign of `t` (or `-` for a zero offset),
      reads as `t`. */
  lemma ParseOfFields(s: string, t: Timestamp)
    requires Valid(t) && |s| == Width && HoldsFields(s, t)
    requires s[3] == ' ' && s[7] == ' ' && s[10] == ' ' && s[13] == ':' && s[16] == ':'
    requires s[19] == ' ' && s[25] == ' ' && s[..3] in Weekdays
    requires s[20] == SignOf(t) || (t.offset == 0 && s[20] == '-')
    ensures Parse(s) == Some(t)
  {
    Value2OfPad2(t.day);
    Value2OfPad2(t.hour);
    Value2OfPad2(t.minute);
    Value2OfPad2(t.second);
    Value2OfPad2(Magnitude(t) / 60);
    Value2OfPad2(Magnitude(t) % 60);
    Value4OfPad4(t.year);
    MonthNumberOfName(t.month);
    assert WellShaped(s);
    assert Value2(s[21..23]) * 60 + Value2(s[23..25]) == Magnitude(t);
    assert Fields(s) == t;
  }

  /** Every valid timestamp, rendered with any weekday name and the sign of
      its offset (or `-` for a zero offset), reads back as itself. With
      FormatParse this is an exact description of the texts Parse accepts. */
  lemma ParseRender(t: Timestamp, weekday: string, sign: char)
    requires Valid(t) && weekday in Weekdays
    requires sign == SignOf(t) || (t.offset == 0 && sign == '-')
    ensures Parse(Render(t, weekday, sign)) == Some(t)
  {
    RenderFields(t, weekday, sign);
    ParseOfFields(Render(t, weekday, sign), t);
  }

  /** Every valid timestamp, written in the format with any weekday name,
      reads back as itself. */
  lemma ParseFormat(t: Timestamp, weekday: string)
    requires Valid(t) && weekday in Weekdays
    ensures Parse(Format(t, weekday)) == Some(t)
  {
    ParseRender(t, weekday, SignOf(t));
  }

  /** The fields of a text Parse accepts hold the zero-padded fields of its
      result, and its sign is that of a non-zero offset. */
  lemma FieldsOfParse(s: string, t: Timestamp)
    requires Parse(s) == Some(t)
    ensures Valid(t) && WellShaped(s) && HoldsFields(s, t)
    ensures t.offset != 0 ==> s[20] == SignOf(t)
  {
    assert WellShaped(s) && Value2(s[23..25]) < 60 && Fields(s) == t;
    var hours, minutes := Value2(s[21..23]), Value2(s[23..25]);
    assert Magnitude(t) == hours * 60 + minutes;
    assert Magnitude(t) / 60 == hours && Magnitude(t) % 60 == minutes;
    Pad2OfValue2(s[8..10]);
    Pad2OfValue2(s[11..13]);
    Pad2OfValue2(s[14..16]);
    Pad2OfValue2(s[17..19]);
    Pad2OfValue2(s[21..23]);
    Pad2OfValue2(s[23..25]);
    Pad4OfValue4(s[26..30]);
  }

  /** Conversely, every text Parse accepts is the rendering of its result with
      its own weekday name and sign, and that sign is the one Format writes
      unless the offset is zero (`-0000` also reads as UTC). */
  lemma FormatParse(s: string, t: Timestamp)
    requires Parse(s) == Some(t)
    ensures s == Render(t, s[..3], s[20])
    ensures t.offset != 0 ==> s[20] == SignOf(t)
  {
    FieldsOfParse(s, t);
    RenderOfFields(s, t);
  }

  /** A well-shaped text whose fields hold those of a valid timestamp `t` is
      the rendering of `t` with its own weekday name and sign. */
  lemma RenderOfFields(s: string, t: Timestamp)
    requires Valid(t) && WellShaped(s) && HoldsFields(s, t)
    ensures s == Render(t, s[..3], s[20])
  {
  }
}
