/** Audit timestamps as text: writing an instant and reading it back. */
module Timestamps {
  import opened Text
  import opened Calendar

  // ------------------------------------------------------------------ numbers as text

  ghost predicate AllDigits(s: string) {
    forall i :: 0 <= i < |s| ==> '0' <= s[i] <= '9'
  }

  function Digits(n: nat): (s: string)
    ensures s != "" && AllDigits(s)
  {
    var last := ['0' + (n % 10) as char];
    if n < 10 then last else Digits(n / 10) + last
  }

  /** `{n:0width}`. */
  function Pad(n: nat, width: nat): (s: string)
    ensures s != "" && AllDigits(s)
  {
    Zeros(width - |Digits(n)|) + Digits(n)
  }

  function Zeros(n: int): (s: string)
    ensures AllDigits(s)
  {
    if n <= 0 then "" else "0" + Zeros(n - 1)
  }

  /** The decimal value of a run of digits; `None` for anything else. */
  function Value(s: string): (r: Option<nat>)
    ensures r.Some? <==> AllDigits(s)
  {
    if s == "" then Some(0)
    else
      var rest, c := Value(s[..|s| - 1]), s[|s| - 1];
      assert s == s[..|s| - 1] + [c];
      if rest.Some? && '0' <= c <= '9' then Some(10 * rest.value + (c - '0') as nat) else None
  }

  /** `s.parse()` for an unsigned field, which allows a leading plus. */
  function ParseField(s: string): Option<nat> {
    var body := if "+" <= s then s[1..] else s;
    if body == "" then None else Value(body)
  }

  lemma {:induction false} DigitsValue(n: nat)
    ensures Value(Digits(n)) == Some(n)
  {
    if n >= 10 {
      DigitsValue(n / 10);
      var s := Digits(n);
      assert s[..|s| - 1] == Digits(n / 10);
    }
  }

  lemma {:induction false} ZerosValue(n: int, s: string)
    requires AllDigits(s)
    ensures Value(Zeros(n) + s) == Value(s)
    decreases |s|, n
  {
    var all := Zeros(n) + s;
    if s != "" {
      assert all[..|all| - 1] == Zeros(n) + s[..|s| - 1];
      ZerosValue(n, s[..|s| - 1]);
    } else if n > 0 {
      assert Zeros(n) + s == Zeros(n);
      ZerosZero(n);
    }
  }

  lemma {:induction false} ZerosZero(n: int)
    ensures Value(Zeros(n)) == Some(0)
    decreases n
  {
    if n > 1 {
      var z := Zeros(n);
      ZerosShift(n);
      ZerosZero(n - 1);
      assert z[..|z| - 1] == Zeros(n - 1);
    }
  }

  lemma {:induction false} ZerosShift(n: int)
    requires n > 0
    ensures Zeros(n) == Zeros(n - 1) + "0"
    decreases n
  {
    if n > 1 {
      ZerosShift(n - 1);
    }
  }

  /** A padded number reads back as itself. */
  lemma PadParse(n: nat, width: nat)
    ensures ParseField(Pad(n, width)) == Some(n)
  {
    hide Digits, Zeros, Value;
    DigitsValue(n);
    ZerosValue(width - |Digits(n)|, Digits(n));
    var s := Pad(n, width);
    assert '0' <= s[0] <= '9';
  }

  // ------------------------------------------------------------------ splitting

  lemma SplitThree(a: string, b: string, d: string, c: char)
    requires c !in a && c !in b && c !in d
    ensures Split(a + [c] + (b + [c] + d), c) == [a, b, d]
  {
    hide Split;
    SplitHead(a, c, b + [c] + d);
    SplitHead(b, c, d);
    SplitWhole(d, c);
  }

  lemma NoDigit(s: string, c: char)
    requires AllDigits(s) && !('0' <= c <= '9')
    ensures c !in s
  {
  }

  // ------------------------------------------------------------------ the two directions

  const DAY := 86400

  lemma YearFrom1970(days: nat)
    ensures DayByDay(days).year >= 1970 && FromDays(days) == DayByDay(days) && ValidDate(FromDays(days))
  {
    ArithmeticIsCalendar(days);
    hide FromDays, Tomorrow, ValidDate;
    YearsRise(days);
  }

  lemma {:induction false} YearsRise(days: nat)
    ensures DayByDay(days).year >= 1970
  {
    if days > 0 {
      YearsRise(days - 1);
    }
  }

  function DateText(a: Date): string
    requires a.year >= 0 && a.month >= 0 && a.day >= 0
  {
    Pad(a.year, 4) + "-" + (Pad(a.month, 2) + "-" + Pad(a.day, 2))
  }

  function ClockText(secs: nat): string {
    Pad(secs / 3600, 2) + ":" + (Pad(secs % 3600 / 60, 2) + ":" + Pad(secs % 60, 2))
  }

  /** An instant, in milliseconds since the epoch, as ISO 8601 UTC. */
  function FormatIso(millis: nat): string {
    var total := millis / 1000;
    YearFrom1970(total / DAY);
    DateText(FromDays(total / DAY)) + "T" + (ClockText(total % DAY) + "." + Pad(millis % 1000, 3)) + "Z"
  }

  function TrimZ(s: string): string {
    if s != "" && s[|s| - 1] == 'Z' then TrimZ(s[..|s| - 1]) else s
  }

  function OrElse(r: Option<nat>, default: nat): nat {
    if r.Some? then r.value else default
  }

  /** The date and clock fields of a split timestamp; malformed fields fall back one by one. */
  function FieldsToMillis(ymd: seq<string>, hms: seq<string>, fraction: string): int
    requires |ymd| == 3 && |hms| == 3
  {
    var a := Date(OrElse(ParseField(ymd[0]), 1970), OrElse(ParseField(ymd[1]), 1), OrElse(ParseField(ymd[2]), 1));
    var secs := OrElse(ParseField(hms[0]), 0) * 3600 + OrElse(ParseField(hms[1]), 0) * 60 + OrElse(ParseField(hms[2]),
      0);
    (ToDays(a) * DAY + secs) * 1000 + OrElse(ParseField(fraction), 0)
  }

  /**
   * Milliseconds since the epoch of a timestamp in either stored format, 0 when unparseable.
   * `number` reads the older format, a decimal number of seconds.
   */
  function ParseMillis(number: string -> Option<int>, ts: string): int {
    var trimmed := TrimZ(ts);
    match number(trimmed)
    case Some(v) => v
    case None =>
      match SplitOnce(trimmed, 'T')
      case None => 0
      case Some((date, time)) =>
        var ymd, parts := Split(date, '-'), Split(time, '.');
        var hms := Split(parts[0], ':');
        if |ymd| == 3 && |hms| == 3 then FieldsToMillis(ymd, hms, if |parts| > 1 then parts[1] else "") else 0
  }

  /** Any stored timestamp as ISO 8601. */
  function Normalize(number: string -> Option<int>, ts: string): string {
    var millis := ParseMillis(number, ts);
    FormatIso(if millis < 0 then 0 else millis)
  }

  // ------------------------------------------------------------------ the round trip

  lemma DateFields(a: Date)
    requires a.year >= 0 && a.month >= 0 && a.day >= 0
    ensures Split(DateText(a), '-') == [Pad(a.year, 4), Pad(a.month, 2), Pad(a.day, 2)] && 'T' !in DateText(a)
  {
    hide Pad, Split;
    var y, m, d := Pad(a.year, 4), Pad(a.month, 2), Pad(a.day, 2);
    NoDigit(y, '-');
    NoDigit(m, '-');
    NoDigit(d, '-');
    SplitThree(y, m, d, '-');
    NoDigit(y, 'T');
    NoDigit(m, 'T');
    NoDigit(d, 'T');
  }

  lemma ClockFields(secs: nat)
    ensures Split(ClockText(secs), ':') == [Pad(secs / 3600, 2), Pad(secs % 3600 / 60, 2), Pad(secs % 60, 2)]
    ensures '.' !in ClockText(secs) && ':' in ClockText(secs)
  {
    hide Pad, Split;
    var h, m, s := Pad(secs / 3600, 2), Pad(secs % 3600 / 60, 2), Pad(secs % 60, 2);
    NoDigit(h, ':');
    NoDigit(m, ':');
    NoDigit(s, ':');
    SplitThree(h, m, s, ':');
    NoDigit(h, '.');
    NoDigit(m, '.');
    NoDigit(s, '.');
    assert ClockText(secs)[|h|] == ':';
  }

  lemma FieldsBack(days: nat, secs: nat, ms: nat)
    requires secs < DAY && ms < 1000
    ensures
      var a := FromDays(days);
      && a.year >= 0 && a.month >= 0 && a.day >= 0
      && FieldsToMillis([Pad(a.year, 4), Pad(a.month, 2), Pad(a.day, 2)],
                        [Pad(secs / 3600, 2), Pad(secs % 3600 / 60, 2), Pad(secs % 60, 2)], Pad(ms, 3))
         == (days * DAY + secs) * 1000 + ms
  {
    hide Pad, ParseField, FromDays, ToDays, MonthLength;
    YearFrom1970(days);
    DaysRoundTrip(days);
    var a := FromDays(days);
    PadParse(a.year, 4);
    PadParse(a.month, 2);
    PadParse(a.day, 2);
    PadParse(secs / 3600, 2);
    PadParse(secs % 3600 / 60, 2);
    PadParse(secs % 60, 2);
    PadParse(ms, 3);
  }

  lemma TrimFormatted(s: string)
    requires s != "" && s[|s| - 1] != 'Z'
    ensures TrimZ(s + "Z") == s
  {
    assert (s + "Z")[..|s|] == s;
  }

  /** A text with a colon is no decimal number. */
  ghost predicate NumberOk(number: string -> Option<int>) {
    forall s :: ':' in s ==> number(s).None?
  }

  /** Reading a written instant gives that instant, to the millisecond. */
  lemma InstantRoundTrip(number: string -> Option<int>, millis: nat)
    requires NumberOk(number)
    ensures ParseMillis(number, FormatIso(millis)) == millis
  {
    hide Pad, DateText, ClockText, FieldsToMillis, FromDays, ToDays, Split, SplitOnce, TrimZ, ValidDate;
    var total := millis / 1000;
    var days, secs, ms := total / DAY, total % DAY, millis % 1000;
    FieldsBack(days, secs, ms);
    var a := FromDays(days);
    DateFields(a);
    ClockFields(secs);
    var date, clock, frac := DateText(a), ClockText(secs), Pad(ms, 3);
    var time := clock + "." + frac;
    var body := date + "T" + time;
    YearFrom1970(days);
    assert FormatIso(millis) == body + "Z";
    assert body[|body| - 1] == frac[|frac| - 1];
    TrimFormatted(body);
    var k :| 0 <= k < |clock| && clock[k] == ':';
    assert body[|date| + 1 + k] == ':';
    SplitOnceAt(date, 'T', time);
    NoDigit(frac, '.');
    SplitHead(clock, '.', frac);
    SplitWhole(frac, '.');
    assert (days * DAY + secs) * 1000 + ms == millis;
  }

  /** Normalising twice is normalising once. */
  lemma NormalizeIdempotent(number: string -> Option<int>, ts: string)
    requires NumberOk(number)
    ensures Normalize(number, Normalize(number, ts)) == Normalize(number, ts)
  {
    hide FormatIso, ParseMillis, NumberOk;
    var millis := ParseMillis(number, ts);
    InstantRoundTrip(number, if millis < 0 then 0 else millis);
  }

  // ------------------------------------------------------------------ the written form

  lemma {:induction false} ZerosWidth(n: int)
    ensures |Zeros(n)| == if n <= 0 then 0 else n
    decreases n
  {
    if n > 0 {
      ZerosWidth(n - 1);
    }
  }

  /** A padded number has the width asked for, or its own when it needs more. */
  lemma PadWidth(n: nat, width: nat)
    ensures |Pad(n, width)| == if |Digits(n)| <= width then width else |Digits(n)|
    ensures (n < 100 && width == 2) || (n < 1000 && width == 3) || (n < 10000 && width == 4) ==>
      |Pad(n, width)| == width
    ensures Value(Pad(n, width)) == Some(n)
  {
    hide Zeros, Value;
    ZerosWidth(width - |Digits(n)|);
    DigitsValue(n);
    ZerosValue(width - |Digits(n)|, Digits(n));
    if n < 10000 {
      assert |Digits(n / 10 / 10 / 10)| == 1;
      assert |Digits(n / 10 / 10)| <= 2 && (n < 1000 ==> |Digits(n / 10 / 10)| == 1);
      assert |Digits(n / 10)| <= 3 && (n < 1000 ==> |Digits(n / 10)| <= 2) && (n < 100 ==> |Digits(n / 10)| == 1);
    }
  }

  /**
   * An instant before the year 10000 is written in 24 characters, `YYYY-MM-DDThh:mm:ss.mmmZ`, with the date of its day
   * and the clock of the rest of it.
   */
  lemma WrittenForm(millis: nat)
    requires FromDays(millis / 86400000).year < 10000
    ensures
      var s, a := FormatIso(millis), FromDays(millis / 86400000);
      && |s| == 24 && s[4] == '-' && s[7] == '-' && s[10] == 'T' && s[13] == ':' && s[16] == ':' && s[19] == '.'
      && s[23] == 'Z'
      && Value(s[..4]) == Some(a.year) && Value(s[5..7]) == Some(a.month) && Value(s[8..10]) == Some(a.day)
      && Value(s[11..13]) == Some(millis / 3600000 % 24) && Value(s[14..16]) == Some(millis / 60000 % 60)
      && Value(s[17..19]) == Some(millis / 1000 % 60) && Value(s[20..23]) == Some(millis % 1000)
  {
    hide Pad, Value, FromDays, ValidDate, Digits;
    var days := millis / 1000 / DAY;
    assert days == millis / 86400000;
    YearFrom1970(days);
    var a, secs := FromDays(days), millis / 1000 % DAY;
    SmallFields(a);
    ClockNumbers(millis);
    var y, mo, d := Pad(a.year, 4), Pad(a.month, 2), Pad(a.day, 2);
    var h, mi, se, ms := Pad(secs / 3600, 2), Pad(secs % 3600 / 60, 2), Pad(secs % 60, 2), Pad(millis % 1000, 3);
    PadWidth(a.year, 4);
    PadWidth(a.month, 2);
    PadWidth(a.day, 2);
    PadWidth(secs / 3600, 2);
    PadWidth(secs % 3600 / 60, 2);
    PadWidth(secs % 60, 2);
    PadWidth(millis % 1000, 3);
    Layout(y, mo, d, h, mi, se, ms);
    assert FormatIso(millis) == y + "-" + (mo + "-" + d) + "T" + (h + ":" + (mi + ":" + se) + "." + ms) + "Z";
  }

  lemma SmallFields(a: Date)
    requires ValidDate(a)
    ensures 1 <= a.month < 100 && 1 <= a.day < 100
  {
  }

  lemma ClockNumbers(millis: nat)
    ensures
      var secs := millis / 1000 % DAY;
      && secs / 3600 == millis / 3600000 % 24 && secs % 3600 / 60 == millis / 60000 % 60
      && secs % 60 == millis / 1000 % 60 && secs / 3600 < 100
  {
    var total, ms := millis / 1000, millis % 1000;
    var day, secs := total / DAY, total % DAY;
    var h, rest := secs / 3600, secs % 3600;
    var m, s := rest / 60, rest % 60;
    assert millis == 1000 * (86400 * day + 3600 * h + 60 * m + s) + ms;
    HourOf(millis, day, h, 1000 * (60 * m + s) + ms);
    MinuteOf(millis, 24 * day + h, m, 1000 * s + ms);
    SecondOf(total, 1440 * day + 60 * h + m, s);
    SecondOf(secs, 60 * h + m, s);
  }

  lemma HourOf(millis: nat, day: nat, h: nat, rest: nat)
    requires millis == 3600000 * (24 * day + h) + rest && h < 24 && rest < 3600000
    ensures millis / 3600000 % 24 == h
  {
    assert millis / 3600000 == 24 * day + h;
  }

  lemma MinuteOf(millis: nat, hours: nat, m: nat, rest: nat)
    requires millis == 60000 * (60 * hours + m) + rest && m < 60 && rest < 60000
    ensures millis / 60000 % 60 == m
  {
    assert millis / 60000 == 60 * hours + m;
  }

  lemma SecondOf(total: nat, minutes: nat, s: nat)
    requires total == 60 * minutes + s && s < 60
    ensures total % 60 == s
  {
  }

  lemma Layout(y: string, mo: string, d: string, h: string, mi: string, se: string, ms: string)
    requires |y| == 4 && |mo| == |d| == |h| == |mi| == |se| == 2 && |ms| == 3
    ensures
      var s := y + "-" + (mo + "-" + d) + "T" + (h + ":" + (mi + ":" + se) + "." + ms) + "Z";
      && |s| == 24 && s[4] == '-' && s[7] == '-' && s[10] == 'T' && s[13] == ':' && s[16] == ':' && s[19] == '.'
      && s[23] == 'Z' && s[..4] == y && s[5..7] == mo && s[8..10] == d && s[11..13] == h && s[14..16] == mi
      && s[17..19] == se && s[20..23] == ms
  {
    var date, clock := y + "-" + (mo + "-" + d), h + ":" + (mi + ":" + se) + "." + ms;
    DateLayout(y, mo, d);
    ClockLayout(h, mi, se, ms);
    var s := date + "T" + clock + "Z";
    assert s[..10] == date && s[11..23] == clock;
    Within(s, 0, 10, 0, 4);
    Within(s, 0, 10, 5, 7);
    Within(s, 0, 10, 8, 10);
    Within(s, 11, 23, 0, 2);
    Within(s, 11, 23, 3, 5);
    Within(s, 11, 23, 6, 8);
    Within(s, 11, 23, 9, 12);
    assert s[4] == date[4] && s[7] == date[7] && s[13] == clock[2] && s[16] == clock[5] && s[19] == clock[8];
  }

  lemma Within(s: string, a: nat, b: nat, i: nat, j: nat)
    requires a <= b <= |s| && i <= j <= b - a
    ensures s[a..b][i..j] == s[a + i..a + j]
  {
    var x, y := s[a..b][i..j], s[a + i..a + j];
    assert |x| == |y| && forall k :: 0 <= k < |x| ==> x[k] == s[a + i + k] && y[k] == s[a + i + k];
  }

  lemma DateLayout(y: string, mo: string, d: string)
    requires |y| == 4 && |mo| == |d| == 2
    ensures
      var s := y + "-" + (mo + "-" + d);
      |s| == 10 && s[4] == '-' && s[7] == '-' && s[..4] == y && s[5..7] == mo && s[8..10] == d
  {
  }

  lemma ClockLayout(h: string, mi: string, se: string, ms: string)
    requires |h| == |mi| == |se| == 2 && |ms| == 3
    ensures
      var s := h + ":" + (mi + ":" + se) + "." + ms;
      && |s| == 12 && s[2] == ':' && s[5] == ':' && s[8] == '.'
      && s[..2] == h && s[3..5] == mi && s[6..8] == se && s[9..12] == ms
  {
  }

  /** A decimal number of seconds is read as such; a text that is neither is the epoch. */
  lemma OlderForms(number: string -> Option<int>, ts: string)
    ensures number(TrimZ(ts)).Some? ==> ParseMillis(number, ts) == number(TrimZ(ts)).value
    ensures number(TrimZ(ts)).None? && 'T' !in TrimZ(ts) ==> ParseMillis(number, ts) == 0
    ensures ParseField("") == None && OrElse(None, 1970) == 1970
  {
  }
}
