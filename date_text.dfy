/** Date and time text: the directive grammars of CPython's `strptime`
    (`%d`, `%m`, `%Y`, `%H`, `%M`, `%S`), the zero-padded forms `strftime`
    prints, and the ISO 8601 calendar-date and date-time forms the data
    providers send and `pd.to_datetime` reads (sections 5.2.1.1 and 5.4.1
    of ISO 8601). */
module DateText {
  import opened Results
  import opened Chrono

  predicate IsDigit(c: char) { '0' <= c <= '9' }

  function DigitValue(c: char): (n: int)
    requires IsDigit(c)
    ensures 0 <= n < 10
  {
    c as int - '0' as int
  }

  function DigitChar(n: int): (c: char)
    requires 0 <= n < 10
    ensures IsDigit(c) && DigitValue(c) == n
  {
    ('0' as int + n) as char
  }

  /** `%02d`: two digits, zero-padded. */
  function Pad2(n: int): (s: string)
    requires 0 <= n < 100
    ensures |s| == 2 && IsDigit(s[0]) && IsDigit(s[1])
  {
    [DigitChar(n / 10), DigitChar(n % 10)]
  }

  /** `%04d`: four digits, zero-padded. */
  function Pad4(n: int): (s: string)
    requires 0 <= n < 10000
    ensures |s| == 4 && forall i :: 0 <= i < 4 ==> IsDigit(s[i])
  {
    Pad2(n / 100) + Pad2(n % 100)
  }

  predicate Digits2(s: string) { |s| == 2 && IsDigit(s[0]) && IsDigit(s[1]) }
  predicate Digits4(s: string) { |s| == 4 && Digits2(s[..2]) && Digits2(s[2..]) }

  function Value2(s: string): int
    requires Digits2(s)
  {
    10 * DigitValue(s[0]) + DigitValue(s[1])
  }

  function Value4(s: string): int
    requires Digits4(s)
  {
    100 * Value2(s[..2]) + Value2(s[2..])
  }

  lemma Pad2RoundTrip(n: int)
    requires 0 <= n < 100
    ensures Digits2(Pad2(n)) && Value2(Pad2(n)) == n
  {
  }

  lemma Pad4RoundTrip(n: int)
    requires 0 <= n < 10000
    ensures Digits4(Pad4(n)) && Value4(Pad4(n)) == n
  {
    Pad2RoundTrip(n / 100);
    Pad2RoundTrip(n % 100);
    assert Pad4(n)[..2] == Pad2(n / 100);
    assert Pad4(n)[2..] == Pad2(n % 100);
  }

  lemma Value2RoundTrip(s: string)
    requires Digits2(s)
    ensures Pad2(Value2(s)) == s
  {
  }

  lemma Value4RoundTrip(s: string)
    requires Digits4(s)
    ensures Pad4(Value4(s)) == s
  {
    Value2RoundTrip(s[..2]);
    Value2RoundTrip(s[2..]);
    var hi, lo := Value2(s[..2]), Value2(s[2..]);
    assert 0 <= lo < 100;
    assert (100 * hi + lo) / 100 == hi && (100 * hi + lo) % 100 == lo;
    assert s == s[..2] + s[2..];
  }

  // ---------------------------------------------------------------------
  // strptime directives: the regular expressions of CPython's TimeRE

  /** `%Y`: exactly four digits. */
  predicate YearField(s: string) { Digits4(s) }

  /** `%m`: `1[0-2]|0[1-9]|[1-9]`. */
  predicate MonthField(s: string) {
    (|s| == 1 && '1' <= s[0] <= '9') ||
    (|s| == 2 && ((s[0] == '1' && '0' <= s[1] <= '2') || (s[0] == '0' && '1' <= s[1] <= '9')))
  }

  /** `%d`: `3[01]|[12]\d|0[1-9]|[1-9]| [1-9]` (a leading blank is allowed). */
  predicate DayField(s: string) {
    (|s| == 1 && '1' <= s[0] <= '9') ||
    (|s| == 2 && ((s[0] == '3' && '0' <= s[1] <= '1') || ('1' <= s[0] <= '2' && IsDigit(s[1])) ||
                  (s[0] == '0' && '1' <= s[1] <= '9') || (s[0] == ' ' && '1' <= s[1] <= '9')))
  }

  /** `%H`: `2[0-3]|[0-1]\d|\d`. */
  predicate HourField(s: string) {
    (|s| == 1 && IsDigit(s[0])) ||
    (|s| == 2 && ((s[0] == '2' && '0' <= s[1] <= '3') || ('0' <= s[0] <= '1' && IsDigit(s[1]))))
  }

  /** `%M`: `[0-5]\d|\d`. */
  predicate MinuteField(s: string) {
    (|s| == 1 && IsDigit(s[0])) || (|s| == 2 && '0' <= s[0] <= '5' && IsDigit(s[1]))
  }

  /** `%S`: `6[0-1]|[0-5]\d|\d` (60 and 61 then fail in the `datetime` constructor). */
  predicate SecondField(s: string) {
    (|s| == 1 && IsDigit(s[0])) ||
    (|s| == 2 && ((s[0] == '6' && '0' <= s[1] <= '1') || ('0' <= s[0] <= '5' && IsDigit(s[1]))))
  }

  /** One or two digits, or a blank and a digit. */
  predicate Numeral(s: string) {
    (|s| == 1 && IsDigit(s[0])) || (|s| == 2 && (s[0] == ' ' || IsDigit(s[0])) && IsDigit(s[1]))
  }

  /** `int(field)`: Python's `int` ignores a leading blank. */
  function FieldValue(s: string): int
    requires Numeral(s)
  {
    if |s| == 1 then DigitValue(s[0])
    else if s[0] == ' ' then DigitValue(s[1])
    else Value2(s)
  }

  predicate IsSlash(c: char) { c == '/' }
  predicate IsDash(c: char) { c == '-' }
  predicate IsColon(c: char) { c == ':' }
  /** The literal `T` of a format matches either case: `strptime` compiles with IGNORECASE. */
  predicate IsTee(c: char) { c == 'T' || c == 't' }

  /** Position of the first separator, or `|s|` when there is none. */
  function FirstIndex(s: string, isSep: char -> bool): (i: nat)
    ensures i <= |s|
    ensures i < |s| ==> isSep(s[i])
    ensures forall j :: 0 <= j < i ==> !isSep(s[j])
  {
    if s == [] then 0
    else if isSep(s[0]) then 0
    else 1 + FirstIndex(s[1..], isSep)
  }

  /** The text before and after the first separator. */
  function SplitAt(s: string, isSep: char -> bool): (r: Option<(string, string)>)
    ensures r.None? <==> forall j :: 0 <= j < |s| ==> !isSep(s[j])
  {
    var i := FirstIndex(s, isSep);
    if i == |s| then None else Some((s[..i], s[i + 1..]))
  }

  lemma {:induction false} FirstIndexOf(a: string, c: char, b: string, isSep: char -> bool)
    requires isSep(c) && forall j :: 0 <= j < |a| ==> !isSep(a[j])
    ensures FirstIndex(a + [c] + b, isSep) == |a|
  {
    if a != [] {
      assert (a + [c] + b)[1..] == a[1..] + [c] + b;
      FirstIndexOf(a[1..], c, b, isSep);
    }
  }

  /** Splitting at a separator that does not occur in the text before it. */
  lemma SplitAtOf(a: string, c: char, b: string, isSep: char -> bool)
    requires isSep(c) && forall j :: 0 <= j < |a| ==> !isSep(a[j])
    ensures SplitAt(a + [c] + b, isSep) == Some((a, b))
  {
    FirstIndexOf(a, c, b, isSep);
    var s := a + [c] + b;
    assert s[..|a|] == a;
    assert s[|a| + 1..] == b;
  }

  lemma SplitAtParts(s: string, isSep: char -> bool)
    requires SplitAt(s, isSep).Some?
    ensures var (a, b) := SplitAt(s, isSep).value;
            |a| < |s| && s == a + [s[|a|]] + b && isSep(s[|a|]) &&
            forall j :: 0 <= j < |a| ==> !isSep(a[j])
  {
    var i := FirstIndex(s, isSep);
    assert s == s[..i] + [s[i]] + s[i + 1..];
  }

  predicate NoSep(s: string, isSep: char -> bool) {
    forall j :: 0 <= j < |s| ==> !isSep(s[j])
  }

  /** The three pieces around the first two separators. */
  function Split3(s: string, isSep: char -> bool): Option<(string, string, string)>
  {
    match SplitAt(s, isSep)
    case None => None
    case Some((a, rest)) =>
      match SplitAt(rest, isSep)
      case None => None
      case Some((b, c)) => Some((a, b, c))
  }

  lemma Split3Of(a: string, x: char, b: string, y: char, c: string, isSep: char -> bool)
    requires isSep(x) && isSep(y) && NoSep(a, isSep) && NoSep(b, isSep)
    ensures Split3(a + [x] + b + [y] + c, isSep) == Some((a, b, c))
  {
    assert a + [x] + b + [y] + c == a + [x] + (b + [y] + c);
    SplitAtOf(a, x, b + [y] + c, isSep);
    SplitAtOf(b, y, c, isSep);
  }

  lemma Split3Parts(s: string, isSep: char -> bool) returns (a: string, x: char, b: string, y: char, c: string)
    requires Split3(s, isSep).Some?
    ensures Split3(s, isSep) == Some((a, b, c))
    ensures s == a + [x] + b + [y] + c && isSep(x) && isSep(y) && NoSep(a, isSep) && NoSep(b, isSep)
  {
    var rest;
    a, x, rest := SplitOnce(s, isSep);
    b, y, c := SplitOnce(rest, isSep);
    Rejoin(s, a, x, rest, b, y, c);
  }

  /** The pieces of a split at the first separator. */
  lemma SplitOnce(s: string, isSep: char -> bool) returns (a: string, x: char, b: string)
    requires SplitAt(s, isSep).Some?
    ensures SplitAt(s, isSep) == Some((a, b))
    ensures s == a + [x] + b && isSep(x) && NoSep(a, isSep)
  {
    SplitAtParts(s, isSep);
    a, b := SplitAt(s, isSep).value.0, SplitAt(s, isSep).value.1;
    x := s[|a|];
  }

  lemma Rejoin(s: string, a: string, x: char, rest: string, b: string, y: char, c: string)
    requires s == a + [x] + rest && rest == b + [y] + c
    ensures s == a + [x] + b + [y] + c
  {
    assert a + [x] + (b + [y] + c) == a + [x] + b + [y] + c;
  }

  // ---------------------------------------------------------------------
  // datetime.strptime(s, '%d/%m/%Y')

  /** A date stated in the directive grammars, or None when the fields name
      no existing date (`date` raises "day is out of range for month"). */
  function DateOfFields(yy: string, mm: string, dd: string): (r: Option<Date>)
    requires YearField(yy) && MonthField(mm) && DayField(dd)
    ensures r.Some? <==> ValidDate(Date(Value4(yy), FieldValue(mm), FieldValue(dd)))
    ensures r.Some? ==> r.value == Date(Value4(yy), FieldValue(mm), FieldValue(dd)) && ValidDate(r.value)
  {
    var d := Date(Value4(yy), FieldValue(mm), FieldValue(dd));
    if ValidDate(d) then Some(d) else None
  }

  function StrptimeDMY(s: string): (r: Option<Date>)
    ensures r.Some? ==> ValidDate(r.value)
  {
    match Split3(s, IsSlash)
    case None => None
    case Some((dd, mm, yy)) =>
      if DayField(dd) && MonthField(mm) && YearField(yy) then DateOfFields(yy, mm, dd) else None
  }

  /** `strftime('%d/%m/%Y')`. */
  function FormatDMY(d: Date): (s: string)
    requires ValidDate(d)
    ensures |s| == 10
  {
    Pad2(d.day) + "/" + Pad2(d.month) + "/" + Pad4(d.year)
  }

  lemma FieldsHaveNoSeparators(s: string)
    requires Numeral(s) || Digits4(s)
    ensures NoSep(s, IsSlash) && NoSep(s, IsDash) && NoSep(s, IsColon) && NoSep(s, IsTee)
  {
  }

  /** What `%d/%m/%Y` accepts: any three fields of the directive grammars
      around two slashes, provided they name a date that exists. */
  lemma StrptimeDMYFields(dd: string, mm: string, yy: string)
    requires DayField(dd) && MonthField(mm) && YearField(yy)
    ensures StrptimeDMY(dd + "/" + mm + "/" + yy) == DateOfFields(yy, mm, dd)
  {
    FieldsHaveNoSeparators(dd);
    FieldsHaveNoSeparators(mm);
    assert dd + "/" + mm + "/" + yy == dd + ['/'] + mm + ['/'] + yy;
    Split3Of(dd, '/', mm, '/', yy, IsSlash);
  }

  /** A grammatical line naming a day the month does not have is rejected,
      in the unpadded form (`31/2/2024`) as in the padded one (`31/02/2024`). */
  lemma NonexistentDayRejected(mm: string)
    requires mm == "2" || mm == "02"
    ensures StrptimeDMY("31" + "/" + mm + "/" + "2024") == None
  {
    assert FieldValue(mm) == 2;
    assert Value4("2024") == 2024;
    StrptimeDMYFields("31", mm, "2024");
  }

  /** And nothing else parses: an accepted string is three such fields around two slashes. */
  lemma StrptimeDMYShape(s: string) returns (dd: string, mm: string, yy: string)
    requires StrptimeDMY(s).Some?
    ensures DayField(dd) && MonthField(mm) && YearField(yy)
    ensures s == dd + "/" + mm + "/" + yy && StrptimeDMY(s) == DateOfFields(yy, mm, dd)
  {
    var x, y;
    dd, x, mm, y, yy := Split3Parts(s, IsSlash);
    assert s == dd + "/" + mm + "/" + yy;
  }

  /** Reading back what `strftime('%d/%m/%Y')` prints gives the same date. */
  lemma DMYRoundTrip(d: Date)
    requires ValidDate(d)
    ensures StrptimeDMY(FormatDMY(d)) == Some(d)
  {
    Pad2RoundTrip(d.day);
    Pad2RoundTrip(d.month);
    Pad4RoundTrip(d.year);
    StrptimeDMYFields(Pad2(d.day), Pad2(d.month), Pad4(d.year));
  }

  lemma PaddedFieldValue(s: string)
    requires Digits2(s)
    ensures Numeral(s) && FieldValue(s) == Value2(s)
  {
  }

  /** A parsed string prints back unchanged exactly when it was already in the
      zero-padded ten-character form (no one-digit field, no leading blank). */
  lemma DMYCanonical(s: string)
    requires StrptimeDMY(s).Some?
    ensures FormatDMY(StrptimeDMY(s).value) == s <==> (|s| == 10 && ' ' !in s)
  {
    var dd, mm, yy := StrptimeDMYShape(s);
    var d := StrptimeDMY(s).value;
    if |s| == 10 && ' ' !in s {
      assert |dd| == 2 && |mm| == 2;
      assert dd[0] == s[0];
      assert Digits2(dd) && Digits2(mm);
      PaddedFieldValue(dd);
      PaddedFieldValue(mm);
      Value2RoundTrip(dd);
      Value2RoundTrip(mm);
      Value4RoundTrip(yy);
      assert FormatDMY(d) == Pad2(Value2(dd)) + "/" + Pad2(Value2(mm)) + "/" + Pad4(Value4(yy));
    }
    if FormatDMY(d) == s {
      FormatDMYNoBlank(d);
    }
  }

  lemma FormatDMYNoBlank(d: Date)
    requires ValidDate(d)
    ensures ' ' !in FormatDMY(d)
  {
    var s := FormatDMY(d);
    assert forall i :: 0 <= i < |s| ==> s[i] != ' ';
  }

  // ---------------------------------------------------------------------
  // ISO 8601 calendar date YYYY-MM-DD: strftime('%Y-%m-%d') and pd.to_datetime

  function FormatIsoDate(d: Date): (s: string)
    requires ValidDate(d)
    ensures |s| == 10
  {
    Pad4(d.year) + "-" + Pad2(d.month) + "-" + Pad2(d.day)
  }

  function ParseIsoDate(s: string): (r: Option<Date>)
    ensures r.Some? ==> ValidDate(r.value)
  {
    if |s| == 10 && s[4] == '-' && s[7] == '-' && Digits4(s[..4]) && Digits2(s[5..7]) && Digits2(s[8..10]) then
      var d := Date(Value4(s[..4]), Value2(s[5..7]), Value2(s[8..10]));
      if ValidDate(d) then Some(d) else None
    else None
  }

  /** Printing and reading the ISO date are inverse to each other. */
  lemma IsoDateRoundTrip(d: Date)
    requires ValidDate(d)
    ensures ParseIsoDate(FormatIsoDate(d)) == Some(d)
  {
    var s := FormatIsoDate(d);
    Pad4RoundTrip(d.year);
    Pad2RoundTrip(d.month);
    Pad2RoundTrip(d.day);
    assert s[..4] == Pad4(d.year);
    assert s[5..7] == Pad2(d.month);
    assert s[8..10] == Pad2(d.day);
  }

  lemma IsoDateCanonical(s: string)
    requires ParseIsoDate(s).Some?
    ensures FormatIsoDate(ParseIsoDate(s).value) == s
  {
    Value4RoundTrip(s[..4]);
    Value2RoundTrip(s[5..7]);
    Value2RoundTrip(s[8..10]);
    assert s == s[..4] + "-" + s[5..7] + "-" + s[8..10];
  }

  /** Different dates print differently. */
  lemma IsoDateInjective(a: Date, b: Date)
    requires ValidDate(a) && ValidDate(b) && FormatIsoDate(a) == FormatIsoDate(b)
    ensures a == b
  {
    IsoDateRoundTrip(a);
    IsoDateRoundTrip(b);
  }

  // ---------------------------------------------------------------------
  // ISO 8601 date-time YYYY-MM-DDTHH:MM[:SS], as the weather provider sends it

  function ParseIsoDateTime(s: string): (r: Option<DateTime>)
    ensures r.Some? ==> ValidDateTime(r.value)
  {
    if (|s| == 16 || |s| == 19) && s[10] == 'T' && s[13] == ':' && Digits2(s[11..13]) && Digits2(s[14..16])
       && (|s| == 19 ==> s[16] == ':' && Digits2(s[17..19]))
    then
      match ParseIsoDate(s[..10])
      case None => None
      case Some(d) =>
        var t := DateTime(d, Value2(s[11..13]), Value2(s[14..16]), if |s| == 19 then Value2(s[17..19]) else 0);
        if ValidDateTime(t) then Some(t) else None
    else None
  }

  /** `strftime('%H:%M')`. */
  function FormatHourMinute(t: DateTime): (s: string)
    requires ValidDateTime(t)
    ensures |s| == 5
  {
    Pad2(t.hour) + ":" + Pad2(t.minute)
  }

  /** The provider's hourly form `YYYY-MM-DDTHH:MM`. */
  function FormatIsoMinutes(t: DateTime): (s: string)
    requires ValidDateTime(t)
    ensures |s| == 16
  {
    FormatIsoDate(t.date) + "T" + FormatHourMinute(t)
  }

  /** The first ten characters of a date-time the provider sends are the ISO
      form of its calendar day. */
  lemma IsoDateTimePrefix(s: string)
    requires ParseIsoDateTime(s).Some?
    ensures |s| >= 10 && s[..10] == FormatIsoDate(ParseIsoDateTime(s).value.date)
  {
    IsoDateCanonical(s[..10]);
  }

  lemma IsoMinutesRoundTrip(t: DateTime)
    requires ValidDateTime(t) && t.second == 0
    ensures ParseIsoDateTime(FormatIsoMinutes(t)) == Some(t)
  {
    var s := FormatIsoMinutes(t);
    assert s[..10] == FormatIsoDate(t.date);
    IsoDateRoundTrip(t.date);
    Pad2RoundTrip(t.hour);
    Pad2RoundTrip(t.minute);
    assert s[11..13] == Pad2(t.hour);
    assert s[14..16] == Pad2(t.minute);
  }

  // ---------------------------------------------------------------------
  // datetime.strptime(s, '%Y-%m-%dT%H:%M:%S')

  /** The fields of `%Y-%m-%d` and of `%H:%M:%S` name an existing instant. */
  function DateTimeOfFields(yy: string, mm: string, dd: string, hh: string, mi: string, ss: string): (r: Option<DateTime>)
    requires YearField(yy) && MonthField(mm) && DayField(dd) && HourField(hh) && MinuteField(mi) && SecondField(ss)
    ensures r.Some? ==> ValidDateTime(r.value)
  {
    var t := DateTime(Date(Value4(yy), FieldValue(mm), FieldValue(dd)), FieldValue(hh), FieldValue(mi), FieldValue(ss));
    if ValidDateTime(t) then Some(t) else None
  }

  /** No field of `%Y-%m-%d` contains the `T`, so the date part ends at the first `T`. */
  function StrptimeIsoSeconds(s: string): (r: Option<DateTime>)
    ensures r.Some? ==> ValidDateTime(r.value)
  {
    match SplitAt(s, IsTee)
    case None => None
    case Some((datePart, timePart)) =>
      match Split3(datePart, IsDash)
      case None => None
      case Some((yy, mm, dd)) =>
        match Split3(timePart, IsColon)
        case None => None
        case Some((hh, mi, ss)) =>
          if YearField(yy) && MonthField(mm) && DayField(dd) && HourField(hh) && MinuteField(mi) && SecondField(ss)
          then DateTimeOfFields(yy, mm, dd, hh, mi, ss)
          else None
  }

  /** `strftime('%Y-%m-%dT%H:%M:%S')`. */
  function FormatIsoSeconds(t: DateTime): (s: string)
    requires ValidDateTime(t)
    ensures |s| == 19
  {
    FormatIsoDate(t.date) + "T" + Pad2(t.hour) + ":" + Pad2(t.minute) + ":" + Pad2(t.second)
  }

  lemma StrptimeIsoSecondsFields(yy: string, mm: string, dd: string, tee: char, hh: string, mi: string, ss: string)
    requires YearField(yy) && MonthField(mm) && DayField(dd) && IsTee(tee)
    requires HourField(hh) && MinuteField(mi) && SecondField(ss)
    ensures StrptimeIsoSeconds((yy + "-" + mm + "-" + dd) + [tee] + (hh + ":" + mi + ":" + ss)) ==
            DateTimeOfFields(yy, mm, dd, hh, mi, ss)
  {
    var datePart := yy + "-" + mm + "-" + dd;
    var timePart := hh + ":" + mi + ":" + ss;
    FieldsHaveNoSeparators(yy);
    FieldsHaveNoSeparators(mm);
    FieldsHaveNoSeparators(dd);
    FieldsHaveNoSeparators(hh);
    FieldsHaveNoSeparators(mi);
    assert NoSep(datePart, IsTee);
    SplitAtOf(datePart, tee, timePart, IsTee);
    assert datePart == yy + ['-'] + mm + ['-'] + dd;
    Split3Of(yy, '-', mm, '-', dd, IsDash);
    assert timePart == hh + [':'] + mi + [':'] + ss;
    Split3Of(hh, ':', mi, ':', ss, IsColon);
  }

  /** The padded forms of valid components belong to their directive grammars. */
  lemma PaddedFields(t: DateTime)
    requires ValidDateTime(t)
    ensures YearField(Pad4(t.date.year)) && Value4(Pad4(t.date.year)) == t.date.year
    ensures MonthField(Pad2(t.date.month)) && FieldValue(Pad2(t.date.month)) == t.date.month
    ensures DayField(Pad2(t.date.day)) && FieldValue(Pad2(t.date.day)) == t.date.day
    ensures HourField(Pad2(t.hour)) && FieldValue(Pad2(t.hour)) == t.hour
    ensures MinuteField(Pad2(t.minute)) && FieldValue(Pad2(t.minute)) == t.minute
    ensures SecondField(Pad2(t.second)) && FieldValue(Pad2(t.second)) == t.second
  {
    Pad4RoundTrip(t.date.year);
    Pad2RoundTrip(t.date.month);
    Pad2RoundTrip(t.date.day);
    Pad2RoundTrip(t.hour);
    Pad2RoundTrip(t.minute);
    Pad2RoundTrip(t.second);
  }

  lemma FormatIsoSecondsParts(t: DateTime)
    requires ValidDateTime(t)
    ensures FormatIsoSeconds(t) ==
            (Pad4(t.date.year) + "-" + Pad2(t.date.month) + "-" + Pad2(t.date.day)) + ['T'] +
            (Pad2(t.hour) + ":" + Pad2(t.minute) + ":" + Pad2(t.second))
  {
    assert FormatIsoDate(t.date) == Pad4(t.date.year) + "-" + Pad2(t.date.month) + "-" + Pad2(t.date.day);
  }

  /** Reading back what `strftime('%Y-%m-%dT%H:%M:%S')` prints gives the same instant. */
  lemma IsoSecondsRoundTrip(t: DateTime)
    requires ValidDateTime(t)
    ensures StrptimeIsoSeconds(FormatIsoSeconds(t)) == Some(t)
  {
    PaddedFields(t);
    var yy, mm, dd := Pad4(t.date.year), Pad2(t.date.month), Pad2(t.date.day);
    var hh, mi, ss := Pad2(t.hour), Pad2(t.minute), Pad2(t.second);
    StrptimeIsoSecondsFields(yy, mm, dd, 'T', hh, mi, ss);
    FormatIsoSecondsParts(t);
    assert DateTime(Date(Value4(yy), FieldValue(mm), FieldValue(dd)), FieldValue(hh), FieldValue(mi), FieldValue(ss)) == t;
  }

  /** Nothing else parses: an accepted string is six such fields around the literals. */
  lemma StrptimeIsoSecondsShape(s: string) returns (yy: string, mm: string, dd: string, tee: char, hh: string, mi: string, ss: string)
    requires StrptimeIsoSeconds(s).Some?
    ensures YearField(yy) && MonthField(mm) && DayField(dd) && IsTee(tee)
    ensures HourField(hh) && MinuteField(mi) && SecondField(ss)
    ensures s == (yy + "-" + mm + "-" + dd) + [tee] + (hh + ":" + mi + ":" + ss)
    ensures StrptimeIsoSeconds(s) == DateTimeOfFields(yy, mm, dd, hh, mi, ss)
  {
    SplitAtParts(s, IsTee);
    var datePart, timePart := SplitAt(s, IsTee).value.0, SplitAt(s, IsTee).value.1;
    tee := s[|datePart|];
    var x, y, u, v;
    yy, x, mm, y, dd := Split3Parts(datePart, IsDash);
    hh, u, mi, v, ss := Split3Parts(timePart, IsColon);
    assert datePart == yy + "-" + mm + "-" + dd;
    assert timePart == hh + ":" + mi + ":" + ss;
  }

  /** For the zero-padded nineteen-character form, the date is its first ten characters. */
  lemma IsoSecondsDatePrefix(s: string)
    requires StrptimeIsoSeconds(s).Some? && |s| == 19 && ' ' !in s
    ensures s[..10] == FormatIsoDate(StrptimeIsoSeconds(s).value.date)
  {
    var yy, mm, dd := PaddedDatePart(s);
    PaddedIsoDate(yy, mm, dd);
  }

  /** The date part of the zero-padded nineteen-character form: its first
      ten characters, made of two-digit month and day fields. */
  lemma PaddedDatePart(s: string) returns (yy: string, mm: string, dd: string)
    requires StrptimeIsoSeconds(s).Some? && |s| == 19 && ' ' !in s
    ensures YearField(yy) && MonthField(mm) && DayField(dd) && Digits2(mm) && Digits2(dd)
    ensures s[..10] == yy + "-" + mm + "-" + dd
    ensures StrptimeIsoSeconds(s).value.date == Date(Value4(yy), FieldValue(mm), FieldValue(dd))
  {
    var tee, hh, mi, ss;
    yy, mm, dd, tee, hh, mi, ss := StrptimeIsoSecondsShape(s);
    DatePartOf(s, yy, mm, dd, tee, hh, mi, ss);
  }

  /** Where the fields sit in a nineteen-character `YYYY-MM-DDTHH:MM:SS`
      whose fields have at most two digits after the year. */
  lemma DatePartOf(s: string, yy: string, mm: string, dd: string, tee: char, hh: string, mi: string, ss: string)
    requires s == (yy + "-" + mm + "-" + dd) + [tee] + (hh + ":" + mi + ":" + ss)
    requires |s| == 19 && |yy| == 4
    requires |mm| <= 2 && |dd| <= 2 && |hh| <= 2 && |mi| <= 2 && |ss| <= 2
    ensures |mm| == 2 && |dd| == 2
    ensures s[..10] == yy + "-" + mm + "-" + dd
    ensures s[5] == mm[0] && s[8] == dd[0]
  {
    var date := yy + "-" + mm + "-" + dd;
    var time := hh + ":" + mi + ":" + ss;
    assert |s| == |date| + 1 + |time|;
    assert s == date + ([tee] + time);
  }

  /** Zero-padded fields print back as they were read. */
  lemma PaddedIsoDate(yy: string, mm: string, dd: string)
    requires YearField(yy) && MonthField(mm) && DayField(dd) && Digits2(mm) && Digits2(dd)
    requires ValidDate(Date(Value4(yy), FieldValue(mm), FieldValue(dd)))
    ensures FormatIsoDate(Date(Value4(yy), FieldValue(mm), FieldValue(dd))) == yy + "-" + mm + "-" + dd
  {
    PaddedFieldValue(mm);
    PaddedFieldValue(dd);
    Value2RoundTrip(mm);
    Value2RoundTrip(dd);
    Value4RoundTrip(yy);
  }

}
