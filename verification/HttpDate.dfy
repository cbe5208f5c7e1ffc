/** The text of the `Date` header, and when it is an HTTP date. */
module HttpDate {
  import opened Text
  import opened Numerals

  /** The fields of `Unix.tm` that are printed; `mon` counts from 0 and `year` from 1900. */
  datatype Tm = Tm(sec: int, min: int, hour: int, mday: int, mon: int, year: int, wday: int)

  const WEEKDAYS := ["Sun", "Mon", "Tue", "Wed", "Thu", "Fri", "Sat"]
  const MONTHS := ["Jan", "Feb", "Mar", "Apr", "May", "Jun", "Jul", "Aug", "Sep", "Oct", "Nov", "Dec"]

  /** Indices outside these ranges make the array accesses of `dateToStr` raise. */
  predicate InTables(t: Tm) { 0 <= t.wday < 7 && 0 <= t.mon < 12 }

  predicate ValidTm(t: Tm) {
    && InTables(t) && 1 <= t.mday <= 31
    && 0 <= t.hour <= 23 && 0 <= t.min <= 59 && 0 <= t.sec <= 60
  }

  /** What `Unix.gmtime` returns. */
  type Gmtime = t: Tm | ValidTm(t) witness Tm(0, 0, 0, 1, 0, 70, 4)

  /** `Printf.sprintf` for a format that has the literal text `texts[i]` after its i-th argument. */
  function Format(args: seq<string>, texts: seq<string>): string
    requires |args| == |texts|
    decreases |texts|
  {
    if texts == [] then "" else args[0] + texts[0] + Format(args[1..], texts[1..])
  }

  /** What stands after the weekday, day, month, year, hour, minute and second. */
  const DATE_TEXTS := [", ", " ", " ", " ", ":", ":", " GMT"]

  function DateArgs(t: Tm): seq<string>
    requires InTables(t)
  {
    [WEEKDAYS[t.wday], FormatInt(t.mday), MONTHS[t.mon], FormatInt(t.year + 1900),
     FormatInt2(t.hour), FormatInt2(t.min), FormatInt2(t.sec)]
  }

  function DateToStr(t: Tm): Option<string> {
    if InTables(t) then Some(Format(DateArgs(t), DATE_TEXTS)) else None
  }

  /** The day-name, month and separators of the grammar in section 7.1.1.1 of RFC 7231; weeks start on Monday. */
  const DAY_NAMES := ["Mon", "Tue", "Wed", "Thu", "Fri", "Sat", "Sun"]
  const MONTH_NAMES := ["Jan", "Feb", "Mar", "Apr", "May", "Jun", "Jul", "Aug", "Sep", "Oct", "Nov", "Dec"]
  const SEPARATORS := [", ", " ", " ", " ", ":", ":", " GMT"]

  /** Reads arguments back: each one ends where the first character of the text after it occurs. */
  function Scan(s: string, texts: seq<string>): (r: Option<seq<string>>)
    ensures r.Some? ==> |r.value| == |texts|
    decreases |texts|
  {
    if texts == [] then (if s == "" then Some([]) else None)
    else if texts[0] == "" then None
    else
      match SplitAt(s, texts[0][0])
      case None => None
      case Some((arg, tail)) =>
        if texts[0][1..] <= tail then
          match Scan(tail[|texts[0]| - 1..], texts[1..])
          case None => None
          case Some(args) => Some([arg] + args)
        else None
  }

  function IndexIn(table: seq<string>, s: string): (r: Option<nat>)
    ensures r.Some? ==> r.value < |table| && table[r.value] == s
    ensures r.None? ==> s !in table
  {
    if table == [] then None
    else if table[0] == s then Some(0)
    else
      match IndexIn(table[1..], s)
      case None => None
      case Some(i) => Some(i + 1)
  }

  function ParseDate(s: string): Option<Tm> {
    match Scan(s, SEPARATORS)
    case None => None
    case Some(p) =>
      var day, mon := IndexIn(DAY_NAMES, p[0]), IndexIn(MONTH_NAMES, p[2]);
      var mday, year := ParseInt(p[1]), ParseInt(p[3]);
      var hour, min, sec := ParseInt(p[4]), ParseInt(p[5]), ParseInt(p[6]);
      if day.Some? && mon.Some? && mday.Some? && year.Some? && hour.Some? && min.Some? && sec.Some?
      then Some(Tm(sec.value, min.value, hour.value, mday.value, mon.value, year.value - 1900, (day.value + 1) % 7))
      else None
  }

  predicate Digits(s: string, n: nat) {
    |s| == n && forall c :: c in s ==> '0' <= c <= '9'
  }

  /** IMF-fixdate, section 7.1.1.1 of RFC 7231. */
  predicate IsImfFixdate(s: string) {
    match Scan(s, SEPARATORS)
    case None => false
    case Some(p) =>
      && p[0] in DAY_NAMES && Digits(p[1], 2) && p[2] in MONTH_NAMES && Digits(p[3], 4)
      && Digits(p[4], 2) && Digits(p[5], 2) && Digits(p[6], 2)
  }

  lemma {:induction false} ScanFormat(args: seq<string>, texts: seq<string>)
    requires |args| == |texts|
    requires forall i :: 0 <= i < |texts| ==> texts[i] != "" && texts[i][0] !in args[i]
    ensures Scan(Format(args, texts), texts) == Some(args)
    decreases |texts|
  {
    if texts != [] {
      var rest := Format(args[1..], texts[1..]);
      var c, tail := texts[0][0], texts[0][1..] + rest;
      assert args[0] + texts[0] + rest == args[0] + [c] + tail;
      SplitAtFirst(args[0], c, tail);
      assert tail[|texts[0]| - 1..] == rest;
      ScanFormat(args[1..], texts[1..]);
      assert texts[0][1..] <= tail;
      assert [args[0]] + args[1..] == args;
    }
  }

  /** A text that can stand between the separators of a date. */
  predicate NoSeparators(s: string) { ',' !in s && ' ' !in s && ':' !in s && '\n' !in s }

  lemma {:induction false} PlainInt(n: int)
    ensures NoSeparators(FormatInt(n)) && NoSeparators(FormatInt2(n))
  {
    if c :| c in FormatInt(n) && (c == ',' || c == ' ' || c == ':' || c == '\n') {
      FormatIntChars(n, c);
    }
    if c :| c in FormatInt2(n) && (c == ',' || c == ' ' || c == ':' || c == '\n') {
      FormatIntChars(n, c);
    }
  }

  lemma {:induction false} PlainNames(t: Tm)
    requires InTables(t)
    ensures NoSeparators(WEEKDAYS[t.wday]) && NoSeparators(MONTHS[t.mon])
  {
  }

  lemma {:induction false} ScanDate(t: Tm)
    requires InTables(t)
    ensures Scan(DateToStr(t).value, SEPARATORS) == Some(DateArgs(t))
  {
    hide FormatInt, FormatInt2, Scan, Format;
    PlainNames(t);
    PlainInt(t.mday); PlainInt(t.year + 1900);
    PlainInt(t.hour); PlainInt(t.min); PlainInt(t.sec);
    assert DATE_TEXTS == SEPARATORS;
    ScanFormat(DateArgs(t), DATE_TEXTS);
  }

  lemma {:induction false} IndexOfName(t: Tm)
    requires InTables(t)
    ensures IndexIn(DAY_NAMES, WEEKDAYS[t.wday]) == Some((t.wday + 6) % 7)
    ensures IndexIn(MONTH_NAMES, MONTHS[t.mon]) == Some(t.mon)
  {
    var i := (t.wday + 6) % 7;
    assert DAY_NAMES[i] == WEEKDAYS[t.wday] && MONTH_NAMES[t.mon] == MONTHS[t.mon];
    assert DAY_NAMES[i] in DAY_NAMES && MONTH_NAMES[t.mon] in MONTH_NAMES;
    var d := IndexIn(DAY_NAMES, WEEKDAYS[t.wday]).value;
    var m := IndexIn(MONTH_NAMES, MONTHS[t.mon]).value;
    NamesAreDistinct(d, i, m, t.mon);
  }

  lemma {:induction false} NamesAreDistinct(w: nat, w': nat, m: nat, m': nat)
    requires w < 7 && w' < 7 && m < 12 && m' < 12
    ensures DAY_NAMES[w] == DAY_NAMES[w'] ==> w == w'
    ensures MONTH_NAMES[m] == MONTH_NAMES[m'] ==> m == m'
  {
    assert forall i :: 0 <= i < 7 ==> |DAY_NAMES[i]| == 3;
    assert forall i :: 0 <= i < 12 ==> |MONTH_NAMES[i]| == 3;
    if DAY_NAMES[w] == DAY_NAMES[w'] {
      assert DAY_NAMES[w][0] == DAY_NAMES[w'][0] && DAY_NAMES[w][1] == DAY_NAMES[w'][1];
    }
    if MONTH_NAMES[m] == MONTH_NAMES[m'] {
      assert MONTH_NAMES[m][1] == MONTH_NAMES[m'][1] && MONTH_NAMES[m][2] == MONTH_NAMES[m'][2];
      assert MONTH_NAMES[m][0] == MONTH_NAMES[m'][0];
    }
  }

  /** Reading the text back gives every field, for all years and all times of day. */
  lemma {:induction false} DateRoundTrip(t: Tm)
    requires InTables(t)
    ensures ParseDate(DateToStr(t).value) == Some(t)
  {
    hide FormatInt, FormatInt2, ParseInt, Scan, IndexIn, DateToStr;
    ScanDate(t);
    IndexOfName(t);
    FormatIntRoundTrip(t.mday); FormatIntRoundTrip(t.year + 1900);
    FormatInt2RoundTrip(t.hour); FormatInt2RoundTrip(t.min); FormatInt2RoundTrip(t.sec);
  }

  lemma {:induction false} DecimalWidth(n: nat)
    ensures |Numeral(10, n)| == 1 <==> n < 10
    ensures |Numeral(10, n)| == 2 <==> 10 <= n < 100
    ensures |Numeral(10, n)| == 4 <==> 1000 <= n < 10000
  {
    assert |Numeral(10, n)| == if n < 10 then 1 else 1 + |Numeral(10, n / 10)|;
    assert |Numeral(10, n / 10)| == if n / 10 < 10 then 1 else 1 + |Numeral(10, n / 10 / 10)|;
    var h := n / 10 / 10;
    assert |Numeral(10, h)| == if h < 10 then 1 else 1 + |Numeral(10, h / 10)|;
    var k := h / 10;
    assert |Numeral(10, k)| == if k < 10 then 1 else 1 + |Numeral(10, k / 10)|;
  }

  lemma {:induction false} IntDigits(n: int, width: nat)
    ensures Digits(FormatInt(n), width) <==> 0 <= n && |Numeral(10, n)| == width
  {
    if n >= 0 {
      NumeralDigits(10, n);
    } else {
      assert FormatInt(n)[0] == '-';
      assert '-' in FormatInt(n);
    }
  }

  lemma {:induction false} TwoDigits(n: int)
    requires 0 <= n < 100
    ensures Digits(FormatInt2(n), 2)
  {
    IntDigits(n, 1);
    IntDigits(n, 2);
    DecimalWidth(n);
  }

  lemma {:induction false} NamesInTables(t: Tm)
    requires InTables(t)
    ensures WEEKDAYS[t.wday] in DAY_NAMES && MONTHS[t.mon] in MONTH_NAMES
  {
    hide IndexIn;
    IndexOfName(t);
  }

  /** The text is an IMF-fixdate exactly when the day has two digits and the year has four. */
  lemma {:induction false} ImfFixdateIff(t: Gmtime)
    ensures IsImfFixdate(DateToStr(t).value) <==> 10 <= t.mday && 1000 <= t.year + 1900 <= 9999
  {
    hide FormatInt, FormatInt2, Scan, Digits, Format;
    ScanDate(t);
    var p := DateArgs(t);
    NamesInTables(t);
    hide DAY_NAMES, MONTH_NAMES, WEEKDAYS, MONTHS;
    TwoDigits(t.hour); TwoDigits(t.min); TwoDigits(t.sec);
    assert IsImfFixdate(DateToStr(t).value) <==> Digits(p[1], 2) && Digits(p[3], 4);
    DayAndYear(t.mday, t.year + 1900);
  }

  lemma {:induction false} DayAndYear(day: int, year: int)
    requires 1 <= day <= 31
    ensures Digits(FormatInt(day), 2) <==> 10 <= day
    ensures Digits(FormatInt(year), 4) <==> 1000 <= year <= 9999
  {
    hide FormatInt, Digits, Numeral;
    IntDigits(day, 2);
    DecimalWidth(day);
    IntDigits(year, 4);
    if year >= 0 {
      DecimalWidth(year);
    }
  }
}
