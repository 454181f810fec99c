/**
  Calendar dates as the pages use them: `YYYY-MM-DD` strings from the date
  inputs and the `date` column, turned into JavaScript `Date` values only to
  be compared.  A `Date` is represented by an integer key that orders dates
  exactly as their time values do; a string JavaScript cannot read gives the
  invalid date (`None` here), and every comparison with it is false.
 */
module Dates {
  import opened Common

  datatype Ymd = Ymd(year: int, month: int, day: int)

  predicate IsLeap(y: int)
  {
    (y % 4 == 0 && y % 100 != 0) || y % 400 == 0
  }

  function DaysInMonth(y: int, m: int): int
    requires 1 <= m <= 12
  {
    if m == 2 then (if IsLeap(y) then 29 else 28)
    else if m == 4 || m == 6 || m == 9 || m == 11 then 30
    else 31
  }

  predicate ValidYmd(d: Ymd)
  {
    1 <= d.month <= 12 && 1 <= d.day <= DaysInMonth(d.year, d.month)
  }

  /** Orders dates chronologically: year first, then month, then day. */
  function Key(d: Ymd): int
  {
    d.year * 10000 + d.month * 100 + d.day
  }

  // ---------------------------------------------------------------------------
  // Fixed-width decimal fields

  predicate AllDigits(s: string)
  {
    forall i :: 0 <= i < |s| ==> IsDigit(s[i])
  }

  function Pow10(w: nat): (r: nat)
    ensures r >= 1
  {
    if w == 0 then 1 else 10 * Pow10(w - 1)
  }

  /** `n` written with exactly `w` digits, with leading zeros. */
  function Digits(n: nat, w: nat): (s: string)
    ensures |s| == w && AllDigits(s)
  {
    if w == 0 then [] else Digits(n / 10, w - 1) + [DigitChar(n % 10)]
  }

  lemma {:induction false} DigitsValueOfDigits(n: nat, w: nat)
    requires n < Pow10(w)
    ensures DigitsValue(Digits(n, w)) == n
  {
    if w > 0 {
      DigitsValueOfDigits(n / 10, w - 1);
      var s := Digits(n, w);
      assert s[..|s| - 1] == Digits(n / 10, w - 1);
    }
  }

  lemma {:induction false} DigitsOfDigitsValue(s: string)
    requires AllDigits(s)
    ensures DigitsValue(s) < Pow10(|s|)
    ensures Digits(DigitsValue(s), |s|) == s
  {
    if |s| > 0 {
      var p := s[..|s| - 1];
      DigitsOfDigitsValue(p);
      assert DigitChar(s[|s| - 1] as int - '0' as int) == s[|s| - 1];
    }
  }

  // ---------------------------------------------------------------------------
  // `new Date("YYYY-MM-DD")` and `date.toISOString().split("T")[0]`

  /** Reads a `YYYY-MM-DD` string naming a real calendar day. */
  function ParseDate(s: string): (r: Option<Ymd>)
    ensures r.Some? ==> ValidYmd(r.value) && 0 <= r.value.year <= 9999
  {
    if |s| == 10 && s[4] == '-' && s[7] == '-'
       && AllDigits(s[..4]) && AllDigits(s[5..7]) && AllDigits(s[8..])
    then
      var d := Ymd(DigitsValue(s[..4]), DigitsValue(s[5..7]), DigitsValue(s[8..]));
      DigitsOfDigitsValue(s[..4]);
      assert Pow10(4) == 10000;
      if ValidYmd(d) then Some(d) else None
    else None
  }

  /** The `YYYY-MM-DD` text of a day of years 0 to 9999. */
  function FormatDate(d: Ymd): (s: string)
    requires ValidYmd(d) && 0 <= d.year <= 9999
    ensures |s| == 10
  {
    Digits(d.year, 4) + "-" + Digits(d.month, 2) + "-" + Digits(d.day, 2)
  }

  /** A formatted day reads back as the same day. */
  lemma FormatThenParse(d: Ymd)
    requires ValidYmd(d) && 0 <= d.year <= 9999
    ensures ParseDate(FormatDate(d)) == Some(d)
  {
    var s := FormatDate(d);
    assert s[..4] == Digits(d.year, 4);
    assert s[5..7] == Digits(d.month, 2);
    assert s[8..] == Digits(d.day, 2);
    DigitsValueOfDigits(d.year, 4);
    DigitsValueOfDigits(d.month, 2);
    DigitsValueOfDigits(d.day, 2);
  }

  /** A string that reads as a day is the formatted text of that day. */
  lemma ParseThenFormat(s: string)
    requires ParseDate(s).Some?
    ensures FormatDate(ParseDate(s).value) == s
  {
    DigitsOfDigitsValue(s[..4]);
    DigitsOfDigitsValue(s[5..7]);
    DigitsOfDigitsValue(s[8..]);
    assert s == s[..4] + "-" + s[5..7] + "-" + s[8..];
  }

  /** The time value of `new Date(s)`, up to an order-preserving renaming; `None` is the invalid date. */
  function DateValue(s: string): Option<int>
  {
    match ParseDate(s)
    case None => None
    case Some(d) => Some(Key(d))
  }

  // ---------------------------------------------------------------------------
  // `e.setDate(e.getDate() + 1)`

  function NextDay(d: Ymd): (r: Ymd)
    requires ValidYmd(d)
    ensures ValidYmd(r) && Key(r) > Key(d)
  {
    if d.day < DaysInMonth(d.year, d.month) then Ymd(d.year, d.month, d.day + 1)
    else if d.month < 12 then Ymd(d.year, d.month + 1, 1)
    else Ymd(d.year + 1, 1, 1)
  }

  /** "Before the next day" is "on or before the day": no valid day lies strictly between them. */
  lemma NextDayBound(a: Ymd, e: Ymd)
    requires ValidYmd(a) && ValidYmd(e)
    ensures Key(a) < Key(NextDay(e)) <==> Key(a) <= Key(e)
  {
    if Key(a) > Key(e) {
      if a.year == e.year && a.month == e.month {
        assert a.day > e.day;
      } else if a.year == e.year {
        assert a.month > e.month;
      } else {
        assert a.year > e.year;
      }
    }
  }

  // ---------------------------------------------------------------------------
  // `new Date(`${date} ${time}`).getTime()`

  /** `H:MM`, `HH:MM`, `H:MM:SS` or `HH:MM:SS`, as seconds since midnight. */
  function ParseTime(t: string): (r: Option<int>)
    ensures r.Some? ==> 0 <= r.value < 86400
  {
    var colon := if |t| >= 2 && t[1] == ':' then 1 else 2;
    if |t| < colon + 3 || t[colon] != ':' || !AllDigits(t[..colon]) || !AllDigits(t[colon + 1..colon + 3]) then None
    else
      var h := DigitsValue(t[..colon]);
      var m := DigitsValue(t[colon + 1..colon + 3]);
      var rest := t[colon + 3..];
      if h > 23 || m > 59 then None
      else if rest == "" then Some(h * 3600 + m * 60)
      else if |rest| == 3 && rest[0] == ':' && AllDigits(rest[1..]) && DigitsValue(rest[1..]) <= 59 then
        Some(h * 3600 + m * 60 + DigitsValue(rest[1..]))
      else None
  }

  /** Date and time of day combined into one key that orders them chronologically. */
  function DateTimeValue(s: string): (r: Option<int>)
  {
    if |s| >= 11 && s[10] == ' ' then
      match (ParseDate(s[..10]), ParseTime(s[11..]))
      case (Some(d), Some(secs)) => Some(Key(d) * 100000 + secs)
      case _ => None
    else None
  }

  /** A later day has a larger date-time key whatever the times of day. */
  lemma DateTimeOrder(d1: string, t1: string, d2: string, t2: string)
    requires ParseDate(d1).Some? && ParseDate(d2).Some? && ParseTime(t1).Some? && ParseTime(t2).Some?
    ensures DateTimeValue(d1 + " " + t1).Some? && DateTimeValue(d2 + " " + t2).Some?
    ensures DateValue(d1).value < DateValue(d2).value ==>
      DateTimeValue(d1 + " " + t1).value < DateTimeValue(d2 + " " + t2).value
    ensures d1 == d2 ==>
      (DateTimeValue(d1 + " " + t1).value < DateTimeValue(d2 + " " + t2).value <==>
       ParseTime(t1).value < ParseTime(t2).value)
  {
    var s1 := d1 + " " + t1;
    var s2 := d2 + " " + t2;
    assert s1[..10] == d1 && s1[11..] == t1;
    assert s2[..10] == d2 && s2[11..] == t2;
  }
}
