/** The text of a timestamp (`rfc3339_utc`, dispatch.rs), against the grammar of
    section 5.6 of RFC 3339 and the ordering of its section 5.1. */
module Timestamp {
  import opened Common
  import opened Calendar
  import opened Decimal

  // ------------------------------------------------------------------ text order

  /** The order of strings: first difference decides. */
  predicate Less(a: string, b: string) {
    b != [] && (a == [] || a[0] < b[0] || (a[0] == b[0] && Less(a[1..], b[1..])))
  }

  lemma {:induction false} LessAppend(a: string, b: string, c: string, d: string)
    requires |a| == |b|
    ensures Less(a + c, b + d) <==> Less(a, b) || (a == b && Less(c, d))
  {
    if a == [] {
      assert a + c == c && b + d == d;
    } else {
      assert (a + c)[1..] == a[1..] + c && (b + d)[1..] == b[1..] + d;
      LessAppend(a[1..], b[1..], c, d);
      assert a == b <==> a[0] == b[0] && a[1..] == b[1..];
    }
  }

  /** Fields of one width compare as their numbers, and differ if they do. */
  lemma {:induction false} LessIsLessValue(a: string, b: string)
    requires |a| == |b| && AllDigits(a) && AllDigits(b)
    ensures Less(a, b) <==> Value(a) < Value(b)
    ensures a == b <==> Value(a) == Value(b)
  {
    if a != [] {
      var last := |a| - 1;
      assert a == a[..last] + [a[last]] && b == b[..last] + [b[last]];
      assert a[last] in a && b[last] in b;
      LessIsLessValue(a[..last], b[..last]);
      LessAppend(a[..last], b[..last], [a[last]], [b[last]]);
      assert Less([a[last]], [b[last]]) <==> a[last] < b[last];
    }
  }

  // ------------------------------------------------------------------ timestamps

  datatype Stamp = Stamp(date: Date, hour: int, minute: int, second: int)

  function Split(t: int): Stamp {
    var secs := t % 86_400;
    Stamp(Civil(t / 86_400), secs / 3600, (secs / 60) % 60, secs % 60)
  }

  function Seconds(s: Stamp): int {
    86_400 * DayNumber(s.date) + 3600 * s.hour + 60 * s.minute + s.second
  }

  /** `{:04}` of a signed year: the sign takes part of the width. */
  function Year(y: int): string {
    if y >= 0 then Padded(y, 4) else "-" + Padded(-y, 3)
  }

  lemma PowersOfTen()
    ensures Pow10(3) == 1000 && Pow10(4) == 10_000
  {
    assert Pow10(1) == 10 && Pow10(2) == 100;
  }

  /** The year field of any year: its digits to four places, or a sign and its digits to
      three. */
  lemma YearText(y: int)
    ensures y >= 0 ==> AllDigits(Year(y)) && Value(Year(y)) == y && |Year(y)| >= 4 && (|Year(y)| == 4 <==> y <= 9999)
    ensures y < 0 ==>
              && Year(y)[0] == '-' && AllDigits(Year(y)[1..]) && Value(Year(y)[1..]) == -y
              && |Year(y)| >= 4 && (|Year(y)| == 4 <==> y >= -999)
  {
    PowersOfTen();
    if y >= 0 {
      PaddedRight(y, 4);
    } else {
      PaddedRight(-y, 3);
      assert Year(y)[1..] == Padded(-y, 3);
    }
  }

  predicate ValidStamp(s: Stamp) {
    Valid(s.date) && 0 <= s.hour <= 23 && 0 <= s.minute <= 59 && 0 <= s.second <= 59
  }

  function Text(s: Stamp): string
    requires ValidStamp(s)
  {
    Year(s.date.year) + ("-" + (Padded(s.date.month, 2) + ("-" + (Padded(s.date.day, 2) + ("T" +
    (Padded(s.hour, 2) + (":" + (Padded(s.minute, 2) + (":" + (Padded(s.second, 2) + "Z"))))))))))
  }

  lemma ClockReads(secs: int)
    requires 0 <= secs < 86_400
    ensures 0 <= secs / 3600 <= 23 && 0 <= (secs / 60) % 60 <= 59 && 0 <= secs % 60 <= 59
    ensures 3600 * (secs / 3600) + 60 * ((secs / 60) % 60) + secs % 60 == secs
  {
    var minutes := secs / 60;
    assert secs == 60 * minutes + secs % 60 && minutes == 60 * (minutes / 60) + minutes % 60;
    assert secs / 3600 == minutes / 60;
  }

  lemma SplitIsValid(t: int)
    ensures ValidStamp(Split(t)) && Seconds(Split(t)) == t
  {
    EveryDateIsRight(t / 86_400);
    ClockReads(t % 86_400);
  }

  function Rfc3339(t: int): string {
    SplitIsValid(t);
    Text(Split(t))
  }

  // ---------------------------------------------------------------------- reading

  predicate DigitsAt(s: string, i: nat, w: nat) {
    i + w <= |s| && AllDigits(s[i..i + w])
  }

  function Field(s: string, i: nat, w: nat): nat
    requires DigitsAt(s, i, w)
  {
    Value(s[i..i + w])
  }

  /** The shape of `date-time` with a `Z` offset and no fraction. */
  predicate Shaped(s: string) {
    && |s| == 20
    && DigitsAt(s, 0, 4) && s[4] == '-' && DigitsAt(s, 5, 2) && s[7] == '-' && DigitsAt(s, 8, 2)
    && s[10] == 'T' && DigitsAt(s, 11, 2) && s[13] == ':' && DigitsAt(s, 14, 2) && s[16] == ':'
    && DigitsAt(s, 17, 2) && s[19] == 'Z'
  }

  function Fields(s: string): Stamp
    requires Shaped(s)
  {
    Stamp(Date(Field(s, 0, 4), Field(s, 5, 2), Field(s, 8, 2)), Field(s, 11, 2), Field(s, 14, 2), Field(s, 17, 2))
  }

  /** Reads a date-time; the ranges are those of section 5.7 (a Unix clock never
      shows a leap second). */
  function Parse(s: string): Option<int> {
    if Shaped(s) && ValidStamp(Fields(s)) then Some(Seconds(Fields(s))) else None
  }

  /** Where the fields of a text of the usual widths lie: the date ... */
  lemma DateAssembled(y: string, m: string, d: string, rest: string)
    requires |y| == 4 && |m| == 2 && |d| == 2
    ensures var text := y + ("-" + (m + ("-" + (d + rest))));
            && |text| == 10 + |rest| && text[4] == '-' && text[7] == '-'
            && text[0..4] == y && text[5..7] == m && text[8..10] == d && text[10..] == rest
  {
  }

  /** ... and the time. */
  lemma TimeAssembled(h: string, mi: string, sec: string)
    requires |h| == 2 && |mi| == 2 && |sec| == 2
    ensures var rest := "T" + (h + (":" + (mi + (":" + (sec + "Z")))));
            && |rest| == 10 && rest[0] == 'T' && rest[3] == ':' && rest[6] == ':' && rest[9] == 'Z'
            && rest[1..3] == h && rest[4..6] == mi && rest[7..9] == sec
  {
  }

  lemma Shifted(text: string, rest: string)
    requires |text| == 20 && text[10..] == rest
    ensures text[10] == rest[0] && text[13] == rest[3] && text[16] == rest[6] && text[19] == rest[9]
    ensures text[11..13] == rest[1..3] && text[14..16] == rest[4..6] && text[17..19] == rest[7..9]
  {
    forall i | 0 <= i < 10 ensures text[10 + i] == rest[i] {}
  }

  lemma Assembled(y: string, m: string, d: string, h: string, mi: string, sec: string)
    requires |y| == 4 && |m| == 2 && |d| == 2 && |h| == 2 && |mi| == 2 && |sec| == 2
    ensures var text := y + ("-" + (m + ("-" + (d + ("T" + (h + (":" + (mi + (":" + (sec + "Z"))))))))));
            && |text| == 20 && text[4] == '-' && text[7] == '-' && text[10] == 'T' && text[13] == ':'
            && text[16] == ':' && text[19] == 'Z'
            && text[0..4] == y && text[5..7] == m && text[8..10] == d && text[11..13] == h
            && text[14..16] == mi && text[17..19] == sec
  {
    var rest := "T" + (h + (":" + (mi + (":" + (sec + "Z")))));
    var text := y + ("-" + (m + ("-" + (d + rest))));
    TimeAssembled(h, mi, sec);
    DateAssembled(y, m, d, rest);
    Shifted(text, rest);
  }

  lemma TextShape(s: Stamp)
    requires ValidStamp(s) && 0 <= s.date.year <= 9999
    ensures Shaped(Text(s)) && Fields(Text(s)) == s
  {
    assert Pow10(2) == 100 && Pow10(4) == 10_000;
    PaddedRight(s.date.year, 4);
    PaddedRight(s.date.month, 2);
    PaddedRight(s.date.day, 2);
    PaddedRight(s.hour, 2);
    PaddedRight(s.minute, 2);
    PaddedRight(s.second, 2);
    Assembled(Year(s.date.year), Padded(s.date.month, 2), Padded(s.date.day, 2),
              Padded(s.hour, 2), Padded(s.minute, 2), Padded(s.second, 2));
  }

  /** Outside those years the text is too long, or begins with a sign. */
  lemma TextMisshapen(s: Stamp)
    requires ValidStamp(s) && !(0 <= s.date.year <= 9999)
    ensures !Shaped(Text(s))
  {
    var text := Text(s);
    if s.date.year < 0 {
      assert text[0..4][0] == '-' || |text| < 4;
      assert |text| >= 4 ==> text[0..4][0] in text[0..4];
    } else {
      assert Pow10(4) == 10_000 && Pow10(2) == 100;
      PaddedRight(s.date.year, 4);
      PaddedRight(s.date.month, 2);
      PaddedRight(s.date.day, 2);
      PaddedRight(s.hour, 2);
      PaddedRight(s.minute, 2);
      PaddedRight(s.second, 2);
    }
  }

  // ---------------------------------------------------------------- main theorems

  const FIRST: int := -62_167_219_200
  const LAST: int := 253_402_300_799

  lemma FirstDay()
    ensures DayNumber(Date(0, 1, 1)) == -719_528
  {
    assert DaysBeforeYear(0) == 0;
  }

  lemma LastDay()
    ensures DayNumber(Date(9999, 12, 31)) == 2_932_896
  {
    assert DaysBeforeYear(9999) == 3_652_060;
    MonthOffsets(9999);
  }

  lemma DateInRangeIff(d: Date)
    requires Valid(d)
    ensures 0 <= d.year <= 9999 <==> DayNumber(Date(0, 1, 1)) <= DayNumber(d) <= DayNumber(Date(9999, 12, 31))
  {
    var first, end := Date(0, 1, 1), Date(9999, 12, 31);
    if d.year < 0 { DayNumberGrows(d, first); }
    else if d.year > 9999 { DayNumberGrows(end, d); }
    else {
      if d != first { DayNumberGrows(first, d); }
      if d != end { DayNumberGrows(d, end); }
    }
  }

  lemma YearInRangeIff(t: int)
    ensures 0 <= Split(t).date.year <= 9999 <==> FIRST <= t <= LAST
  {
    var day := t / 86_400;
    var d := Civil(day);
    assert NumberOf(d) == Some(day) by { EveryDateIsRight(day); }
    DateInRangeIff(d);
    FirstDay();
    LastDay();
    assert -719_528 <= day <= 2_932_896 <==> FIRST <= t <= LAST;
  }

  /** The text is a well-formed RFC 3339 date-time exactly for the years 0000 to
      9999, and then it reads back to the same second. */
  lemma TextReadsBack(t: int)
    ensures Shaped(Rfc3339(t)) <==> FIRST <= t <= LAST
    ensures FIRST <= t <= LAST ==> Parse(Rfc3339(t)) == Some(t)
  {
    SplitIsValid(t);
    YearInRangeIff(t);
    if 0 <= Split(t).date.year <= 9999 { TextShape(Split(t)); } else { TextMisshapen(Split(t)); }
  }

  lemma StampOf(s: Stamp)
    requires ValidStamp(s)
    ensures Split(Seconds(s)) == s
  {
    var t := Seconds(s);
    var secs := 3600 * s.hour + 60 * s.minute + s.second;
    assert t / 86_400 == DayNumber(s.date) && t % 86_400 == secs;
    CivilUndoesDayNumber(s.date);
    ClockSplits(s.hour, s.minute, s.second);
  }

  lemma ClockSplits(h: int, m: int, s: int)
    requires 0 <= h <= 23 && 0 <= m <= 59 && 0 <= s <= 59
    ensures var secs := 3600 * h + 60 * m + s;
            0 <= secs < 86_400 && secs / 3600 == h && (secs / 60) % 60 == m && secs % 60 == s
  {
    var secs := 3600 * h + 60 * m + s;
    assert secs / 60 == 60 * h + m;
  }

  /** Fields of fixed width determine the text. */
  lemma SameFieldsSameText(a: string, b: string)
    requires Shaped(a) && Shaped(b) && Fields(a) == Fields(b)
    ensures a == b
  {
    SameField(a, b, 0, 4);
    SameField(a, b, 5, 2);
    SameField(a, b, 8, 2);
    SameField(a, b, 11, 2);
    SameField(a, b, 14, 2);
    SameField(a, b, 17, 2);
    SameShapes(a, b);
  }

  /** And the only text that reads as `t` is the one printed for `t`. */
  lemma OnlyThisTextReads(s: string, t: int)
    requires Parse(s) == Some(t)
    ensures Rfc3339(t) == s
  {
    var f := Fields(s);
    assert 0 <= f.date.year <= 9999 by { FourDigits(s[0..4]); }
    assert Split(t) == f by { StampOf(f); }
    TextShape(f);
    SameFieldsSameText(Rfc3339(t), s);
  }

  lemma FourDigits(s: string)
    requires AllDigits(s) && |s| == 4
    ensures Value(s) < 10_000
  {
    assert s[3] in s && s[2] in s && s[1] in s && s[0] in s;
    assert s[..3][..2] == s[..2] && s[..2][..1] == s[..1] && s[..1][..0] == [];
    assert Value(s[..1]) == s[0] as int - '0' as int;
    assert Value(s[..2]) == 10 * Value(s[..1]) + (s[1] as int - '0' as int);
    assert Value(s[..3]) == 10 * Value(s[..2]) + (s[2] as int - '0' as int);
  }

  lemma SameField(a: string, b: string, i: nat, w: nat)
    requires DigitsAt(a, i, w) && DigitsAt(b, i, w) && Field(a, i, w) == Field(b, i, w)
    ensures a[i..i + w] == b[i..i + w]
  {
    LessIsLessValue(a[i..i + w], b[i..i + w]);
  }

  lemma SameShapes(a: string, b: string)
    requires Shaped(a) && Shaped(b)
    requires a[0..4] == b[0..4] && a[5..7] == b[5..7] && a[8..10] == b[8..10]
    requires a[11..13] == b[11..13] && a[14..16] == b[14..16] && a[17..19] == b[17..19]
    ensures a == b
  {
    forall i | 0 <= i < 20 ensures a[i] == b[i] {
      if i < 4 { assert a[0..4][i] == b[0..4][i]; }
      else if 5 <= i < 7 { assert a[5..7][i - 5] == b[5..7][i - 5]; }
      else if 8 <= i < 10 { assert a[8..10][i - 8] == b[8..10][i - 8]; }
      else if 11 <= i < 13 { assert a[11..13][i - 11] == b[11..13][i - 11]; }
      else if 14 <= i < 16 { assert a[14..16][i - 14] == b[14..16][i - 14]; }
      else if 17 <= i < 19 { assert a[17..19][i - 17] == b[17..19][i - 17]; }
    }
  }

  /** The order of stamps, field by field. */
  predicate Before(a: Stamp, b: Stamp) {
    || Earlier(a.date, b.date)
    || (a.date == b.date
        && (a.hour < b.hour || (a.hour == b.hour
            && (a.minute < b.minute || (a.minute == b.minute && a.second < b.second)))))
  }

  lemma BeforeIff(a: int, b: int)
    ensures Before(Split(a), Split(b)) <==> a < b
  {
    SplitIsValid(a);
    SplitIsValid(b);
    EarlierIff(a / 86_400, b / 86_400);
    EarlierIff(b / 86_400, a / 86_400);
    EveryDateIsRight(a / 86_400);
    EveryDateIsRight(b / 86_400);
  }

  /** One field and its separator: the rest decides only between equal fields. */
  lemma FieldLess(m: nat, n: nat, w: nat, sep: string, c: string, d: string)
    requires w >= 1 && m < Pow10(w) && n < Pow10(w)
    ensures Less(Padded(m, w) + (sep + c), Padded(n, w) + (sep + d)) <==> m < n || (m == n && Less(c, d))
  {
    PaddedRight(m, w);
    PaddedRight(n, w);
    LessIsLessValue(Padded(m, w), Padded(n, w));
    LessAppend(Padded(m, w), Padded(n, w), sep + c, sep + d);
    LessAppend(sep, sep, c, d);
    assert !Less(sep, sep) by { NotLessItself(sep); }
  }

  lemma {:induction false} NotLessItself(s: string)
    ensures !Less(s, s)
  {
    if s != [] { NotLessItself(s[1..]); }
  }

  /** For these years text order is time order. */
  lemma TextOrderIsTimeOrder(a: int, b: int)
    requires FIRST <= a <= LAST && FIRST <= b <= LAST
    ensures Less(Rfc3339(a), Rfc3339(b)) <==> a < b
  {
    SplitIsValid(a);
    SplitIsValid(b);
    YearInRangeIff(a);
    YearInRangeIff(b);
    TextsLess(Split(a), Split(b));
    BeforeIff(a, b);
  }

  lemma TextsLess(a: Stamp, b: Stamp)
    requires ValidStamp(a) && ValidStamp(b) && 0 <= a.date.year <= 9999 && 0 <= b.date.year <= 9999
    ensures Less(Text(a), Text(b)) <==> Before(a, b)
  {
    assert Pow10(2) == 100 && Pow10(4) == 10_000;
    FieldLess(a.second, b.second, 2, "Z", "", "");
    assert Padded(a.second, 2) + "Z" == Padded(a.second, 2) + ("Z" + "");
    assert Padded(b.second, 2) + "Z" == Padded(b.second, 2) + ("Z" + "");
    var a4, b4 := Padded(a.second, 2) + "Z", Padded(b.second, 2) + "Z";
    FieldLess(a.minute, b.minute, 2, ":", a4, b4);
    var a3, b3 := Padded(a.minute, 2) + (":" + a4), Padded(b.minute, 2) + (":" + b4);
    FieldLess(a.hour, b.hour, 2, ":", a3, b3);
    var a2, b2 := Padded(a.hour, 2) + (":" + a3), Padded(b.hour, 2) + (":" + b3);
    FieldLess(a.date.day, b.date.day, 2, "T", a2, b2);
    var a1, b1 := Padded(a.date.day, 2) + ("T" + a2), Padded(b.date.day, 2) + ("T" + b2);
    FieldLess(a.date.month, b.date.month, 2, "-", a1, b1);
    var a0, b0 := Padded(a.date.month, 2) + ("-" + a1), Padded(b.date.month, 2) + ("-" + b1);
    FieldLess(a.date.year, b.date.year, 4, "-", a0, b0);
  }
}
