/**
 * Settlement dates: java.time.LocalDate as the engine parses and prints it.
 */
module Dates {
  import opened Wrappers
  import opened Numerals

  /** A proleptic ISO date; `year` is LocalDate's `getYear()` (year 0 is 1 BC). */
  datatype Date = Date(year: int, month: int, day: int)

  predicate IsLeapYear(y: int) {
    y % 4 == 0 && (y % 100 != 0 || y % 400 == 0)
  }

  function MonthLength(y: int, m: int): (n: int)
    requires 1 <= m <= 12
    ensures 28 <= n <= 31
  {
    if m == 2 then (if IsLeapYear(y) then 29 else 28)
    else if m == 4 || m == 6 || m == 9 || m == 11 then 30
    else 31
  }

  /** A calendar date whose year has at most four digits. */
  predicate Valid(d: Date) {
    0 <= d.year <= 9999 && 1 <= d.month <= 12 && 1 <= d.day <= MonthLength(d.year, d.month)
  }

  /** `v.matches(...)` for a pattern in which `d` stands for `\d` and every other character for itself. */
  predicate Fits(v: string, pattern: string) {
    |v| == |pattern| && forall i :: 0 <= i < |v| ==> if pattern[i] == 'd' then IsDigit(v[i]) else v[i] == pattern[i]
  }

  const IsoPattern := "dddd-dd-dd"
  const DashPattern := "dd-dd-dddd"
  const SlashPattern := "dd/dd/dddd"

  lemma FitsDigits(v: string, pattern: string, i: nat, j: nat)
    requires Fits(v, pattern) && i <= j <= |v|
    requires forall k :: i <= k < j ==> pattern[k] == 'd'
    ensures AllDigits(v[i..j])
  {
    assert forall k :: 0 <= k < j - i ==> v[i..j][k] == v[i + k];
  }

  lemma DayFirstFields(v: string)
    requires Fits(v, DashPattern) || Fits(v, SlashPattern)
    ensures |v| == 10 && AllDigits(v[0..2]) && AllDigits(v[3..5]) && AllDigits(v[6..10])
  {
    var p := if Fits(v, DashPattern) then DashPattern else SlashPattern;
    FitsDigits(v, p, 0, 2);
    FitsDigits(v, p, 3, 5);
    FitsDigits(v, p, 6, 10);
  }

  function Field(v: string, i: nat, j: nat): nat
    requires i <= j <= |v| && AllDigits(v[i..j])
  {
    DigitsValue(v[i..j])
  }

  /** `LocalDate.parse(v, ISO_LOCAL_DATE)`: STRICT resolution, so the day must exist in that month. */
  function ParseIso(v: string): (r: Option<Date>)
    requires Fits(v, IsoPattern)
  {
    FitsDigits(v, IsoPattern, 0, 4);
    FitsDigits(v, IsoPattern, 5, 7);
    FitsDigits(v, IsoPattern, 8, 10);
    var y, m, d := Field(v, 0, 4), Field(v, 5, 7), Field(v, 8, 10);
    if 1 <= m <= 12 && 1 <= d <= MonthLength(y, m) then Some(Date(y, m, d)) else None
  }

  /**
   * `LocalDate.parse(v, ofPattern("dd-MM-yyyy"))` and the `dd/MM/yyyy` variant: SMART resolution.
   * The year of era must be at least 1, the month 1-12 and the day 1-31; a day past the end of
   * the month is moved back to the month's last day.
   */
  function ParseDayFirst(v: string): (r: Option<Date>)
    requires Fits(v, DashPattern) || Fits(v, SlashPattern)
  {
    DayFirstFields(v);
    var d, m, y := Field(v, 0, 2), Field(v, 3, 5), Field(v, 6, 10);
    if y >= 1 && 1 <= m <= 12 && 1 <= d <= 31 then
      Some(Date(y, m, if d <= MonthLength(y, m) then d else MonthLength(y, m)))
    else None
  }

  /** The three shapes the engine accepts, tried in order; any other text yields no date. */
  function ParseSettlement(v: string): (r: Option<Date>)
    ensures r.Some? ==> Valid(r.value)
  {
    if Fits(v, IsoPattern) then ParseIso(v)
    else if Fits(v, DashPattern) then ParseDayFirst(v)
    else if Fits(v, SlashPattern) then ParseDayFirst(v)
    else None
  }

  /** The year of era the `yyyy` and `yy` patterns print (year 0 is year 1 BC). */
  function YearOfEra(y: int): int {
    if y >= 1 then y else 1 - y
  }

  /** `yyyyMMdd`. */
  function CompactText(d: Date): (s: string)
    requires Valid(d)
    ensures |s| == 8 && AllDigits(s)
  {
    PadLeft(YearOfEra(d.year), 4) + PadLeft(d.month, 2) + PadLeft(d.day, 2)
  }

  /** `ddMMyy`. */
  function ShortText(d: Date): (s: string)
    requires Valid(d)
    ensures |s| == 6 && AllDigits(s)
  {
    PadLeft(d.day, 2) + PadLeft(d.month, 2) + PadLeft(YearOfEra(d.year) % 100, 2)
  }

  /** `dd.MM.yy`. */
  function DottedText(d: Date): (s: string)
    requires Valid(d)
    ensures |s| == 8 && s[2] == '.' && s[5] == '.'
  {
    PadLeft(d.day, 2) + "." + PadLeft(d.month, 2) + "." + PadLeft(YearOfEra(d.year) % 100, 2)
  }

  /** `LocalDate.toString()` for a year of four digits: the form date cells are read in. */
  function IsoText(d: Date): string
    requires Valid(d)
  {
    PadLeft(d.year, 4) + "-" + PadLeft(d.month, 2) + "-" + PadLeft(d.day, 2)
  }

  /** Three digit groups joined by a separator: the value of each group is read back from its place. */
  lemma FieldsOfJoined(a: string, sep: char, b: string, c: string)
    requires AllDigits(a) && AllDigits(b) && AllDigits(c)
    ensures var v := a + [sep] + b + [sep] + c;
      && v[0..|a|] == a && v[|a| + 1..|a| + 1 + |b|] == b && v[|a| + 2 + |b|..|v|] == c
      && Field(v, 0, |a|) == DigitsValue(a)
      && Field(v, |a| + 1, |a| + 1 + |b|) == DigitsValue(b)
      && Field(v, |a| + 2 + |b|, |v|) == DigitsValue(c)
  {
    var v := a + [sep] + b + [sep] + c;
    assert v[0..|a|] == a;
    assert v[|a| + 1..|a| + 1 + |b|] == b;
    assert v[|a| + 2 + |b|..|v|] == c;
  }

  lemma FitsJoined(a: string, sep: char, b: string, c: string, pattern: string)
    requires AllDigits(a) && AllDigits(b) && AllDigits(c)
    requires |pattern| == |a| + |b| + |c| + 2
    requires forall i :: 0 <= i < |pattern| ==> (pattern[i] == 'd' <==> i != |a| && i != |a| + 1 + |b|)
    requires pattern[|a|] == sep && pattern[|a| + 1 + |b|] == sep
    ensures Fits(a + [sep] + b + [sep] + c, pattern)
  {
    var v := a + [sep] + b + [sep] + c;
    forall i | 0 <= i < |v|
      ensures if pattern[i] == 'd' then IsDigit(v[i]) else v[i] == pattern[i]
    {
      if i < |a| {
        assert v[i] == a[i];
      } else if |a| < i < |a| + 1 + |b| {
        assert v[i] == b[i - |a| - 1];
      } else if i > |a| + 1 + |b| {
        assert v[i] == c[i - |a| - |b| - 2];
      }
    }
  }

  /** What `LocalDate.toString()` writes, the ISO branch reads back. */
  lemma ParseSettlementReadsIsoText(d: Date)
    requires Valid(d)
    ensures ParseSettlement(IsoText(d)) == Some(d)
  {
    var a, b, c := PadLeft(d.year, 4), PadLeft(d.month, 2), PadLeft(d.day, 2);
    var v := IsoText(d);
    assert v == a + ['-'] + b + ['-'] + c;
    FitsJoined(a, '-', b, c, IsoPattern);
    FieldsOfJoined(a, '-', b, c);
    PadLeftValue(d.year, 4);
    PadLeftValue(d.month, 2);
    PadLeftValue(d.day, 2);
    assert Field(v, 0, 4) == d.year && Field(v, 5, 7) == d.month && Field(v, 8, 10) == d.day;
    assert ParseIso(v) == Some(d);
  }

  /** A valid date written day first, with `-` or `/`, is read back as that very date. */
  lemma ParseSettlementReadsDayFirst(d: Date, sep: char)
    requires Valid(d) && d.year >= 1 && (sep == '-' || sep == '/')
    ensures ParseSettlement(PadLeft(d.day, 2) + [sep] + PadLeft(d.month, 2) + [sep] + PadLeft(d.year, 4)) == Some(d)
  {
    var a, b, c := PadLeft(d.day, 2), PadLeft(d.month, 2), PadLeft(d.year, 4);
    var v := a + [sep] + b + [sep] + c;
    FitsJoined(a, sep, b, c, if sep == '-' then DashPattern else SlashPattern);
    FieldsOfJoined(a, sep, b, c);
    assert IsDigit(v[4]) && v[4] != IsoPattern[4];
    assert !Fits(v, IsoPattern);
    assert sep == '/' ==> v[2] != DashPattern[2] && !Fits(v, DashPattern);
    PadLeftValue(d.day, 2);
    PadLeftValue(d.month, 2);
    PadLeftValue(d.year, 4);
    assert Field(v, 0, 2) == d.day && Field(v, 3, 5) == d.month && Field(v, 6, 10) == d.year;
    assert ParseDayFirst(v) == Some(d);
  }

  /** The `yyyyMMdd` label encodes year of era, month and day, each recoverable from its digits. */
  lemma CompactTextFields(d: Date)
    requires Valid(d)
    ensures var s := CompactText(d);
      DigitsValue(s[0..4]) == YearOfEra(d.year) && DigitsValue(s[4..6]) == d.month && DigitsValue(s[6..8]) == d.day
  {
    var a, b, c := PadLeft(YearOfEra(d.year), 4), PadLeft(d.month, 2), PadLeft(d.day, 2);
    var s := a + b + c;
    assert s[0..4] == a && s[4..6] == b && s[6..8] == c;
    PadLeftValue(YearOfEra(d.year), 4);
    PadLeftValue(d.month, 2);
    PadLeftValue(d.day, 2);
  }

  /** The `ddMMyy` label encodes day, month and the last two digits of the year of era. */
  lemma ShortTextFields(d: Date)
    requires Valid(d)
    ensures var s := ShortText(d);
      DigitsValue(s[0..2]) == d.day && DigitsValue(s[2..4]) == d.month && DigitsValue(s[4..6]) == YearOfEra(d.year) % 100
  {
    var a, b, c := PadLeft(d.day, 2), PadLeft(d.month, 2), PadLeft(YearOfEra(d.year) % 100, 2);
    var s := a + b + c;
    assert s[0..2] == a && s[2..4] == b && s[4..6] == c;
    PadLeftValue(d.day, 2);
    PadLeftValue(d.month, 2);
    PadLeftValue(YearOfEra(d.year) % 100, 2);
  }

  /** The `dd.MM.yy` label holds day, month and the last two digits of the year of era, dot-separated. */
  lemma DottedTextFields(d: Date)
    requires Valid(d)
    ensures var s := DottedText(d);
      DigitsValue(s[0..2]) == d.day && DigitsValue(s[3..5]) == d.month && DigitsValue(s[6..8]) == YearOfEra(d.year) % 100
  {
    var a, b, c := PadLeft(d.day, 2), PadLeft(d.month, 2), PadLeft(YearOfEra(d.year) % 100, 2);
    assert DottedText(d) == a + ['.'] + b + ['.'] + c;
    FieldsOfJoined(a, '.', b, c);
    PadLeftValue(d.day, 2);
    PadLeftValue(d.month, 2);
    PadLeftValue(YearOfEra(d.year) % 100, 2);
  }
}
