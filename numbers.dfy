/** Decimal text of numbers as JavaScript writes and reads it: the digits
    of `Number.prototype.toString`, the fields of `Date.prototype.toISOString`
    and the prefix reading of `parseInt(s, 10)`. */
module Numbers {
  import opened Wrappers

  predicate IsDigit(c: char) { '0' <= c <= '9' }

  function DigitChar(d: nat): (c: char)
    requires d < 10
    ensures IsDigit(c)
  {
    "0123456789"[d]
  }

  function DigitValue(c: char): nat
    requires IsDigit(c)
  {
    (c as int - '0' as int) as nat
  }

  lemma DigitRoundTrip(d: nat)
    requires d < 10
    ensures DigitValue(DigitChar(d)) == d
  {
  }

  function Pow10(n: nat): (r: nat)
    ensures r >= 1
  {
    if n == 0 then 1 else 10 * Pow10(n - 1)
  }

  predicate AllDigits(s: string)
  {
    forall i :: 0 <= i < |s| ==> IsDigit(s[i])
  }

  /** The number a run of digits denotes, most significant first. */
  function DigitsValue(s: string): nat
    requires AllDigits(s)
  {
    if s == [] then 0 else 10 * DigitsValue(s[..|s| - 1]) + DigitValue(s[|s| - 1])
  }

  /** `n` in exactly `width` digits, zero-padded on the left. */
  function Padded(n: nat, width: nat): (r: string)
    ensures |r| == width && AllDigits(r)
  {
    if width == 0 then [] else Padded(n / 10, width - 1) + [DigitChar(n % 10)]
  }

  /** The shortest decimal text of `n`, as `String(n)` writes an integer. */
  function Decimal(n: nat): (r: string)
    ensures |r| >= 1 && AllDigits(r)
    ensures |r| > 1 ==> r[0] != '0'
  {
    if n < 10 then [DigitChar(n)] else Decimal(n / 10) + [DigitChar(n % 10)]
  }

  lemma {:induction false} PaddedValue(n: nat, width: nat)
    requires n < Pow10(width)
    ensures DigitsValue(Padded(n, width)) == n
  {
    if width > 0 {
      var p := Padded(n, width);
      assert p[..|p| - 1] == Padded(n / 10, width - 1);
      PaddedValue(n / 10, width - 1);
      DigitRoundTrip(n % 10);
    }
  }

  lemma {:induction false} DecimalValue(n: nat)
    ensures DigitsValue(Decimal(n)) == n
  {
    var d := Decimal(n);
    if n < 10 {
      assert d[..0] == [];
      DigitRoundTrip(n);
    } else {
      assert d[..|d| - 1] == Decimal(n / 10);
      DecimalValue(n / 10);
      DigitRoundTrip(n % 10);
    }
  }

  /** The longest run of digits at the start of `s`. */
  function LeadingDigits(s: string): (r: string)
    ensures |r| <= |s| && r == s[..|r|] && AllDigits(r)
    ensures |r| < |s| ==> !IsDigit(s[|r|])
  {
    if s != [] && IsDigit(s[0]) then [s[0]] + LeadingDigits(s[1..]) else []
  }

  lemma {:induction false} LeadingDigitsOf(d: string, rest: string)
    requires AllDigits(d)
    requires rest == [] || !IsDigit(rest[0])
    ensures LeadingDigits(d + rest) == d
  {
    if d != [] {
      assert (d + rest)[1..] == d[1..] + rest;
      LeadingDigitsOf(d[1..], rest);
    } else {
      assert d + rest == rest;
    }
  }

  /** The white space `parseInt` skips: JavaScript's WhiteSpace and
      LineTerminator characters. */
  predicate IsSpace(c: char)
  {
    c == ' ' || c == '\t' || c == '\n' || c == '\r' || c == '\U{000B}' || c == '\U{000C}'
    || c == '\U{00A0}' || c == '\U{1680}' || '\U{2000}' <= c <= '\U{200A}' || c == '\U{2028}' || c == '\U{2029}'
    || c == '\U{202F}' || c == '\U{205F}' || c == '\U{3000}' || c == '\U{FEFF}'
  }

  function TrimStart(s: string): (r: string)
    ensures |r| <= |s|
    ensures r == [] || !IsSpace(r[0])
  {
    if s != [] && IsSpace(s[0]) then TrimStart(s[1..]) else s
  }

  /** `parseInt(s, 10)`: white space, an optional sign, then the leading
      digits; `None` is `NaN`, when there are no digits. */
  function ParseInt(s: string): (r: Option<int>)
    ensures r.Some? ==> exists d :: d != [] && AllDigits(d) && (r.value == DigitsValue(d) || r.value == -(DigitsValue(d) as int))
  {
    var t := TrimStart(s);
    if t != [] && (t[0] == '+' || t[0] == '-') then
      var d := LeadingDigits(t[1..]);
      if d == [] then None else Some(if t[0] == '-' then -(DigitsValue(d) as int) else DigitsValue(d))
    else
      var d := LeadingDigits(t);
      if d == [] then None else Some(DigitsValue(d))
  }

  /** Digits followed by text that does not continue them read back as
      their value. */
  lemma ParseDigitsThen(d: string, rest: string)
    requires d != [] && AllDigits(d)
    requires rest == [] || !IsDigit(rest[0])
    ensures ParseInt(d + rest) == Some(DigitsValue(d))
  {
    assert !IsSpace((d + rest)[0]);
    LeadingDigitsOf(d, rest);
  }

  /** `parseInt(String(n), 10) == n`. */
  lemma ParseDecimal(n: nat)
    ensures ParseInt(Decimal(n)) == Some(n)
  {
    ParseDigitsThen(Decimal(n), []);
    assert Decimal(n) + [] == Decimal(n);
    DecimalValue(n);
  }

  // ---------------------------------------------------------------------
  // Date.prototype.toISOString

  const MS_PER_DAY: nat := 24 * 60 * 60 * 1000
  /** The largest time value a `Date` holds. */
  const MAX_TIME: nat := 8_640_000_000_000_000

  /** Milliseconds since 1970-01-01T00:00:00Z that a `Date` can hold. */
  type Millis = t: nat | t <= MAX_TIME

  predicate IsLeap(y: int)
  {
    y % 4 == 0 && (y % 100 != 0 || y % 400 == 0)
  }

  function DaysInYear(y: int): nat { if IsLeap(y) then 366 else 365 }

  function DaysInMonth(y: int, m: nat): nat
    requires 1 <= m <= 12
  {
    if m == 2 then (if IsLeap(y) then 29 else 28)
    else if m == 4 || m == 6 || m == 9 || m == 11 then 30
    else 31
  }

  /** The year `days` days after the first day of year `y`, and the day
      within it. */
  function YearFrom(days: nat, y: int): (r: (int, nat))
    ensures y <= r.0 <= y + days && r.1 < DaysInYear(r.0)
    decreases days
  {
    if days < DaysInYear(y) then (y, days) else YearFrom(days - DaysInYear(y), y + 1)
  }

  /** The month (1-12) and day of month (1-based) of day `d` of year `y`,
      counting from month `m`. */
  function MonthFrom(y: int, d: nat, m: nat): (r: (nat, nat))
    requires 1 <= m <= 12
    ensures 1 <= r.0 <= 12 && 1 <= r.1
    decreases 12 - m
  {
    if m == 12 || d < DaysInMonth(y, m) then (m, d + 1) else MonthFrom(y, d - DaysInMonth(y, m), m + 1)
  }

  function YearOf(t: Millis): int
  {
    YearFrom(t / MS_PER_DAY, 1970).0
  }

  /** A year as `toISOString` writes it: four digits, or a sign and six
      digits outside 0..9999. */
  function YearText(y: int): string
  {
    if 0 <= y <= 9999 then Padded(y, 4)
    else if y > 9999 then "+" + Padded(y, 6)
    else "-" + Padded(-y, 6)
  }

  /** `new Date(t).toISOString()`: "YYYY-MM-DDTHH:mm:ss.sssZ". */
  function IsoString(t: Millis): string
  {
    YearText(YearOf(t)) + IsoAfterYear(t)
  }

  /** The part of an ISO timestamp after the year: "-MM-DDTHH:mm:ss.sssZ". */
  function IsoAfterYear(t: Millis): (r: string)
    ensures |r| > 0 && r[0] == '-'
  {
    var yd := YearFrom(t / MS_PER_DAY, 1970);
    var md := MonthFrom(yd.0, yd.1, 1);
    var ms := t % MS_PER_DAY;
    "-" + Padded(md.0, 2) + "-" + Padded(md.1, 2) + "T"
      + Padded(ms / 3_600_000, 2) + ":" + Padded(ms / 60_000 % 60, 2) + ":" + Padded(ms / 1000 % 60, 2)
      + "." + Padded(ms % 1000, 3) + "Z"
  }

  /** Every year has at least 365 days. */
  lemma {:induction false} YearFromBound(days: nat, y: int)
    ensures YearFrom(days, y).0 <= y + days / 365
    decreases days
  {
    if days >= DaysInYear(y) {
      YearFromBound(days - DaysInYear(y), y + 1);
    }
  }

  /** A year written as `toISOString` writes it, followed by '-', reads
      back as the year. */
  lemma ParseYearText(y: nat, rest: string)
    requires y < 1_000_000 && |rest| > 0 && rest[0] == '-'
    ensures ParseInt(YearText(y) + rest) == Some(y)
  {
    if y <= 9999 {
      assert Pow10(4) == 10000;
      PaddedValue(y, 4);
      ParseDigitsThen(Padded(y, 4), rest);
    } else {
      assert Pow10(6) == 1000000;
      PaddedValue(y, 6);
      var s := YearText(y) + rest;
      assert s == "+" + (Padded(y, 6) + rest);
      assert TrimStart(s) == s;
      assert s[1..] == Padded(y, 6) + rest;
      LeadingDigitsOf(Padded(y, 6), rest);
    }
  }

  /** `parseInt` of an ISO timestamp reads its year, and nothing else: the
      '-' after the year ends the number. */
  lemma ParseIsoReadsYear(t: Millis)
    ensures ParseInt(IsoString(t)) == Some(YearOf(t))
  {
    YearBound(t);
    ParseYearText(YearOf(t), IsoAfterYear(t));
  }

  /** The year of any time a `Date` holds is small next to a millisecond
      count: at most 275 942. */
  lemma YearBound(t: Millis)
    ensures 1970 <= YearOf(t) <= 275_942
  {
    assert t / MS_PER_DAY <= 100_000_000;
    YearFromBound(t / MS_PER_DAY, 1970);
  }
}
