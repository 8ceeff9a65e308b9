/** Relative-time labels such as `now`, `5m`, `3h`, `2d`, `1w`, `4mo`, `2y`.
    A label is kept as data and rendered with `${n}` plus a unit suffix; the
    absolute-date fallback is produced by the host's `toLocaleDateString`
    and is kept opaque. */
module TimeLabels {
  import opened Collections
  import opened Text

  const MinuteMs := 60 * 1000
  const HourMs := 60 * MinuteMs
  const DayMs := 24 * HourMs
  const WeekMs := 7 * DayMs
  const MonthMs := 30 * DayMs
  const YearMs := 365 * DayMs

  datatype TimeUnit = Minute | Hour | Day | Week | Month | Year

  datatype TimeLabel = Now | Ago(n: nat, unit: TimeUnit) | LocaleDate(timestamp: int)

  function UnitMs(u: TimeUnit): nat {
    match u
    case Minute => MinuteMs
    case Hour => HourMs
    case Day => DayMs
    case Week => WeekMs
    case Month => MonthMs
    case Year => YearMs
  }

  /** `n` is `Math.floor(diff / unit)`: the number of whole units in `diff`. */
  predicate WholeUnits(n: int, diff: int, unit: nat) {
    n * unit <= diff < (n + 1) * unit
  }

  function Suffix(u: TimeUnit): string {
    match u
    case Minute => "m"
    case Hour => "h"
    case Day => "d"
    case Week => "w"
    case Month => "mo"
    case Year => "y"
  }

  function DigitChar(d: nat): char
    requires d < 10
  {
    ('0' as int + d) as char
  }

  /** `${n}` for a non-negative integer: its decimal digits. */
  function NatToString(n: nat): (s: string)
    ensures |s| > 0
    ensures forall i :: 0 <= i < |s| ==> IsDigit(s[i])
  {
    if n < 10 then [DigitChar(n)] else NatToString(n / 10) + [DigitChar(n % 10)]
  }

  /** The value of a string of decimal digits. */
  function DigitsValue(s: string): nat
    requires forall i :: 0 <= i < |s| ==> IsDigit(s[i])
  {
    if |s| == 0 then 0
    else
      assert IsDigit(s[|s| - 1]);
      DigitsValue(s[..|s| - 1]) * 10 + (s[|s| - 1] as int - '0' as int)
  }

  lemma {:induction false} DigitsRoundTrip(n: nat)
    ensures DigitsValue(NatToString(n)) == n
  {
    if n >= 10 {
      var s := NatToString(n);
      var prefix := NatToString(n / 10);
      assert s[..|s| - 1] == prefix;
      DigitsRoundTrip(n / 10);
    }
  }

  /** The text a relative label renders to. */
  function Render(l: TimeLabel): string
    requires !l.LocaleDate?
  {
    match l
    case Now => "now"
    case Ago(n, u) => NatToString(n) + Suffix(u)
  }

  /** Length of the longest all-digit prefix. */
  function DigitPrefix(s: string): (k: nat)
    ensures k <= |s|
    ensures forall i :: 0 <= i < k ==> IsDigit(s[i])
    ensures k == |s| || !IsDigit(s[k])
  {
    if |s| == 0 || !IsDigit(s[0]) then 0 else 1 + DigitPrefix(s[1..])
  }

  function UnitOfSuffix(s: string): Option<TimeUnit> {
    if s == "m" then Some(Minute)
    else if s == "h" then Some(Hour)
    else if s == "d" then Some(Day)
    else if s == "w" then Some(Week)
    else if s == "mo" then Some(Month)
    else if s == "y" then Some(Year)
    else None
  }

  /** Reads a rendered relative label back. */
  function Parse(s: string): Option<TimeLabel> {
    if s == "now" then Some(Now)
    else
      var k := DigitPrefix(s);
      if k == 0 then None
      else
        match UnitOfSuffix(s[k..])
        case Some(u) => Some(Ago(DigitsValue(s[..k]), u))
        case None => None
  }

  lemma DigitPrefixOf(digits: string, rest: string)
    requires forall i :: 0 <= i < |digits| ==> IsDigit(digits[i])
    requires rest == [] || !IsDigit(rest[0])
    ensures DigitPrefix(digits + rest) == |digits|
  {
    if |digits| > 0 {
      assert (digits + rest)[1..] == digits[1..] + rest;
      DigitPrefixOf(digits[1..], rest);
    } else {
      assert digits + rest == rest;
    }
  }

  /** Rendering loses nothing: distinct relative labels render to distinct
      strings, and the count and unit can be read back. */
  lemma ParseRender(l: TimeLabel)
    requires !l.LocaleDate?
    ensures Parse(Render(l)) == Some(l)
  {
    match l
    case Now =>
    case Ago(n, u) =>
      var digits := NatToString(n);
      var s := Render(l);
      assert s[0] == digits[0];
      DigitPrefixOf(digits, Suffix(u));
      assert s[..|digits|] == digits;
      assert s[|digits|..] == Suffix(u);
      DigitsRoundTrip(n);
  }
}
