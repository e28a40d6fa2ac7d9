/**
 * The "h:m:s" duration an administrator types when adding or editing a wash
 * program, converted to whole minutes as `h * 60 + m + s // 60`.
 */
module Durations {
  import opened Wrappers

  /** Whole minutes of h hours, m minutes and s seconds; leftover seconds are dropped (floor division). */
  function DurationMinutes(h: int, m: int, s: int): (d: int)
    ensures d * 60 <= h * 3600 + m * 60 + s < d * 60 + 60
  {
    h * 60 + m + s / 60
  }

  /** Python's `str.split(sep)`: the pieces between separators, including empty ones. */
  function Split(text: string, sep: char): (parts: seq<string>)
    ensures |parts| >= 1
    ensures forall i :: 0 <= i < |parts| ==> sep !in parts[i]
    decreases |text|
  {
    if |text| == 0 then [""]
    else
      var rest := Split(text[1..], sep);
      if text[0] == sep then [""] + rest
      else [[text[0]] + rest[0]] + rest[1..]
  }

  /** Joining pieces that hold no separator and splitting again gives the pieces back. */
  lemma {:induction false} SplitJoin(a: string, sep: char, b: string)
    requires sep !in a
    ensures Split(a + [sep] + b, sep) == [a] + Split(b, sep)
    decreases |a|
  {
    if |a| == 0 {
      assert a + [sep] + b == [sep] + b;
      assert ([sep] + b)[1..] == b;
    } else {
      SplitJoin(a[1..], sep, b);
      assert (a + [sep] + b)[1..] == a[1..] + [sep] + b;
      assert [a[0]] + a[1..] == a;
    }
  }

  lemma {:induction false} SplitNoSeparator(a: string, sep: char)
    requires sep !in a
    ensures Split(a, sep) == [a]
    decreases |a|
  {
    if |a| > 0 {
      SplitNoSeparator(a[1..], sep);
      assert [a[0]] + a[1..] == a;
    }
  }

  predicate IsDigit(c: char) {
    '0' <= c <= '9'
  }

  function DigitValue(c: char): int
    requires IsDigit(c)
  {
    (c - '0') as int
  }

  function DigitChar(n: int): (c: char)
    requires 0 <= n < 10
    ensures IsDigit(c) && DigitValue(c) == n
  {
    ('0' as int + n) as char
  }

  /** The value of a run of decimal digits (0 when empty), most significant first. */
  function DigitsValue(ds: string): (n: nat)
    requires forall i :: 0 <= i < |ds| ==> IsDigit(ds[i])
    decreases |ds|
  {
    if |ds| == 0 then 0
    else DigitsValue(ds[..|ds| - 1]) * 10 + DigitValue(ds[|ds| - 1])
  }

  /** The decimal numeral of a natural number, without leading zeros. */
  function Numeral(n: nat): (ds: string)
    ensures |ds| >= 1
    ensures forall i :: 0 <= i < |ds| ==> IsDigit(ds[i])
  {
    if n < 10 then [DigitChar(n)] else Numeral(n / 10) + [DigitChar(n % 10)]
  }

  lemma {:induction false} NumeralValue(n: nat)
    ensures DigitsValue(Numeral(n)) == n
  {
    if n >= 10 {
      NumeralValue(n / 10);
      var ds := Numeral(n);
      assert ds[..|ds| - 1] == Numeral(n / 10);
    }
  }

  /**
   * Python's `int(field)` for the fields of a duration: an optional sign and
   * at least one ASCII digit; anything else is a ValueError.
   */
  function ParseInt(field: string): (r: Option<int>)
    ensures r.Some? ==> |field| >= 1
  {
    if |field| >= 1 && (field[0] == '-' || field[0] == '+') then
      var ds := field[1..];
      if |ds| >= 1 && forall i :: 0 <= i < |ds| ==> IsDigit(ds[i]) then
        Some(if field[0] == '-' then 0 - DigitsValue(ds) as int else DigitsValue(ds))
      else None
    else if |field| >= 1 && forall i :: 0 <= i < |field| ==> IsDigit(field[i]) then
      Some(DigitsValue(field))
    else None
  }

  /**
   * `h, m, s = map(int, text.split(":"))` followed by the minutes conversion;
   * None stands for the exception that makes the bot answer "wrong format".
   */
  function ParseDuration(text: string): (r: Option<int>)
    ensures r.Some? ==>
      var parts := Split(text, ':');
      |parts| == 3 && ParseInt(parts[0]).Some? && ParseInt(parts[1]).Some? && ParseInt(parts[2]).Some?
      && r.value == DurationMinutes(ParseInt(parts[0]).value, ParseInt(parts[1]).value, ParseInt(parts[2]).value)
    ensures r.None? ==>
      var parts := Split(text, ':');
      |parts| != 3 || ParseInt(parts[0]).None? || ParseInt(parts[1]).None? || ParseInt(parts[2]).None?
  {
    var parts := Split(text, ':');
    if |parts| != 3 then None
    else
      match (ParseInt(parts[0]), ParseInt(parts[1]), ParseInt(parts[2]))
      case (Some(h), Some(m), Some(s)) => Some(DurationMinutes(h, m, s))
      case _ => None
  }

  /** How a duration of h hours, m minutes and s seconds is written: "h:m:s". */
  function FormatHms(h: nat, m: nat, s: nat): string {
    Numeral(h) + ":" + Numeral(m) + ":" + Numeral(s)
  }

  lemma NumeralParses(n: nat)
    ensures ParseInt(Numeral(n)) == Some(n as int)
    ensures ':' !in Numeral(n)
  {
    NumeralValue(n);
  }

  /** Parsing a written duration gives its length in whole minutes. */
  lemma ParseFormatHms(h: nat, m: nat, s: nat)
    ensures ParseDuration(FormatHms(h, m, s)) == Some(DurationMinutes(h, m, s))
  {
    var a, b, c := Numeral(h), Numeral(m), Numeral(s);
    NumeralParses(h);
    NumeralParses(m);
    NumeralParses(s);
    assert FormatHms(h, m, s) == a + [':'] + (b + [':'] + c);
    SplitJoin(a, ':', b + [':'] + c);
    SplitJoin(b, ':', c);
    SplitNoSeparator(c, ':');
  }

  /** A duration of d minutes written as hours, minutes and zero seconds converts back to d. */
  lemma MinutesRoundTrip(d: nat)
    ensures ParseDuration(FormatHms(d / 60, d % 60, 0)) == Some(d as int)
  {
    ParseFormatHms(d / 60, d % 60, 0);
  }
}
