/** The date stamp `YYMMDD` and the report's file name. The clock is a
    parameter: year, month and day as `time.Now()` would give them. */
module Stamp {
  import opened Wrappers
  import opened Paths

  /** Go's `%` on `int`: truncated toward zero, so the remainder takes the
      sign of the dividend. */
  function GoRem(a: int, b: int): (r: int)
    requires b > 0
    ensures -b < r < b
    ensures a >= 0 ==> r == a % b
    ensures a < 0 ==> r <= 0
  {
    if a >= 0 then a % b else -((-a) % b)
  }

  predicate IsDecimal(s: string) {
    forall i :: 0 <= i < |s| ==> '0' <= s[i] <= '9'
  }

  /** The number a string of decimal digits denotes. */
  function ValueOf(s: string): nat
    requires IsDecimal(s)
  {
    if s == [] then 0 else ValueOf(s[..|s| - 1]) * 10 + (s[|s| - 1] as int - '0' as int)
  }

  function DigitChar(d: int): (c: char)
    requires 0 <= d < 10
    ensures '0' <= c <= '9' && c as int - '0' as int == d
  {
    ('0' as int + d) as char
  }

  /** The decimal digits of `n`, without leading zeros. */
  function Decimal(n: nat): (s: string)
    ensures s != [] && IsDecimal(s)
    ensures ValueOf(s) == n
    ensures n < 10 <==> |s| == 1
    ensures 10 <= n < 100 ==> |s| == 2
    ensures |s| == 1 || s[0] != '0'
  {
    if n < 10 then [DigitChar(n)]
    else
      var s := Decimal(n / 10) + [DigitChar(n % 10)];
      assert s[..|s| - 1] == Decimal(n / 10);
      s
  }

  /** `fmt.Sprintf("%02d", n)`: at least two characters, zero padding after
      the sign. */
  function Pad2(n: int): (s: string)
    ensures n >= 0 ==> IsDecimal(s) && |s| >= 2 && ValueOf(s) == n
    ensures 0 <= n < 100 ==> |s| == 2
    ensures n < 0 ==> |s| >= 2 && s[0] == '-' && IsDecimal(s[1..]) && ValueOf(s[1..]) == -n
    ensures forall i :: 0 <= i < |s| ==> s[i] == '-' || '0' <= s[i] <= '9'
    ensures n >= 10 ==> s[0] != '0'
    ensures n < 0 ==> s[1] != '0'
  {
    if n < 0 then "-" + Decimal(-n)
    else if n < 10 then
      var s := "0" + Decimal(n);
      assert s[..1] == "0";
      s
    else Decimal(n)
  }

  /** `YYMMDD` from `year % 100`, the month and the day. Whatever the
      clock says, it has at least six characters, none of them a path
      separator: `%02d` writes only digits and minus signs. */
  function DateStamp(year: int, month: int, day: int): (r: string)
    ensures |r| >= 6
    ensures NoSeparator(r)
  {
    var y, m, d := Pad2(GoRem(year, 100)), Pad2(month), Pad2(day);
    ConcatNoSeparator(y, m);
    ConcatNoSeparator(y + m, d);
    y + m + d
  }

  const Prefix: string := "hashes-output-"
  const Suffix: string := ".txt"

  lemma AffixesAreElements()
    ensures NoSeparator(Prefix) && NoSeparator(Suffix)
  {
  }

  /** The report's file name for a stamp. */
  function FileName(stamp: string): (name: string)
    ensures |name| == |stamp| + 18
    ensures name[..14] == "hashes-output-" && name[|name| - 4..] == ".txt"
    ensures name[14..|name| - 4] == stamp
  {
    Prefix + stamp + Suffix
  }

  /** Reads a six-digit stamp back as (two-digit year, month, day). */
  function ParseStamp(s: string): Option<(int, int, int)>
  {
    if |s| == 6 && IsDecimal(s) then Some((ValueOf(s[..2]), ValueOf(s[2..4]), ValueOf(s[4..])))
    else None
  }

  /** For a non-negative year and a month and day below 100 (every
      calendar date), the stamp is six decimal digits that read back as
      `year % 100`, the month and the day. */
  lemma StampRoundTrip(year: int, month: int, day: int)
    requires year >= 0 && 0 <= month < 100 && 0 <= day < 100
    ensures |DateStamp(year, month, day)| == 6
    ensures IsDecimal(DateStamp(year, month, day))
    ensures ParseStamp(DateStamp(year, month, day)) == Some((year % 100, month, day))
  {
    var y, m, d := Pad2(GoRem(year, 100)), Pad2(month), Pad2(day);
    var s := DateStamp(year, month, day);
    assert s == y + m + d;
    assert s[..2] == y && s[2..4] == m && s[4..] == d;
  }

  /** Two dates with the same stamp agree on the year modulo 100, the
      month and the day. */
  lemma StampInjective(y1: int, m1: int, d1: int, y2: int, m2: int, d2: int)
    requires y1 >= 0 && 0 <= m1 < 100 && 0 <= d1 < 100
    requires y2 >= 0 && 0 <= m2 < 100 && 0 <= d2 < 100
    requires DateStamp(y1, m1, d1) == DateStamp(y2, m2, d2)
    ensures y1 % 100 == y2 % 100 && m1 == m2 && d1 == d2
  {
    StampRoundTrip(y1, m1, d1);
    StampRoundTrip(y2, m2, d2);
  }

  lemma ConcatNoSeparator(a: string, b: string)
    requires NoSeparator(a) && NoSeparator(b)
    ensures NoSeparator(a + b)
  {
    forall i | 0 <= i < |a + b| ensures (a + b)[i] != Separator {
      if i >= |a| {
        assert (a + b)[i] == b[i - |a|];
      }
    }
  }

  /** A stamp without separators gives a file name without separators. */
  lemma FileNameOfElement(stamp: string)
    requires NoSeparator(stamp)
    ensures NoSeparator(FileName(stamp))
  {
    var name := FileName(stamp);
    AffixesAreElements();
    forall i | 0 <= i < |name| ensures name[i] != Separator {
      if i < |Prefix| {
        assert name[i] == Prefix[i];
      } else if i < |Prefix| + |stamp| {
        assert name[i] == stamp[i - |Prefix|];
      } else {
        assert name[i] == Suffix[i - |Prefix| - |stamp|];
      }
    }
  }

  /** Whatever the clock says, the report's file name is a single path
      element: it holds no separator. */
  lemma FileNameIsElement(year: int, month: int, day: int)
    ensures NoSeparator(FileName(DateStamp(year, month, day)))
  {
    FileNameOfElement(DateStamp(year, month, day));
  }
}
