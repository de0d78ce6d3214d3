/** Column labels and JavaScript's string comparison. Labels matter to the
    model because the target series cuts off by comparing them. */
module Labels {
  import opened CalendarDates

  function MonthName(m: int): (r: string)
    requires 0 <= m < 12
    ensures |r| == 3
  {
    ["Jan", "Feb", "Mar", "Apr", "May", "Jun", "Jul", "Aug", "Sep", "Oct", "Nov", "Dec"][m]
  }

  /** The decimal digit character for 0 to 9. */
  function DigitChar(n: int): (c: char)
    requires 0 <= n < 10
    ensures '0' <= c <= '9' && c as int - '0' as int == n
  {
    ('0' as int + n) as char
  }

  /** The number a string of decimal digits denotes, the last digit the
      least significant. */
  function DigitsValue(s: string): int {
    if s == [] then 0 else 10 * DigitsValue(s[..|s| - 1]) + (s[|s| - 1] as int - '0' as int)
  }

  /** `String(n)` for a non-negative integer: its decimal digits, no leading
      zero. */
  function NatToString(n: nat): (r: string)
    ensures 1 <= |r|
    ensures forall i :: 0 <= i < |r| ==> '0' <= r[i] <= '9'
    ensures n < 10 <==> |r| == 1
    ensures |r| > 1 ==> r[0] != '0'
  {
    if n < 10 then [DigitChar(n)] else NatToString(n / 10) + [DigitChar(n % 10)]
  }

  /** The digits `String(n)` writes denote n. */
  lemma {:induction false} NatToStringValue(n: nat)
    ensures DigitsValue(NatToString(n)) == n
  {
    if n >= 10 {
      var r := NatToString(n);
      assert r[..|r| - 1] == NatToString(n / 10);
      NatToStringValue(n / 10);
    }
  }

  /** `String(n)` for any integer: a minus sign before the digits of a
      negative number. */
  function IntToString(n: int): (r: string)
    ensures |r| >= 1
  {
    if n < 0 then "-" + NatToString(-n) else NatToString(n)
  }

  /** `String(n)` is the digits of n, after a minus sign when n is
      negative. */
  lemma IntToStringValue(n: int)
    ensures n >= 0 ==> forall i :: 0 <= i < |IntToString(n)| ==> '0' <= IntToString(n)[i] <= '9'
    ensures n >= 0 ==> DigitsValue(IntToString(n)) == n
    ensures n < 0 ==> IntToString(n)[0] == '-' && DigitsValue(IntToString(n)[1..]) == -n
  {
    if n < 0 {
      NegativeToString(n);
    } else {
      NatToStringValue(n);
    }
  }

  /** A negative number is written as a minus sign and the digits of its
      magnitude. */
  lemma NegativeToString(n: int)
    requires n < 0
    ensures IntToString(n)[0] == '-' && DigitsValue(IntToString(n)[1..]) == -n
  {
    var m: nat := -n;
    var digits := NatToString(m);
    NatToStringValue(m);
    var s := IntToString(n);
    assert s == "-" + digits;
    assert s[1..] == digits;
  }

  /** `String(n).padStart(2, "0")`. */
  function Pad2(n: nat): (r: string)
    ensures n < 100 ==> |r| == 2 && forall i :: 0 <= i < 2 ==> '0' <= r[i] <= '9'
  {
    var s := NatToString(n);
    if |s| < 2 then "0" + s else s
  }

  /** Padding with a leading zero keeps the value. */
  lemma Pad2Value(n: nat)
    ensures DigitsValue(Pad2(n)) == n
  {
    var s := NatToString(n);
    NatToStringValue(n);
    if |s| < 2 {
      var r := "0" + s;
      assert r[..1] == "0" && r[..1][..0] == [];
    }
  }

  /** `fmt(d)`: two-digit day, a dash, the month's short name ("05-Feb"). */
  function Fmt(d: ValidDate): (r: string)
    ensures |r| == 6 && r[2] == '-'
  {
    Pad2(d.day) + "-" + MonthName(d.month)
  }

  /** `fmt(d)` is the day of the month in two digits, a dash, and the
      month's name. */
  lemma FmtDay(d: ValidDate)
    ensures Fmt(d)[..2] == Pad2(d.day) && DigitsValue(Fmt(d)[..2]) == d.day
    ensures Fmt(d)[3..] == MonthName(d.month)
  {
    var day, name := Pad2(d.day), MonthName(d.month);
    assert (day + "-" + name)[..2] == day && (day + "-" + name)[3..] == name;
    Pad2Value(d.day);
  }

  /** The first letters of the month names the target cut-off compares. */
  lemma MonthInitials()
    ensures MonthName(2)[0] == 'M' && MonthName(5)[0] == 'J' && MonthName(11)[0] == 'D'
  {
  }

  /** A month label starts with the month name's first letter. */
  lemma MonthLabelInitial(d: ValidDate)
    ensures MonthLabel(d)[0] == MonthName(d.month)[0]
  {
    assert MonthLabel(d)[0] == MonthLabel(d)[..3][0];
  }

  /** The label of a month column: short month name, a space, the year ("Jun 2025"). */
  function MonthLabel(d: ValidDate): (r: string)
    ensures |r| >= 5 && r[..3] == MonthName(d.month) && r[3] == ' '
  {
    var name := MonthName(d.month);
    var r := name + " " + IntToString(d.year);
    assert r[..3] == name;
    r
  }

  /** After the month name and the space, a month label spells the year. */
  lemma MonthLabelYear(d: ValidDate)
    ensures MonthLabel(d)[4..] == IntToString(d.year)
    ensures d.year >= 0 ==> DigitsValue(MonthLabel(d)[4..]) == d.year
    ensures d.year < 0 ==> MonthLabel(d)[4] == '-' && DigitsValue(MonthLabel(d)[5..]) == -d.year
  {
    var name, year := MonthName(d.month), IntToString(d.year);
    assert (name + " " + year)[4..] == year;
    IntToStringValue(d.year);
    if d.year < 0 {
      assert MonthLabel(d)[5..] == year[1..];
    }
  }

  /** JavaScript's `a < b` on strings: code unit by code unit, a proper
      prefix before the longer string. */
  predicate LexLess(a: string, b: string) {
    if a == [] then b != []
    else if b == [] then false
    else if a[0] != b[0] then a[0] < b[0]
    else LexLess(a[1..], b[1..])
  }

  /** JavaScript's `a <= b` on strings. */
  predicate LexLessEq(a: string, b: string) {
    !LexLess(b, a)
  }

  /** Strings are ordered by their first differing character. */
  lemma {:induction false} LexLessAt(a: string, b: string, k: nat)
    requires k < |a| && k < |b| && a[..k] == b[..k]
    ensures a[k] < b[k] ==> LexLess(a, b)
    ensures b[k] < a[k] ==> !LexLessEq(a, b)
  {
    if k > 0 {
      assert a[0] == a[..k][0] == b[..k][0] == b[0];
      assert a[1..][..k - 1] == a[..k][1..] == b[..k][1..] == b[1..][..k - 1];
      LexLessAt(a[1..], b[1..], k - 1);
    }
  }

  /** `<` on strings is a strict total order. */
  lemma {:induction false} LexLessTotal(a: string, b: string)
    ensures !(LexLess(a, b) && LexLess(b, a))
    ensures a != b ==> LexLess(a, b) || LexLess(b, a)
    decreases |a|
  {
    if a != [] && b != [] {
      LexLessTotal(a[1..], b[1..]);
      if a[0] == b[0] && a != b {
        assert a == [a[0]] + a[1..] && b == [b[0]] + b[1..];
      }
    }
  }

  lemma {:induction false} LexLessTransitive(a: string, b: string, c: string)
    requires LexLess(a, b) && LexLess(b, c)
    ensures LexLess(a, c)
    decreases |a|
  {
    if a != [] && a[0] == b[0] && b[0] == c[0] {
      LexLessTransitive(a[1..], b[1..], c[1..]);
    }
  }
}
