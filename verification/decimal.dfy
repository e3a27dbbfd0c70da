/** Decimal rendering of non-negative integers, as a template literal
    `${n}` prints a timestamp or a count, and the parse that inverts it. */
module Decimal {

  predicate IsDigit(c: char) {
    '0' <= c <= '9'
  }

  predicate AllDigits(s: string) {
    forall i :: 0 <= i < |s| ==> IsDigit(s[i])
  }

  /** The canonical decimal form: non-empty digits without a leading zero
      (except `"0"` itself). */
  predicate IsCanonical(s: string) {
    |s| >= 1 && AllDigits(s) && (s[0] != '0' || |s| == 1)
  }

  function DigitChar(d: nat): (c: char)
    requires d < 10
    ensures IsDigit(c)
  {
    ('0' as int + d) as char
  }

  function DigitValue(c: char): (d: nat)
    requires IsDigit(c)
    ensures d < 10
  {
    c as int - '0' as int
  }

  /** `${n}` for a non-negative integer. */
  function Show(n: nat): (r: string)
    ensures IsCanonical(r)
    ensures n < 10 <==> |r| == 1
    decreases n
  {
    if n < 10 then [DigitChar(n)] else Show(n / 10) + [DigitChar(n % 10)]
  }

  /** `${n}` for any integer: a minus sign before a negative one. */
  function ShowInt(n: int): (r: string)
    ensures n >= 0 ==> r == Show(n)
    ensures n < 0 ==> r == "-" + Show(-n)
  {
    if n >= 0 then Show(n) else "-" + Show(-n)
  }

  /** The value of a string of decimal digits (`""` reads as 0). */
  function Parse(s: string): nat
    requires AllDigits(s)
  {
    if |s| == 0 then 0 else 10 * Parse(s[..|s| - 1]) + DigitValue(s[|s| - 1])
  }

  /** Reading back a rendered number gives the number. */
  lemma {:induction false} ParseShow(n: nat)
    ensures Parse(Show(n)) == n
    decreases n
  {
    if n >= 10 {
      var r := Show(n);
      assert r[..|r| - 1] == Show(n / 10);
      ParseShow(n / 10);
    }
  }

  /** A name stamped with a time, `${head}${now}.${ext}`, reads back as the
      head, the digits of exactly that time, a `.` and the extension. */
  lemma StampParts(head: string, now: nat, ext: string)
    ensures var r := head + Show(now) + "." + ext;
      |r| > |head| + |ext| + 1 && r[..|head|] == head && r[|r| - |ext| - 1] == '.' && r[|r| - |ext|..] == ext
      && AllDigits(r[|head|..|r| - |ext| - 1]) && Parse(r[|head|..|r| - |ext| - 1]) == now
  {
    var r := head + Show(now) + "." + ext;
    assert r[|head|..|r| - |ext| - 1] == Show(now);
    assert r[..|head|] == head;
    assert r[|r| - |ext|..] == ext;
    ParseShow(now);
  }

  /** A canonical digit string with two or more digits reads as at least 10. */
  lemma {:induction false} ParseAtLeastTen(s: string)
    requires IsCanonical(s) && |s| >= 2
    ensures Parse(s) >= 10
    decreases |s|
  {
    var s' := s[..|s| - 1];
    if |s'| >= 2 {
      ParseAtLeastTen(s');
    } else {
      assert s'[0] == s[0];
    }
  }

  /** Rendering a parsed canonical string gives back the string. */
  lemma {:induction false} ShowParse(s: string)
    requires IsCanonical(s)
    ensures Show(Parse(s)) == s
    decreases |s|
  {
    if |s| >= 2 {
      var s' := s[..|s| - 1];
      assert s'[0] == s[0];
      ShowParse(s');
      ParseAtLeastTen(s);
      assert s == s' + [s[|s| - 1]];
      assert DigitChar(DigitValue(s[|s| - 1])) == s[|s| - 1];
    } else {
      assert DigitChar(DigitValue(s[0])) == s[0];
    }
  }
}
