/**
 * Decimal formatting as Python's `format` and `strftime` produce it:
 * `"{0:03}".format(n)` is the decimal digits of n, left-padded with '0'
 * to width 3, and the date fields `%Y`, `%m`, `%d`, `%y` are zero-padded
 * numbers of width 4, 2, 2 and 2 (`%y` being the year modulo 100).
 */
module Format {
  import opened Calendar

  predicate IsDigit(ch: char) {
    '0' <= ch <= '9'
  }

  predicate AllDigits(s: string) {
    forall i :: 0 <= i < |s| ==> IsDigit(s[i])
  }

  function DigitChar(k: nat): (ch: char)
    requires k < 10
    ensures IsDigit(ch) && ch as int - '0' as int == k
  {
    "0123456789"[k]
  }

  /** `str(n)`: the decimal digits of n, without leading zeros. */
  function Digits(n: nat): (s: string)
    decreases n
  {
    if n < 10 then [DigitChar(n)] else Digits(n / 10) + [DigitChar(n % 10)]
  }

  /** The number a string of decimal digits denotes (the inverse of formatting). */
  function Value(s: string): nat
    requires AllDigits(s)
    decreases |s|
  {
    if s == [] then 0 else Value(s[..|s| - 1]) * 10 + (s[|s| - 1] as int - '0' as int)
  }

  function Zeros(k: nat): (s: string)
    ensures |s| == k && forall i :: 0 <= i < k ==> s[i] == '0'
  {
    if k == 0 then [] else Zeros(k - 1) + ['0']
  }

  /** `format(n, "0{w}")`: n in decimal, zero-filled on the left to at least w characters. */
  function Pad(n: nat, w: nat): string {
    var s := Digits(n);
    if |s| < w then Zeros(w - |s|) + s else s
  }

  // ---------------------------------------------------------------------
  // Digits and Value are inverse to each other.

  lemma {:induction false} DigitsShape(n: nat)
    ensures AllDigits(Digits(n)) && 1 <= |Digits(n)|
    ensures Value(Digits(n)) == n
    ensures |Digits(n)| == 1 <==> n < 10
    ensures n < 100 ==> |Digits(n)| <= 2
    ensures n < 1000 ==> |Digits(n)| <= 3
    ensures n < 10000 ==> |Digits(n)| <= 4
    ensures n >= 10 ==> Digits(n)[0] != '0'
    decreases n
  {
    if n >= 10 {
      DigitsShape(n / 10);
      var s := Digits(n);
      assert s[..|s| - 1] == Digits(n / 10);
      if n / 10 < 10 {
        assert s[0] == DigitChar(n / 10);
      } else {
        assert s[0] == Digits(n / 10)[0];
      }
    }
  }

  /** Leading zeros do not change the value of a digit string. */
  lemma {:induction false} ValueLeadingZeros(k: nat, s: string)
    requires AllDigits(s)
    ensures AllDigits(Zeros(k) + s) && Value(Zeros(k) + s) == Value(s)
    decreases |s|, k
  {
    var z := Zeros(k) + s;
    if s == [] {
      if k > 0 {
        assert z[..|z| - 1] == Zeros(k - 1);
        ValueLeadingZeros(k - 1, s);
        assert Zeros(k - 1) + s == Zeros(k - 1);
      }
    } else {
      var t := s[..|s| - 1];
      assert z[..|z| - 1] == Zeros(k) + t;
      ValueLeadingZeros(k, t);
    }
  }

  /** Padding yields only digits, at least w of them (exactly w while n fits), and keeps the value. */
  lemma PadShape(n: nat, w: nat)
    ensures AllDigits(Pad(n, w)) && Value(Pad(n, w)) == n
    ensures |Pad(n, w)| >= w && |Pad(n, w)| >= 1
    ensures n < 10 && w >= 1 ==> |Pad(n, w)| == w
    ensures n < 100 && w >= 2 ==> |Pad(n, w)| == w
    ensures n < 1000 && w >= 3 ==> |Pad(n, w)| == w
    ensures n < 10000 && w >= 4 ==> |Pad(n, w)| == w
    ensures |Pad(n, w)| == if |Digits(n)| < w then w else |Digits(n)|
  {
    DigitsShape(n);
    var s := Digits(n);
    if |s| < w {
      ValueLeadingZeros(w - |s|, s);
    }
  }

  /** Different numbers never pad to the same text. */
  lemma PadInjective(m: nat, n: nat, w: nat)
    ensures Pad(m, w) == Pad(n, w) <==> m == n
  {
    PadShape(m, w);
    PadShape(n, w);
  }

  // ---------------------------------------------------------------------
  // strftime fields of a date.

  /** `strftime("%Y%m%d")`, as used in the URL: "20161230" for 2016-12-30. */
  function Ymd(d: ValidDate): string {
    Pad(d.year, 4) + Pad(d.month, 2) + Pad(d.day, 2)
  }

  /** `strftime("%m-%d-%y")`, the daily folder name: "12-30-16" for 2016-12-30. */
  function FolderDate(d: ValidDate): string {
    Pad(d.month, 2) + "-" + Pad(d.day, 2) + "-" + Pad(d.year % 100, 2)
  }

  /** Two concatenations that agree and split at the same length from either end agree part by part. */
  lemma SplitEqual(a: string, b: string, c: string, d: string)
    requires (|a| == |c| || |b| == |d|) && a + b == c + d
    ensures a == c && b == d
  {
    assert |a| == |c| by { assert |a + b| == |c + d|; }
    assert a == (a + b)[..|a|] && c == (c + d)[..|c|];
    assert b == (a + b)[|a|..] && d == (c + d)[|c|..];
  }

  /** The URL date field is eight digits and determines the date. */
  lemma YmdInjective(a: ValidDate, b: ValidDate)
    ensures |Ymd(a)| == 8 && AllDigits(Ymd(a))
    ensures Ymd(a) == Ymd(b) <==> a == b
  {
    PadShape(a.year, 4); PadShape(a.month, 2); PadShape(a.day, 2);
    PadShape(b.year, 4); PadShape(b.month, 2); PadShape(b.day, 2);
    assert forall i :: 0 <= i < 8 ==> IsDigit(Ymd(a)[i]) by {
      forall i | 0 <= i < 8 ensures IsDigit(Ymd(a)[i]) {
        if i < 4 { assert Ymd(a)[i] == Pad(a.year, 4)[i]; }
        else if i < 6 { assert Ymd(a)[i] == Pad(a.month, 2)[i - 4]; }
        else { assert Ymd(a)[i] == Pad(a.day, 2)[i - 6]; }
      }
    }
    if Ymd(a) == Ymd(b) {
      SplitEqual(Pad(a.year, 4) + Pad(a.month, 2), Pad(a.day, 2), Pad(b.year, 4) + Pad(b.month, 2), Pad(b.day, 2));
      SplitEqual(Pad(a.year, 4), Pad(a.month, 2), Pad(b.year, 4), Pad(b.month, 2));
      PadInjective(a.year, b.year, 4);
      PadInjective(a.month, b.month, 2);
      PadInjective(a.day, b.day, 2);
    }
  }

  /**
   * The folder name keeps only the last two digits of the year: two dates
   * share a folder exactly when month, day and year modulo 100 agree, so
   * dates a century apart land in the same folder.
   */
  lemma FolderDateSameIff(a: ValidDate, b: ValidDate)
    ensures |FolderDate(a)| == 8
    ensures FolderDate(a) == FolderDate(b) <==> a.month == b.month && a.day == b.day && a.year % 100 == b.year % 100
  {
    PadShape(a.year % 100, 2); PadShape(a.month, 2); PadShape(a.day, 2);
    PadShape(b.year % 100, 2); PadShape(b.month, 2); PadShape(b.day, 2);
    if FolderDate(a) == FolderDate(b) {
      SplitEqual(Pad(a.month, 2) + "-" + Pad(a.day, 2) + "-", Pad(a.year % 100, 2),
                 Pad(b.month, 2) + "-" + Pad(b.day, 2) + "-", Pad(b.year % 100, 2));
      SplitEqual(Pad(a.month, 2) + "-" + Pad(a.day, 2), "-", Pad(b.month, 2) + "-" + Pad(b.day, 2), "-");
      SplitEqual(Pad(a.month, 2) + "-", Pad(a.day, 2), Pad(b.month, 2) + "-", Pad(b.day, 2));
      SplitEqual(Pad(a.month, 2), "-", Pad(b.month, 2), "-");
      PadInjective(a.year % 100, b.year % 100, 2);
      PadInjective(a.month, b.month, 2);
      PadInjective(a.day, b.day, 2);
    }
  }
}
