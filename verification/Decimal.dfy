/** `String(n)`, `padStart`, `Number(s)` on digits, and `split('-')`. */
module Decimal {
  import opened Prelude

  predicate IsDigit(c: char) { '0' <= c <= '9' }

  predicate AllDigits(s: string) { forall c :: c in s ==> IsDigit(c) }

  function Digit(d: nat): char
    requires d < 10
  {
    '0' + d as char
  }

  /** `String(n)`. */
  function ToDecimal(n: nat): string {
    if n < 10 then [Digit(n)] else ToDecimal(n / 10) + [Digit(n % 10)]
  }

  /** `Number(s)` for a string of digits. */
  function FromDecimal(s: string): nat
    requires AllDigits(s)
  {
    if s == "" then 0
    else
      var last := s[|s| - 1];
      assert last in s;
      10 * FromDecimal(s[..|s| - 1]) + (last - '0') as nat
  }

  function Zeros(n: nat): string {
    if n == 0 then "" else "0" + Zeros(n - 1)
  }

  /** `String(n).padStart(length, '0')`. */
  function Pad(n: nat, length: nat): string {
    var s := ToDecimal(n);
    if |s| >= length then s else Zeros(length - |s|) + s
  }

  lemma DecimalDigits(n: nat)
    ensures AllDigits(ToDecimal(n)) && |ToDecimal(n)| >= 1
    ensures FromDecimal(ToDecimal(n)) == n
  {
    if n >= 10 {
      DecimalDigits(n / 10);
      assert ToDecimal(n)[..|ToDecimal(n)| - 1] == ToDecimal(n / 10);
    }
  }

  lemma {:induction false} ZerosAreNothing(n: nat, s: string)
    requires AllDigits(s)
    ensures |Zeros(n)| == n
    ensures AllDigits(Zeros(n) + s) && FromDecimal(Zeros(n) + s) == FromDecimal(s)
    decreases n, |s|
  {
    if n > 0 {
      ZerosAreNothing(n - 1, "");
      var padded := Zeros(n) + s;
      assert AllDigits(padded);
      if s != "" {
        ZerosAreNothing(n, s[..|s| - 1]);
        assert padded[..|padded| - 1] == Zeros(n) + s[..|s| - 1];
      } else {
        LeadingZero(Zeros(n - 1));
        assert Zeros(n - 1) + "" == Zeros(n - 1);
        assert padded == "0" + Zeros(n - 1);
      }
    } else {
      assert Zeros(0) + s == s;
    }
  }

  lemma {:induction false} LeadingZero(s: string)
    requires AllDigits(s)
    ensures AllDigits("0" + s) && FromDecimal("0" + s) == FromDecimal(s)
    decreases |s|
  {
    var padded := "0" + s;
    if s != "" {
      LeadingZero(s[..|s| - 1]);
      assert padded[..|padded| - 1] == "0" + s[..|s| - 1];
    } else {
      assert padded == "0" && padded[..0] == "";
    }
  }

  /** Padding never changes the number, so no two numbers print alike. */
  lemma PadRoundTrip(n: nat, length: nat)
    ensures AllDigits(Pad(n, length)) && Pad(n, length) != "" && FromDecimal(Pad(n, length)) == n
    ensures |Pad(n, length)| >= length
  {
    DecimalDigits(n);
    hide ToDecimal, FromDecimal, Zeros, AllDigits;
    var s := ToDecimal(n);
    if |s| < length {
      ZerosAreNothing(length - |s|, s);
    }
  }

  /** Written without a leading zero, and padded to the length and no further. */
  lemma PadExactly(n: nat, length: nat)
    ensures ToDecimal(n) == "0" || ToDecimal(n)[0] != '0'
    ensures |Pad(n, length)| == Max(length, |ToDecimal(n)|)
    ensures Pad(n, length)[|Pad(n, length)| - |ToDecimal(n)|..] == ToDecimal(n)
  {
    DecimalDigits(n);
    NoLeadingZero(n);
    assert n == 0 ==> ToDecimal(n) == "0";
    hide ToDecimal, Zeros;
    ZerosAreNothing(if |ToDecimal(n)| < length then length - |ToDecimal(n)| else 0, "");
  }

  lemma {:induction false} NoLeadingZero(n: nat)
    ensures |ToDecimal(n)| >= 1 && (n > 0 ==> ToDecimal(n)[0] != '0')
  {
    if n >= 10 {
      NoLeadingZero(n / 10);
    }
  }

  // ------------------------------------------------------------------ split

  lemma NoHyphen(s: string)
    requires AllDigits(s)
    ensures '-' !in s
  {
  }

  /** `s.split('-')`. */
  function Split(s: string): (parts: seq<string>)
    ensures |parts| >= 1
  {
    if s == "" then [""]
    else
      var rest := Split(s[1..]);
      if s[0] == '-' then [""] + rest else [[s[0]] + rest[0]] + rest[1..]
  }

  lemma {:induction false} SplitWhole(s: string)
    requires '-' !in s
    ensures Split(s) == [s]
  {
    if s != "" {
      SplitWhole(s[1..]);
      assert s == [s[0]] + s[1..];
    }
  }

  lemma {:induction false} SplitAt(a: string, b: string)
    requires '-' !in a
    ensures Split(a + "-" + b) == [a] + Split(b)
    decreases |a|
  {
    var s := a + "-" + b;
    if a == "" {
      assert s[1..] == b;
    } else {
      SplitAt(a[1..], b);
      assert s[1..] == a[1..] + "-" + b;
      assert a == [a[0]] + a[1..];
    }
  }
}
