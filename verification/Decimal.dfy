/** Decimal text of numbers: what Rust's `Display` prints and how it reads back. */
module Decimal {
  import opened Common

  function DigitChar(n: nat): char
    requires n < 10
  {
    (n + '0' as int) as char
  }

  predicate IsDigit(c: char) {
    '0' <= c <= '9'
  }

  predicate AllDigits(s: string) {
    forall c <- s :: IsDigit(c)
  }

  function Digits(n: nat): string {
    if n < 10 then [DigitChar(n)] else Digits(n / 10) + [DigitChar(n % 10)]
  }

  function Zeros(k: nat): string {
    seq(k, _ => '0')
  }

  /** `{:0w}` of a number that is not negative. */
  function Padded(n: nat, w: nat): string {
    Zeros(Monus(w, |Digits(n)|)) + Digits(n)
  }

  function Value(s: string): nat
    requires AllDigits(s)
  {
    if s == [] then 0
    else
      var last := |s| - 1;
      assert s[last] in s;
      10 * Value(s[..last]) + (s[last] as int - '0' as int)
  }

  function Pow10(w: nat): (r: nat)
    ensures r >= 1
  {
    if w == 0 then 1 else 10 * Pow10(w - 1)
  }

  lemma ValueAppend(s: string, c: char)
    requires AllDigits(s) && IsDigit(c)
    ensures AllDigits(s + [c]) && Value(s + [c]) == 10 * Value(s) + (c as int - '0' as int)
  {
    assert (s + [c])[..|s|] == s;
  }

  lemma {:induction false} DigitsRight(n: nat)
    ensures AllDigits(Digits(n)) && Value(Digits(n)) == n
  {
    if n < 10 {
      assert [DigitChar(n)] == [] + [DigitChar(n)];
      ValueAppend([], DigitChar(n));
    } else {
      DigitsRight(n / 10);
      ValueAppend(Digits(n / 10), DigitChar(n % 10));
    }
  }

  lemma {:induction false} DigitsLength(n: nat, w: nat)
    requires w >= 1
    ensures 1 <= |Digits(n)| && (|Digits(n)| <= w <==> n < Pow10(w))
    decreases w
  {
    if n >= 10 {
      if w == 1 {
        assert |Digits(n / 10)| >= 1;
      } else {
        DigitsLength(n / 10, w - 1);
      }
    }
  }

  lemma {:induction false} ZerosValue(k: nat, s: string)
    requires AllDigits(s)
    ensures AllDigits(Zeros(k) + s) && Value(Zeros(k) + s) == Value(s)
    decreases |s| + k
  {
    var z := Zeros(k) + s;
    if s != [] {
      var last := |s| - 1;
      assert s == s[..last] + [s[last]] && s[last] in s;
      ZerosValue(k, s[..last]);
      assert z == Zeros(k) + s[..last] + [s[last]];
      ValueAppend(Zeros(k) + s[..last], s[last]);
    } else if k > 0 {
      ZerosValue(k - 1, []);
      assert z == (Zeros(k - 1) + []) + ['0'];
      ValueAppend(Zeros(k - 1) + [], '0');
    } else {
      assert z == [];
    }
  }

  /** A padded field has the width asked for exactly when the number fits, and
      always reads back. */
  lemma PaddedRight(n: nat, w: nat)
    requires w >= 1
    ensures AllDigits(Padded(n, w)) && Value(Padded(n, w)) == n
    ensures |Padded(n, w)| >= w && (|Padded(n, w)| == w <==> n < Pow10(w))
  {
    DigitsRight(n);
    DigitsLength(n, w);
    ZerosValue(Monus(w, |Digits(n)|), Digits(n));
  }

  // -------------------------------------------------------------------- reading

  /** How many characters at the front are digits. */
  function DigitRun(s: string): (k: nat)
    ensures k <= |s| && AllDigits(s[..k]) && (k < |s| ==> !IsDigit(s[k]))
  {
    if s == "" || !IsDigit(s[0]) then 0
    else
      var k := 1 + DigitRun(s[1..]);
      assert s[..k] == [s[0]] + s[1..][..k - 1];
      k
  }

  lemma {:induction false} DigitRunEnds(d: string, tail: string)
    requires AllDigits(d) && (tail == "" || !IsDigit(tail[0]))
    ensures DigitRun(d + tail) == |d|
  {
    if d == "" {
      assert d + tail == tail;
    } else {
      assert d[0] in d;
      assert (d + tail)[1..] == d[1..] + tail;
      DigitRunEnds(d[1..], tail);
    }
  }

  lemma {:induction false} NoLeadingZero(n: nat)
    ensures |Digits(n)| >= 1 && (n != 0 ==> Digits(n)[0] != '0') && (n == 0 ==> |Digits(n)| == 1)
  {
    if n >= 10 { NoLeadingZero(n / 10); }
  }
}
