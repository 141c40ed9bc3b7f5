/** Decimal and delimiter-separated text: the printing primitives the service relies on
    (strconv-style decimals, zero padding, strings joined by a delimiter) and the facts that
    make such text readable again. */
module Text {

  predicate IsDigit(c: char) {
    '0' <= c <= '9'
  }

  predicate AllDigits(s: string) {
    forall k :: 0 <= k < |s| ==> IsDigit(s[k])
  }

  function DigitChar(d: nat): (c: char)
    requires d < 10
    ensures IsDigit(c)
  {
    ('0' as int + d) as char
  }

  function DigitValue(c: char): (d: nat)
    requires IsDigit(c)
    ensures d < 10 && DigitChar(d) == c
  {
    c as int - '0' as int
  }

  /** The shortest decimal numeral of n. */
  function Dec(n: nat): (s: string)
    ensures s != "" && AllDigits(s)
  {
    if n < 10 then [DigitChar(n)] else Dec(n / 10) + [DigitChar(n % 10)]
  }

  /** ... with no zero in front, but for zero itself. */
  lemma {:induction false} DecIsShortest(n: nat)
    ensures Dec(n)[0] == '0' <==> n == 0
    ensures n == 0 ==> Dec(n) == "0"
  {
    if n >= 10 {
      DecIsShortest(n / 10);
    }
  }

  /** The number a string of decimal digits denotes; leading zeros are allowed. */
  function Value(s: string): nat
    requires AllDigits(s)
  {
    if s == "" then 0 else 10 * Value(s[..|s| - 1]) + DigitValue(s[|s| - 1])
  }

  function Zeros(n: nat): (s: string)
    ensures |s| == n && AllDigits(s)
    ensures forall k :: 0 <= k < n ==> s[k] == '0'
  {
    seq(n, _ => '0')
  }

  /** n in decimal, zero-padded on the left to at least the given width. */
  function Pad(n: nat, width: nat): (s: string)
    ensures s != "" && AllDigits(s)
  {
    var s := Dec(n);
    if |s| < width then Zeros(width - |s|) + s else s
  }

  lemma {:induction false} ValueDec(n: nat)
    ensures Value(Dec(n)) == n
  {
    if n >= 10 {
      ValueDec(n / 10);
      assert Dec(n)[..|Dec(n)| - 1] == Dec(n / 10);
    }
  }

  lemma {:induction false} ValueLeadingZeros(k: nat, s: string)
    requires AllDigits(s)
    ensures Value(Zeros(k) + s) == Value(s)
  {
    if s != "" {
      assert (Zeros(k) + s)[..k + |s| - 1] == Zeros(k) + s[..|s| - 1];
      ValueLeadingZeros(k, s[..|s| - 1]);
    } else if k > 0 {
      assert (Zeros(k) + s)[..k - 1] == Zeros(k - 1) + s;
      ValueLeadingZeros(k - 1, s);
    }
  }

  lemma {:induction false} ValueTrailingZeros(s: string, k: nat)
    requires AllDigits(s)
    ensures Value(s + Zeros(k)) == Value(s) * Pow10(k)
  {
    if k == 0 {
      assert s + Zeros(0) == s;
    } else {
      ValueTrailingZeros(s, k - 1);
      assert s + Zeros(k) == (s + Zeros(k - 1)) + "0";
      ValueOneMoreZero(s + Zeros(k - 1));
      TenTimes(Value(s), Pow10(k - 1));
    }
  }

  lemma ValueOneMoreZero(s: string)
    requires AllDigits(s)
    ensures Value(s + "0") == 10 * Value(s)
  {
    assert (s + "0")[..|s|] == s;
  }

  lemma TenTimes(v: nat, p: nat)
    ensures v * (10 * p) == 10 * (v * p)
  {
  }

  lemma ValuePad(n: nat, width: nat)
    ensures Value(Pad(n, width)) == n
  {
    ValueDec(n);
    if |Dec(n)| < width {
      ValueLeadingZeros(width - |Dec(n)|, Dec(n));
    }
  }

  function Pow10(k: nat): nat {
    if k == 0 then 1 else 10 * Pow10(k - 1)
  }

  lemma {:induction false} PadWidth(n: nat, width: nat)
    requires 0 < width && n < Pow10(width)
    ensures |Dec(n)| <= width && |Pad(n, width)| == width
  {
    if n >= 10 {
      assert width > 1;
      PadWidth(n / 10, width - 1);
    }
  }

  /** strings.Join. */
  function Join(parts: seq<string>, separator: string): string
    requires parts != []
  {
    if |parts| == 1 then parts[0] else parts[0] + separator + Join(parts[1..], separator)
  }

  lemma JoinFive(a: string, b: string, c: string, d: string, e: string, sep: string)
    ensures Join([a, b, c, d, e], sep) == a + sep + (b + sep + (c + sep + (d + sep + e)))
  {
    assert [a, b, c, d, e][1..] == [b, c, d, e] && [b, c, d, e][1..] == [c, d, e];
    assert [c, d, e][1..] == [d, e] && [d, e][1..] == [e];
    assert Join([d, e], sep) == d + sep + e;
    assert Join([c, d, e], sep) == c + sep + (d + sep + e);
  }

  lemma Associative(a: string, b: string, c: string)
    ensures a + (b + c) == a + b + c
  {
  }

  lemma JoinFiveInFull(a: string, b: string, c: string, d: string, e: string, sep: string)
    ensures Join([a, b, c, d, e], sep) == a + sep + b + sep + c + sep + d + sep + e
  {
    JoinFive(a, b, c, d, e, sep);
    Associative(c + sep, d + sep, e);
    Associative(c + sep, d, sep);
    Associative(b + sep, c + sep + d + sep, e);
    Associative(b + sep, c + sep + d, sep);
    Associative(b + sep, c + sep, d);
    Associative(b + sep, c, sep);
    Associative(a + sep, b + sep + c + sep + d + sep, e);
    Associative(a + sep, b + sep + c + sep + d, sep);
    Associative(a + sep, b + sep + c + sep, d);
    Associative(a + sep, b + sep + c, sep);
    Associative(a + sep, b + sep, c);
    Associative(a + sep, b, sep);
  }

  /** Text up to the first delimiter is determined: two texts cut by a delimiter that does not
      occur before the cut agree on both sides of it. */
  lemma CutUnique(c: char, a: string, b: string, a': string, b': string)
    requires c !in a && c !in a'
    requires a + [c] + b == a' + [c] + b'
    ensures a == a' && b == b'
  {
    var s, s' := a + [c] + b, a' + [c] + b';
    assert s[|a|] == c && s'[|a'|] == c;
    assert forall k :: 0 <= k < |a| ==> s[k] == a[k];
    assert forall k :: 0 <= k < |a'| ==> s'[k] == a'[k];
    assert |a| == |a'|;
    assert s[..|a|] == a && s'[..|a|] == a';
    assert s[|a| + 1..] == b && s'[|a| + 1..] == b';
  }
}
