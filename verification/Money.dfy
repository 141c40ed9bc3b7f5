/** New Zealand dollars in int64 cents: the GST component computed in floating point, and printing. */
module Money {
  import opened Wrappers
  import opened Text
  import opened Float64

  const MIN_INT64: int := -0x8000_0000_0000_0000
  const MAX_INT64: int := 0x7fff_ffff_ffff_ffff

  type NZD = m: int | MIN_INT64 <= m <= MAX_INT64

  // ---- GST ----

  /** float64(m) * 3 / 23, each operation rounded, then math.Round. */
  function Gst(m: NZD): int {
    RoundHalfAway(Rounded(Rounded(Rounded(m as real) * 3.0) / 23.0))
  }

  function ExGst(m: NZD): int {
    m - Gst(m)
  }

  function Abs(m: int): nat {
    if m < 0 then -m else m
  }

  /** The integer nearest to 3m/23.  There is never a tie, 23 being odd. */
  function NearestGst(m: int): (g: int) {
    if m >= 0 then (6 * m + 23) / 46 else -((23 - 6 * m) / 46)
  }

  /** ... it is within 11/23 of 3m/23, and the only integer within half. */
  lemma NearestGstNearest(m: int, g: int)
    ensures -11 <= 23 * NearestGst(m) - 3 * m <= 11
    ensures g == NearestGst(m) <==> -11 <= 23 * g - 3 * m <= 11
    ensures g != NearestGst(m) ==> Abs(23 * g - 3 * m) > Abs(23 * NearestGst(m) - 3 * m)
  {
  }

  // The real quotient against its integer parts.
  lemma Quotient(p: nat, t: nat, r: nat)
    requires p == 23 * t + r && r < 23
    ensures p as real / 23.0 == t as real + r as real / 23.0
  {
  }

  lemma SmallQuotient(p: nat, g: int)
    requires 0 < p && p as real / 23.0 < TWO52 / 16.0 && -11 <= 23 * g - p <= 11
    ensures RoundHalfAway(Nearest(p as real / 23.0)) == g
  {
    var x := p as real / 23.0;
    BelowTwo48(x);
    assert 23.0 * x == p as real;
    var n := Nearest(x);
    assert -11.0 <= 23.0 * g as real - 23.0 * x <= 11.0;
    assert g as real <= n + 0.5 < g as real + 1.0;
  }

  lemma LargeQuotient(p: nat, t: nat, r: nat)
    requires p == 23 * t + r && r < 23 && TWO52 / 16.0 <= p as real / 23.0 < TWO53 / 16.0
    ensures RoundHalfAway(Nearest(p as real / 23.0)) == if r < 11 then t else t + 1
  {
    var x := p as real / 23.0;
    Quotient(p, t, r);
    BelowTwo49(x);
    var f := 16.0 * (r as real / 23.0);
    assert 16.0 * x == (16 * t) as real + f;
    var k := RoundHalfEven(16.0 * x);
    assert if r < 11 then 16 * t <= k <= 16 * t + 7 else 16 * t + 8 <= k <= 16 * t + 16;
    assert Nearest(x) == k as real / 16.0;
  }

  /** The floating-point computation goes wrong: 3|m| is past 23 * 2^48 and leaves remainder 11 by 23. */
  predicate RoundsWrong(m: int) {
    3 * Abs(m) >= 23 * 0x1_0000_0000_0000 && 3 * Abs(m) % 23 == 11
  }

  lemma PositiveGst(m: nat)
    requires 0 < m && 3 * m < 9007199254740992
    ensures Gst(m) == NearestGst(m) + if RoundsWrong(m) then 1 else 0
  {
    IntegersExact(m as real);
    IntegersExact((3 * m) as real);
    assert m as real * 3.0 == (3 * m) as real;
    var p := 3 * m;
    NearestGstNearest(m, NearestGst(m));
    assert Gst(m) == RoundHalfAway(Nearest(p as real / 23.0));
    if p < 23 * 0x1_0000_0000_0000 {
      SmallQuotient(p, NearestGst(m));
    } else {
      LargeQuotient(p, p / 23, p % 23);
    }
  }

  /** Computed GST is odd: the sign passes through every operation. */
  lemma GstOdd(m: NZD)
    requires m != MIN_INT64
    ensures Gst(-m) == -Gst(m) && NearestGst(-m) == -NearestGst(m)
  {
  }

  /** Exactly when the floating-point computation is right to the cent, as long as 3m is exact: always
      while 3|m| < 23 * 2^48, and from there on unless 3|m| leaves remainder 11 by 23.  Otherwise it is one
      cent too far from zero. */
  lemma GstExact(m: NZD)
    requires 3 * Abs(m) < 9007199254740992
    ensures Gst(m) == NearestGst(m) <==> !RoundsWrong(m)
    ensures RoundsWrong(m) ==> Gst(m) == NearestGst(m) + if m > 0 then 1 else -1
  {
    if m > 0 {
      PositiveGst(m);
    } else if m < 0 {
      GstOdd(-m);
      PositiveGst(-m);
    }
  }

  /** In particular up to 2^50 cents either way; and the bound is real: one amount just above the
      threshold comes out a cent too high. */
  lemma GstExactUpToTwo50(m: NZD)
    requires Abs(m) <= 0x4_0000_0000_0000
    ensures Gst(m) == NearestGst(m)
    ensures var off := (23 * 0x1_0000_0000_0000 + 34) / 3; Gst(off) == NearestGst(off) + 1
  {
    GstExact(m);
    var off := (23 * 0x1_0000_0000_0000 + 34) / 3;
    IntegersExact(off as real);
    IntegersExact((3 * off) as real);
    assert off as real * 3.0 == (3 * off) as real;
    LargeQuotient(3 * off, 0x1_0000_0000_0001, 11);
  }

  /** For every int64 amount the computed GST is off from 3m/23 by at most half a cent plus |m| / 2^53. */
  lemma GstErrorBound(m: NZD)
    ensures var e := Gst(m) as real - m as real * 3.0 / 23.0;
            var bound := 0.5 + Abs(m) as real / TWO53;
            -bound <= e <= bound
  {
    if m != 0 {
      PositiveErrorBound(Abs(m) as real);
    }
  }

  lemma PositiveErrorBound(x: real)
    requires 0.0 < x <= 2048.0 * TWO52
    ensures 0.0 < Nearest(x) && 0.0 < Nearest(Nearest(x) * 3.0)
    ensures var q := Nearest(Nearest(Nearest(x) * 3.0) / 23.0);
            q >= 0.0 && -x / TWO53 <= q - x * 3.0 / 23.0 <= x / TWO53
            && -0.5 <= RoundHalfAway(q) as real - q <= 0.5
  {
    RelativeError(x);
    var a := Nearest(x);
    RelativeError(a * 3.0);
    var b := Nearest(a * 3.0);
    RelativeError(b / 23.0);
  }

  /** Computed GST never falls as the amount rises, anywhere in int64. */
  lemma GstMonotone(m: NZD, n: NZD)
    requires m <= n
    ensures Gst(m) <= Gst(n)
  {
    var x, y := Rounded(m as real), Rounded(n as real);
    RoundedMonotone(m as real, n as real);
    RoundedMonotone(x * 3.0, y * 3.0);
    RoundedMonotone(Rounded(x * 3.0) / 23.0, Rounded(y * 3.0) / 23.0);
  }

  /** The amount without GST is the integer nearest to 20m/23 under the very condition that makes GST the
      integer nearest to 3m/23. */
  lemma ExGstExact(m: NZD)
    requires 3 * Abs(m) < 9007199254740992
    ensures -11 <= 23 * ExGst(m) - 20 * m <= 11 <==> !RoundsWrong(m)
  {
    GstExact(m);
    NearestGstNearest(m, Gst(m));
  }

  // One cent more is never more than one cent more GST, up to 2^55.
  lemma GstStep(m: nat)
    requires m < 0x80_0000_0000_0000
    ensures Gst(m + 1) <= Gst(m) + 1
  {
    if m == 0 {
      GstExact(1);
    } else {
      var a, b := Nearest(m as real), Nearest((m + 1) as real);
      NearestMonotone(m as real, (m + 1) as real);
      NearestPositive(m as real);
      IntegerStep(m as real);
      NearestUpTo(m + 1);
      RoundedStep(a, b);
      assert Gst(m) == GstOf(a) && Gst(m + 1) == GstOf(b);
    }
  }

  // GST of an amount that is rounded to a.
  function GstOf(a: real): int {
    RoundHalfAway(Rounded(Rounded(a * 3.0) / 23.0))
  }

  lemma RoundedStep(a: real, b: real)
    requires 0.0 < a <= b <= a + 4.0 && b <= 4.0 * TWO53
    ensures GstOf(b) <= GstOf(a) + 1
  {
    var p, q := Nearest(a * 3.0), Nearest(b * 3.0);
    NearestMonotone(a * 3.0, b * 3.0);
    NearestPositive(a * 3.0);
    ProductStep(a * 3.0, b * 3.0);
    MovedAtMost(b * 3.0);
    QuotientStep(p / 23.0, q / 23.0);
  }

  lemma NearestPositive(x: real)
    requires 0.0 < x
    ensures 0.0 < Nearest(x)
  {
    RelativeError(x);
  }

  lemma NearestUpTo(m: nat)
    requires 0 < m <= 0x80_0000_0000_0000
    ensures Nearest(m as real) <= 4.0 * TWO53
  {
    NearestMonotone(m as real, 4.0 * TWO53);
    OnGrid(4.0 * TWO53);
    assert RoundHalfEven(TWO52) == 4503599627370496;
  }

  // The four amounts above 2^55 that round down to it.
  lemma GstFlat(m: nat)
    requires 0x80_0000_0000_0000 <= m <= 0x80_0000_0000_0004
    ensures Gst(m) == Gst(0x80_0000_0000_0000)
  {
    OnGrid(m as real);
    OnGrid(0x80_0000_0000_0000 as real);
    assert RoundHalfEven(m as real / 8.0) == 4503599627370496 == RoundHalfEven(TWO52);
  }

  lemma ExGstStep(m: NZD)
    requires -0x80_0000_0000_0004 <= m < 0x80_0000_0000_0004
    ensures ExGst(m) <= ExGst(m + 1)
  {
    if m >= 0x80_0000_0000_0000 {
      GstFlat(m);
      GstFlat(m + 1);
    } else if m >= 0 {
      GstStep(m);
    } else {
      GstOdd(m);
      GstOdd(m + 1);
      if m < -0x80_0000_0000_0000 {
        GstFlat(-m);
        GstFlat(-m - 1);
      } else {
        GstStep(-m - 1);
      }
    }
  }

  /** ... and up to 2^55 + 4 either way, right or wrong, it never falls as the amount rises. */
  lemma {:induction false} ExGstMonotone(m: NZD, n: NZD)
    requires -0x80_0000_0000_0004 <= m <= n <= 0x80_0000_0000_0004
    ensures ExGst(m) <= ExGst(n)
    decreases n - m
  {
    if m < n {
      ExGstMonotone(m, n - 1);
      ExGstStep(n - 1);
    }
  }

  // Three roundings on given grids: the amount, three times it, and that by 23.
  lemma LargeGst(m: NZD, a: real, b: real, c: int)
    requires m > 0 && a > 0.0 && b > 0.0
    requires Nearest(m as real) == a && Nearest(3.0 * a) == b && Nearest(b / 23.0) == c as real
    ensures Gst(m) == c
  {
  }

  /** The bound is the last amount before a fall: one cent more leaves one cent less. */
  lemma ExGstFalls()
    ensures ExGst(0x80_0000_0000_0005) == ExGst(0x80_0000_0000_0004) - 1
  {
    GstAtTheBound();
    GstPastTheBound();
  }

  lemma GstAtTheBound()
    ensures Gst(0x80_0000_0000_0004) == 4699408306821387
  {
    var m := 36028797018963972.0;
    OnGrid(m);
    assert RoundHalfEven(m / 8.0) == 4503599627370496;
    var a := 36028797018963968.0;
    OnGrid(3.0 * a);
    assert RoundHalfEven(3.0 * a / 16.0) == 6755399441055744;
    var b := 108086391056891904.0;
    assert RoundHalfEven(b / 23.0) == 4699408306821387;
    LargeGst(0x80_0000_0000_0004, a, b, 4699408306821387);
  }

  lemma GstPastTheBound()
    ensures Gst(0x80_0000_0000_0005) == 4699408306821389
  {
    var m := 36028797018963973.0;
    OnGrid(m);
    assert RoundHalfEven(m / 8.0) == 4503599627370497;
    var a := 36028797018963976.0;
    OnGrid(3.0 * a);
    assert RoundHalfEven(3.0 * a / 16.0) == 6755399441055746;
    var b := 108086391056891936.0;
    assert RoundHalfEven(b / 23.0) == 4699408306821389;
    LargeGst(0x80_0000_0000_0005, a, b, 4699408306821389);
  }

  // ---- Exact GST over lists and orderings ----

  /** Exact GST never falls as the amount rises, and neither does what remains of the amount, which is
      the integer nearest to 20m/23. */
  lemma NearestGstMonotone(m: int, n: int)
    requires m <= n
    ensures NearestGst(m) <= NearestGst(n) && m - NearestGst(m) <= n - NearestGst(n)
    ensures -11 <= 23 * (m - NearestGst(m)) - 20 * m <= 11
  {
  }

  function Total(ms: seq<int>): int {
    if ms == [] then 0 else Total(ms[..|ms| - 1]) + ms[|ms| - 1]
  }

  function TotalGst(ms: seq<int>): int {
    if ms == [] then 0 else TotalGst(ms[..|ms| - 1]) + NearestGst(ms[|ms| - 1])
  }

  lemma {:induction false} TotalGstNear(ms: seq<int>)
    ensures -11 * |ms| <= 23 * TotalGst(ms) - 3 * Total(ms) <= 11 * |ms|
  {
    if ms != [] {
      TotalGstNear(ms[..|ms| - 1]);
      NearestGstNearest(ms[|ms| - 1], 0);
    }
  }

  /** Rounding each of n amounts and rounding their total differ by at most 11(n + 1)/23 cents. */
  lemma SumOfGst(ms: seq<int>)
    ensures -11 * (|ms| + 1) <= 23 * (TotalGst(ms) - NearestGst(Total(ms))) <= 11 * (|ms| + 1)
  {
    TotalGstNear(ms);
    NearestGstNearest(Total(ms), 0);
  }

  // ---- Dollars, cents and text ----

  /** Division truncating towards zero, and its remainder. */
  function TruncDiv(m: int, d: nat): int
    requires d > 0
  {
    if m < 0 then -((-m) / d) else m / d
  }

  /** Two's complement: the negative of the least int64 is itself. */
  function Negated(m: NZD): NZD {
    if m == MIN_INT64 then m else -m
  }

  function FromDollars(dollars: int, cents: int): int {
    dollars * 100 + cents
  }

  function Dollars(m: NZD): int {
    TruncDiv(m, 100)
  }

  function Cents(m: NZD): nat {
    Abs(m - 100 * TruncDiv(m, 100))
  }

  // The %d verb.
  function Numeral(n: int): string {
    if n < 0 then "-" + Dec(-n) else Dec(n)
  }

  // %d.%02d of the dollars and the cents.
  function Amount(m: NZD): string {
    Numeral(Dollars(m)) + "." + Pad(Cents(m), 2)
  }

  function ToString(m: NZD): string {
    if m < 0 then "-NZD $" + Amount(Negated(m)) else "NZD $" + Amount(m)
  }

  /** Dollars and cents make up the amount again exactly when it is not negative or has no odd cents. */
  lemma FromDollarsExact(m: NZD)
    ensures FromDollars(Dollars(m), Cents(m)) == m <==> m >= 0 || m % 100 == 0
    ensures Cents(m) < 100
  {
  }

  function ReadParts(dollars: string, cents: string): Option<int> {
    if AllDigits(dollars) && AllDigits(cents) then Some(100 * Value(dollars) + Value(cents)) else None
  }

  // Reads digits, a point and two digits.
  function ReadAmount(s: string): Option<int> {
    var n := |s| - 3;
    if n >= 1 && s[n] == '.' then ReadParts(s[..n], s[n + 1..]) else None
  }

  /** Reads a printed amount: sign, dollars and two digits of cents. */
  function Read(s: string): Option<int> {
    if |s| >= 6 && s[..6] == "-NZD $" then
      var v := ReadAmount(s[6..]);
      if v.Some? then Some(-v.value) else None
    else if |s| >= 5 && s[..5] == "NZD $" then ReadAmount(s[5..])
    else None
  }

  // A printed amount is cut where it was put together.
  lemma ReadAmountCut(dollars: string, cents: string)
    requires dollars != "" && |cents| == 2
    ensures ReadAmount(dollars + "." + cents) == ReadParts(dollars, cents)
  {
    var s := dollars + "." + cents;
    assert s[..|s| - 3] == dollars && s[|s| - 2..] == cents;
  }

  lemma TwoDigits(cents: nat)
    requires cents < 100
    ensures |Pad(cents, 2)| == 2
  {
    assert Pow10(2) == 100;
    PadWidth(cents, 2);
  }

  lemma ReadAmountPrinted(dollars: nat, cents: nat)
    requires cents < 100
    ensures ReadAmount(Dec(dollars) + "." + Pad(cents, 2)) == Some(100 * dollars + cents)
  {
    TwoDigits(cents);
    ValueDec(dollars);
    ValuePad(cents, 2);
    ReadAmountCut(Dec(dollars), Pad(cents, 2));
  }

  lemma PrefixReads(amount: string)
    ensures Read("NZD $" + amount) == ReadAmount(amount)
    ensures Read("-NZD $" + amount) == var v := ReadAmount(amount); if v.Some? then Some(-v.value) else None
  {
    var p, n := "NZD $" + amount, "-NZD $" + amount;
    assert p[..5] == "NZD $" && p[5..] == amount && p[0] == 'N';
    assert n[..6] == "-NZD $" && n[6..] == amount;
    if |p| >= 6 {
      assert p[..6][0] == 'N' && "-NZD $"[0] == '-';
    }
  }

  lemma SignedDollarsUnreadable(dollars: nat, cents: nat)
    requires cents < 100
    ensures ReadAmount("-" + Dec(dollars) + "." + Pad(cents, 2)).None?
  {
    TwoDigits(cents);
    var s := "-" + Dec(dollars) + "." + Pad(cents, 2);
    assert s[..|s| - 3][0] == '-';
  }

  lemma AmountReadsBack(m: NZD)
    requires m >= 0
    ensures ReadAmount(Amount(m)) == Some(m)
  {
    ReadAmountPrinted(m / 100, m % 100);
  }

  lemma LeastAmountUnreadable()
    ensures ReadAmount(Amount(MIN_INT64)).None?
  {
    SignedDollarsUnreadable(92233720368547758, 8);
  }

  lemma NonNegativeReadsBack(m: NZD)
    requires m >= 0
    ensures Read(ToString(m)) == Some(m)
  {
    PrefixReads(Amount(m));
    AmountReadsBack(m);
  }

  lemma NegativeReadsBack(m: NZD)
    requires MIN_INT64 < m < 0
    ensures Read(ToString(m)) == Some(m)
  {
    var a := Negated(m);
    PrefixReads(Amount(a));
    AmountReadsBack(a);
  }

  /** The printed amount reads back as the amount for every int64 but the least, whose dollars print
      with a sign of their own. */
  lemma ToStringReadsBack(m: NZD)
    ensures Read(ToString(m)) == Some(m) <==> m != MIN_INT64
  {
    if m >= 0 {
      NonNegativeReadsBack(m);
    } else if m != MIN_INT64 {
      NegativeReadsBack(m);
    } else {
      PrefixReads(Amount(m));
      LeastAmountUnreadable();
    }
  }

  /** The sign and currency of a printed amount. */
  function Prefix(m: NZD): string {
    if m < 0 then "-NZD $" else "NZD $"
  }

  /** How an amount is printed: sign if negative, currency, the whole dollars as the shortest numeral, a point,
      and the two digits of the cents. */
  lemma ToStringInFull(m: NZD, dollars: string, cents: string)
    requires m != MIN_INT64
    requires ToString(m) == Prefix(m) + dollars + "." + cents && |cents| == 2
    ensures AllDigits(dollars) && dollars != "" && Value(dollars) == Abs(m) / 100
    ensures dollars[0] == '0' <==> Abs(m) < 100
    ensures dollars[0] == '0' ==> dollars == "0"
    ensures AllDigits(cents) && Value(cents) == Abs(m) % 100
  {
    var d, c := Abs(m) / 100, Abs(m) % 100;
    PrintedParts(m);
    TwoDigits(c);
    SameParts(Prefix(m), dollars, cents, Dec(d), Pad(c, 2));
    ValueDec(d);
    DecIsShortest(d);
    ValuePad(c, 2);
  }

  lemma PrintedParts(m: NZD)
    requires m != MIN_INT64
    ensures ToString(m) == Prefix(m) + Dec(Abs(m) / 100) + "." + Pad(Abs(m) % 100, 2)
  {
    var a := Abs(m);
    assert Amount(a) == Dec(a / 100) + "." + Pad(a % 100, 2);
  }

  lemma SameParts(prefix: string, d: string, c: string, d': string, c': string)
    requires prefix + d + "." + c == prefix + d' + "." + c' && |c| == 2 && |c'| == 2
    ensures d == d' && c == c'
  {
    var s, s' := prefix + d + "." + c, prefix + d' + "." + c';
    assert |d| == |d'|;
    assert d == s[|prefix|..|prefix| + |d|] && d' == s'[|prefix|..|prefix| + |d|];
    assert c == s[|s| - 2..] && c' == s'[|s| - 2..];
  }
}
