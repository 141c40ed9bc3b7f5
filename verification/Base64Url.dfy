/** Unpadded base64url (RFC 4648, sections 3.2 and 5), read as leniently as the standard library reads
    it: line breaks are skipped and the unused bits of the last digit are ignored. */
module Base64Url {
  import opened Wrappers
  import opened Bytes

  type Sextet = n: nat | n < 64

  // ---- Bytes and groups of six bits ----

  // The four sextets of three bytes.
  function Block(x: Byte, y: Byte, z: Byte): seq<Sextet> {
    [x / 4, x % 4 * 16 + y / 16, y % 16 * 4 + z / 64, z % 64]
  }

  // The three bytes of four sextets.
  function Unblock(a: Sextet, b: Sextet, c: Sextet, d: Sextet): seq<Byte> {
    [a * 4 + b / 16, b % 16 * 16 + c / 4, c % 4 * 64 + d]
  }

  lemma Halves(h: nat, l: nat)
    ensures l < 16 ==> (h * 16 + l) / 16 == h && (h * 16 + l) % 16 == l
    ensures l < 4 ==> (h * 4 + l) / 4 == h && (h * 4 + l) % 4 == l
    ensures l < 64 ==> (h * 64 + l) / 64 == h && (h * 64 + l) % 64 == l
  {
  }

  lemma UnblockBlock(x: Byte, y: Byte, z: Byte)
    ensures var s := Block(x, y, z); Unblock(s[0], s[1], s[2], s[3]) == [x, y, z]
  {
  }

  lemma BlockUnblock(a: Sextet, b: Sextet, c: Sextet, d: Sextet)
    ensures var v := Unblock(a, b, c, d); Block(v[0], v[1], v[2]) == [a, b, c, d]
  {
    Halves(a, b / 16);
    Halves(b % 16, c / 4);
    Halves(c % 4, d);
  }

  function Sextets(v: seq<Byte>): seq<Sextet> {
    if v == [] then []
    else if |v| == 1 then Block(v[0], 0, 0)[..2]
    else if |v| == 2 then Block(v[0], v[1], 0)[..3]
    else Block(v[0], v[1], v[2]) + Sextets(v[3..])
  }

  /** The bytes of a sextet sequence; the bits the last byte does not need are dropped. */
  function Unpacked(s: seq<Sextet>): seq<Byte> {
    if |s| < 2 then []
    else if |s| == 2 then Unblock(s[0], s[1], 0, 0)[..1]
    else if |s| == 3 then Unblock(s[0], s[1], s[2], 0)[..2]
    else Unblock(s[0], s[1], s[2], s[3]) + Unpacked(s[4..])
  }

  lemma {:induction false} SextetCount(v: seq<Byte>)
    ensures |Sextets(v)| == (4 * |v| + 2) / 3
    ensures |Sextets(v)| % 4 != 1 && (v != [] ==> Sextets(v) != [])
  {
    if |v| > 2 {
      SextetCount(v[3..]);
    }
  }

  lemma {:induction false} UnpackedSextets(v: seq<Byte>)
    ensures Unpacked(Sextets(v)) == v
  {
    if v != [] {
      var y, z := if |v| > 1 then v[1] else 0, if |v| > 2 then v[2] else 0;
      UnblockBlock(v[0], y, z);
      if |v| > 2 {
        UnpackedSextets(v[3..]);
        assert Sextets(v)[4..] == Sextets(v[3..]);
        assert v == [v[0], v[1], v[2]] + v[3..];
      }
    }
  }

  // The number written by `high` and then these digits, the most significant first.
  function Number(high: nat, s: seq<nat>, base: nat): nat
    decreases |s|
  {
    if s == [] then high else Number(high * base + s[0], s[1..], base)
  }

  lemma TwoDigits(high: nat, s: seq<nat>, base: nat)
    requires |s| >= 2
    ensures Number(high, s, base) == Number((high * base + s[0]) * base + s[1], s[2..], base)
  {
    assert s[1..][1..] == s[2..];
  }

  lemma ThreeDigits(high: nat, s: seq<nat>, base: nat)
    requires |s| >= 3
    ensures Number(high, s, base)
         == Number(((high * base + s[0]) * base + s[1]) * base + s[2], s[3..], base)
  {
    TwoDigits(high * base + s[0], s[1..], base);
    assert s[1..][2..] == s[3..];
  }

  lemma FourDigits(high: nat, s: seq<nat>, base: nat)
    requires |s| >= 4
    ensures Number(high, s, base)
         == Number((((high * base + s[0]) * base + s[1]) * base + s[2]) * base + s[3], s[4..], base)
  {
    ThreeDigits(high * base + s[0], s[1..], base);
    assert s[1..][3..] == s[4..];
  }

  lemma BlockShifts(high: nat, x: Byte, y: Byte, z: Byte)
    ensures (((high * 64 + x / 4) * 64 + (x % 4 * 16 + y / 16)) * 64 + (y % 16 * 4 + z / 64)) * 64 + z % 64
         == ((high * 256 + x) * 256 + y) * 256 + z
  {
  }

  lemma LastByte(high: nat, v: seq<Byte>)
    requires |v| == 1
    ensures Number(high, Sextets(v), 64) == (high * 256 + v[0]) * 16
    ensures Number(high, v, 256) == high * 256 + v[0]
  {
    TwoDigits(high, Sextets(v), 64);
    BlockShifts(high, v[0], 0, 0);
    assert Sextets(v)[2..] == [] && v[1..] == [];
  }

  lemma LastTwoBytes(high: nat, v: seq<Byte>)
    requires |v| == 2
    ensures Number(high, Sextets(v), 64) == ((high * 256 + v[0]) * 256 + v[1]) * 4
    ensures Number(high, v, 256) == (high * 256 + v[0]) * 256 + v[1]
  {
    ThreeDigits(high, Sextets(v), 64);
    BlockShifts(high, v[0], v[1], 0);
    TwoDigits(high, v, 256);
    assert Sextets(v)[3..] == [] && v[2..] == [];
  }

  lemma FirstThreeBytes(high: nat, v: seq<Byte>) returns (next: nat)
    requires |v| >= 3
    ensures Number(high, v, 256) == Number(next, v[3..], 256)
    ensures Number(high, Sextets(v), 64) == Number(next, Sextets(v[3..]), 64)
  {
    next := ((high * 256 + v[0]) * 256 + v[1]) * 256 + v[2];
    ThreeDigits(high, v, 256);
    FirstFourSextets(high, v, next);
  }

  lemma FirstFourSextets(high: nat, v: seq<Byte>, next: nat)
    requires |v| >= 3 && next == ((high * 256 + v[0]) * 256 + v[1]) * 256 + v[2]
    ensures Number(high, Sextets(v), 64) == Number(next, Sextets(v[3..]), 64)
  {
    var s := Sextets(v);
    BlockShifts(high, v[0], v[1], v[2]);
    assert s == Block(v[0], v[1], v[2]) + Sextets(v[3..]);
    var shifted := (((high * 64 + s[0]) * 64 + s[1]) * 64 + s[2]) * 64 + s[3];
    assert shifted == next;
    FourDigits(high, s, 64);
    assert s[4..] == Sextets(v[3..]);
  }

  // A number of `bytes` bytes, with the zero bits behind it that fill up the last sextet.
  function Filled(number: nat, bytes: nat): nat {
    if bytes % 3 == 0 then number else if bytes % 3 == 1 then number * 16 else number * 4
  }

  /** The sextets are the bits of the bytes in order, filled up with zero bits: read in base 64 they
      make the number that the bytes make in base 256. */
  lemma {:induction false} SameNumber(high: nat, v: seq<Byte>)
    ensures Number(high, Sextets(v), 64) == Filled(Number(high, v, 256), |v|)
    decreases |v|
  {
    if |v| == 1 {
      LastByte(high, v);
    } else if |v| == 2 {
      LastTwoBytes(high, v);
    } else if |v| > 2 {
      var next := FirstThreeBytes(high, v);
      SameNumber(next, v[3..]);
      assert Filled(Number(next, v[3..], 256), |v|) == Filled(Number(next, v[3..], 256), |v| - 3);
    }
  }

  // No bit set that the bytes do not need.
  predicate NoSpareBits(s: seq<Sextet>) {
    && (|s| % 4 == 2 ==> s[|s| - 1] % 16 == 0)
    && (|s| % 4 == 3 ==> s[|s| - 1] % 4 == 0)
  }

  lemma TwoSextets(a: Sextet, b: Sextet)
    ensures Sextets(Unpacked([a, b])) == [a, b] <==> b % 16 == 0
  {
    var x := a * 4 + b / 16;
    Halves(a, b / 16);
    assert Unpacked([a, b]) == [x];
    assert Sextets([x]) == [x / 4, x % 4 * 16];
  }

  lemma ThreeSextets(a: Sextet, b: Sextet, c: Sextet)
    ensures Sextets(Unpacked([a, b, c])) == [a, b, c] <==> c % 4 == 0
  {
    var x, y := a * 4 + b / 16, b % 16 * 16 + c / 4;
    Halves(a, b / 16);
    Halves(b % 16, c / 4);
    assert Unpacked([a, b, c]) == [x, y];
    assert Sextets([x, y]) == [x / 4, x % 4 * 16 + y / 16, y % 16 * 4];
  }

  lemma FourSextets(s: seq<Sextet>, rest: seq<Byte>)
    requires |s| == 4
    ensures Sextets(Unblock(s[0], s[1], s[2], s[3]) + rest) == s + Sextets(rest)
  {
    BlockUnblock(s[0], s[1], s[2], s[3]);
    var v := Unblock(s[0], s[1], s[2], s[3]) + rest;
    assert v[3..] == rest;
    assert Block(v[0], v[1], v[2]) == s;
  }

  lemma UnpackedCons(s: seq<Sextet>)
    requires |s| >= 4
    ensures Sextets(Unpacked(s)) == s[..4] + Sextets(Unpacked(s[4..]))
  {
    FourSextets(s[..4], Unpacked(s[4..]));
  }

  lemma ConsDecides(s: seq<Sextet>, tail: seq<Sextet>)
    requires |s| >= 4
    ensures s[..4] + tail == s <==> tail == s[4..]
    ensures NoSpareBits(s) <==> NoSpareBits(s[4..])
  {
    assert s == s[..4] + s[4..];
    assert (s[..4] + tail)[4..] == tail;
  }

  lemma {:induction false} SextetsUnpacked(s: seq<Sextet>)
    requires |s| % 4 != 1
    ensures Sextets(Unpacked(s)) == s <==> NoSpareBits(s)
  {
    if |s| == 2 {
      TwoSextets(s[0], s[1]);
      assert s == [s[0], s[1]];
    } else if |s| == 3 {
      ThreeSextets(s[0], s[1], s[2]);
      assert s == [s[0], s[1], s[2]];
    } else if |s| >= 4 {
      SextetsUnpacked(s[4..]);
      UnpackedCons(s);
      ConsDecides(s, Sextets(Unpacked(s[4..])));
    }
  }

  // ---- Digits ----

  function Digit(n: Sextet): char {
    if n < 26 then ('A' as int + n) as char
    else if n < 52 then ('a' as int + n - 26) as char
    else if n < 62 then ('0' as int + n - 52) as char
    else if n == 62 then '-' else '_'
  }

  predicate IsDigit(c: char) {
    'A' <= c <= 'Z' || 'a' <= c <= 'z' || '0' <= c <= '9' || c == '-' || c == '_'
  }

  function DigitValue(c: char): (n: Sextet)
    requires IsDigit(c)
  {
    if 'A' <= c <= 'Z' then c as int - 'A' as int
    else if 'a' <= c <= 'z' then c as int - 'a' as int + 26
    else if '0' <= c <= '9' then c as int - '0' as int + 52
    else if c == '-' then 62 else 63
  }

  const UPPER := "ABCDEFGHIJKLMNOPQRSTUVWXYZ"
  const LOWER := "abcdefghijklmnopqrstuvwxyz"

  /** Table 2 of RFC 4648. */
  lemma DigitIsInTable(n: Sextet)
    ensures Digit(n) == (UPPER + LOWER + "0123456789-_")[n]
  {
    if n < 26 {
      assert Digit(n) == UPPER[n];
    } else if n < 52 {
      assert Digit(n) == LOWER[n - 26];
    } else {
      assert Digit(n) == "0123456789-_"[n - 52];
    }
  }

  predicate AllDigits(s: string) {
    forall k :: 0 <= k < |s| ==> IsDigit(s[k])
  }

  function Digits(s: seq<Sextet>): string {
    seq(|s|, k requires 0 <= k < |s| => Digit(s[k]))
  }

  function Values(s: string): seq<Sextet>
    requires AllDigits(s)
  {
    seq(|s|, k requires 0 <= k < |s| => DigitValue(s[k]))
  }

  lemma ValuesOfDigits(s: seq<Sextet>)
    ensures AllDigits(Digits(s)) && Values(Digits(s)) == s
  {
  }

  lemma DigitsOfValues(s: string)
    requires AllDigits(s)
    ensures Digits(Values(s)) == s
  {
  }

  // ---- The codec ----

  function Encode(v: seq<Byte>): string {
    Digits(Sextets(v))
  }

  predicate IsBreak(c: char) {
    c == '\r' || c == '\n'
  }

  function SkipBreaks(s: string): string {
    if s == "" then "" else (if IsBreak(s[0]) then [] else [s[0]]) + SkipBreaks(s[1..])
  }

  /** Fails on anything but digits and line breaks, and on a single left-over digit. */
  function Decode(s: string): Option<seq<Byte>> {
    var t := SkipBreaks(s);
    if AllDigits(t) && |t| % 4 != 1 then Some(Unpacked(Values(t))) else None
  }

  lemma {:induction false} SkipBreaksExact(s: string)
    ensures SkipBreaks(s) == s <==> forall k :: 0 <= k < |s| ==> !IsBreak(s[k])
    ensures |SkipBreaks(s)| <= |s|
  {
    if s != "" {
      SkipBreaksExact(s[1..]);
      assert s == [s[0]] + s[1..];
    }
  }

  /** Decoding undoes encoding, for every byte string. */
  lemma DecodeEncode(v: seq<Byte>)
    ensures Decode(Encode(v)) == Some(v)
    ensures v != [] ==> Encode(v) != ""
  {
    ValuesOfDigits(Sextets(v));
    SkipBreaksExact(Encode(v));
    SextetCount(v);
    UnpackedSextets(v);
  }

  /** The digits of a text. */
  function OnlyDigits(s: string): (digits: string)
    ensures AllDigits(digits)
  {
    if s == "" then "" else (if IsDigit(s[0]) then [s[0]] else []) + OnlyDigits(s[1..])
  }

  /** Digits, carriage returns and line feeds. */
  predicate Readable(s: string) {
    forall k :: 0 <= k < |s| ==> IsDigit(s[k]) || s[k] == '\r' || s[k] == '\n'
  }

  lemma ReadableHead(s: string)
    requires s != ""
    ensures Readable(s) <==> (IsDigit(s[0]) || s[0] == '\r' || s[0] == '\n') && Readable(s[1..])
    ensures AllDigits(s) <==> IsDigit(s[0]) && AllDigits(s[1..])
  {
    assert forall k :: 1 <= k < |s| ==> s[k] == s[1..][k - 1];
    assert forall k :: 0 <= k < |s| - 1 ==> s[1..][k] == s[k + 1];
  }

  lemma {:induction false} SkipBreaksLeaves(s: string)
    ensures AllDigits(SkipBreaks(s)) <==> Readable(s)
    ensures Readable(s) ==> SkipBreaks(s) == OnlyDigits(s)
  {
    if s != "" {
      SkipBreaksLeaves(s[1..]);
      ReadableHead(s);
      if !IsBreak(s[0]) {
        ReadableHead(SkipBreaks(s));
        assert SkipBreaks(s)[1..] == SkipBreaks(s[1..]);
      } else {
        assert SkipBreaks(s) == SkipBreaks(s[1..]) && OnlyDigits(s) == OnlyDigits(s[1..]);
      }
    }
  }

  /** Which texts decode: digits and line breaks, the digits not leaving one over; and the line breaks make no
      difference. */
  lemma DecodesExactly(s: string)
    ensures Decode(s).Some? <==> Readable(s) && |OnlyDigits(s)| % 4 != 1
    ensures Decode(s).Some? ==> Decode(OnlyDigits(s)) == Decode(s)
  {
    SkipBreaksLeaves(s);
    SkipBreaksExact(OnlyDigits(s));
  }

  /** No line break, and no bit set that the bytes do not need. */
  predicate Canonical(s: string) {
    AllDigits(s) && |s| % 4 != 1 && NoSpareBits(Values(s))
  }

  /** A text that decodes is the encoding of what it decodes to exactly when it is canonical: several
      texts can name the same bytes. */
  lemma EncodeDecode(s: string)
    requires Decode(s).Some?
    ensures Encode(Decode(s).value) == s <==> Canonical(s)
  {
    var t := SkipBreaks(s);
    var v := Unpacked(Values(t));
    SkipBreaksExact(s);
    SextetsUnpacked(Values(t));
    ValuesOfDigits(Sextets(v));
    DigitsOfValues(t);
  }
}
