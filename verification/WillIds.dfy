/** Will identifiers: sixteen random bytes stamped as a version 4 UUID (RFC 9562, section 5.4)
    and printed in lower-case hexadecimal. */
module WillIds {
  import opened Bytes

  predicate IsHexChar(c: char) {
    '0' <= c <= '9' || 'a' <= c <= 'f'
  }

  function HexChar(d: nat): (c: char)
    requires d < 16
    ensures IsHexChar(c)
  {
    if d < 10 then ('0' as int + d) as char else ('a' as int + d - 10) as char
  }

  function HexValue(c: char): (d: nat)
    requires IsHexChar(c)
    ensures d < 16
  {
    if c <= '9' then c as int - '0' as int else c as int - 'a' as int + 10
  }

  /** Two hexadecimal digits a byte, most significant first (the %x verb). */
  function Hex(bytes: seq<Byte>): (s: string)
    ensures |s| == 2 * |bytes|
    ensures forall k :: 0 <= k < |s| ==> IsHexChar(s[k])
  {
    if bytes == [] then "" else [HexChar(bytes[0] / 16), HexChar(bytes[0] % 16)] + Hex(bytes[1..])
  }

  function Unhex(s: string): (bytes: seq<Byte>)
    requires |s| % 2 == 0
    requires forall k :: 0 <= k < |s| ==> IsHexChar(s[k])
    ensures |bytes| == |s| / 2
  {
    if s == "" then [] else [16 * HexValue(s[0]) + HexValue(s[1])] + Unhex(s[2..])
  }

  lemma HexDigitReadsBack(d: nat)
    requires d < 16
    ensures HexValue(HexChar(d)) == d
  {
  }

  lemma {:induction false} UnhexHex(bytes: seq<Byte>)
    ensures Unhex(Hex(bytes)) == bytes
  {
    if bytes != [] {
      var h := Hex(bytes);
      assert h[2..] == Hex(bytes[1..]);
      UnhexHex(bytes[1..]);
      HexDigitReadsBack(bytes[0] / 16);
      HexDigitReadsBack(bytes[0] % 16);
    }
  }

  // Where the hyphens of a UUID stand.
  predicate IsHyphen(k: nat) {
    k == 8 || k == 13 || k == 18 || k == 23
  }

  predicate IsUuid(s: string) {
    |s| == 36 && forall k :: 0 <= k < 36 ==> if IsHyphen(k) then s[k] == '-' else IsHexChar(s[k])
  }

  /** A UUID holds no separator of the audit preimage. */
  lemma UuidIsPlain(s: string)
    requires IsUuid(s)
    ensures '|' !in s
  {
  }

  function Grouped(h: string): (s: string)
    requires |h| == 32
  {
    h[0..8] + "-" + h[8..12] + "-" + h[12..16] + "-" + h[16..20] + "-" + h[20..]
  }

  function Ungrouped(s: string): (h: string)
    requires |s| == 36
    ensures |h| == 32
  {
    s[0..8] + s[9..13] + s[14..18] + s[19..23] + s[24..]
  }

  lemma GroupingReadsBack(h: string)
    requires |h| == 32 && forall k :: 0 <= k < 32 ==> IsHexChar(h[k])
    ensures IsUuid(Grouped(h)) && Ungrouped(Grouped(h)) == h
  {
    var s := Grouped(h);
    assert s[0..8] == h[0..8] && s[9..13] == h[8..12] && s[14..18] == h[12..16];
    assert s[19..23] == h[16..20] && s[24..] == h[20..];
  }

  /** The five hyphenated groups of sixteen bytes. */
  function Uuid(b: seq<Byte>): string
    requires |b| == 16
  {
    Hex(b[0..4]) + "-" + Hex(b[4..6]) + "-" + Hex(b[6..8]) + "-" + Hex(b[8..10]) + "-" + Hex(b[10..])
  }

  /** Reads the bytes of a UUID back. */
  function ParseUuid(s: string): (b: seq<Byte>)
    requires IsUuid(s)
    ensures |b| == 16
  {
    var h := Ungrouped(s);
    assert forall k :: 0 <= k < 32 ==> IsHexChar(h[k]) by {
      assert forall k :: 0 <= k < 36 && !IsHyphen(k) ==> IsHexChar(s[k]);
    }
    Unhex(h)
  }

  lemma {:induction false} HexConcat(a: seq<Byte>, b: seq<Byte>)
    ensures Hex(a + b) == Hex(a) + Hex(b)
  {
    if a == [] {
      assert a + b == b;
    } else {
      assert (a + b)[1..] == a[1..] + b;
      HexConcat(a[1..], b);
    }
  }

  lemma GroupsOf(p: string, q: string, r: string, s: string, t: string)
    requires |p| == 8 && |q| == |r| == |s| == 4 && |t| == 12
    ensures Grouped(p + q + r + s + t) == p + "-" + q + "-" + r + "-" + s + "-" + t
  {
  }

  lemma UuidIsGroupedHex(b: seq<Byte>)
    requires |b| == 16
    ensures Uuid(b) == Grouped(Hex(b))
  {
    HexConcat(b[0..4], b[4..6]);
    assert b[0..4] + b[4..6] == b[0..6];
    HexConcat(b[0..6], b[6..8]);
    assert b[0..6] + b[6..8] == b[0..8];
    HexConcat(b[0..8], b[8..10]);
    assert b[0..8] + b[8..10] == b[0..10];
    HexConcat(b[0..10], b[10..]);
    assert b[0..10] + b[10..] == b;
    GroupsOf(Hex(b[0..4]), Hex(b[4..6]), Hex(b[6..8]), Hex(b[8..10]), Hex(b[10..]));
  }

  /** Hyphens stand at the group boundaries, everything else is hexadecimal, and the sixteen bytes read back. */
  lemma UuidReadsBack(b: seq<Byte>)
    requires |b| == 16
    ensures IsUuid(Uuid(b)) && ParseUuid(Uuid(b)) == b
  {
    UuidIsGroupedHex(b);
    GroupingReadsBack(Hex(b));
    UnhexHex(b);
  }

  /** The version and variant bits written over random bytes. */
  function Stamped(random: seq<bv8>): (b: seq<bv8>)
    requires |random| == 16
  {
    random[6 := (random[6] & 0x0f) | 0x40][8 := (random[8] & 0x3f) | 0x80]
  }

  /** The unsigned values of a byte buffer. */
  function Values(b: seq<bv8>): (v: seq<Byte>)
    ensures |v| == |b|
  {
    seq(|b|, i requires 0 <= i < |b| => b[i] as Byte)
  }

  function WillIdOf(random: seq<bv8>): string
    requires |random| == 16
  {
    Uuid(Values(Stamped(random)))
  }

  /** newWillID, over the bytes the random source delivered. */
  method NewWillId(random: seq<bv8>) returns (id: string)
    requires |random| == 16
    ensures IsUuid(id)
    ensures id == WillIdOf(random)
  {
    var b := new bv8[16](i requires 0 <= i < 16 => random[i]);
    assert b[..] == random;
    b[6] := (b[6] & 0x0f) | 0x40;
    b[8] := (b[8] & 0x3f) | 0x80;
    assert b[..] == Stamped(random);
    var v := Values(b[..]);
    id := Hex(v[0..4]) + "-" + Hex(v[4..6]) + "-" + Hex(v[6..8]) + "-" + Hex(v[8..10]) + "-" + Hex(v[10..]);
    UuidReadsBack(v);
  }

  /** The bits of byte i that the stamp leaves to the random source. */
  function RandomBits(i: nat): bv8 {
    if i == 6 then 0x0f else if i == 8 then 0x3f else 0xff
  }

  lemma StampedByte(r: seq<bv8>, r': seq<bv8>, i: nat)
    requires |r| == 16 && |r'| == 16 && i < 16
    ensures Stamped(r)[i] == Stamped(r')[i] <==> r[i] & RandomBits(i) == r'[i] & RandomBits(i)
  {
  }

  lemma ValuesDecide(b: seq<bv8>, b': seq<bv8>)
    requires Values(b) == Values(b')
    ensures b == b'
  {
    assert |b| == |Values(b)| == |b'|;
    forall i | 0 <= i < |b| ensures b[i] == b'[i] {
      assert Values(b)[i] == b[i] as Byte && Values(b')[i] == b'[i] as Byte;
    }
  }

  /** The identifier carries the version and variant RFC 9562 prescribes. */
  lemma VersionAndVariant(r: seq<bv8>)
    requires |r| == 16
    ensures Stamped(r)[6] >> 4 == 4 && Stamped(r)[8] >> 6 == 2
    ensures IsUuid(WillIdOf(r)) && ParseUuid(WillIdOf(r)) == Values(Stamped(r))
  {
    UuidReadsBack(Values(Stamped(r)));
  }

  /** Two draws collide exactly when they agree on all of the 122 bits outside version and variant. */
  lemma WillIdsCollide(r: seq<bv8>, r': seq<bv8>)
    requires |r| == 16 && |r'| == 16
    ensures WillIdOf(r) == WillIdOf(r') <==>
            forall i :: 0 <= i < 16 ==> r[i] & RandomBits(i) == r'[i] & RandomBits(i)
  {
    var s, s' := Stamped(r), Stamped(r');
    UuidReadsBack(Values(s));
    UuidReadsBack(Values(s'));
    if WillIdOf(r) == WillIdOf(r') {
      ValuesDecide(s, s');
    }
    forall i | 0 <= i < 16 ensures s[i] == s'[i] <==> r[i] & RandomBits(i) == r'[i] & RandomBits(i) {
      StampedByte(r, r', i);
    }
    assert s == s' <==> forall i :: 0 <= i < 16 ==> s[i] == s'[i];
  }
}
