/**
 UUIDs derived from a SHA-256 digest: the version 4 layout of RFC 4122 and the
 older installation-id layout. The digest itself is any 32 bytes.
 */
module StableUuid {
  import opened Prelude

  type Digest = d: seq<bv8> | |d| == 32 witness seq(32, _ => 0)

  // ----- hexadecimal -----

  /** The lower-case digit of the low four bits. */
  function HexDigit(n: bv8): (c: char)
    ensures IsHexChar(c)
  {
    match n & 0x0F
    case 0 => '0' case 1 => '1' case 2 => '2' case 3 => '3'
    case 4 => '4' case 5 => '5' case 6 => '6' case 7 => '7'
    case 8 => '8' case 9 => '9' case 10 => 'a' case 11 => 'b'
    case 12 => 'c' case 13 => 'd' case 14 => 'e' case _ => 'f'
  }

  function HexValue(c: char): bv8 {
    match c
    case '1' => 1 case '2' => 2 case '3' => 3 case '4' => 4
    case '5' => 5 case '6' => 6 case '7' => 7 case '8' => 8
    case '9' => 9 case 'a' => 10 case 'b' => 11 case 'c' => 12
    case 'd' => 13 case 'e' => 14 case 'f' => 15 case _ => 0
  }

  function HexByte(b: bv8): (r: string)
    ensures |r| == 2 && IsHexChar(r[0]) && IsHexChar(r[1])
  {
    [HexDigit(b >> 4), HexDigit(b)]
  }

  function Hex(bytes: seq<bv8>): (r: string)
    ensures |r| == 2 * |bytes|
    ensures forall c :: c in r ==> IsHexChar(c)
  {
    if bytes == [] then "" else HexByte(bytes[0]) + Hex(bytes[1..])
  }

  /** Reads pairs of lower-case hex digits. */
  function DecodeHex(s: string): seq<bv8>
    requires |s| % 2 == 0
  {
    if s == "" then [] else [(HexValue(s[0]) << 4) | HexValue(s[1])] + DecodeHex(s[2..])
  }

  lemma HexDigitRoundTrip(n: bv8)
    ensures HexValue(HexDigit(n)) == n & 0x0F
  {
  }

  lemma ByteFromNibbles(b: bv8)
    ensures (((b >> 4) & 0x0F) << 4) | (b & 0x0F) == b
  {
  }

  lemma {:induction false} HexRoundTrip(bytes: seq<bv8>)
    ensures DecodeHex(Hex(bytes)) == bytes
  {
    if bytes != [] {
      HexRoundTrip(bytes[1..]);
      var b := bytes[0];
      HexDigitRoundTrip(b >> 4);
      HexDigitRoundTrip(b);
      ByteFromNibbles(b);
      assert Hex(bytes)[2..] == Hex(bytes[1..]);
    }
  }

  lemma {:induction false} HexConcat(a: seq<bv8>, b: seq<bv8>)
    ensures Hex(a + b) == Hex(a) + Hex(b)
  {
    if a == [] {
      assert a + b == b;
    } else {
      HexConcat(a[1..], b);
      assert (a + b)[0] == a[0] && (a + b)[1..] == a[1..] + b;
      Associative(HexByte(a[0]), Hex(a[1..]), Hex(b));
    }
  }

  lemma {:induction false} HexAt(bytes: seq<bv8>, i: nat)
    requires i < |bytes|
    ensures Hex(bytes)[2 * i] == HexDigit(bytes[i] >> 4)
  {
    if i > 0 {
      HexAt(bytes[1..], i - 1);
      assert Hex(bytes)[2..] == Hex(bytes[1..]);
    }
  }

  lemma {:induction false} HexAtOdd(bytes: seq<bv8>, i: nat)
    requires i < |bytes|
    ensures Hex(bytes)[2 * i + 1] == HexDigit(bytes[i])
  {
    if i > 0 {
      HexAtOdd(bytes[1..], i - 1);
      assert Hex(bytes)[2..] == Hex(bytes[1..]);
    }
  }

  lemma MiddleOf(a: string, b: string, c: string)
    ensures (a + b + c)[|a|..|a| + |b|] == b
  {
  }

  lemma {:induction false} HexOfSlice(bytes: seq<bv8>, i: nat, j: nat)
    requires i <= j <= |bytes|
    ensures Hex(bytes[i..j]) == Hex(bytes)[2 * i..2 * j]
  {
    var a, b, c := bytes[..i], bytes[i..j], bytes[j..];
    HexConcat(a, b);
    HexConcat(a + b, c);
    assert a + b + c == bytes;
    MiddleOf(Hex(a), Hex(b), Hex(c));
  }

  // ----- the UUID grammar -----

  predicate IsHexChar(c: char) {
    IsDigit(c) || 'a' <= c <= 'f' || 'A' <= c <= 'F'
  }

  predicate IsDashIndex(i: nat) {
    i == 8 || i == 13 || i == 18 || i == 23
  }

  /** Version 1 to 5, variant of RFC 4122, any case. */
  predicate MatchesUuidPattern(s: string) {
    && |s| == 36
    && (forall i :: 0 <= i < 36 ==> if IsDashIndex(i) then s[i] == '-' else IsHexChar(s[i]))
    && '1' <= s[14] <= '5'
    && s[19] in "89abAB"
  }

  function NormalizeUuid(raw: Option<string>): (r: Option<string>)
    ensures r.Some? ==> MatchesUuidPattern(r.value)
  {
    if raw.Some? && MatchesUuidPattern(Trim(raw.value)) then Some(Trim(raw.value)) else None
  }

  lemma UuidIsTrimmed(s: string)
    requires MatchesUuidPattern(s)
    ensures Trimmed(s) && NormalizeUuid(Some(s)) == Some(s)
  {
    assert IsHexChar(s[0]) && IsHexChar(s[35]);
  }

  function Dashed(h: string): string
    requires |h| == 32
  {
    h[..8] + "-" + h[8..12] + "-" + h[12..16] + "-" + h[16..20] + "-" + h[20..]
  }

  function Undashed(s: string): string
    requires |s| == 36
  {
    s[..8] + s[9..13] + s[14..18] + s[19..23] + s[24..]
  }

  lemma DashedLayout(h: string)
    requires |h| == 32
    requires forall i :: 0 <= i < 32 ==> IsHexChar(h[i])
    requires '1' <= h[12] <= '5' && h[16] in "89abAB"
    ensures MatchesUuidPattern(Dashed(h)) && Undashed(Dashed(h)) == h
  {
    var s := Dashed(h);
    assert s[14] == h[12] && s[19] == h[16];
    assert s[..8] == h[..8] && s[9..13] == h[8..12] && s[14..18] == h[12..16] && s[19..23] == h[16..20] && s[24..] == h[20..];
  }

  // ----- version 4 from a digest -----

  /** The first 16 bytes with the version and variant bits forced. */
  function Masked(digest: Digest): (b: seq<bv8>)
    ensures |b| == 16
  {
    var b := digest[..16];
    b[6 := (b[6] & 0x0F) | 0x40][8 := (b[8] & 0x3F) | 0x80]
  }

  function DeriveStableUuidV4(digest: Digest): string {
    var b := Masked(digest);
    Hex(b[0..4]) + "-" + Hex(b[4..6]) + "-" + Hex(b[6..8]) + "-" + Hex(b[8..10]) + "-" + Hex(b[10..16])
  }

  lemma DerivedIsDashedHex(digest: Digest)
    ensures DeriveStableUuidV4(digest) == Dashed(Hex(Masked(digest)))
  {
    var b := Masked(digest);
    HexOfSlice(b, 0, 4);
    HexOfSlice(b, 4, 6);
    HexOfSlice(b, 6, 8);
    HexOfSlice(b, 8, 10);
    HexOfSlice(b, 10, 16);
  }

  lemma ForcedBits(b: bv8)
    ensures HexDigit(((b & 0x0F) | 0x40) >> 4) == '4'
    ensures HexDigit(((b & 0x3F) | 0x80) >> 4) in "89ab"
  {
  }

  /** Every derived id is a version 4 UUID, accepted as is, and spells the masked bytes. */
  lemma DerivedIsVersion4(digest: Digest)
    ensures var id := DeriveStableUuidV4(digest);
            && MatchesUuidPattern(id)
            && NormalizeUuid(Some(id)) == Some(id)
            && id[14] == '4' && id[19] in "89ab"
            && DecodeHex(Undashed(id)) == Masked(digest)
  {
    var b := Masked(digest);
    var h := Hex(b);
    DerivedIsDashedHex(digest);
    ForcedBits(digest[6]);
    ForcedBits(digest[8]);
    HexAt(b, 6);
    HexAt(b, 8);
    DashedLayout(h);
    assert Dashed(h)[14] == h[12] && Dashed(h)[19] == h[16];
    UuidIsTrimmed(Dashed(h));
    HexRoundTrip(b);
  }

  lemma HexDigitIs(n: bv8)
    ensures HexDigit(n) == "0123456789abcdef"[(n & 0x0F) as int]
  {
    match n & 0x0F
    case 0 => case 1 => case 2 => case 3 => case 4 => case 5 => case 6 => case 7 =>
    case 8 => case 9 => case 10 => case 11 => case 12 => case 13 => case 14 => case _ => assert n & 0x0F == 15;
  }

  /** Byte by byte: digits `2 * i` and `2 * i + 1` of the id spell byte `i` of the digest, with the version in place of the high digit of byte 6 and the variant in the top bits of byte 8. */
  lemma DerivedSpellsTheDigest(digest: Digest, i: nat)
    requires i < 16
    ensures var b := if i == 6 then (digest[i] & 0x0F) | 0x40 else if i == 8 then (digest[i] & 0x3F) | 0x80 else digest[i];
            var digits := Undashed(DeriveStableUuidV4(digest));
            && |digits| == 32
            && digits[2 * i] == "0123456789abcdef"[((b >> 4) & 0x0F) as int]
            && digits[2 * i + 1] == "0123456789abcdef"[(b & 0x0F) as int]
  {
    var b := Masked(digest);
    DerivedIsVersion4(digest);
    DerivedIsDashedHex(digest);
    ForcedBits(digest[6]);
    ForcedBits(digest[8]);
    HexAt(b, 6);
    HexAt(b, 8);
    DashedLayout(Hex(b));
    HexAt(b, i);
    HexAtOdd(b, i);
    HexDigitIs(b[i] >> 4);
    HexDigitIs(b[i]);
  }

  /** The 122 bits of the first 16 bytes that the layout keeps. */
  predicate SameFreeBits(d: Digest, e: Digest) {
    && (forall i :: 0 <= i < 16 && i != 6 && i != 8 ==> d[i] == e[i])
    && d[6] & 0x0F == e[6] & 0x0F
    && d[8] & 0x3F == e[8] & 0x3F
  }

  lemma MaskLosesSixBits(b: bv8, c: bv8)
    ensures (b & 0x0F) | 0x40 == (c & 0x0F) | 0x40 <==> b & 0x0F == c & 0x0F
    ensures (b & 0x3F) | 0x80 == (c & 0x3F) | 0x80 <==> b & 0x3F == c & 0x3F
  {
  }

  lemma {:induction false} SameMaskSameBits(d: Digest, e: Digest)
    requires Masked(d) == Masked(e)
    ensures SameFreeBits(d, e)
  {
    var m, n := Masked(d), Masked(e);
    assert m[6] == n[6] && m[8] == n[8];
    MaskLosesSixBits(d[6], e[6]);
    MaskLosesSixBits(d[8], e[8]);
    forall i | 0 <= i < 16 && i != 6 && i != 8
      ensures d[i] == e[i]
    {
      assert m[i] == d[i] && n[i] == e[i];
    }
  }

  lemma {:induction false} SameBitsSameMask(d: Digest, e: Digest)
    requires SameFreeBits(d, e)
    ensures Masked(d) == Masked(e)
  {
    MaskLosesSixBits(d[6], e[6]);
    MaskLosesSixBits(d[8], e[8]);
  }

  /** Two digests collide exactly when their free bits agree. */
  lemma DerivedCollision(d: Digest, e: Digest)
    ensures DeriveStableUuidV4(d) == DeriveStableUuidV4(e) <==> SameFreeBits(d, e)
  {
    DerivedIsVersion4(d);
    DerivedIsVersion4(e);
    if Masked(d) == Masked(e) {
      SameMaskSameBits(d, e);
    } else if SameFreeBits(d, e) {
      SameBitsSameMask(d, e);
    }
    DerivedIsDashedHex(d);
    DerivedIsDashedHex(e);
  }

  // ----- the legacy layout -----

  /** Hex digits 12 and 16 of the digest are replaced by the letters `4` and `a`. */
  function UuidFromLegacyDigest(digest: Digest): string {
    var h := Hex(digest);
    h[0..8] + "-" + h[8..12] + "-4" + h[13..16] + "-a" + h[17..20] + "-" + h[20..32]
  }

  /** The legacy id is always accepted too, and forgets exactly digits 12 and 16 of the first 32. */
  lemma LegacyIsAccepted(digest: Digest)
    ensures var id := UuidFromLegacyDigest(digest);
            && NormalizeUuid(Some(id)) == Some(id)
            && |id| == 36
            && Undashed(id) == Hex(digest)[..32][12 := '4'][16 := 'a']
  {
    var h := Hex(digest)[..32][12 := '4'][16 := 'a'];
    assert UuidFromLegacyDigest(digest) == Dashed(h);
    DashedLayout(h);
    UuidIsTrimmed(Dashed(h));
  }

  /** The 120 bits of the first 16 bytes that the legacy layout keeps. */
  predicate SameLegacyBits(d: Digest, e: Digest) {
    && (forall i :: 0 <= i < 16 && i != 6 && i != 8 ==> d[i] == e[i])
    && d[6] & 0x0F == e[6] & 0x0F
    && d[8] & 0x0F == e[8] & 0x0F
  }

  lemma SameDigits(b: bv8, c: bv8)
    ensures HexDigit(b) == HexDigit(c) <==> b & 0x0F == c & 0x0F
    ensures HexDigit(b >> 4) == HexDigit(c >> 4) && HexDigit(b) == HexDigit(c) <==> b == c
  {
    HexDigitRoundTrip(b);
    HexDigitRoundTrip(c);
    HexDigitRoundTrip(b >> 4);
    HexDigitRoundTrip(c >> 4);
    ByteFromNibbles(b);
    ByteFromNibbles(c);
  }

  /** The two hex texts agree on digits `2 * i` and `2 * i + 1`, the first of them only if the layout keeps it. */
  predicate SameAt(h: string, g: string, i: nat)
    requires 2 * i + 1 < |h| && 2 * i + 1 < |g|
  {
    (i != 6 && i != 8 ==> h[2 * i] == g[2 * i]) && h[2 * i + 1] == g[2 * i + 1]
  }

  lemma SameAtIsSameBits(d: Digest, e: Digest, i: nat)
    requires i < 16
    ensures SameAt(Hex(d)[..32], Hex(e)[..32], i) <==> if i == 6 || i == 8 then d[i] & 0x0F == e[i] & 0x0F else d[i] == e[i]
  {
    HexAt(d, i);
    HexAt(e, i);
    HexAtOdd(d, i);
    HexAtOdd(e, i);
    SameDigits(d[i], e[i]);
  }

  lemma SameLegacyDigits(d: Digest, e: Digest)
    ensures SameLegacyBits(d, e) <==> forall i :: 0 <= i < 16 ==> SameAt(Hex(d)[..32], Hex(e)[..32], i)
  {
    SameAtIsSameBits(d, e, 6);
    SameAtIsSameBits(d, e, 8);
    if SameLegacyBits(d, e) {
      forall i | 0 <= i < 16
        ensures SameAt(Hex(d)[..32], Hex(e)[..32], i)
      {
        SameAtIsSameBits(d, e, i);
      }
    }
    if forall i :: 0 <= i < 16 ==> SameAt(Hex(d)[..32], Hex(e)[..32], i) {
      forall i | 0 <= i < 16 && i != 6 && i != 8
        ensures d[i] == e[i]
      {
        SameAtIsSameBits(d, e, i);
      }
    }
  }

  lemma SameLegacyText(h: string, g: string)
    requires |h| == |g| == 32
    ensures h[12 := '4'][16 := 'a'] == g[12 := '4'][16 := 'a'] <==> forall i :: 0 <= i < 16 ==> SameAt(h, g, i)
  {
    var p, q := h[12 := '4'][16 := 'a'], g[12 := '4'][16 := 'a'];
    if p == q {
      forall i | 0 <= i < 16
        ensures SameAt(h, g, i)
      {
        assert p[2 * i] == q[2 * i] && p[2 * i + 1] == q[2 * i + 1];
      }
    }
    if forall i :: 0 <= i < 16 ==> SameAt(h, g, i) {
      forall k | 0 <= k < 32
        ensures p[k] == q[k]
      {
        assert SameAt(h, g, k / 2);
      }
    }
  }

  lemma LegacyIsDashedHex(digest: Digest)
    ensures UuidFromLegacyDigest(digest) == Dashed(Hex(digest)[..32][12 := '4'][16 := 'a'])
  {
  }

  /** Two digests share a legacy id exactly when those bits agree. */
  lemma LegacyCollision(d: Digest, e: Digest)
    ensures UuidFromLegacyDigest(d) == UuidFromLegacyDigest(e) <==> SameLegacyBits(d, e)
  {
    LegacyIsAccepted(d);
    LegacyIsAccepted(e);
    SameLegacyText(Hex(d)[..32], Hex(e)[..32]);
    SameLegacyDigits(d, e);
    LegacyIsDashedHex(d);
    LegacyIsDashedHex(e);
  }
}
