/**
 * System.Guid as the 128-bit number read from its canonical "D" text
 * (32 lowercase hexadecimal digits grouped 8-4-4-4-12 by dashes).
 * Guid.Empty is 0, whose text is all zeros.
 */
module Guids {
  import opened Wrappers

  function Pow16(k: nat): (r: nat)
    ensures r > 0
  {
    if k == 0 then 1 else 16 * Pow16(k - 1)
  }

  type Guid = g: nat | g < Pow16(32)

  const EmptyGuid: Guid := 0

  predicate IsHexChar(c: char) {
    '0' <= c <= '9' || 'a' <= c <= 'f'
  }

  function HexDigit(d: nat): (c: char)
    requires d < 16
    ensures IsHexChar(c)
  {
    if d < 10 then (48 + d) as char else (87 + d) as char
  }

  function DigitValue(c: char): (d: nat)
    requires IsHexChar(c)
    ensures d < 16
  {
    if c <= '9' then c as int - 48 else c as int - 87
  }

  /** The k lowest hexadecimal digits of n, most significant first. */
  function Hex(n: nat, k: nat): (s: string)
    requires n < Pow16(k)
    ensures |s| == k
    ensures forall i :: 0 <= i < |s| ==> IsHexChar(s[i])
  {
    if k == 0 then [] else Hex(n / 16, k - 1) + [HexDigit(n % 16)]
  }

  /** The number a string of hexadecimal digits denotes. */
  function HexValue(s: string): (n: nat)
    requires forall i :: 0 <= i < |s| ==> IsHexChar(s[i])
    ensures n < Pow16(|s|)
  {
    if s == [] then 0 else 16 * HexValue(s[..|s| - 1]) + DigitValue(s[|s| - 1])
  }

  lemma {:induction false} HexRoundTrip(n: nat, k: nat)
    requires n < Pow16(k)
    ensures HexValue(Hex(n, k)) == n
  {
    if k > 0 {
      var s := Hex(n, k);
      assert s[..k - 1] == Hex(n / 16, k - 1);
      HexRoundTrip(n / 16, k - 1);
      assert DigitValue(HexDigit(n % 16)) == n % 16;
    }
  }

  /** Guid.ToString(): the "D" format. */
  function GuidText(g: Guid): (t: string)
    ensures |t| == 36
    ensures t[8] == t[13] == t[18] == t[23] == '-'
  {
    var h := Hex(g, 32);
    h[..8] + "-" + h[8..12] + "-" + h[12..16] + "-" + h[16..20] + "-" + h[20..]
  }

  predicate IsGuidText(t: string) {
    && |t| == 36
    && t[8] == '-' && t[13] == '-' && t[18] == '-' && t[23] == '-'
    && forall i :: 0 <= i < 36 && i != 8 && i != 13 && i != 18 && i != 23 ==> IsHexChar(t[i])
  }

  /** Reads a "D"-format text back; the reference definition GuidText is checked against. */
  function GuidFromText(t: string): (r: Option<Guid>)
    ensures r.Some? <==> IsGuidText(t)
  {
    if IsGuidText(t) then
      var h := t[..8] + t[9..13] + t[14..18] + t[19..23] + t[24..];
      assert forall i :: 0 <= i < |h| ==> IsHexChar(h[i]) by {
        forall i | 0 <= i < |h| ensures IsHexChar(h[i]) {
          if i < 8 { assert h[i] == t[i]; }
          else if i < 12 { assert h[i] == t[i + 1]; }
          else if i < 16 { assert h[i] == t[i + 2]; }
          else if i < 20 { assert h[i] == t[i + 3]; }
          else { assert h[i] == t[i + 4]; }
        }
      }
      Some(HexValue(h))
    else
      None
  }

  lemma GuidTextRoundTrip(g: Guid)
    ensures GuidFromText(GuidText(g)) == Some(g)
  {
    var h := Hex(g, 32);
    var t := GuidText(g);
    assert t[..8] == h[..8] && t[9..13] == h[8..12] && t[14..18] == h[12..16];
    assert t[19..23] == h[16..20] && t[24..] == h[20..];
    assert h == h[..8] + h[8..12] + h[12..16] + h[16..20] + h[20..];
    HexRoundTrip(g, 32);
  }

  /** Distinct identifiers have distinct texts. */
  lemma GuidTextInjective(a: Guid, b: Guid)
    requires GuidText(a) == GuidText(b)
    ensures a == b
  {
    GuidTextRoundTrip(a);
    GuidTextRoundTrip(b);
  }
}
