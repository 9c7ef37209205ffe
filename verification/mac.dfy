/**
 The `MAC Address` field of the identity probe: the 48-bit node number as six two-digit
 lowercase hex octets separated by colons, most significant octet first.
 */
module MacAddress {
  import opened Wrappers
  import opened Text
  import opened Digits

  const HexDigits: string := "0123456789abcdef"

  /** `'{:02x}'.format(b)` for a byte: two lowercase hex digits, high nibble first. */
  function Hex2(b: nat): (s: string)
    requires b < 256
    ensures |s| == 2
  {
    [HexDigits[b / 16], HexDigits[b % 16]]
  }

  /** `(node >> shift) & 0xff` */
  function OctetAt(node: nat, shift: nat): (o: nat)
    ensures o < 256
  {
    (node / Pow(2, shift)) % 256
  }

  /** The formatted octets in list order: `elements` runs over 0, 8, ..., 40, least significant first. */
  function LowOctetStrings(node: nat): (hs: seq<string>)
    ensures |hs| == 6
  {
    seq(6, i requires 0 <= i < 6 => Hex2(OctetAt(node, 8 * i)))
  }

  /** `':'.join([...][::-1])` */
  function FormatMac(node: nat): string {
    Join(":", Reverse(LowOctetStrings(node)))
  }

  /** Joining two-character groups with colons puts group `k` at positions `3k`, `3k + 1` and a colon after it. */
  lemma {:induction false} JoinPairs(g: seq<string>)
    requires |g| >= 1 && forall k :: 0 <= k < |g| ==> |g[k]| == 2
    ensures |Join(":", g)| == 3 * |g| - 1
    ensures forall k :: 0 <= k < |g| ==> Join(":", g)[3 * k .. 3 * k + 2] == g[k]
    ensures forall k :: 0 <= k < |g| - 1 ==> Join(":", g)[3 * k + 2] == ':'
  {
    if |g| > 1 {
      var t := Join(":", g[1..]);
      JoinPairs(g[1..]);
      assert g == [g[0]] + g[1..];
      JoinCons(":", g[0], g[1..]);
      var j := Join(":", g);
      assert j == g[0] + ":" + t;
      forall k | 1 <= k < |g|
        ensures j[3 * k .. 3 * k + 2] == g[k]
      {
        assert j[3 * k .. 3 * k + 2] == t[3 * (k - 1) .. 3 * (k - 1) + 2];
        assert g[1..][k - 1] == g[k];
      }
      forall k | 1 <= k < |g| - 1
        ensures j[3 * k + 2] == ':'
      {
        assert j[3 * k + 2] == t[3 * (k - 1) + 2];
      }
      assert j[0..2] == g[0];
      assert j[2] == ':';
    }
  }

  /** Octet `k` of the address (counted from the left) is bits `8(5-k)` to `8(5-k)+7` of the node. */
  lemma {:induction false} MacOctets(node: nat)
    ensures |FormatMac(node)| == 17
    ensures forall k :: 0 <= k < 6 ==> FormatMac(node)[3 * k .. 3 * k + 2] == Hex2(OctetAt(node, 8 * (5 - k)))
    ensures forall k :: 0 <= k < 5 ==> FormatMac(node)[3 * k + 2] == ':'
  {
    var low := LowOctetStrings(node);
    var g := Reverse(low);
    var m := Join(":", g);
    assert FormatMac(node) == m;
    JoinPairs(g);
    forall k | 0 <= k < 6
      ensures m[3 * k .. 3 * k + 2] == Hex2(OctetAt(node, 8 * (5 - k)))
    {
      assert g[k] == low[5 - k];
    }
  }

  /** Every character of the address is a colon (at positions 2, 5, 8, 11, 14) or a lowercase hex digit. */
  lemma {:induction false} MacShape(node: nat)
    ensures |FormatMac(node)| == 17
    ensures forall i :: 0 <= i < 17 ==> (FormatMac(node)[i] == ':' <==> i % 3 == 2)
    ensures forall i :: 0 <= i < 17 && i % 3 != 2 ==> FormatMac(node)[i] in HexDigits
  {
    MacOctets(node);
    forall i | 0 <= i < 17
      ensures (FormatMac(node)[i] == ':' <==> i % 3 == 2) && (i % 3 != 2 ==> FormatMac(node)[i] in HexDigits)
    {
      MacChar(node, i);
    }
  }

  /** Position `i` of the address is a colon or a digit of octet `i / 3`. */
  lemma MacChar(node: nat, i: nat)
    requires i < 17
    ensures |FormatMac(node)| == 17
    ensures FormatMac(node)[i] == ':' <==> i % 3 == 2
    ensures i % 3 != 2 ==> FormatMac(node)[i] in HexDigits
  {
    MacOctets(node);
    var m := FormatMac(node);
    var k, j := i / 3, i % 3;
    assert i == 3 * k + j && k < 6;
    if j == 2 {
      assert m[3 * k + 2] == ':';
    } else {
      var h := Hex2(OctetAt(node, 8 * (5 - k)));
      assert m[i] == m[3 * k .. 3 * k + 2][j] == h[j];
      assert h[j] in HexDigits && ':' !in HexDigits;
    }
  }

  /** Reads an address back: six colon-separated pairs of lowercase hex digits, most significant first. */
  function ParseMac(s: string): Option<nat> {
    var groups := SplitOn(s, ':');
    if |groups| == 6 && forall g | g in groups :: |g| == 2 && g[0] in HexDigits && g[1] in HexDigits then
      Some(BigEndian(seq(6, k requires 0 <= k < 6 => 16 * IndexOf(HexDigits, groups[k][0]) + IndexOf(HexDigits, groups[k][1])), 256))
    else None
  }

  lemma HexBack(b: nat)
    requires b < 256
    ensures 16 * IndexOf(HexDigits, Hex2(b)[0]) + IndexOf(HexDigits, Hex2(b)[1]) == b
  {
    assert Distinct(HexDigits);
    IndexOfDistinct(HexDigits, b / 16);
    IndexOfDistinct(HexDigits, b % 16);
  }

  /** The octet list is the node's six base-256 digits, least significant first. */
  lemma OctetsAreDigits(node: nat)
    ensures forall i :: 0 <= i < 6 ==> OctetAt(node, 8 * i) == ToDigits(node, 256, 6)[i]
  {
    forall i | 0 <= i < 6
      ensures OctetAt(node, 8 * i) == ToDigits(node, 256, 6)[i]
    {
      PowBytes(i);
      ToDigitsAt(node, 256, 6, i);
    }
  }

  /** The address of a node is its big-endian octets, each rendered by `Hex2`. */
  lemma {:induction false} FormatIsBigEndianOctets(node: nat)
    ensures FormatMac(node) == Join(":", HexOctets(Reverse(ToDigits(node, 256, 6))))
  {
    OctetsAreDigits(node);
    assert Reverse(LowOctetStrings(node)) == HexOctets(Reverse(ToDigits(node, 256, 6)));
  }

  function HexOctets(bs: seq<nat>): (hs: seq<string>)
    requires DigitsBelow(bs, 256)
    ensures |hs| == |bs|
  {
    seq(|bs|, k requires 0 <= k < |bs| => Hex2(bs[k]))
  }

  /** Parsing six rendered octets gives their big-endian value. */
  lemma {:induction false} ParseHexOctets(bs: seq<nat>)
    requires |bs| == 6 && DigitsBelow(bs, 256)
    ensures ParseMac(Join(":", HexOctets(bs))) == Some(BigEndian(bs, 256))
  {
    var g := HexOctets(bs);
    HexOctetsShape(bs);
    assert SplitOn(Join(":", g), ':') == g by {
      SplitOnJoin(g, ':');
    }
    ParseGroups(Join(":", g), g);
    OctetValues(bs);
  }

  /** Every rendered octet is two lowercase hex digits, so none contains a colon. */
  lemma HexOctetsShape(bs: seq<nat>)
    requires DigitsBelow(bs, 256)
    ensures forall k :: 0 <= k < |bs| ==> ':' !in HexOctets(bs)[k]
    ensures forall k :: 0 <= k < |bs| ==> |HexOctets(bs)[k]| == 2 && HexOctets(bs)[k][0] in HexDigits && HexOctets(bs)[k][1] in HexDigits
  {
    assert ':' !in HexDigits;
  }

  /** `ParseMac` on a text that splits into six well-formed groups. */
  lemma ParseGroups(text: string, g: seq<string>)
    requires SplitOn(text, ':') == g && |g| == 6
    requires forall k :: 0 <= k < 6 ==> |g[k]| == 2 && g[k][0] in HexDigits && g[k][1] in HexDigits
    ensures ParseMac(text) == Some(BigEndian(seq(6, k requires 0 <= k < 6 => 16 * IndexOf(HexDigits, g[k][0]) + IndexOf(HexDigits, g[k][1])), 256))
  {
    assert forall x | x in g :: |x| == 2 && x[0] in HexDigits && x[1] in HexDigits;
  }

  /** Reading each rendered octet back gives the octet. */
  lemma OctetValues(bs: seq<nat>)
    requires |bs| == 6 && DigitsBelow(bs, 256)
    ensures var g := HexOctets(bs);
            seq(6, k requires 0 <= k < 6 => 16 * IndexOf(HexDigits, g[k][0]) + IndexOf(HexDigits, g[k][1])) == bs
  {
    var g := HexOctets(bs);
    var parsed := seq(6, k requires 0 <= k < 6 => 16 * IndexOf(HexDigits, g[k][0]) + IndexOf(HexDigits, g[k][1]));
    forall k | 0 <= k < 6
      ensures parsed[k] == bs[k]
    {
      HexBack(bs[k]);
    }
  }

  /** Parsing the address gives the node back, modulo 2^48: the format keeps exactly the low 48 bits. */
  lemma {:induction false} MacRoundTrip(node: nat)
    ensures ParseMac(FormatMac(node)) == Some(node % 0x1_0000_0000_0000)
  {
    var ds := ToDigits(node, 256, 6);
    FormatIsBigEndianOctets(node);
    ParseHexOctets(Reverse(ds));
    BigEndianOfReverse(ds, 256);
    ToDigitsValue(node, 256, 6);
    SixOctetRange();
  }

  lemma SixOctetRange()
    ensures Pow(256, 6) == 0x1_0000_0000_0000
  {
  }
}
