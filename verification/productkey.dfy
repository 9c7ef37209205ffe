/**
 Decoding of the Windows product key from the `DigitalProductId` registry blob, and the
 masking applied before the key is shown.

 The fifteen bytes at offsets 52..66 are read as one base-256 number. The decode loop feeds
 them from index 14 down to index 0, so index 14 is the most significant digit: the window is
 little-endian. The number is divided by 24 twenty-five times; each remainder picks a symbol of
 the 24-symbol alphabet, the symbols are reversed (most significant first) and cut into five
 groups of five joined by hyphens.
 */
module ProductKey {
  import opened Wrappers
  import opened Text
  import opened Digits

  type byte = x: nat | x < 256

  /** The 24 symbols a product key is written in (no vowels, no 0, 1 or 5). */
  const Alphabet: string := "BCDFGHJKMPQRTVWXY2346789"

  const WindowStart: nat := 52
  const WindowLength: nat := 15
  const KeyLength: nat := 25

  /** The literal that replaces the first four groups of a shown key. */
  const MaskPrefix: string := "XXXXX-XXXXX-XXXXX-XXXXX-"

  /** Python's `a | b` on non-negative integers, bit by bit from the least significant. */
  function BitOr(a: nat, b: nat): nat
    decreases a + b
  {
    if a == 0 then b
    else if b == 0 then a
    else 2 * BitOr(a / 2, b / 2) + (if a % 2 == 1 || b % 2 == 1 then 1 else 0)
  }

  /** Or-ing a value below `2^m` into a multiple of `2^m` is an addition. */
  lemma {:induction false} BitOrLowBits(hi: nat, m: nat, b: nat)
    requires b < Pow(2, m)
    ensures BitOr(hi * Pow(2, m), b) == hi * Pow(2, m) + b
    decreases m
  {
    if m > 0 && hi != 0 && b != 0 {
      var p := Pow(2, m - 1);
      assert hi * Pow(2, m) == 2 * (hi * p);
      BitOrLowBits(hi, m - 1, b / 2);
    }
  }

  /** `(k << 8) | b`, the step that brings the next byte below the running remainder. */
  function ShiftOr(k: nat, b: nat): (r: nat)
    requires b < 256
    ensures r == k * 256 + b
  {
    assert Pow(2, 8) == 256;
    BitOrLowBits(k, 8, b);
    BitOr(k * Pow(2, 8), b)
  }

  /** The symbols for a sequence of base-24 digits, in the same order. */
  function Symbols(ds: seq<nat>): (s: string)
    requires DigitsBelow(ds, 24)
    ensures |s| == |ds|
  {
    seq(|ds|, i requires 0 <= i < |ds| => Alphabet[ds[i]])
  }

  function Min(a: int, b: int): int {
    if a < b then a else b
  }

  /** `[key[i:i+5] for i in range(0, len(key), 5)]` */
  function KeyGroups(s: string): (r: seq<string>)
    ensures |r| == (|s| + 4) / 5
    ensures forall i :: 0 <= i < |r| ==> r[i] == s[5 * i .. Min(5 * i + 5, |s|)]
    decreases |s|
  {
    if |s| == 0 then []
    else if |s| <= 5 then [s]
    else
      var rest := KeyGroups(s[5..]);
      KeyGroupsStep(s, rest);
      [s[..5]] + rest
  }

  /** The first group in front of the groups of the rest gives the groups of the whole. */
  lemma KeyGroupsStep(s: string, rest: seq<string>)
    requires |s| > 5 && |rest| == (|s| - 5 + 4) / 5
    requires forall i :: 0 <= i < |rest| ==> rest[i] == s[5..][5 * i .. Min(5 * i + 5, |s| - 5)]
    ensures |[s[..5]] + rest| == (|s| + 4) / 5
    ensures forall i :: 0 <= i < |[s[..5]] + rest| ==> ([s[..5]] + rest)[i] == s[5 * i .. Min(5 * i + 5, |s|)]
  {
    var r := [s[..5]] + rest;
    forall i | 0 <= i < |r|
      ensures r[i] == s[5 * i .. Min(5 * i + 5, |s|)]
    {
      if i > 0 {
        var hi := Min(5 * (i - 1) + 5, |s| - 5);
        assert r[i] == rest[i - 1] == s[5..][5 * (i - 1) .. hi];
        assert s[5..][5 * (i - 1) .. hi] == s[5 * i .. hi + 5] by {
          var a, b := s[5..][5 * (i - 1) .. hi], s[5 * i .. hi + 5];
          assert |a| == |b|;
          forall t | 0 <= t < |a|
            ensures a[t] == b[t]
          {
            assert a[t] == s[5 * i + t];
          }
        }
        assert hi + 5 == Min(5 * i + 5, |s|);
      } else {
        assert Min(5, |s|) == 5;
      }
    }
  }

  /** `'-'.join(KeyGroups(s))` */
  function Group(s: string): string {
    Join("-", KeyGroups(s))
  }

  /** The base-24 digits of a window, least significant first, as the decode loop emits them. */
  function WindowDigits(window: seq<byte>): (ds: seq<nat>)
    ensures |ds| == KeyLength && DigitsBelow(ds, 24)
  {
    ToDigits(LittleEndian(window, 256), 24, KeyLength)
  }

  /** Reference definition of the decoded key: the window's 25 base-24 digits, most significant first, in groups of five. */
  function ReferenceKey(window: seq<byte>): string {
    Group(Reverse(Symbols(WindowDigits(window))))
  }

  lemma {:induction false} TailValue(s: seq<nat>, j: nat)
    requires j < |s|
    ensures LittleEndian(s[j..], 256) == s[j] + 256 * LittleEndian(s[j + 1..], 256)
  {
    assert s[j..][1..] == s[j + 1..];
  }

  /**
   One pass of the inner loop at index `j`: bringing byte `j` below the running remainder and
   storing the quotient there keeps "value of the processed bytes = 24 * new value + remainder".
   */
  lemma InnerStep(before: seq<nat>, current: seq<nat>, after: seq<nat>, j: nat, acc: nat)
    requires j < |before| == |current|
    requires current[j] == before[j]
    requires acc == (LittleEndian(before[j + 1..], 256) - 24 * LittleEndian(current[j + 1..], 256)) * 256 + before[j]
    requires after == current[j := acc / 24]
    ensures LittleEndian(before[j..], 256) == 24 * LittleEndian(after[j..], 256) + acc % 24
  {
    TailValue(before, j);
    assert after[j + 1..] == current[j + 1..];
    TailValue(after, j);
  }

  /**
   One pass of the outer loop: a 15-byte number divided by 24 leaves the quotient in place and
   emits the next base-24 digit of the window value.
   */
  lemma OuterStep(v: nat, emitted: seq<nat>, before: seq<nat>, after: seq<nat>, k: nat)
    requires k < 24
    requires LittleEndian(before, 256) == 24 * LittleEndian(after, 256) + k
    requires emitted == ToDigits(v, 24, |emitted|)
    requires LittleEndian(before, 256) == v / Pow(24, |emitted|)
    ensures emitted + [k] == ToDigits(v, 24, |emitted| + 1)
    ensures LittleEndian(after, 256) == v / Pow(24, |emitted| + 1)
  {
    DivUnique(LittleEndian(before, 256), 24, LittleEndian(after, 256), k);
    ToDigitsSnoc(v, 24, |emitted|);
    DivDiv(v, Pow(24, |emitted|), 24);
    assert Pow(24, |emitted| + 1) == Pow(24, |emitted|) * 24;
  }

  /**
   The inner loop of the decoder: long division of the 15-byte number by 24, most significant
   byte (index 14) first, leaving the quotient in place and returning the remainder.
   */
  method DivideBy24(digits: seq<nat>) returns (quotient: seq<nat>, k: nat)
    requires |digits| == WindowLength && DigitsBelow(digits, 256)
    ensures |quotient| == WindowLength && DigitsBelow(quotient, 256)
    ensures k < 24
    ensures LittleEndian(digits, 256) == 24 * LittleEndian(quotient, 256) + k
  {
    quotient := digits;
    k := 0;
    var j := 14;
    while j >= 0
      invariant -1 <= j <= 14
      invariant |quotient| == WindowLength && DigitsBelow(quotient, 256)
      invariant quotient[..j + 1] == digits[..j + 1]
      invariant k < 24
      invariant LittleEndian(digits[j + 1..], 256) == 24 * LittleEndian(quotient[j + 1..], 256) + k
    {
      assert quotient[j] == digits[..j + 1][j];
      ghost var current := quotient;
      k := ShiftOr(k, quotient[j]);
      quotient := quotient[j := k / 24];
      InnerStep(digits, current, quotient, j, k);
      assert quotient[..j] == digits[..j + 1][..j];
      k := k % 24;
      j := j - 1;
    }
    assert digits[0..] == digits && quotient[0..] == quotient;
  }

  /** Decodes a 15-byte window with the source's nested long-division loop. */
  method DecodeWindow(window: seq<byte>) returns (key: string)
    requires |window| == WindowLength
    ensures key == ReferenceKey(window)
  {
    ghost var v := LittleEndian(window, 256);
    var productId: seq<nat> := window;
    var keyChars: string := [];
    ghost var emitted: seq<nat> := [];
    var i := 24;
    while i >= 0
      invariant -1 <= i <= 24
      invariant |emitted| == 24 - i
      invariant |productId| == WindowLength && DigitsBelow(productId, 256)
      invariant emitted == ToDigits(v, 24, |emitted|)
      invariant LittleEndian(productId, 256) == v / Pow(24, |emitted|)
      invariant keyChars == Symbols(emitted)
    {
      ghost var before := productId;
      var k;
      productId, k := DivideBy24(productId);
      OuterStep(v, emitted, before, productId, k);
      SymbolsSnoc(emitted, k);
      keyChars := keyChars + [Alphabet[k]];
      emitted := emitted + [k];
      i := i - 1;
    }
    assert emitted == WindowDigits(window);
    var reversed := Reverse(keyChars);
    key := Join("-", KeyGroups(reversed));
  }

  lemma SymbolsSnoc(ds: seq<nat>, d: nat)
    requires DigitsBelow(ds, 24) && d < 24
    ensures DigitsBelow(ds + [d], 24)
    ensures Symbols(ds + [d]) == Symbols(ds) + [Alphabet[d]]
  {
    assert forall i :: 0 <= i < |ds| ==> (ds + [d])[i] == ds[i];
  }

  /** Reference for `get_windows_product_key`: the decoded window when the blob reaches byte 66. */
  function ProductKeyOf(value: Option<seq<byte>>): Option<string> {
    if value.Some? && |value.value| >= WindowStart + WindowLength
    then Some(ReferenceKey(value.value[WindowStart..WindowStart + WindowLength]))
    else None
  }

  /**
   The key `get_windows_product_key` returns for a registry read: `None` when the value could
   not be read or is too short to index byte 66, otherwise the decoded window at bytes 52..66.
   */
  method DecodeProductKey(value: Option<seq<byte>>) returns (key: Option<string>)
    ensures key == ProductKeyOf(value)
    ensures value.None? ==> key.None?
    ensures value.Some? && |value.value| < WindowStart + WindowLength ==> key.None?
    ensures value.Some? && |value.value| >= WindowStart + WindowLength
            ==> key == Some(ReferenceKey(value.value[WindowStart..WindowStart + WindowLength]))
  {
    if value.None? || |value.value| < WindowStart + WindowLength {
      return None;
    }
    var decoded := DecodeWindow(value.value[WindowStart..WindowStart + WindowLength]);
    key := Some(decoded);
  }

  /** A 25-symbol key splits into five groups of five, joined by four hyphens. */
  lemma GroupOf25(s: string)
    requires |s| == KeyLength
    ensures KeyGroups(s) == [s[0..5], s[5..10], s[10..15], s[15..20], s[20..25]]
    ensures Group(s) == s[0..5] + "-" + s[5..10] + "-" + s[10..15] + "-" + s[15..20] + "-" + s[20..25]
  {
    var g := KeyGroups(s);
    assert g == [s[0..5], s[5..10], s[10..15], s[15..20], s[20..25]];
    JoinCons("-", g[3], [g[4]]);
    JoinCons("-", g[2], g[3..]);
    JoinCons("-", g[1], g[2..]);
    JoinCons("-", g[0], g[1..]);
    assert g == [g[0]] + g[1..] && g[1..] == [g[1]] + g[2..] && g[2..] == [g[2]] + g[3..] && g[3..] == [g[3]] + [g[4]];
  }

  /** Every position of a grouped 25-symbol key: a hyphen exactly at positions 5, 11, 17 and 23, otherwise the symbols in order. */
  lemma GroupShape(s: string)
    requires |s| == KeyLength
    ensures |Group(s)| == 29
    ensures forall i :: 0 <= i < 29 && i % 6 == 5 ==> Group(s)[i] == '-'
    ensures forall i :: 0 <= i < 29 && i % 6 != 5 ==> Group(s)[i] == s[i - i / 6]
  {
    GroupOf25(s);
  }

  predicate InAlphabet(c: char) {
    exists d | 0 <= d < |Alphabet| :: Alphabet[d] == c
  }

  /**
   Shape of every decoded key: 29 characters, hyphens exactly at positions 5, 11, 17 and 23,
   and an alphabet symbol everywhere else.
   */
  lemma {:induction false} DecodedKeyShape(window: seq<byte>)
    ensures |ReferenceKey(window)| == 29
    ensures forall i :: 0 <= i < 29 ==> (ReferenceKey(window)[i] == '-' <==> i % 6 == 5)
    ensures forall i :: 0 <= i < 29 && i % 6 != 5 ==> InAlphabet(ReferenceKey(window)[i])
  {
    var ds := WindowDigits(window);
    var r := Reverse(Symbols(ds));
    SymbolsInAlphabet(ds);
    GroupShape(r);
    var key := ReferenceKey(window);
    assert key == Group(r);
    forall i | 0 <= i < 29 && i % 6 != 5
      ensures key[i] != '-' && InAlphabet(key[i])
    {
      var j := i - i / 6;
      assert 0 <= j < |r|;
      assert key[i] == r[j];
    }
  }

  /** Every symbol of the reversed digits is an alphabet symbol, so none is a hyphen. */
  lemma SymbolsInAlphabet(ds: seq<nat>)
    requires DigitsBelow(ds, 24)
    ensures forall j :: 0 <= j < |ds| ==> Reverse(Symbols(ds))[j] != '-' && InAlphabet(Reverse(Symbols(ds))[j])
  {
    var r := Reverse(Symbols(ds));
    forall j | 0 <= j < |ds|
      ensures r[j] != '-' && InAlphabet(r[j])
    {
      var d := ds[|ds| - 1 - j];
      assert r[j] == Alphabet[d];
      assert '-' !in Alphabet;
    }
  }

  /** Value of one key symbol: its position in the alphabet. */
  lemma SymbolIndex(d: nat)
    requires d < |Alphabet|
    ensures IndexOf(Alphabet, Alphabet[d]) == d
  {
    assert Distinct(Alphabet);
    IndexOfDistinct(Alphabet, d);
  }

  /**
   Reads a shown key back as a number: five hyphen-separated groups of five alphabet
   symbols, most significant symbol first. `None` for anything else.
   */
  function KeyValue(key: string): Option<nat> {
    var groups := SplitOn(key, '-');
    var symbols := Concat(groups);
    if |groups| == 5 && (forall g | g in groups :: |g| == 5) && (forall c | c in symbols :: c in Alphabet) then
      Some(BigEndian(SymbolDigits(symbols), 24))
    else None
  }

  /** The alphabet position of every symbol. */
  function SymbolDigits(symbols: string): seq<nat> {
    seq(|symbols|, i requires 0 <= i < |symbols| => IndexOf(Alphabet, symbols[i]))
  }

  /** Splitting a grouped 25-symbol key at its hyphens and gluing the groups gives the symbols back. */
  lemma {:induction false} UngroupGroup(r: string)
    requires |r| == KeyLength
    requires forall c :: c in r ==> c in Alphabet
    ensures SplitOn(Group(r), '-') == KeyGroups(r)
    ensures Concat(KeyGroups(r)) == r
  {
    var g := KeyGroups(r);
    assert '-' !in Alphabet;
    forall k | 0 <= k < |g|
      ensures '-' !in g[k]
    {
      forall i | 0 <= i < |g[k]|
        ensures g[k][i] in Alphabet
      {
        assert g[k][i] == r[5 * k + i];
      }
    }
    SplitOnJoin(g, '-');
    ConcatKeyGroups(r);
  }

  /** A 25-symbol key has five groups of five. */
  lemma GroupLengths(r: string)
    requires |r| == KeyLength
    ensures |KeyGroups(r)| == 5
    ensures forall k :: 0 <= k < |KeyGroups(r)| ==> |KeyGroups(r)[k]| == 5
  {
    var g := KeyGroups(r);
    forall k | 0 <= k < |g|
      ensures |g[k]| == 5
    {
      assert Min(5 * k + 5, |r|) == 5 * k + 5;
    }
  }

  /** Gluing the groups of five back together gives the string that was grouped. */
  lemma {:induction false} ConcatKeyGroups(s: string)
    ensures Concat(KeyGroups(s)) == s
    decreases |s|
  {
    if |s| > 5 {
      var g := KeyGroups(s);
      ConcatKeyGroups(s[5..]);
      assert g[1..] == KeyGroups(s[5..]);
      assert s == s[..5] + s[5..];
    } else if |s| > 0 {
      assert KeyGroups(s)[1..] == [];
    }
  }

  /** Reading the symbols of reversed digits back through the alphabet gives the reversed digits. */
  lemma {:induction false} SymbolsBack(ds: seq<nat>)
    requires DigitsBelow(ds, 24)
    ensures forall c :: c in Reverse(Symbols(ds)) ==> c in Alphabet
    ensures SymbolDigits(Reverse(Symbols(ds))) == Reverse(ds)
  {
    var r := Reverse(Symbols(ds));
    forall i | 0 <= i < |r|
      ensures r[i] == Alphabet[Reverse(ds)[i]]
    {
      assert r[i] == Symbols(ds)[|ds| - 1 - i];
    }
    forall c | c in r
      ensures c in Alphabet
    {
      var i :| 0 <= i < |r| && r[i] == c;
      assert Reverse(ds)[i] < 24;
    }
    forall i | 0 <= i < |ds|
      ensures SymbolDigits(r)[i] == Reverse(ds)[i]
    {
      SymbolIndex(Reverse(ds)[i]);
    }
  }

  /** When a key splits into five groups of five alphabet symbols, its value is that of the symbols. */
  lemma KeyValueOfGroups(key: string, groups: seq<string>, symbols: string)
    requires SplitOn(key, '-') == groups && Concat(groups) == symbols
    requires |groups| == 5 && forall k :: 0 <= k < |groups| ==> |groups[k]| == 5
    requires forall c :: c in symbols ==> c in Alphabet
    ensures KeyValue(key) == Some(BigEndian(SymbolDigits(symbols), 24))
  {
    assert forall g | g in groups :: |g| == 5;
  }

  /** Writing 25 base-24 digits as a grouped key and reading it back gives their value. */
  lemma {:induction false} KeyValueOfDigits(ds: seq<nat>)
    requires |ds| == KeyLength && DigitsBelow(ds, 24)
    ensures KeyValue(Group(Reverse(Symbols(ds)))) == Some(LittleEndian(ds, 24))
  {
    var r := Reverse(Symbols(ds));
    var groups := KeyGroups(r);
    assert SymbolDigits(r) == Reverse(ds) by {
      SymbolsBack(ds);
    }
    assert KeyValue(Group(r)) == Some(BigEndian(SymbolDigits(r), 24)) by {
      SymbolsBack(ds);
      UngroupGroup(r);
      GroupLengths(r);
      KeyValueOfGroups(Group(r), groups, r);
    }
    assert BigEndian(Reverse(ds), 24) == LittleEndian(ds, 24) by {
      BigEndianOfReverse(ds, 24);
    }
  }

  /**
   The decoded key is the window's number written in base 24: reading it back gives the
   window value modulo 24^25 (the top of a 120-bit window does not fit in 25 symbols).
   */
  lemma {:induction false} DecodedKeyValue(window: seq<byte>)
    ensures KeyValue(ReferenceKey(window)) == Some(LittleEndian(window, 256) % Pow(24, KeyLength))
  {
    KeyValueOfDigits(WindowDigits(window));
    ToDigitsValue(LittleEndian(window, 256), 24, KeyLength);
  }

  /**
   What the report shows for a product key (`masked_key`): the literal `XXXXX-XXXXX-XXXXX-XXXXX-`
   followed by the key's last five characters, or "Not available" when there is no key or it is empty.
   */
  function MaskKey(key: Option<string>): (shown: string)
    ensures key.None? || key.value == [] ==> shown == "Not available"
    ensures key.Some? && key.value != [] ==>
              |shown| == |MaskPrefix| + Min(5, |key.value|)
              && shown[..|MaskPrefix|] == MaskPrefix
              && key.value == key.value[..|key.value| - (|shown| - |MaskPrefix|)] + shown[|MaskPrefix|..]
  {
    if key.Some? && key.value != [] then
      var tail := Last(key.value, 5);
      assert (MaskPrefix + tail)[|MaskPrefix|..] == tail;
      MaskPrefix + tail
    else "Not available"
  }

  /**
   For a decoded key the shown value is 29 characters: four masked groups, then exactly the
   key's final group.
   */
  lemma {:induction false} MaskedDecodedKey(window: seq<byte>)
    ensures |ReferenceKey(window)| == 29 && |MaskKey(Some(ReferenceKey(window)))| == 29
    ensures MaskKey(Some(ReferenceKey(window))) == MaskPrefix + ReferenceKey(window)[24..]
    ensures ReferenceKey(window)[24..] == KeyGroups(Reverse(Symbols(WindowDigits(window))))[4]
  {
    var r := Reverse(Symbols(WindowDigits(window)));
    GroupOf25(r);
    var key := ReferenceKey(window);
    assert key[24..] == r[20..25];
  }
}
