/**
 Python string primitives used by the text scrapers: `str.isspace`, `str.strip()`,
 `str.split()` (on runs of whitespace), `str.split(c)`, `str.split(c, 1)`, `sep.join(...)`
 and the substring test `p in s`.
 */
module Text {

  /** Python's `str.isspace()` for one character (bidi classes WS, B, S and category Zs). */
  predicate IsSpace(c: char) {
    var n := c as int;
    || n == 0x20 || 0x09 <= n <= 0x0D || 0x1C <= n <= 0x1F || n == 0x85 || n == 0xA0
    || n == 0x1680 || 0x2000 <= n <= 0x200A || n == 0x2028 || n == 0x2029
    || n == 0x202F || n == 0x205F || n == 0x3000
  }

  predicate AllSpace(s: string) {
    forall i :: 0 <= i < |s| ==> IsSpace(s[i])
  }

  predicate NoSpace(s: string) {
    forall i :: 0 <= i < |s| ==> !IsSpace(s[i])
  }

  /** `s.lstrip()` */
  function TrimStart(s: string): (r: string)
    ensures |r| <= |s| && r == s[|s| - |r|..]
    ensures AllSpace(s[..|s| - |r|])
    ensures r == [] || !IsSpace(r[0])
  {
    if |s| > 0 && IsSpace(s[0]) then
      var r := TrimStart(s[1..]);
      assert s[..|s| - |r|] == [s[0]] + s[1..][..|s| - 1 - |r|];
      r
    else s
  }

  /** `s.rstrip()` */
  function TrimEnd(s: string): (r: string)
    ensures |r| <= |s| && r == s[..|r|]
    ensures AllSpace(s[|r|..])
    ensures r == [] || !IsSpace(r[|r| - 1])
  {
    if |s| > 0 && IsSpace(s[|s| - 1]) then TrimEnd(s[..|s| - 1]) else s
  }

  /** `r` is what `s.strip()` returns: a slice of `s` cut only at whitespace, with no whitespace left at either end. */
  ghost predicate IsStripOf(r: string, s: string) {
    exists lo, hi :: 0 <= lo <= hi <= |s| && r == s[lo..hi] && AllSpace(s[..lo]) && AllSpace(s[hi..])
                     && (r == [] || (!IsSpace(r[0]) && !IsSpace(r[|r| - 1])))
  }

  /** `s.strip()` */
  function Strip(s: string): (r: string)
    ensures IsStripOf(r, s)
  {
    var t := TrimStart(s);
    var r := TrimEnd(t);
    var lo := |s| - |t|;
    assert r == s[lo..lo + |r|];
    assert s[lo + |r|..] == t[|r|..];
    r
  }

  /** Stripping removes only whitespace, so a string with a non-space character strips to a non-empty one. */
  lemma StripNonEmpty(s: string, i: int)
    requires 0 <= i < |s| && !IsSpace(s[i])
    ensures Strip(s) != []
  {
    var r := Strip(s);
    var lo, hi :| 0 <= lo <= hi <= |s| && r == s[lo..hi] && AllSpace(s[..lo]) && AllSpace(s[hi..])
                  && (r == [] || (!IsSpace(r[0]) && !IsSpace(r[|r| - 1])));
  }

  /** `sep.join(parts)` */
  function Join(sep: string, parts: seq<string>): (r: string)
    ensures |parts| == 1 ==> r == parts[0]
  {
    if |parts| == 0 then []
    else if |parts| == 1 then parts[0]
    else parts[0] + sep + Join(sep, parts[1..])
  }

  lemma JoinCons(sep: string, p: string, parts: seq<string>)
    requires |parts| >= 1
    ensures Join(sep, [p] + parts) == p + sep + Join(sep, parts)
  {
    assert ([p] + parts)[1..] == parts;
  }

  /** Prefixing the first part of a join prefixes the whole join. */
  lemma JoinHead(sep: string, a: string, parts: seq<string>)
    requires |parts| >= 1
    ensures Join(sep, [a + parts[0]] + parts[1..]) == a + Join(sep, parts)
  {
    if |parts| > 1 {
      JoinCons(sep, a + parts[0], parts[1..]);
      JoinCons(sep, parts[0], parts[1..]);
      assert parts == [parts[0]] + parts[1..];
    }
  }

  /** Length of the leading run of non-space characters. */
  function WordLength(s: string): (n: nat)
    ensures n <= |s|
    ensures NoSpace(s[..n])
    ensures n == |s| || IsSpace(s[n])
  {
    if |s| == 0 || IsSpace(s[0]) then 0 else 1 + WordLength(s[1..])
  }

  /** `s.split()`: the maximal runs of non-whitespace characters, in order. */
  function Tokens(s: string): (r: seq<string>)
    ensures forall i :: 0 <= i < |r| ==> r[i] != [] && NoSpace(r[i])
    decreases |s|
  {
    if |s| == 0 then []
    else if IsSpace(s[0]) then Tokens(s[1..])
    else
      var n := WordLength(s);
      [s[..n]] + Tokens(s[n..])
  }

  /** Concatenation of a sequence of strings. */
  function Concat(parts: seq<string>): string {
    if |parts| == 0 then [] else parts[0] + Concat(parts[1..])
  }

  /** The non-whitespace characters of `s`, in order. */
  function DropSpace(s: string): (r: string)
    ensures NoSpace(r)
  {
    if |s| == 0 then [] else (if IsSpace(s[0]) then [] else [s[0]]) + DropSpace(s[1..])
  }

  lemma {:induction false} DropSpaceAppend(a: string, b: string)
    ensures DropSpace(a + b) == DropSpace(a) + DropSpace(b)
  {
    if |a| == 0 {
      assert a + b == b;
    } else {
      assert (a + b)[0] == a[0];
      assert (a + b)[1..] == a[1..] + b;
      DropSpaceAppend(a[1..], b);
    }
  }

  lemma {:induction false} DropSpaceOfWord(w: string)
    requires NoSpace(w)
    ensures DropSpace(w) == w
  {
    if |w| > 0 {
      DropSpaceOfWord(w[1..]);
    }
  }

  /** `s.split()` loses exactly the whitespace: gluing the tokens back gives the non-space characters of `s`. */
  lemma {:induction false} TokensKeepText(s: string)
    ensures Concat(Tokens(s)) == DropSpace(s)
    decreases |s|
  {
    if |s| == 0 {
    } else if IsSpace(s[0]) {
      TokensKeepText(s[1..]);
    } else {
      var n := WordLength(s);
      TokensKeepText(s[n..]);
      assert s == s[..n] + s[n..];
      DropSpaceAppend(s[..n], s[n..]);
      DropSpaceOfWord(s[..n]);
      assert ([s[..n]] + Tokens(s[n..]))[1..] == Tokens(s[n..]);
    }
  }

  lemma {:induction false} TokensOfWord(w: string, rest: string)
    requires w != [] && NoSpace(w)
    requires rest == [] || IsSpace(rest[0])
    ensures Tokens(w + rest) == [w] + Tokens(rest)
  {
    var s := w + rest;
    WordLengthOf(w, rest);
    assert s[..|w|] == w;
    assert s[|w|..] == rest;
  }

  lemma {:induction false} WordLengthOf(w: string, rest: string)
    requires NoSpace(w)
    requires rest == [] || IsSpace(rest[0])
    ensures WordLength(w + rest) == |w|
  {
    if |w| == 0 {
      assert w + rest == rest;
    } else {
      assert (w + rest)[1..] == w[1..] + rest;
      WordLengthOf(w[1..], rest);
    }
  }

  /** Splitting a single-space join of tokens gives the tokens back: `' '.join(t).split() == t`. */
  lemma {:induction false} TokensOfJoin(ts: seq<string>)
    requires forall i :: 0 <= i < |ts| ==> ts[i] != [] && NoSpace(ts[i])
    ensures Tokens(Join(" ", ts)) == ts
  {
    if |ts| == 0 {
    } else if |ts| == 1 {
      TokensOfWord(ts[0], []);
      assert ts[0] + [] == ts[0];
    } else {
      var rest := Join(" ", ts[1..]);
      TokensOfJoin(ts[1..]);
      TokensOfWord(ts[0], " " + rest);
      assert ts[0] + " " + rest == ts[0] + (" " + rest);
      assert (" " + rest)[1..] == rest;
      assert ts == [ts[0]] + ts[1..];
    }
  }

  /** `s.split(c)` for a one-character separator. */
  function SplitOn(s: string, c: char): (r: seq<string>)
    ensures |r| >= 1
    ensures forall i :: 0 <= i < |r| ==> c !in r[i]
    ensures Join([c], r) == s
  {
    if |s| == 0 then [[]]
    else
      var rest := SplitOn(s[1..], c);
      if s[0] == c then
        JoinCons([c], [], rest);
        [[]] + rest
      else
        var r := [[s[0]] + rest[0]] + rest[1..];
        JoinHead([c], [s[0]], rest);
        assert s == [s[0]] + s[1..];
        r
  }

  lemma {:induction false} SplitOnPiece(p: string, c: char, t: string)
    requires c !in p
    ensures SplitOn(p + [c] + t, c) == [p] + SplitOn(t, c)
  {
    if |p| == 0 {
      assert p + [c] + t == [c] + t;
      assert ([c] + t)[1..] == t;
    } else {
      assert (p + [c] + t)[1..] == p[1..] + [c] + t;
      SplitOnPiece(p[1..], c, t);
      assert [p[0]] + p[1..] == p;
    }
  }

  lemma {:induction false} SplitOnLast(p: string, c: char)
    requires c !in p
    ensures SplitOn(p, c) == [p]
  {
    if |p| > 0 {
      SplitOnLast(p[1..], c);
      assert [p[0]] + p[1..] == p;
    }
  }

  /** `sep.join(parts).split(sep)` gives the parts back when no part contains the separator. */
  lemma {:induction false} SplitOnJoin(parts: seq<string>, c: char)
    requires |parts| >= 1
    requires forall i :: 0 <= i < |parts| ==> c !in parts[i]
    ensures SplitOn(Join([c], parts), c) == parts
  {
    if |parts| == 1 {
      SplitOnLast(parts[0], c);
    } else {
      SplitOnJoin(parts[1..], c);
      SplitOnPiece(parts[0], c, Join([c], parts[1..]));
      assert parts == [parts[0]] + parts[1..];
    }
  }

  /** Index of the first `c` in `s`, or `|s|` when there is none. */
  function IndexOf(s: string, c: char): (i: nat)
    ensures i <= |s|
    ensures c !in s[..i]
    ensures i < |s| ==> s[i] == c
    ensures i == |s| <==> c !in s
  {
    if |s| == 0 then 0
    else if s[0] == c then 0
    else
      var j := IndexOf(s[1..], c);
      assert s[..1 + j] == [s[0]] + s[1..][..j];
      1 + j
  }

  /** `s.split(c, 1)`: the part before the first `c` and the rest, or `[s]` when there is no `c`. */
  function SplitOnce(s: string, c: char): (r: seq<string>)
    ensures c !in s ==> r == [s]
    ensures c in s ==> |r| == 2 && c !in r[0] && r[0] + [c] + r[1] == s
  {
    var i := IndexOf(s, c);
    if i == |s| then [s]
    else
      assert s == s[..i] + [c] + s[i + 1..];
      [s[..i], s[i + 1..]]
  }

  /** Python's `p in s` for strings: `p` occurs as a contiguous substring of `s`. */
  predicate Contains(s: string, p: string) {
    exists i | 0 <= i <= |s| - |p| :: OccursAt(s, p, i)
  }

  predicate OccursAt(s: string, p: string, i: int) {
    0 <= i <= |s| - |p| && s[i..i + |p|] == p
  }

  /** `s[-n:]`: the last `n` characters, or all of `s` when it is shorter. */
  function Last(s: string, n: nat): (r: string)
    ensures |r| == if |s| < n then |s| else n
    ensures s == s[..|s| - |r|] + r
  {
    if |s| < n then s else s[|s| - n..]
  }

  function Reverse<T>(s: seq<T>): (r: seq<T>)
    ensures |r| == |s|
    ensures forall i :: 0 <= i < |s| ==> r[i] == s[|s| - 1 - i]
  {
    if |s| == 0 then [] else Reverse(s[1..]) + [s[0]]
  }

  predicate Distinct<T(==)>(s: seq<T>) {
    forall i, j :: 0 <= i < j < |s| ==> s[i] != s[j]
  }

  /** In a sequence without repeats, the first occurrence of `s[d]` is at `d`. */
  lemma IndexOfDistinct(s: string, d: nat)
    requires Distinct(s) && d < |s|
    ensures IndexOf(s, s[d]) == d
  {
    var i := IndexOf(s, s[d]);
    assert i < |s| && s[i] == s[d];
  }
}
