/**
 A probe result: Python's insertion-ordered `dict` from field name to display text, as a
 sequence of (name, value) pairs. A `dict` never holds a name twice (`DistinctKeys`), and
 `Set` keeps it so.
 */
module FieldMap {
  import opened Wrappers

  type Fields = seq<(string, string)>

  function Keys(d: Fields): (ks: seq<string>)
    ensures |ks| == |d|
  {
    seq(|d|, i requires 0 <= i < |d| => d[i].0)
  }

  predicate DistinctKeys(d: Fields) {
    forall i, j :: 0 <= i < j < |d| ==> d[i].0 != d[j].0
  }

  /** `d.get(k)` */
  function Get(d: Fields, k: string): (r: Option<string>)
    ensures r.Some? <==> k in Keys(d)
  {
    if |d| == 0 then None
    else if d[0].0 == k then
      assert Keys(d)[0] == k;
      Some(d[0].1)
    else
      assert Keys(d) == [d[0].0] + Keys(d[1..]);
      Get(d[1..], k)
  }

  /**
   `d[k] = v`: an existing key keeps its position and takes the new value; a new key is
   appended at the end.
   */
  function Set(d: Fields, k: string, v: string): (r: Fields)
    ensures Get(r, k) == Some(v)
    ensures forall k' :: k' != k ==> Get(r, k') == Get(d, k')
    ensures Keys(r) == if k in Keys(d) then Keys(d) else Keys(d) + [k]
  {
    if |d| == 0 then [(k, v)]
    else if d[0].0 == k then
      KeysCons((k, v), d[1..]);
      KeysCons(d[0], d[1..]);
      assert d == [d[0]] + d[1..];
      [(k, v)] + d[1..]
    else
      var rest := Set(d[1..], k, v);
      assert d == [d[0]] + d[1..];
      SetStep(d[0], d[1..], rest, k, v);
      [d[0]] + rest
  }

  /** An entry with another name in front keeps what `Set` promises about the rest. */
  lemma SetStep(x: (string, string), t: Fields, t': Fields, k: string, v: string)
    requires x.0 != k
    requires Get(t', k) == Some(v) && forall k' :: k' != k ==> Get(t', k') == Get(t, k')
    requires Keys(t') == if k in Keys(t) then Keys(t) else Keys(t) + [k]
    ensures Get([x] + t', k) == Some(v)
    ensures forall k' :: k' != k ==> Get([x] + t', k') == Get([x] + t, k')
    ensures Keys([x] + t') == if k in Keys([x] + t) then Keys([x] + t) else Keys([x] + t) + [k]
  {
    KeysCons(x, t');
    KeysCons(x, t);
    assert ([x] + t')[1..] == t';
    assert ([x] + t)[1..] == t;
  }

  lemma KeysCons(x: (string, string), t: Fields)
    ensures Keys([x] + t) == [x.0] + Keys(t)
  {
  }

  /** Assigning a field never duplicates a name. */
  lemma SetKeepsDistinct(d: Fields, k: string, v: string)
    requires DistinctKeys(d)
    ensures DistinctKeys(Set(d, k, v))
  {
    var r := Set(d, k, v);
    var kd, kr := Keys(d), Keys(r);
    forall i, j | 0 <= i < j < |r|
      ensures r[i].0 != r[j].0
    {
      assert r[i].0 == kr[i] && r[j].0 == kr[j];
      if j < |d| {
        assert kr[i] == kd[i] && kr[j] == kd[j];
        assert d[i].0 == kd[i] && d[j].0 == kd[j];
      } else {
        assert kr[i] == kd[i] && kr[j] == k && k !in kd;
      }
    }
  }

  /** The fields with the given names and values, pairwise in order. */
  function Zip(names: seq<string>, values: seq<string>): (d: Fields)
    requires |names| == |values|
    ensures |d| == |names| && forall i :: 0 <= i < |d| ==> d[i] == (names[i], values[i])
  {
    seq(|names|, i requires 0 <= i < |names| => (names[i], values[i]))
  }

  /** With distinct names, the zipped fields list the names in order and map each to its value. */
  lemma ZipGet(names: seq<string>, values: seq<string>)
    requires |names| == |values|
    requires forall i, j :: 0 <= i < j < |names| ==> names[i] != names[j]
    ensures Keys(Zip(names, values)) == names
    ensures forall i :: 0 <= i < |names| ==> Get(Zip(names, values), names[i]) == Some(values[i])
  {
    var d := Zip(names, values);
    assert Keys(d) == names;
    forall i | 0 <= i < |names|
      ensures Get(d, names[i]) == Some(values[i])
    {
      GetAt(d, i);
    }
  }

  /** The value of a field is the one paired with its first occurrence. */
  lemma {:induction false} GetAt(d: Fields, i: nat)
    requires i < |d| && forall j :: 0 <= j < i ==> d[j].0 != d[i].0
    ensures Get(d, d[i].0) == Some(d[i].1)
  {
    if i > 0 {
      GetAt(d[1..], i - 1);
    }
  }
}
