/**
 The process snapshot: the enumerated processes sorted by CPU usage, highest first, with a
 missing reading counted as 0, and cut to the first `limit` entries.
 */
module Processes {
  import opened Wrappers

  /** One `proc.info` record; every field psutil could not read is `None`. */
  datatype ProcessInfo = ProcessInfo(
    pid: int,
    name: Option<string>,
    username: Option<string>,
    memoryPercent: Option<real>,
    cpuPercent: Option<real>)

  const DefaultLimit: int := 20

  /** The sort key `x['cpu_percent'] or 0`. */
  function CpuKey(p: ProcessInfo): real {
    p.cpuPercent.GetOr(0.0)
  }

  predicate NonIncreasing(s: seq<ProcessInfo>) {
    forall i, j :: 0 <= i < j < |s| ==> CpuKey(s[i]) >= CpuKey(s[j])
  }

  /** The entries whose sort key is `c`, in their order in `s`. */
  function WithKey(s: seq<ProcessInfo>, c: real): seq<ProcessInfo> {
    if |s| == 0 then [] else (if CpuKey(s[0]) == c then [s[0]] else []) + WithKey(s[1..], c)
  }

  /**
   A sort is stable when every group of equal keys keeps its relative order, that is, when
   the entries with each key appear in the same order before and after.
   */
  ghost predicate KeepsTies(a: seq<ProcessInfo>, b: seq<ProcessInfo>) {
    forall c :: WithKey(a, c) == WithKey(b, c)
  }

  /** Places `p` after every entry with a strictly larger key and before the rest. */
  function Insert(p: ProcessInfo, s: seq<ProcessInfo>): (r: seq<ProcessInfo>)
    ensures |r| == |s| + 1
    ensures multiset(r) == multiset(s) + multiset{p}
    ensures |s| > 0 ==> r[0] == (if CpuKey(p) >= CpuKey(s[0]) then p else s[0])
    ensures NonIncreasing(s) ==> NonIncreasing(r)
  {
    if |s| == 0 || CpuKey(p) >= CpuKey(s[0]) then
      ConsNonIncreasing(p, s);
      [p] + s
    else
      var rest := Insert(p, s[1..]);
      InsertStep(p, s, rest);
      [s[0]] + rest
  }

  /** Keeping a head larger than `p` in front of the insertion into the tail. */
  lemma InsertStep(p: ProcessInfo, s: seq<ProcessInfo>, rest: seq<ProcessInfo>)
    requires |s| > 0 && CpuKey(p) < CpuKey(s[0])
    requires |rest| == |s| && multiset(rest) == multiset(s[1..]) + multiset{p}
    requires |s| > 1 ==> rest[0] == (if CpuKey(p) >= CpuKey(s[1]) then p else s[1])
    requires |s| == 1 ==> rest == [p]
    requires NonIncreasing(s[1..]) ==> NonIncreasing(rest)
    ensures multiset([s[0]] + rest) == multiset(s) + multiset{p}
    ensures NonIncreasing(s) ==> NonIncreasing([s[0]] + rest)
  {
    assert s == [s[0]] + s[1..];
    assert multiset(s) == multiset{s[0]} + multiset(s[1..]);
    assert NonIncreasing(s) ==> NonIncreasing(s[1..]) && CpuKey(s[0]) >= CpuKey(rest[0]);
    ConsNonIncreasing(s[0], rest);
  }

  /** Putting an entry at least as large as the head in front keeps a run non-increasing. */
  lemma ConsNonIncreasing(x: ProcessInfo, t: seq<ProcessInfo>)
    ensures NonIncreasing(t) && (|t| > 0 ==> CpuKey(x) >= CpuKey(t[0])) ==> NonIncreasing([x] + t)
  {
    var r := [x] + t;
    assert forall j :: 1 <= j < |r| ==> r[j] == t[j - 1];
  }

  lemma {:induction false} InsertKeepsTies(p: ProcessInfo, s: seq<ProcessInfo>, c: real)
    ensures WithKey(Insert(p, s), c) == WithKey([p] + s, c)
  {
    if |s| > 0 && CpuKey(p) < CpuKey(s[0]) {
      var rest := Insert(p, s[1..]);
      var hp := if CpuKey(p) == c then [p] else [];
      var hs := if CpuKey(s[0]) == c then [s[0]] else [];
      var tail := WithKey(s[1..], c);
      InsertKeepsTies(p, s[1..], c);
      assert ([s[0]] + rest)[1..] == rest;
      assert ([p] + s)[1..] == s;
      assert ([p] + s[1..])[1..] == s[1..];
      assert WithKey(rest, c) == hp + tail;
      assert WithKey([s[0]] + rest, c) == hs + (hp + tail);
      assert WithKey([p] + s, c) == hp + (hs + tail);
      assert hp == [] || hs == [];
      assert hs + (hp + tail) == hp + (hs + tail);
      assert Insert(p, s) == [s[0]] + rest;
    } else {
      assert Insert(p, s) == [p] + s;
    }
  }

  /** `processes.sort(key=lambda x: x['cpu_percent'] or 0, reverse=True)`: a stable sort, highest key first. */
  function SortByCpu(s: seq<ProcessInfo>): (r: seq<ProcessInfo>)
    ensures |r| == |s|
    ensures multiset(r) == multiset(s)
    ensures NonIncreasing(r)
  {
    if |s| == 0 then []
    else
      assert s == [s[0]] + s[1..];
      Insert(s[0], SortByCpu(s[1..]))
  }

  /** The sort is stable: entries with equal keys keep their relative order. */
  lemma {:induction false} SortKeepsTies(s: seq<ProcessInfo>)
    ensures KeepsTies(SortByCpu(s), s)
  {
    if |s| > 0 {
      var rest := SortByCpu(s[1..]);
      SortKeepsTies(s[1..]);
      assert s == [s[0]] + s[1..];
      forall c
        ensures WithKey(SortByCpu(s), c) == WithKey(s, c)
      {
        InsertKeepsTies(s[0], rest, c);
        assert ([s[0]] + rest)[1..] == rest;
        assert WithKey(rest, c) == WithKey(s[1..], c);
      }
    }
  }

  /** Processes whose record could be read; one that vanished or refused access is skipped. */
  function Collect(enumerated: seq<Option<ProcessInfo>>): (r: seq<ProcessInfo>)
    ensures forall p :: p in r <==> Some(p) in enumerated
  {
    if |enumerated| == 0 then []
    else
      var rest := Collect(enumerated[1..]);
      assert forall o :: o in enumerated <==> o == enumerated[0] || o in enumerated[1..];
      if enumerated[0].Some? then [enumerated[0].value] + rest else rest
  }

  /** A readable record is appended once; a skipped one contributes nothing. */
  lemma CollectOne(o: Option<ProcessInfo>)
    ensures Collect([o]) == if o.Some? then [o.value] else []
  {
    assert [o][1..] == [];
  }

  /**
   Collecting is done record by record in enumeration order: collecting two runs one after
   the other gives the first run's records followed by the second's. With `CollectOne` this
   fixes `Collect` completely.
   */
  lemma {:induction false} CollectAppend(a: seq<Option<ProcessInfo>>, b: seq<Option<ProcessInfo>>)
    ensures Collect(a + b) == Collect(a) + Collect(b)
  {
    if |a| == 0 {
      assert a + b == b;
    } else {
      assert (a + b)[0] == a[0];
      assert (a + b)[1..] == a[1..] + b;
      CollectAppend(a[1..], b);
      var head := if a[0].Some? then [a[0].value] else [];
      assert Collect(a + b) == head + (Collect(a[1..]) + Collect(b));
      assert head + (Collect(a[1..]) + Collect(b)) == (head + Collect(a[1..])) + Collect(b);
    }
  }

  /** Python's `s[:limit]`; a negative limit drops that many entries from the end. */
  function SliceTo<T>(s: seq<T>, limit: int): (r: seq<T>)
    ensures |r| <= |s| && r == s[..|r|]
    ensures limit >= 0 ==> |r| == (if limit < |s| then limit else |s|)
    ensures limit < 0 ==> |r| == (if |s| + limit > 0 then |s| + limit else 0)
  {
    var n := if limit >= 0 then limit else |s| + limit;
    if n <= 0 then [] else if n >= |s| then s else s[..n]
  }

  /** With the default `limit=20`, the snapshot holds the twenty busiest readable processes, or all of them when fewer are readable. */
  lemma DefaultSnapshotSize(enumerated: seq<Option<ProcessInfo>>)
    ensures var n := |Collect(enumerated)|;
            |TopProcesses(enumerated, DefaultLimit)| == if n < 20 then n else 20
  {
  }

  /** `get_running_processes(limit)` over the enumerated records. */
  function TopProcesses(enumerated: seq<Option<ProcessInfo>>, limit: int): seq<ProcessInfo> {
    SliceTo(SortByCpu(Collect(enumerated)), limit)
  }

  /**
   The snapshot holds `min(limit, n)` of the `n` readable processes (for a negative limit, all
   but the last `-limit`), highest CPU first, and is a prefix of the stable descending sort of
   everything readable.
   */
  lemma Snapshot(enumerated: seq<Option<ProcessInfo>>, limit: int)
    ensures var collected := Collect(enumerated);
            var top := TopProcesses(enumerated, limit);
            && |top| == (if limit >= 0 then (if limit < |collected| then limit else |collected|)
                         else if |collected| + limit > 0 then |collected| + limit else 0)
            && NonIncreasing(top)
            && top == SortByCpu(collected)[..|top|]
            && multiset(top) <= multiset(collected)
            && forall p :: p in top ==> Some(p) in enumerated
  {
    var collected := Collect(enumerated);
    var sorted := SortByCpu(collected);
    var top := TopProcesses(enumerated, limit);
    assert sorted == top + sorted[|top|..];
    assert multiset(sorted) == multiset(top) + multiset(sorted[|top|..]);
    forall p | p in top
      ensures Some(p) in enumerated
    {
      assert p in multiset(collected);
    }
  }

  /**
   Entries with equal keys keep their enumeration order: among the processes with any given
   CPU reading, the snapshot is an initial run of them in the order they were enumerated.
   */
  lemma {:induction false} SnapshotKeepsTies(enumerated: seq<Option<ProcessInfo>>, limit: int, c: real)
    ensures var top := TopProcesses(enumerated, limit);
            var collected := Collect(enumerated);
            WithKey(top, c) <= WithKey(collected, c)
  {
    var collected := Collect(enumerated);
    var sorted := SortByCpu(collected);
    var top := TopProcesses(enumerated, limit);
    assert sorted == top + sorted[|top|..];
    WithKeyAppend(top, sorted[|top|..], c);
    SortKeepsTies(collected);
    assert WithKey(sorted, c) == WithKey(collected, c);
  }

  lemma {:induction false} WithKeyAppend(a: seq<ProcessInfo>, b: seq<ProcessInfo>, c: real)
    ensures WithKey(a + b, c) == WithKey(a, c) + WithKey(b, c)
  {
    if |a| == 0 {
      assert a + b == b;
    } else {
      var head := if CpuKey(a[0]) == c then [a[0]] else [];
      assert (a + b)[0] == a[0];
      assert (a + b)[1..] == a[1..] + b;
      WithKeyAppend(a[1..], b, c);
      assert WithKey(a + b, c) == head + (WithKey(a[1..], c) + WithKey(b, c));
      assert head + (WithKey(a[1..], c) + WithKey(b, c)) == (head + WithKey(a[1..], c)) + WithKey(b, c);
    }
  }
}
