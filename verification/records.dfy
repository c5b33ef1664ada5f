/**
 The `best_records` dict of `KBest`: a Python dict from checkpoint path to
 metric, which iterates in insertion order. It is represented as the sequence
 of its entries in that order; `ToMap` is the plain key/value view.
 */
module Records {

  import opened Retention

  datatype Record = Record(path: Path, metric: int)

  /** The keys of the dict, in iteration (insertion) order. */
  function Paths(rs: seq<Record>): seq<Path>
  {
    seq(|rs|, i requires 0 <= i < |rs| => rs[i].path)
  }

  /** Dict keys are unique. */
  predicate UniquePaths(rs: seq<Record>)
  {
    Distinct(Paths(rs))
  }

  /** The key/value view of the dict (on a repeated key, the earliest entry wins). */
  function ToMap(rs: seq<Record>): map<Path, int>
    decreases |rs|
  {
    if rs == [] then map[] else ToMap(rs[1..])[rs[0].path := rs[0].metric]
  }

  /** The retained metrics, counted with multiplicity. */
  function Metrics(rs: seq<Record>): multiset<int>
    decreases |rs|
  {
    if rs == [] then multiset{} else multiset{rs[0].metric} + Metrics(rs[1..])
  }

  /**
   `d[path] = metric`: an existing key keeps its position and takes the new
   value; a new key goes to the end of the iteration order.
   */
  function Put(rs: seq<Record>, path: Path, metric: int): (r: seq<Record>)
    ensures path in Paths(rs) ==> Paths(r) == Paths(rs)
    ensures path !in Paths(rs) ==> r == rs + [Record(path, metric)]
    ensures ToMap(r) == ToMap(rs)[path := metric]
    decreases |rs|
  {
    if rs == [] then
      assert [Record(path, metric)][1..] == [];
      [Record(path, metric)]
    else if rs[0].path == path then
      assert Paths(rs)[0] == path;
      var r := [Record(path, metric)] + rs[1..];
      assert Paths(r) == Paths(rs);
      r
    else
      var tail := Put(rs[1..], path, metric);
      PutLater(rs, path, metric, tail);
      [rs[0]] + tail
  }

  /** `Put` past the first entry: what holds of the rest carries over to the whole. */
  lemma PutLater(rs: seq<Record>, path: Path, metric: int, tail: seq<Record>)
    requires rs != [] && rs[0].path != path
    requires path in Paths(rs[1..]) ==> Paths(tail) == Paths(rs[1..])
    requires path !in Paths(rs[1..]) ==> tail == rs[1..] + [Record(path, metric)]
    requires ToMap(tail) == ToMap(rs[1..])[path := metric]
    ensures path in Paths(rs) ==> Paths([rs[0]] + tail) == Paths(rs)
    ensures path !in Paths(rs) ==> [rs[0]] + tail == rs + [Record(path, metric)]
    ensures ToMap([rs[0]] + tail) == ToMap(rs)[path := metric]
  {
    assert Paths(rs) == [rs[0].path] + Paths(rs[1..]);
    assert Paths([rs[0]] + tail) == [rs[0].path] + Paths(tail);
    assert ([rs[0]] + tail)[1..] == tail;
    if path !in Paths(rs) {
      assert rs == [rs[0]] + rs[1..];
    }
  }

  /**
   Assigning to a key already present rewrites its entry where it stands:
   nothing moves and no other entry changes.
   */
  lemma {:induction false} PutInPlace(rs: seq<Record>, i: nat, metric: int)
    requires i < |rs|
    requires forall j :: 0 <= j < i ==> rs[j].path != rs[i].path
    ensures Put(rs, rs[i].path, metric) == rs[i := Record(rs[i].path, metric)]
    decreases i
  {
    if i > 0 {
      var tail := rs[1..];
      assert tail[i - 1] == rs[i];
      PutInPlace(tail, i - 1, metric);
      assert rs[i := Record(rs[i].path, metric)] == [rs[0]] + tail[i - 1 := Record(rs[i].path, metric)];
    }
  }

  /** The entries after the first of a dict with unique keys still have unique keys, none of them the first key. */
  lemma UniqueTail(rs: seq<Record>)
    requires rs != [] && UniquePaths(rs)
    ensures UniquePaths(rs[1..])
    ensures forall j :: 0 <= j < |rs[1..]| ==> rs[1..][j].path != rs[0].path
  {
    var ps := Paths(rs);
    assert Paths(rs[1..]) == ps[1..];
    forall j | 0 <= j < |rs[1..]|
      ensures rs[1..][j].path != rs[0].path
    {
      assert ps[0] == rs[0].path && ps[j + 1] == rs[1..][j].path;
    }
  }

  /** `d.pop(key)` for the key at position `i` of the iteration order. */
  function RemoveAt(rs: seq<Record>, i: nat): (r: seq<Record>)
    requires i < |rs|
    ensures |r| == |rs| - 1
    ensures Paths(r) == Paths(rs)[..i] + Paths(rs)[i + 1..]
    ensures forall j :: 0 <= j < |r| ==> r[j] == (if j < i then rs[j] else rs[j + 1])
  {
    rs[..i] + rs[i + 1..]
  }

  /**
   `w` is the entry Python's `max(d, key=d.get)` returns: a maximal metric,
   and the first such entry in iteration order (`max` only replaces its
   candidate on a strictly greater value).
   */
  ghost predicate IsFirstMax(rs: seq<Record>, w: int)
  {
    && 0 <= w < |rs|
    && (forall j :: 0 <= j < |rs| ==> rs[j].metric <= rs[w].metric)
    && (forall j :: 0 <= j < w ==> rs[j].metric < rs[w].metric)
  }

  /** The scan `max` performs: `best` is the candidate after looking at `rs[..i]`. */
  function MaxFrom(rs: seq<Record>, i: nat, best: nat): (w: nat)
    requires best < i <= |rs|
    requires IsFirstMax(rs[..i], best)
    ensures IsFirstMax(rs, w)
    decreases |rs| - i
  {
    if i == |rs| then
      assert rs[..i] == rs;
      best
    else if rs[i].metric > rs[best].metric then
      MaxFrom(rs, i + 1, i)
    else
      MaxFrom(rs, i + 1, best)
  }

  /** The index of the worst (first maximal-metric) entry; there is exactly one such index. */
  function WorstIndex(rs: seq<Record>): (w: nat)
    requires |rs| > 0
    ensures IsFirstMax(rs, w)
    ensures forall v :: IsFirstMax(rs, v) ==> v == w
  {
    MaxFrom(rs, 1, 0)
  }

  lemma {:induction false} MetricsConcat(a: seq<Record>, b: seq<Record>)
    ensures Metrics(a + b) == Metrics(a) + Metrics(b)
    decreases |a|
  {
    if a == [] {
      assert a + b == b;
    } else {
      assert (a + b)[0] == a[0];
      assert (a + b)[1..] == a[1..] + b;
      MetricsConcat(a[1..], b);
    }
  }

  /** Popping an entry takes exactly its metric out of the retained multiset. */
  lemma {:induction false} MetricsRemoveAt(rs: seq<Record>, i: nat)
    requires i < |rs|
    ensures Metrics(RemoveAt(rs, i)) == Metrics(rs) - multiset{rs[i].metric}
    ensures rs[i].metric in Metrics(rs)
  {
    var front, back := rs[..i], rs[i + 1..];
    var x := rs[i].metric;
    assert rs == front + ([rs[i]] + back);
    assert Metrics([rs[i]] + back) == multiset{x} + Metrics(back) by {
      assert ([rs[i]] + back)[1..] == back;
    }
    MetricsConcat(front, [rs[i]] + back);
    MetricsConcat(front, back);
    var mf, mb := Metrics(front), Metrics(back);
    assert Metrics(rs) == mf + multiset{x} + mb;
    assert Metrics(RemoveAt(rs, i)) == mf + mb;
    assert (mf + multiset{x} + mb) - multiset{x} == mf + mb;
  }

  /** Every retained metric is some entry's metric. */
  lemma {:induction false} MetricsMembers(rs: seq<Record>, x: int)
    requires x in Metrics(rs)
    ensures exists j :: 0 <= j < |rs| && rs[j].metric == x
    decreases |rs|
  {
    if rs[0].metric != x {
      MetricsMembers(rs[1..], x);
      var j :| 0 <= j < |rs[1..]| && rs[1..][j].metric == x;
      assert rs[j + 1].metric == x;
    }
  }

  lemma {:induction false} MetricsSize(rs: seq<Record>)
    ensures |Metrics(rs)| == |rs|
    decreases |rs|
  {
    if rs != [] {
      MetricsSize(rs[1..]);
    }
  }

  /** Popping a key from a dict with unique keys removes it from the key/value view and nothing else. */
  lemma {:induction false} ToMapRemoveAt(rs: seq<Record>, i: nat)
    requires i < |rs|
    requires UniquePaths(rs)
    ensures ToMap(RemoveAt(rs, i)) == ToMap(rs) - {rs[i].path}
    decreases |rs|
  {
    UniqueTail(rs);
    var tail := rs[1..];
    if i == 0 {
      assert RemoveAt(rs, i) == tail;
      ToMapAbsent(tail, rs[0].path);
    } else {
      var w := rs[i].path;
      assert tail[i - 1] == rs[i];
      ToMapRemoveAt(tail, i - 1);
      var rest := RemoveAt(tail, i - 1);
      assert RemoveAt(rs, i) == [rs[0]] + rest;
      assert ([rs[0]] + rest)[1..] == rest;
      assert ToMap(RemoveAt(rs, i)) == (ToMap(tail) - {w})[rs[0].path := rs[0].metric];
      assert ToMap(rs) == ToMap(tail)[rs[0].path := rs[0].metric];
      assert w != rs[0].path;
      UpdateRemoveCommute(ToMap(tail), rs[0].path, rs[0].metric, w);
    }
  }

  lemma UpdateRemoveCommute(m: map<Path, int>, k: Path, v: int, w: Path)
    requires k != w
    ensures (m - {w})[k := v] == m[k := v] - {w}
  {
  }

  /** A key that no entry has is not in the key/value view. */
  lemma {:induction false} ToMapAbsent(rs: seq<Record>, p: Path)
    requires forall j :: 0 <= j < |rs| ==> rs[j].path != p
    ensures p !in ToMap(rs)
    decreases |rs|
  {
    if rs != [] {
      ToMapAbsent(rs[1..], p);
    }
  }

  /** Popping an entry of a dict with unique keys keeps the keys unique and drops exactly that key. */
  lemma RemoveAtUnique(rs: seq<Record>, i: nat)
    requires i < |rs| && UniquePaths(rs)
    ensures UniquePaths(RemoveAt(rs, i))
    ensures ToSet(Paths(RemoveAt(rs, i))) == ToSet(Paths(rs)) - {rs[i].path}
  {
    var ps := Paths(rs);
    var qs := Paths(RemoveAt(rs, i));
    assert qs == ps[..i] + ps[i + 1..];
    forall a, b | 0 <= a < b < |qs|
      ensures qs[a] != qs[b]
    {
      var a' := if a < i then a else a + 1;
      var b' := if b < i then b else b + 1;
      assert qs[a] == ps[a'] && qs[b] == ps[b'];
    }
    forall q | q in ToSet(ps) - {rs[i].path}
      ensures q in ToSet(qs)
    {
      var j :| 0 <= j < |ps| && ps[j] == q;
      assert j != i;
      assert qs[if j < i then j else j - 1] == q;
    }
    forall q | q in ToSet(qs)
      ensures q in ToSet(ps) - {rs[i].path}
    {
      var j :| 0 <= j < |qs| && qs[j] == q;
      var j' := if j < i then j else j + 1;
      assert ps[j'] == q && j' != i && ps[i] == rs[i].path;
    }
  }

  /** Storing a key adds it to the key set and nothing else. */
  lemma PutKeys(rs: seq<Record>, path: Path, metric: int)
    ensures ToSet(Paths(Put(rs, path, metric))) == ToSet(Paths(rs)) + {path}
    ensures |Put(rs, path, metric)| == |rs| + (if path in Paths(rs) then 0 else 1)
    ensures UniquePaths(rs) ==> UniquePaths(Put(rs, path, metric))
  {
    if path !in Paths(rs) {
      assert Paths(Put(rs, path, metric)) == Paths(rs) + [path];
      DistinctAppend(Paths(rs), path);
    }
  }
}
