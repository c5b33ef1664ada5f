/**
 `KBest`: keeps the `max_size` checkpoints with the lowest metric. An offer is
 taken while there is room, or when its metric is strictly below the worst
 retained one; the worst (first maximal-metric) entry is then evicted first.
 Each operation returns the new state and the `save_fn` / `del_fn` calls it
 made, or the exception the Python code would raise.
 */
module KBestRetention {

  import opened Retention
  import opened Records

  datatype KBest = KBest(maxSize: int, records: seq<Record>)

  /** One `add_checkpoint(metric, path)` call. */
  datatype Offer = Offer(metric: int, path: Path)

  /** A fresh manager: no records yet, valid, and full only when `max_size` is 0. */
  function Init(maxSize: int): (k: KBest)
    ensures k.maxSize == maxSize && |k.records| == 0
    ensures Valid(k)
    ensures Full(k) <==> maxSize == 0
  {
    KBest(maxSize, [])
  }

  function Full(k: KBest): bool
  {
    Retention.Full(|k.records|, k.maxSize)
  }

  /** Some retained metric is strictly worse than `metric`, i.e. `metric` beats the worst one. */
  ghost predicate Beats(rs: seq<Record>, metric: int)
  {
    exists i :: 0 <= i < |rs| && metric < rs[i].metric
  }

  /**
   The states a manager can be in: unique keys (it is a dict), never more
   records than a non-negative `max_size`.
   */
  ghost predicate Valid(k: KBest)
  {
    && UniquePaths(k.records)
    && (k.maxSize >= 0 ==> |k.records| <= k.maxSize)
  }

  /**
   `should_save`: true while not full; when full, true exactly when the metric
   is strictly below the worst retained metric (an equal metric is refused).
   Full with no records (only `max_size == 0`) makes `max()` raise.
   */
  function ShouldSave(k: KBest, metric: int): (r: Result<bool>)
    ensures r.Err? <==> Full(k) && |k.records| == 0
    ensures r.Err? ==> r.error == MaxOfEmptyRecords
    ensures r.Ok? ==> (r.value <==> !Full(k) || Beats(k.records, metric))
  {
    if !Full(k) then Ok(true)
    else if |k.records| == 0 then Err(MaxOfEmptyRecords)
    else
      var w := WorstIndex(k.records);
      assert Beats(k.records, metric) ==> metric < k.records[w].metric;
      Ok(metric < k.records[w].metric)
  }

  /**
   `save_checkpoint_and_update`: when full, pop the worst entry and call
   `del_fn` on it; then call `save_fn` on the new path and store its metric.
   The new entry is stored, the evicted one is gone, every other entry keeps
   its metric and its place in the iteration order. A path already retained
   (and not evicted) keeps its place; any other path goes last.
   */
  function SaveAndUpdate(k: KBest, metric: int, path: Path): (r: Result<Step<KBest>>)
    ensures r.Err? <==> Full(k) && |k.records| == 0
    ensures r.Err? ==> r.error == MaxOfEmptyRecords
    ensures r.Ok? ==> r.value.state.maxSize == k.maxSize
    ensures r.Ok? ==> path in ToMap(r.value.state.records) && ToMap(r.value.state.records)[path] == metric
    ensures r.Ok? ==> forall q :: q in Paths(r.value.state.records) ==> q == path || q in Paths(k.records)
    ensures r.Ok? && !Full(k) ==>
              && r.value.events == [Save(path)]
              && ToMap(r.value.state.records) == ToMap(k.records)[path := metric]
              && (path in Paths(k.records) ==> Paths(r.value.state.records) == Paths(k.records))
              && (path !in Paths(k.records) ==> r.value.state.records == k.records + [Record(path, metric)])
    ensures r.Ok? && Full(k) ==>
              var w := WorstIndex(k.records);
              var rest := RemoveAt(k.records, w);
              && r.value.events == [Delete(k.records[w].path), Save(path)]
              && (UniquePaths(k.records) ==>
                    ToMap(r.value.state.records) == (ToMap(k.records) - {k.records[w].path})[path := metric])
              && (path in Paths(rest) ==> Paths(r.value.state.records) == Paths(rest))
              && (path !in Paths(rest) ==> r.value.state.records == rest + [Record(path, metric)])
  {
    if Full(k) then
      if |k.records| == 0 then Err(MaxOfEmptyRecords)
      else
        var w := WorstIndex(k.records);
        EvictThenPut(k.records, w, path, metric);
        Ok(Step(KBest(k.maxSize, Put(RemoveAt(k.records, w), path, metric)), [Delete(k.records[w].path), Save(path)]))
    else
      PutOnly(k.records, path, metric);
      Ok(Step(KBest(k.maxSize, Put(k.records, path, metric)), [Save(path)]))
  }

  /**
   Re-offering a retained path that is not evicted rewrites its entry where
   it stands (`d[path] = metric` on an existing key): the iteration order, and
   so the tie-break of the next `max`, is unchanged.
   */
  lemma ReofferInPlace(k: KBest, metric: int, path: Path)
    requires UniquePaths(k.records)
    ensures SaveAndUpdate(k, metric, path).Ok? && !Full(k) ==>
              forall i :: 0 <= i < |k.records| && k.records[i].path == path ==>
                SaveAndUpdate(k, metric, path).value.state.records == k.records[i := Record(path, metric)]
    ensures SaveAndUpdate(k, metric, path).Ok? && Full(k) ==>
              var rest := RemoveAt(k.records, WorstIndex(k.records));
              forall i :: 0 <= i < |rest| && rest[i].path == path ==>
                SaveAndUpdate(k, metric, path).value.state.records == rest[i := Record(path, metric)]
  {
    if SaveAndUpdate(k, metric, path).Ok? {
      var rs := if Full(k) then RemoveAt(k.records, WorstIndex(k.records)) else k.records;
      if Full(k) {
        RemoveAtUnique(k.records, WorstIndex(k.records));
      }
      assert SaveAndUpdate(k, metric, path).value.state.records == Put(rs, path, metric);
      forall i | 0 <= i < |rs| && rs[i].path == path
        ensures Put(rs, path, metric) == rs[i := Record(path, metric)]
      {
        forall j | 0 <= j < i
          ensures rs[j].path != rs[i].path
        {
          assert Paths(rs)[j] == rs[j].path && Paths(rs)[i] == rs[i].path;
        }
        PutInPlace(rs, i, metric);
      }
    }
  }

  /** Storing without eviction brings in no path but the stored one. */
  lemma PutOnly(rs: seq<Record>, path: Path, metric: int)
    ensures forall q :: q in Paths(Put(rs, path, metric)) ==> q == path || q in Paths(rs)
  {
    if path !in Paths(rs) {
      assert Paths(Put(rs, path, metric)) == Paths(rs) + [path];
    }
  }

  /** Popping entry `w` and then storing: the dict view and the key order that result. */
  lemma EvictThenPut(rs: seq<Record>, w: nat, path: Path, metric: int)
    requires w < |rs|
    ensures forall q :: q in Paths(Put(RemoveAt(rs, w), path, metric)) ==> q == path || q in Paths(rs)
    ensures UniquePaths(rs) ==>
              ToMap(Put(RemoveAt(rs, w), path, metric)) == (ToMap(rs) - {rs[w].path})[path := metric]
  {
    var rest := RemoveAt(rs, w);
    var ps := Paths(rs);
    assert forall q :: q in Paths(rest) ==> q in ps by {
      assert Paths(rest) == ps[..w] + ps[w + 1..];
    }
    PutOnly(rest, path, metric);
    if UniquePaths(rs) {
      ToMapRemoveAt(rs, w);
    }
  }

  /** `add_checkpoint`: a refused offer changes nothing and calls neither callback. */
  function AddCheckpoint(k: KBest, metric: int, path: Path): (r: Result<Step<KBest>>)
    ensures r.Err? <==> k.maxSize == 0 && |k.records| == 0
    ensures r.Ok? && Full(k) && !Beats(k.records, metric) ==> r.value == Step(k, [])
    ensures r.Ok? && (!Full(k) || Beats(k.records, metric)) ==> r == SaveAndUpdate(k, metric, path)
  {
    match ShouldSave(k, metric)
    case Err(e) => Err(e)
    case Ok(accept) =>
      if accept then SaveAndUpdate(k, metric, path) else Ok(Step(k, []))
  }

  /** Offers a sequence of checkpoints in order, stopping at the first exception. */
  function Run(k: KBest, offers: seq<Offer>): Result<Step<KBest>>
    decreases |offers|
  {
    if offers == [] then Ok(Step(k, []))
    else
      match Run(k, offers[..|offers| - 1])
      case Err(e) => Err(e)
      case Ok(s) =>
        var last := offers[|offers| - 1];
        match AddCheckpoint(s.state, last.metric, last.path)
        case Err(e) => Err(e)
        case Ok(t) => Ok(Step(t.state, s.events + t.events))
  }

  /** The paths of a sequence of offers, in offer order. */
  function OfferPaths(offers: seq<Offer>): seq<Path>
  {
    seq(|offers|, i requires 0 <= i < |offers| => offers[i].path)
  }

  /** The paths of all offers but the last, followed by the last offer's path. */
  lemma OfferPathsSnoc(offers: seq<Offer>)
    requires offers != []
    ensures OfferPaths(offers) == OfferPaths(offers[..|offers| - 1]) + [offers[|offers| - 1].path]
    ensures OfferPaths(offers[..|offers| - 1]) == OfferPaths(offers)[..|offers| - 1]
  {
  }

  /**
   `kept` holds the `k` smallest values of `pool` (all of them when there are
   no more than `k`): nothing left out is smaller than anything kept.
   */
  ghost predicate SmallestK(kept: multiset<int>, pool: multiset<int>, k: nat)
  {
    && kept <= pool
    && |kept| == Min(k, |pool|)
    && forall x, y :: x in kept && y in pool - kept ==> x <= y
  }

  /** Every offer keeps the manager valid; in particular a bounded manager never exceeds `max_size`. */
  lemma OfferKeepsValid(k: KBest, metric: int, path: Path)
    requires Valid(k)
    ensures AddCheckpoint(k, metric, path).Ok? ==> Valid(AddCheckpoint(k, metric, path).value.state)
  {
    var r := AddCheckpoint(k, metric, path);
    if r.Ok? && r.value.state != k {
      if Full(k) {
        var w := WorstIndex(k.records);
        var rest := RemoveAt(k.records, w);
        RemoveAtUnique(k.records, w);
        PutKeys(rest, path, metric);
        assert r.value.state.records == Put(rest, path, metric);
      } else {
        PutKeys(k.records, path, metric);
        assert r.value.state.records == Put(k.records, path, metric);
      }
    }
  }

  /**
   With a new path, an offer leaves exactly the `max_size` smallest of the
   previously retained metrics together with the offered one.
   */
  lemma OfferKeepsSmallest(k: KBest, metric: int, path: Path)
    requires Valid(k) && k.maxSize >= 1
    requires path !in Paths(k.records)
    ensures AddCheckpoint(k, metric, path).Ok?
    ensures SmallestK(Metrics(AddCheckpoint(k, metric, path).value.state.records),
                      Metrics(k.records) + multiset{metric}, k.maxSize)
  {
    var rs := k.records;
    var single := [Record(path, metric)];
    var next := AddCheckpoint(k, metric, path).value.state.records;
    assert Metrics(single) == multiset{metric} by {
      assert single[1..] == [];
    }
    MetricsSize(rs);
    if !Full(k) {
      assert next == rs + single;
      MetricsConcat(rs, single);
    } else if !Beats(rs, metric) {
      assert next == rs;
      SmallestWhenRefused(rs, metric, k.maxSize);
    } else {
      var w := WorstIndex(rs);
      assert next == RemoveAt(rs, w) + single;
      MetricsRemoveAt(rs, w);
      MetricsConcat(RemoveAt(rs, w), single);
      SmallestWhenEvicting(rs, w, metric, k.maxSize);
    }
  }

  /** A refused offer: the retained metrics are the smallest, the offered one is not below any of them. */
  lemma SmallestWhenRefused(rs: seq<Record>, metric: int, k: nat)
    requires |rs| == k && !Beats(rs, metric)
    ensures SmallestK(Metrics(rs), Metrics(rs) + multiset{metric}, k)
  {
    var kept := Metrics(rs);
    var pool := kept + multiset{metric};
    MetricsSize(rs);
    assert pool - kept == multiset{metric};
    forall x | x in kept
      ensures x <= metric
    {
      MetricsMembers(rs, x);
    }
  }

  /** An eviction: the worst retained metric is the one value of the pool left out. */
  lemma SmallestWhenEvicting(rs: seq<Record>, w: nat, metric: int, k: nat)
    requires |rs| == k && IsFirstMax(rs, w) && metric < rs[w].metric
    requires rs[w].metric in Metrics(rs)
    ensures SmallestK(Metrics(rs) - multiset{rs[w].metric} + multiset{metric}, Metrics(rs) + multiset{metric}, k)
  {
    var worst := rs[w].metric;
    var others := Metrics(rs) - multiset{worst};
    var kept := others + multiset{metric};
    var pool := Metrics(rs) + multiset{metric};
    MetricsSize(rs);
    assert Metrics(rs) == others + multiset{worst};
    assert pool == kept + multiset{worst};
    assert pool - kept == multiset{worst};
    forall x | x in kept
      ensures x <= worst
    {
      if x in others {
        MetricsMembers(rs, x);
      }
    }
  }

  /**
   Replaying an offer's callback calls onto the files of the retained paths
   leaves exactly the files of the newly retained paths: the eviction's
   `del_fn` runs before `save_fn`, so re-offering the evicted path keeps its file.
   */
  lemma OfferReplay(k: KBest, metric: int, path: Path)
    requires UniquePaths(k.records)
    ensures AddCheckpoint(k, metric, path).Ok? ==>
              Replay(ToSet(Paths(k.records)), AddCheckpoint(k, metric, path).value.events)
              == ToSet(Paths(AddCheckpoint(k, metric, path).value.state.records))
  {
    var r := AddCheckpoint(k, metric, path);
    var before := ToSet(Paths(k.records));
    if r.Ok? && r.value.events != [] {
      if Full(k) {
        var w := WorstIndex(k.records);
        var rest := RemoveAt(k.records, w);
        RemoveAtUnique(k.records, w);
        PutKeys(rest, path, metric);
        assert r.value.state.records == Put(rest, path, metric);
        var ev := r.value.events;
        assert ev == [Delete(k.records[w].path), Save(path)];
        var gone := before - {k.records[w].path};
        assert ev[1..] == [Save(path)] && ev[1..][1..] == [];
        assert Replay(gone + {path}, ev[1..][1..]) == gone + {path};
        assert Replay(gone, ev[1..]) == gone + {path};
        assert Replay(before, ev) == gone + {path};
      } else {
        PutKeys(k.records, path, metric);
        assert r.value.state.records == Put(k.records, path, metric);
        assert Replay(before, r.value.events) == before + {path} by {
          assert r.value.events[1..] == [];
        }
      }
    }
  }

  /** A run fails exactly when `max_size` is 0 and something is offered. */
  lemma {:induction false} RunFails(maxSize: int, offers: seq<Offer>)
    ensures Run(Init(maxSize), offers).Err? <==> maxSize == 0 && offers != []
    ensures Run(Init(maxSize), offers).Err? ==> Run(Init(maxSize), offers).error == MaxOfEmptyRecords
    ensures Run(Init(maxSize), offers).Ok? ==> Run(Init(maxSize), offers).value.state.maxSize == maxSize
    decreases |offers|
  {
    if offers != [] {
      var prefix := offers[..|offers| - 1];
      RunFails(maxSize, prefix);
      if maxSize == 0 && prefix == [] {
        assert Run(Init(maxSize), prefix) == Ok(Step(Init(maxSize), []));
      }
    }
  }

  /** Validity, and so the capacity bound, holds after every run of offers. */
  lemma {:induction false} RunKeepsValid(k: KBest, offers: seq<Offer>)
    requires Valid(k)
    ensures Run(k, offers).Ok? ==> Valid(Run(k, offers).value.state)
    decreases |offers|
  {
    if offers != [] {
      var prefix := offers[..|offers| - 1];
      RunKeepsValid(k, prefix);
      var s := Run(k, prefix);
      if s.Ok? {
        var last := offers[|offers| - 1];
        OfferKeepsValid(s.value.state, last.metric, last.path);
      }
    }
  }

  /** With `max_size >= 1` no run fails and none retains more than `max_size` checkpoints. */
  lemma CapacityBound(maxSize: int, offers: seq<Offer>)
    requires maxSize >= 1
    ensures Run(Init(maxSize), offers).Ok?
    ensures |Run(Init(maxSize), offers).value.state.records| <= maxSize
  {
    RunFails(maxSize, offers);
    RunKeepsValid(Init(maxSize), offers);
  }

  /**
   A negative `max_size` (the -1 sentinel, and any other negative value,
   which never equals a count) saves every offer and never deletes.
   */
  lemma {:induction false} UnboundedSavesAll(k: KBest, offers: seq<Offer>)
    requires k.maxSize < 0
    ensures Run(k, offers).Ok?
    ensures Run(k, offers).value.state.maxSize == k.maxSize
    ensures Saved(Run(k, offers).value.events) == OfferPaths(offers)
    ensures Deleted(Run(k, offers).value.events) == []
    decreases |offers|
  {
    if offers != [] {
      var prefix := offers[..|offers| - 1];
      UnboundedSavesAll(k, prefix);
      var s := Run(k, prefix).value;
      var last := offers[|offers| - 1];
      var t := AddCheckpoint(s.state, last.metric, last.path).value;
      assert t.events == [Save(last.path)];
      SavedConcat(s.events, t.events);
      DeletedConcat(s.events, t.events);
      assert Saved(t.events) == [last.path] by {
        assert t.events[1..] == [];
      }
      assert Deleted(t.events) == [] by {
        assert t.events[1..] == [];
      }
      OfferPathsSnoc(offers);
    }
  }

  /**
   From a fresh manager with `max_size = K >= 1`, offering distinct paths
   leaves exactly min(n, K) records after n offers, all of them offered paths.
   */
  lemma {:induction false} RunCount(maxSize: int, offers: seq<Offer>)
    requires maxSize >= 1
    requires Distinct(OfferPaths(offers))
    ensures Run(Init(maxSize), offers).Ok?
    ensures |Run(Init(maxSize), offers).value.state.records| == Min(|offers|, maxSize)
    ensures forall q :: q in Paths(Run(Init(maxSize), offers).value.state.records) ==> q in OfferPaths(offers)
    decreases |offers|
  {
    CapacityBound(maxSize, offers);
    RunFails(maxSize, offers);
    if offers != [] {
      var prefix := offers[..|offers| - 1];
      OfferPathsSnoc(offers);
      assert Distinct(OfferPaths(prefix));
      RunCount(maxSize, prefix);
      RunKeepsValid(Init(maxSize), prefix);
      var s := Run(Init(maxSize), prefix).value;
      RunFails(maxSize, prefix);
      var last := offers[|offers| - 1];
      forall j | 0 <= j < |prefix|
        ensures OfferPaths(prefix)[j] != last.path
      {
        assert OfferPaths(offers)[j] != OfferPaths(offers)[|offers| - 1];
      }
      assert last.path !in Paths(s.state.records);
      var t := AddCheckpoint(s.state, last.metric, last.path).value;
      if Full(s.state) && Beats(s.state.records, last.metric) {
        var w := WorstIndex(s.state.records);
        assert t.state.records == RemoveAt(s.state.records, w) + [Record(last.path, last.metric)];
      }
    }
  }

  /**
   Replaying a whole run's callback calls onto the files of the initially
   retained paths leaves exactly the files of the finally retained paths.
   */
  lemma {:induction false} RunReplay(k: KBest, offers: seq<Offer>)
    requires Valid(k)
    ensures Run(k, offers).Ok? ==>
              Replay(ToSet(Paths(k.records)), Run(k, offers).value.events)
              == ToSet(Paths(Run(k, offers).value.state.records))
    decreases |offers|
  {
    if offers != [] {
      var prefix := offers[..|offers| - 1];
      RunReplay(k, prefix);
      RunKeepsValid(k, prefix);
      var r := Run(k, prefix);
      if r.Ok? {
        var s := r.value;
        var last := offers[|offers| - 1];
        OfferReplay(s.state, last.metric, last.path);
        var t := AddCheckpoint(s.state, last.metric, last.path);
        if t.Ok? {
          ReplayConcat(ToSet(Paths(k.records)), s.events, t.value.events);
        }
      }
    }
  }

  /**
   The scenario of the class docstring: K = 5, twenty offers with distinct
   paths into an empty directory leave exactly five checkpoint files.
   */
  lemma FiveOfTwenty(offers: seq<Offer>)
    requires |offers| == 20 && Distinct(OfferPaths(offers))
    ensures Run(Init(5), offers).Ok?
    ensures |Replay({}, Run(Init(5), offers).value.events)| == 5
  {
    RunCount(5, offers);
    RunReplay(Init(5), offers);
    RunKeepsValid(Init(5), offers);
    var rs := Run(Init(5), offers).value.state.records;
    assert ToSet(Paths(Init(5).records)) == {};
    DistinctCard(Paths(rs));
  }
}
