/**
 `KLatest`: keeps the `max_size` most recently offered checkpoints, oldest
 first. Every offer is taken; when full the oldest path is popped and handed
 to `del_fn` before `save_fn` sees the new one.
 */
module KLatestRetention {

  import opened Retention

  datatype KLatest = KLatest(maxSize: int, records: seq<Path>)

  /** A fresh manager: no records yet, so it is full only when `max_size` is 0. */
  function Init(maxSize: int): (k: KLatest)
    ensures k.maxSize == maxSize && |k.records| == 0
    ensures Full(k) <==> maxSize == 0
  {
    KLatest(maxSize, [])
  }

  function Full(k: KLatest): bool
  {
    Retention.Full(|k.records|, k.maxSize)
  }

  /**
   `add_checkpoint` / `save_checkpoint_and_update`: when full, pop the oldest
   path and call `del_fn` on it; then call `save_fn` on the new path and
   append it. Full with no records (only `max_size == 0`) makes `pop(0)` raise.
   Otherwise the old records followed by the new path are exactly the evicted
   paths followed by the new records; one path is evicted when full and none
   otherwise, and every `del_fn` call precedes the single `save_fn` call.
   */
  function AddCheckpoint(k: KLatest, path: Path): (r: Result<Step<KLatest>>)
    ensures r.Err? <==> k.maxSize == 0 && |k.records| == 0
    ensures r.Err? ==> r.error == PopFromEmptyList
    ensures r.Ok? ==>
              && r.value.state.maxSize == k.maxSize
              && k.records + [path] == Deleted(r.value.events) + r.value.state.records
              && |Deleted(r.value.events)| == (if Full(k) then 1 else 0)
              && Saved(r.value.events) == [path]
              && |r.value.events| == |Deleted(r.value.events)| + 1
              && r.value.events[|r.value.events| - 1] == Save(path)
  {
    if Full(k) then
      if |k.records| == 0 then Err(PopFromEmptyList)
      else
        EvictSaveTrace({}, k.records[0], path);
        assert k.records + [path] == [k.records[0]] + (k.records[1..] + [path]);
        Ok(Step(KLatest(k.maxSize, k.records[1..] + [path]), [Delete(k.records[0]), Save(path)]))
    else
      SaveTrace({}, path);
      Ok(Step(KLatest(k.maxSize, k.records + [path]), [Save(path)]))
  }

  /** Offers a sequence of paths in order, stopping at the first exception. */
  function Run(k: KLatest, paths: seq<Path>): Result<Step<KLatest>>
    decreases |paths|
  {
    if paths == [] then Ok(Step(k, []))
    else
      match Run(k, paths[..|paths| - 1])
      case Err(e) => Err(e)
      case Ok(s) =>
        match AddCheckpoint(s.state, paths[|paths| - 1])
        case Err(e) => Err(e)
        case Ok(t) => Ok(Step(t.state, s.events + t.events))
  }

  /** A run one offer longer is the shorter run followed by that offer. */
  lemma RunSnoc(k: KLatest, paths: seq<Path>)
    requires paths != [] && Run(k, paths[..|paths| - 1]).Ok?
    requires AddCheckpoint(Run(k, paths[..|paths| - 1]).value.state, paths[|paths| - 1]).Ok?
    ensures Run(k, paths)
            == var s := Run(k, paths[..|paths| - 1]).value;
               var t := AddCheckpoint(s.state, paths[|paths| - 1]).value;
               Ok(Step(t.state, s.events + t.events))
  {
  }

  /** The last `n` elements of a sequence (all of it when shorter). */
  function LastN(ps: seq<Path>, n: nat): seq<Path>
  {
    ps[|ps| - Min(|ps|, n)..]
  }

  /** A run fails exactly when `max_size` is 0 and something is offered. */
  lemma {:induction false} RunFails(maxSize: int, paths: seq<Path>)
    ensures Run(Init(maxSize), paths).Err? <==> maxSize == 0 && paths != []
    ensures Run(Init(maxSize), paths).Err? ==> Run(Init(maxSize), paths).error == PopFromEmptyList
    decreases |paths|
  {
    if paths != [] {
      var prefix := paths[..|paths| - 1];
      RunFails(maxSize, prefix);
      if maxSize == 0 && prefix == [] {
        assert Run(Init(maxSize), prefix) == Ok(Step(Init(maxSize), []));
      }
    }
  }

  /** What one offer does, case by case (the steps the run lemmas below build on). */
  lemma StepCases(k: KLatest, path: Path)
    requires k.maxSize != 0 || |k.records| > 0
    ensures AddCheckpoint(k, path).Ok?
    ensures !Full(k) ==> AddCheckpoint(k, path).value == Step(KLatest(k.maxSize, k.records + [path]), [Save(path)])
    ensures Full(k) ==> AddCheckpoint(k, path).value
                        == Step(KLatest(k.maxSize, k.records[1..] + [path]), [Delete(k.records[0]), Save(path)])
  {
  }

  /**
   From a fresh manager with `max_size = K >= 1`, after offering p1..pn the
   records are the last min(n, K) paths in offer order.
   */
  lemma {:induction false} KeepsLatest(maxSize: int, paths: seq<Path>)
    requires maxSize >= 1
    ensures Run(Init(maxSize), paths).Ok?
    ensures Run(Init(maxSize), paths).value.state == KLatest(maxSize, LastN(paths, maxSize))
    decreases |paths|
  {
    if paths != [] {
      var n := |paths|;
      var prefix := paths[..n - 1];
      var p := paths[n - 1];
      Snoc(paths);
      KeepsLatest(maxSize, prefix);
      var s := Run(Init(maxSize), prefix).value;
      assert s.state == KLatest(maxSize, LastN(prefix, maxSize));
      StepCases(s.state, p);
      LastNSnoc(prefix, p, maxSize);
    }
  }

  /** Appending to a sequence slides its window of the last `n` elements by one once it is full. */
  lemma LastNSnoc(ps: seq<Path>, p: Path, n: nat)
    requires n >= 1
    ensures |ps| < n ==> LastN(ps + [p], n) == LastN(ps, n) + [p]
    ensures |ps| >= n ==> |LastN(ps, n)| == n && LastN(ps + [p], n) == LastN(ps, n)[1..] + [p]
  {
  }

  /** All but the last `n` elements of a sequence: the ones a window of size `n` has slid past. */
  function Evicted(ps: seq<Path>, n: nat): seq<Path>
  {
    ps[..|ps| - Min(|ps|, n)]
  }

  /** Appending to a full window evicts the window's oldest element. */
  lemma EvictedSnoc(ps: seq<Path>, p: Path, n: nat)
    requires n >= 1
    ensures |ps| < n ==> Evicted(ps + [p], n) == Evicted(ps, n) == []
    ensures |ps| >= n ==> Evicted(ps + [p], n) == Evicted(ps, n) + [LastN(ps, n)[0]]
  {
    if |ps| >= n {
      assert (ps + [p])[..|ps| + 1 - n] == ps[..|ps| - n] + [ps[|ps| - n]];
    }
  }

  /** A non-empty sequence is its prefix followed by its last element. */
  lemma Snoc(ps: seq<Path>)
    requires ps != []
    ensures ps == ps[..|ps| - 1] + [ps[|ps| - 1]]
  {
  }

  /** One offer more: the run's trace grows by that offer's trace. */
  lemma RunTraceSnoc(maxSize: int, paths: seq<Path>)
    requires maxSize >= 1 && paths != []
    ensures Run(Init(maxSize), paths).Ok?
    ensures var prefix := paths[..|paths| - 1];
            var s := Run(Init(maxSize), prefix).value;
            s.state == KLatest(maxSize, LastN(prefix, maxSize))
            && Run(Init(maxSize), paths).value.events
               == s.events + AddCheckpoint(s.state, paths[|paths| - 1]).value.events
  {
    var prefix := paths[..|paths| - 1];
    KeepsLatest(maxSize, prefix);
    StepCases(Run(Init(maxSize), prefix).value.state, paths[|paths| - 1]);
    RunSnoc(Init(maxSize), paths);
  }

  /** From a fresh manager with `max_size = K >= 1`, `save_fn` sees every offered path, in order. */
  lemma {:induction false} LatestSaved(maxSize: int, paths: seq<Path>)
    requires maxSize >= 1
    ensures Run(Init(maxSize), paths).Ok?
    ensures Saved(Run(Init(maxSize), paths).value.events) == paths
    decreases |paths|
  {
    if paths != [] {
      var n := |paths|;
      var prefix := paths[..n - 1];
      var p := paths[n - 1];
      Snoc(paths);
      LatestSaved(maxSize, prefix);
      RunTraceSnoc(maxSize, paths);
      var s := Run(Init(maxSize), prefix).value;
      var t := AddCheckpoint(s.state, p).value;
      TraceOfOffer(s.state, p);
      SavedConcat(s.events, t.events);
    }
  }

  /**
   From a fresh manager with `max_size = K >= 1`, `del_fn` sees exactly the
   offered paths no longer retained, oldest first.
   */
  lemma {:induction false} LatestDeleted(maxSize: int, paths: seq<Path>)
    requires maxSize >= 1
    ensures Run(Init(maxSize), paths).Ok?
    ensures Deleted(Run(Init(maxSize), paths).value.events) == Evicted(paths, maxSize)
    decreases |paths|
  {
    if paths != [] {
      var n := |paths|;
      var prefix := paths[..n - 1];
      var p := paths[n - 1];
      Snoc(paths);
      LatestDeleted(maxSize, prefix);
      RunTraceSnoc(maxSize, paths);
      var s := Run(Init(maxSize), prefix).value;
      var t := AddCheckpoint(s.state, p).value;
      TraceOfOffer(s.state, p);
      DeletedConcat(s.events, t.events);
      EvictedSnoc(prefix, p, maxSize);
      assert Full(s.state) <==> n - 1 >= maxSize;
    }
  }

  /** The callback calls of one successful offer, as `save_fn` and `del_fn` see them. */
  lemma TraceOfOffer(k: KLatest, path: Path)
    requires k.maxSize != 0 || |k.records| > 0
    ensures Saved(AddCheckpoint(k, path).value.events) == [path]
    ensures Deleted(AddCheckpoint(k, path).value.events) == (if Full(k) then [k.records[0]] else [])
  {
    if Full(k) {
      EvictSaveTrace({}, k.records[0], path);
    } else {
      SaveTrace({}, path);
    }
  }

  /**
   The -1 sentinel, and any other negative `max_size`, keeps every offered
   path in order.
   */
  lemma {:induction false} UnboundedKeepsAll(maxSize: int, paths: seq<Path>)
    requires maxSize < 0
    ensures Run(Init(maxSize), paths).Ok?
    ensures Run(Init(maxSize), paths).value.state == KLatest(maxSize, paths)
    decreases |paths|
  {
    if paths != [] {
      var n := |paths|;
      var prefix := paths[..n - 1];
      var p := paths[n - 1];
      Snoc(paths);
      UnboundedKeepsAll(maxSize, prefix);
      var s := Run(Init(maxSize), prefix).value;
      StepCases(s.state, p);
    }
  }

  /** With a negative `max_size`, `save_fn` sees every offered path in order and `del_fn` is never called. */
  lemma {:induction false} UnboundedTrace(maxSize: int, paths: seq<Path>)
    requires maxSize < 0
    ensures Run(Init(maxSize), paths).Ok?
    ensures Saved(Run(Init(maxSize), paths).value.events) == paths
    ensures Deleted(Run(Init(maxSize), paths).value.events) == []
    decreases |paths|
  {
    UnboundedKeepsAll(maxSize, paths);
    if paths != [] {
      var n := |paths|;
      var prefix := paths[..n - 1];
      var p := paths[n - 1];
      Snoc(paths);
      UnboundedTrace(maxSize, prefix);
      UnboundedKeepsAll(maxSize, prefix);
      var s := Run(Init(maxSize), prefix).value;
      TraceOfOffer(s.state, p);
      var t := AddCheckpoint(s.state, p).value;
      assert Run(Init(maxSize), paths).value.events == s.events + t.events;
      SavedConcat(s.events, t.events);
      DeletedConcat(s.events, t.events);
    }
  }

  /**
   With distinct records, replaying an offer's callback calls onto the files
   of the retained paths leaves the files of the new records. This includes
   re-offering a retained path: when it is the oldest and the manager is full,
   `del_fn` runs before `save_fn`, so its file survives.
   */
  lemma OfferReplay(k: KLatest, path: Path)
    requires k.maxSize != 0 || |k.records| > 0
    requires Distinct(k.records)
    ensures Replay(ToSet(k.records), AddCheckpoint(k, path).value.events)
            == ToSet(AddCheckpoint(k, path).value.state.records)
  {
    var rs := k.records;
    StepCases(k, path);
    if Full(k) {
      EvictSaveTrace(ToSet(rs), rs[0], path);
      assert rs[0] !in rs[1..];
      assert rs == [rs[0]] + rs[1..];
      assert ToSet(rs) - {rs[0]} == ToSet(rs[1..]);
    } else {
      SaveTrace(ToSet(rs), path);
    }
  }

  /**
   With distinct paths, replaying a run's callback calls onto an empty
   directory leaves exactly the files of the retained paths.
   */
  lemma {:induction false} RunReplay(maxSize: int, paths: seq<Path>)
    requires maxSize != 0
    requires Distinct(paths)
    ensures Run(Init(maxSize), paths).Ok?
    ensures Replay({}, Run(Init(maxSize), paths).value.events) == ToSet(Run(Init(maxSize), paths).value.state.records)
    decreases |paths|
  {
    RunFails(maxSize, paths);
    if paths != [] {
      var n := |paths|;
      var prefix := paths[..n - 1];
      var p := paths[n - 1];
      assert Distinct(prefix);
      RunReplay(maxSize, prefix);
      var s := Run(Init(maxSize), prefix).value;
      var t := AddCheckpoint(s.state, p).value;
      assert Run(Init(maxSize), paths).value == Step(t.state, s.events + t.events);
      ReplayConcat({}, s.events, t.events);
      RetainedAreOffered(maxSize, prefix);
      RetainedDistinct(maxSize, prefix);
      assert p !in prefix by {
        forall j | 0 <= j < n - 1
          ensures prefix[j] != p
        {
          assert paths[j] != paths[n - 1];
        }
      }
      OfferReplay(s.state, p);
    }
  }

  /** Every retained path was offered. */
  lemma RetainedAreOffered(maxSize: int, paths: seq<Path>)
    requires maxSize != 0
    ensures Run(Init(maxSize), paths).Ok?
    ensures forall q :: q in Run(Init(maxSize), paths).value.state.records ==> q in paths
  {
    RunFails(maxSize, paths);
    if maxSize < 0 {
      UnboundedKeepsAll(maxSize, paths);
    } else {
      KeepsLatest(maxSize, paths);
    }
  }

  /** With distinct offers the retained paths are distinct. */
  lemma RetainedDistinct(maxSize: int, paths: seq<Path>)
    requires maxSize != 0 && Distinct(paths)
    ensures Run(Init(maxSize), paths).Ok?
    ensures Distinct(Run(Init(maxSize), paths).value.state.records)
  {
    RunFails(maxSize, paths);
    if maxSize < 0 {
      UnboundedKeepsAll(maxSize, paths);
    } else {
      KeepsLatest(maxSize, paths);
      SuffixDistinct(paths, |paths| - Min(|paths|, maxSize));
    }
  }

  lemma SuffixDistinct(ps: seq<Path>, from: nat)
    requires from <= |ps| && Distinct(ps)
    ensures Distinct(ps[from..])
  {
    var rs := ps[from..];
    forall i, j | 0 <= i < j < |rs|
      ensures rs[i] != rs[j]
    {
      assert rs[i] == ps[from + i] && rs[j] == ps[from + j];
    }
  }

  /**
   The scenario of the class docstring: K = 5, twenty distinct paths into an
   empty directory leave exactly five checkpoint files, the last five offered.
   */
  lemma FiveOfTwenty(paths: seq<Path>)
    requires |paths| == 20 && Distinct(paths)
    ensures Run(Init(5), paths).Ok?
    ensures Run(Init(5), paths).value.state.records == paths[15..]
    ensures |Replay({}, Run(Init(5), paths).value.events)| == 5
  {
    KeepsLatest(5, paths);
    LatestSaved(5, paths);
    RunReplay(5, paths);
    RetainedDistinct(5, paths);
    DistinctCard(paths[15..]);
  }
}
