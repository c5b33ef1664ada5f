/**
 Vocabulary shared by the two checkpoint-retention policies: the events the
 injected `save_fn` / `del_fn` callbacks would observe, the crashes the Python
 code can run into, the capacity test both classes share, and a reference
 replay of an event trace onto the set of files present on disk.
 */
module Retention {

  /**
   A checkpoint location as handed to the callbacks (a `Path` or `str` in the
   source). The policies only compare paths for equality.
   */
  datatype Path = Path(name: string)

  /** One call of an injected callback, in the order the policy makes them. */
  datatype Event = Save(path: Path) | Delete(path: Path)

  /** The exceptions the policies raise themselves (callback failures are not modelled). */
  datatype Error =
    | MaxOfEmptyRecords   // `max()` over an empty dict raises ValueError (KBest, max_size == 0)
    | PopFromEmptyList    // `list.pop(0)` on an empty list raises IndexError (KLatest, max_size == 0)

  datatype Result<T> = Ok(value: T) | Err(error: Error)

  /** The state a policy reaches and the callback calls it made on the way. */
  datatype Step<S> = Step(state: S, events: seq<Event>)

  /** The `max_size` value that switches the size check off ("save all"). */
  const SaveAllSentinel: int := -1

  function Min(a: int, b: int): int { if a <= b then a else b }

  /**
   The `full()` test of both classes: the record count is exactly `max_size`
   and `max_size` is not the save-all sentinel. Any other negative bound can
   never equal a count, so it behaves like the sentinel.
   */
  function Full(count: nat, maxSize: int): (r: bool)
    ensures r ==> maxSize >= 0 && count == maxSize
    ensures maxSize >= 0 && count == maxSize ==> r
    ensures maxSize < 0 ==> !r
  {
    maxSize != SaveAllSentinel && count == maxSize
  }

  /** No path occurs twice. */
  predicate Distinct(ps: seq<Path>)
  {
    forall i, j :: 0 <= i < j < |ps| ==> ps[i] != ps[j]
  }

  /** The paths of a sequence, as a set. */
  function ToSet(ps: seq<Path>): set<Path>
  {
    set q | q in ps
  }

  lemma DistinctAppend(ps: seq<Path>, p: Path)
    ensures Distinct(ps) && p !in ps ==> Distinct(ps + [p])
  {
  }

  /** A sequence without repeats has as many elements as its set. */
  lemma {:induction false} DistinctCard(ps: seq<Path>)
    requires Distinct(ps)
    ensures |ToSet(ps)| == |ps|
    decreases |ps|
  {
    if ps != [] {
      var init := ps[..|ps| - 1];
      var last := ps[|ps| - 1];
      assert ps == init + [last];
      DistinctCard(init);
      assert ToSet(ps) == ToSet(init) + {last};
      assert last !in ToSet(init);
    }
  }

  /** The files a callback leaves behind: `save_fn` creates its path, `del_fn` removes it. */
  function Apply(files: set<Path>, e: Event): set<Path>
  {
    match e
    case Save(p) => files + {p}
    case Delete(p) => files - {p}
  }

  /** Replays a trace of callback calls, in order, onto the files present beforehand. */
  function Replay(files: set<Path>, events: seq<Event>): set<Path>
    decreases |events|
  {
    if events == [] then files else Replay(Apply(files, events[0]), events[1..])
  }

  /** The paths handed to `save_fn`, in call order. */
  function Saved(events: seq<Event>): (ps: seq<Path>)
    decreases |events|
  {
    if events == [] then []
    else (if events[0].Save? then [events[0].path] else []) + Saved(events[1..])
  }

  /** The paths handed to `del_fn`, in call order. */
  function Deleted(events: seq<Event>): (ps: seq<Path>)
    decreases |events|
  {
    if events == [] then []
    else (if events[0].Delete? then [events[0].path] else []) + Deleted(events[1..])
  }

  /** The trace of an offer taken without eviction: one `save_fn` call. */
  lemma SaveTrace(files: set<Path>, p: Path)
    ensures Saved([Save(p)]) == [p] && Deleted([Save(p)]) == []
    ensures Replay(files, [Save(p)]) == files + {p}
  {
    assert [Save(p)][1..] == [];
  }

  /**
   The trace of an offer that evicts `d`: `del_fn` on `d`, then `save_fn` on
   `p`. Because the deletion comes first, re-saving `d` leaves its file.
   */
  lemma EvictSaveTrace(files: set<Path>, d: Path, p: Path)
    ensures Saved([Delete(d), Save(p)]) == [p] && Deleted([Delete(d), Save(p)]) == [d]
    ensures Replay(files, [Delete(d), Save(p)]) == files - {d} + {p}
  {
    var two := [Delete(d), Save(p)];
    assert two[1..] == [Save(p)];
    SaveTrace(files - {d}, p);
  }

  /** Replaying two traces one after the other is replaying their concatenation. */
  lemma {:induction false} ReplayConcat(files: set<Path>, a: seq<Event>, b: seq<Event>)
    ensures Replay(files, a + b) == Replay(Replay(files, a), b)
    decreases |a|
  {
    if a == [] {
      assert a + b == b;
    } else {
      assert (a + b)[0] == a[0];
      assert (a + b)[1..] == a[1..] + b;
      ReplayConcat(Apply(files, a[0]), a[1..], b);
    }
  }

  /** `Saved` distributes over concatenation of traces. */
  lemma {:induction false} SavedConcat(a: seq<Event>, b: seq<Event>)
    ensures Saved(a + b) == Saved(a) + Saved(b)
    decreases |a|
  {
    if a == [] {
      assert a + b == b;
    } else {
      assert (a + b)[0] == a[0];
      assert (a + b)[1..] == a[1..] + b;
      SavedConcat(a[1..], b);
    }
  }

  /** `Deleted` distributes over concatenation of traces. */
  lemma {:induction false} DeletedConcat(a: seq<Event>, b: seq<Event>)
    ensures Deleted(a + b) == Deleted(a) + Deleted(b)
    decreases |a|
  {
    if a == [] {
      assert a + b == b;
    } else {
      assert (a + b)[0] == a[0];
      assert (a + b)[1..] == a[1..] + b;
      DeletedConcat(a[1..], b);
    }
  }
}
