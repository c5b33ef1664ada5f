# Checkpoint retention: KBest and KLatest

This project models the two checkpoint-retention policies of the Parakeet
training utilities:

- `KBest` keeps the `max_size` checkpoints with the lowest metric. Its state is
  a dict from path to metric, which iterates in insertion order.
- `KLatest` keeps the `max_size` most recently offered checkpoints. Its state is
  a list of paths, oldest first.

Neither class touches the disk itself. Both call an injected `save_fn` when a
checkpoint is taken and an injected `del_fn` when one is dropped. In the model,
each operation is a pure function. It returns the new state together with the
sequence of callback calls it made (`Save(path)` / `Delete(path)`). It can also
return the exception the Python code raises. `Replay` is a reference replay of
such a trace onto the set of files on disk. It ties the callback traces to the
retained records.

Files:

- `retention.dfy` (module `Retention`): the shared vocabulary.
  - Paths, callback events, the two exceptions, `Result` and `Step`.
  - The `full()` test and the `-1` "save all" sentinel.
  - Trace replay, plus the `Saved` / `Deleted` projections of a trace.
- `records.dfy` (module `Records`): the `best_records` dict as an
  insertion-ordered sequence of entries.
  - `d[path] = metric` (`Put`) and `d.pop(key)` (`RemoveAt`).
  - `max(d, key=d.get)` (`WorstIndex`): the first entry of maximal metric in
    iteration order.
- `kbest.dfy` (module `KBestRetention`): the `KBest` class, and runs of offers
  from a fresh manager.
- `klatest.dfy` (module `KLatestRetention`): the `KLatest` class, and runs of
  offers from a fresh manager.

Behaviour at `max_size == 0` follows the code. A capacity of 0 is naturally
read as "accept nothing", but the code does something else. The first
`KBest.add_checkpoint` finds the manager full with an empty dict, so `max()`
raises `ValueError` (line 75). The first `KLatest.add_checkpoint` calls
`pop(0)` on an empty list, which raises `IndexError` (line 158). The model
returns `Err(MaxOfEmptyRecords)` and `Err(PopFromEmptyList)` respectively.
The `-1` sentinel is compared exactly. Any other negative `max_size` can never
equal a count, so it behaves like "save all"; the contracts state this.

## Model

| member | source | states |
|---|---|---|
| KBestRetention.Init | parakeet/training/checkpoint.py:60-68 | A fresh `KBest` has the given `max_size` and no records. It is valid, and it is full exactly when `max_size` is 0. |
| KLatestRetention.Init | parakeet/training/checkpoint.py:138-146 | A fresh `KLatest` has the given `max_size` and no records. It is full exactly when `max_size` is 0. |
| Retention.Full | parakeet/training/checkpoint.py:68-80 | A manager is full exactly when `max_size` is non-negative and equals the record count. Any negative `max_size` is never full. |
| KBestRetention.ShouldSave | parakeet/training/checkpoint.py:70-77 | Raises exactly when full with no records. Otherwise accepts when not full; when full, accepts exactly when some retained metric is strictly greater than the offered one, so an equal metric is refused. |
| Records.WorstIndex | parakeet/training/checkpoint.py:88-91 | The entry `max(d, key=d.get)` picks has a maximal metric and comes strictly after no other entry of that metric. It is the only index with both properties. |
| Records.MaxFrom | parakeet/training/checkpoint.py:75 | Continuing the left-to-right scan of `max` from a first-maximal candidate of a prefix yields the first-maximal entry of the whole dict. |
| Records.RemoveAt | parakeet/training/checkpoint.py:91 | Popping the key at position i removes exactly that entry. The entries before it stay where they are, and the entries after it move up one place in the same order. |
| Records.PutInPlace | parakeet/training/checkpoint.py:96 | Assigning to a key already present replaces its first entry in place. No entry moves and no other entry changes. |
| Records.Put | parakeet/training/checkpoint.py:96 | Assigning `d[path] = metric` updates the key/value view at exactly that key. An existing key keeps its place in the iteration order; a new key is appended at the end. |
| Records.ToMapRemoveAt | parakeet/training/checkpoint.py:91 | In a dict with unique keys, popping a key removes it from the key/value view and changes no other binding. |
| Records.RemoveAtUnique | parakeet/training/checkpoint.py:91 | Popping keeps keys unique and removes exactly the popped key from the key set. |
| Records.PutKeys | parakeet/training/checkpoint.py:96 | Assignment adds exactly its key to the key set, grows the dict only for a new key, and keeps keys unique. |
| Records.MetricsRemoveAt | parakeet/training/checkpoint.py:91 | Popping an entry removes exactly one copy of its metric from the multiset of retained metrics. |
| KBestRetention.SaveAndUpdate | parakeet/training/checkpoint.py:86-96 | Raises only when full and empty. Not full: one `save_fn` call, and the new binding is added. Full: `del_fn` on the first worst entry, then `save_fn`, and that entry leaves the view. A path still retained after the eviction keeps its place in the key order. Any other path goes last after the remaining entries, which keep their order. |
| KBestRetention.ReofferInPlace | parakeet/training/checkpoint.py:86-96 | With unique keys, re-offering a retained path that is not evicted rewrites that one entry where it stands. Every other entry and the key order are unchanged. |
| KBestRetention.AddCheckpoint | parakeet/training/checkpoint.py:82-84 | Raises exactly when `max_size` is 0 and the dict is empty. A refused offer returns the state unchanged and makes no callback call. An accepted offer is `save_checkpoint_and_update`. |
| KBestRetention.OfferKeepsValid | parakeet/training/checkpoint.py:79-96 | Every offer keeps keys unique and keeps the record count within a non-negative `max_size`. |
| KBestRetention.OfferKeepsSmallest | parakeet/training/checkpoint.py:70-96 | With a fresh path and `max_size >= 1`, the retained metrics after an offer are the `max_size` smallest of the old ones plus the new one, as multisets. Nothing left out is smaller than anything kept. |
| KBestRetention.OfferReplay | parakeet/training/checkpoint.py:88-96 | Replaying one offer's `del_fn`/`save_fn` calls onto the files of the retained paths gives exactly the files of the newly retained paths. This includes re-offering the path being evicted. |
| KBestRetention.RunFails | parakeet/training/checkpoint.py:70-77 | A run from a fresh manager raises `max()`'s error exactly when `max_size` is 0 and something is offered. Otherwise `max_size` is unchanged. |
| KBestRetention.RunKeepsValid | parakeet/training/checkpoint.py:79-96 | Unique keys and the capacity bound hold after any run of offers. |
| KBestRetention.CapacityBound | parakeet/training/checkpoint.py:79-96 | With `max_size >= 1`, no run fails and no run retains more than `max_size` checkpoints. |
| KBestRetention.UnboundedSavesAll | parakeet/training/checkpoint.py:68-96 | With a negative `max_size`, every offered path reaches `save_fn` in order, and `del_fn` is never called. |
| KBestRetention.RunCount | parakeet/training/checkpoint.py:60-96 | From a fresh manager with distinct paths, n offers leave exactly min(n, `max_size`) records. All of them are offered paths. |
| KBestRetention.RunReplay | parakeet/training/checkpoint.py:86-96 | Replaying a run's callback calls onto the initially retained files gives exactly the finally retained files. |
| KBestRetention.FiveOfTwenty | parakeet/training/checkpoint.py:49-57 | The docstring scenario: with K = 5 and twenty distinct paths, an empty directory ends with exactly five files. |
| KLatestRetention.AddCheckpoint | parakeet/training/checkpoint.py:152-163 | Raises exactly when `max_size` is 0 on an empty list. Otherwise the old records plus the new path equal the deleted paths plus the new records. One path is deleted when full and none otherwise. There is exactly one `save_fn` call, and it comes last. |
| KLatestRetention.RunFails | parakeet/training/checkpoint.py:157-158 | A run from a fresh manager raises `pop`'s error exactly when `max_size` is 0 and something is offered. |
| KLatestRetention.KeepsLatest | parakeet/training/checkpoint.py:138-163 | With `max_size = K >= 1`, after offering p1..pn the records are the last min(n, K) paths, in offer order. |
| KLatestRetention.LatestSaved | parakeet/training/checkpoint.py:162 | With `max_size >= 1`, `save_fn` sees every offered path, in offer order. |
| KLatestRetention.LatestDeleted | parakeet/training/checkpoint.py:157-159 | With `max_size = K >= 1`, `del_fn` sees exactly the offered paths that are no longer retained, oldest first. |
| KLatestRetention.UnboundedKeepsAll | parakeet/training/checkpoint.py:146-150 | With a negative `max_size`, every offered path is kept, in order. |
| KLatestRetention.UnboundedTrace | parakeet/training/checkpoint.py:146-163 | With a negative `max_size`, `save_fn` sees every path and `del_fn` is never called. |
| KLatestRetention.OfferReplay | parakeet/training/checkpoint.py:155-163 | With distinct records, replaying one offer's callback calls onto the retained files gives the newly retained files. This includes re-offering a retained path, and in particular the oldest path when full, whose file survives because `del_fn` runs before `save_fn`. |
| KLatestRetention.RunReplay | parakeet/training/checkpoint.py:152-163 | With distinct paths and `max_size != 0`, replaying a run's callback calls onto an empty directory gives exactly the retained files. |
| KLatestRetention.RetainedDistinct | parakeet/training/checkpoint.py:155-163 | Distinct offered paths leave distinct retained paths. |
| KLatestRetention.FiveOfTwenty | parakeet/training/checkpoint.py:128-135 | The docstring scenario: with K = 5 and twenty distinct paths, the retained records are the last five, and an empty directory ends with exactly five files. |

## Left out

- The callbacks themselves. `save_fn` and `del_fn` are recorded as events and never executed. Real file creation and removal, `os.remove` / `Path.unlink`, and the default `save_fn=None`, which would fail when called, are not modelled. `Replay` stands in for the directory.
- Exceptions raised inside a callback are not modelled. Without them, it makes no difference that `KBest` pops the worst entry before calling `del_fn`, or that `KLatest` pops before deleting.
- Metrics are mathematical integers. Python floats, NaN ordering and `numpy` scores are not modelled.
- KBestRetention.OfferKeepsSmallest: stated only for a path not already retained. Re-offering a retained path overwrites its metric in place, as `KBestRetention.SaveAndUpdate` and `KBestRetention.ReofferInPlace` state.
- KBestRetention.RunCount: stated only for distinct offered paths. With repeated paths the dict can hold fewer entries.
- KLatestRetention.RunReplay: stated only for distinct offered paths. `KLatest` appends duplicates to its list, and a later eviction of one copy deletes the file the other copy still names.
- Constructor defaults (`max_size=5`) are not separate members; `Init` takes the size explicitly.
- The rest of the repository (model definitions, datasets, configuration and the training scripts that construct these managers) is not part of this model.
