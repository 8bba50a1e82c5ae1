# Ambient-noise preprocessing driver (`par_ic.py`, function `ic`)

This project models the control logic of `ic`, the SPMD driver that
preprocesses continuous seismic recordings before cross-correlation. Rank 0
picks the run tag, lists and sorts the input files and, in check mode, keeps
only four of them. Every rank then takes a contiguous chunk of the list and
runs the per-file stage driver on it:

1. read the file;
2. merge fragments;
3. optionally split and trim;
4. put every trace through the NaN and infinity gates, the optional detrend,
   demean and taper, the decimation cascade and the optional
   instrument-response removal;
5. remerge the survivors and hand them to the renamer, subject to the
   persistence gate.

Modules, one per component:

- `Partition`: chunk length `ceil(L/N)` and the clipped slice of each rank.
- `RunTag`: the fallback tag `proc%Y-%j` and the archive path of the configuration copy.
- `Coordinator`: gathering, sorting and check-mode selection of the file list.
- `Sorting`: the sort and reversal the driver applies, and Python's string order.
- `Traces`: the trace snapshot `TraceValue` and the `Trace` object that the per-trace collaborators change in place.
- `Decimation`: the target-rate ordering, the cascade `while` loop and its properties.
- `StageDriver`: the per-trace gates, the trace loop, the per-file driver and the persistence gate.
- `Worker`: the file loop and `ic` for one rank.
- `Common`: the shared `Option` type, used for the `removed` variable, which may be unbound.

Samples are abstracted to two flags: whether any sample is NaN, and whether
any is infinite. The numeric work of the collaborators is recorded as a
history of steps. The stream-level collaborators are function-valued
parameters: `read`, `mergetraces`, `slice_traces`, `trim_next_sec`,
`Stream._cleanup` and the decision of `remove_response`. The driver is
proved for every choice of them that satisfies `Collaborators.Valid()`.

### Behaviour of the code worth knowing

- The cascade ends at the smaller of the original rate and the smallest
  target, whatever the order of the targets. A 15 Hz trace against
  [50, 20, 10] ends at 10 Hz.
- The target list is sorted and then reversed, and duplicates are kept. The
  resulting order is non-increasing.
- Several trailing ranks can get a short or empty chunk. For example, 5 files
  over 4 ranks gives chunks of 2, 2, 1 and 0 files.
- The persistence gate reads `removed` as the trace loop left it. That is the
  outcome of the last trace in the file that reached the response remover. An
  earlier trace that was corrected is therefore not written when a later trace
  fails removal (`StageDriver.StaleFlagDropsSurvivor`).
- `removed` is one variable for the whole call, so the model carries it from
  file to file. It is proved that a flag left over from an earlier file never
  reaches the gate, and that the name is always bound when the gate reads it.
- After a successful removal only NaN is checked again. A corrected trace
  with infinite samples is emitted.
- The fallback tag's own path is not checked before the copy. A second
  collision on the same UTC day reuses an existing path.

## Model

| member | source | states |
|---|---|---|
| `Partition.ChunkLen` | par_ic.py:146 | the chunk length is the least `c` with `c * size >= L` (the ceiling of `L / size`) |
| `Partition.Assignment` | par_ic.py:148-149 | a rank's chunk has at most `clen` files, exactly `clen` when `(r+1)*clen <= L`, and none when `r*clen >= L` |
| `Partition.AssignedPrefix` | par_ic.py:146-149 | the chunks of ranks `0..n-1` in rank order are the prefix of the file list up to `min(n*clen, L)` |
| `Partition.AssignmentsCover` | par_ic.py:146-149 | the chunks of all ranks, concatenated in rank order, are exactly the file list |
| `Partition.UniqueOwner` | par_ic.py:146-149 | every file index lies in the chunk of exactly one rank, rank `i / clen`, which is below `size` |
| `Partition.ShortChunksExample` | par_ic.py:146-149 | with 5 files and 4 ranks, rank 2 gets one file and rank 3 none |
| `RunTag.ChooseTag` | par_ic.py:70-75 | an existing archive path switches the tag to the date-derived fallback, otherwise the tag is kept; the archive path is always rebuilt from the tag in use |
| `RunTag.FallbackTagRoundTrip` | par_ic.py:74 | for a four-digit year and a day of year, the fallback tag is the 12 characters `proc<YYYY>-<DDD>` and parses back to that year and day |
| `RunTag.PadRoundTrip` | par_ic.py:74 | the zero-padded decimal of `n` reads back as `n` |
| `RunTag.ArchivePathInjective` | par_ic.py:70-75 | two tags give the same archive path exactly when they are equal |
| `RunTag.CollisionAvoided` | par_ic.py:72-75 | unless the requested tag already equals the fallback, the copy leaves the requested path exactly when that path exists |
| `RunTag.FallbackNotChecked` | par_ic.py:72-78 | when the fallback path exists too, the chosen path is an existing one |
| `Coordinator.GatherContent` | par_ic.py:86-95 | the unsorted list holds the files of all directory listings in directory order, or the single file, or the given list |
| `Coordinator.ConcatMembers` | par_ic.py:89-90 | a file is in the concatenated listings exactly when some directory listed it |
| `Coordinator.SelectForCheck` | par_ic.py:100-101 | in check mode a list longer than 4 becomes `[c[0], c[1], c[L-2], c[L-1]]`; otherwise it is unchanged; the result holds at most 4 files in check mode and only files of the input |
| `Coordinator.SelectKeepsOrder` | par_ic.py:97-101 | check-mode selection keeps a sorted list sorted |
| `Coordinator.PreparedContent` | par_ic.py:97-101 | the broadcast list is sorted and drawn from the gathered files; outside check mode, or with at most 4 files, it is a permutation of them; in check mode with more than 4 files it is exactly the two smallest and the two largest of the sorted list |
| `Coordinator.Coordinate` | par_ic.py:57-101 | rank 0's broadcast values: the chosen tag and its archive path, and the sorted, check-mode-filtered file list |
| `Sorting.Sort` | par_ic.py:97 | sorting returns a permutation of its input |
| `Sorting.SortSorted` | par_ic.py:97 | under a total preorder, the sort's output is in ascending order and a permutation of the input |
| `Sorting.LexTotalPreorder` | par_ic.py:97 | Python's string order is total and transitive, so the file list sorts correctly |
| `Sorting.Reverse` | par_ic.py:140 | reversal maps index `i` to `n-1-i` and keeps the multiset |
| `Decimation.DescendingTargets` | par_ic.py:135-140 | the ordered targets are a permutation of the parsed targets, duplicates included, in non-increasing order |
| `Decimation.Decimate` | par_ic.py:257-261 | the loop leaves the trace as the cascade specification `Decimated` says |
| `Decimation.DecimatedIsCascade` | par_ic.py:257-262 | after the cascade a trace keeps its identity and samples, has the cascade's final rate and one downsampling step per call |
| `Decimation.CascadeStep` | par_ic.py:258-261 | one more iteration calls `downsample` exactly when the current rate is strictly above the target; the rate becomes that target or stays, and never rises |
| `Decimation.RateNeverIncreases` | par_ic.py:257-261 | the rate after `k+1` iterations is at most the rate after `k` |
| `Decimation.CascadeIsMinimum` | par_ic.py:257-261 | the final rate is at most the original rate and every target, and is either the original rate or one of the targets |
| `Decimation.CascadeFinal` | par_ic.py:257-261 | with non-increasing targets the final rate is `min(original, last target)` |
| `Decimation.CascadeExample` | par_ic.py:257-261 | against [50, 20, 10]: 100 Hz goes through 50, 20 and 10; 15 Hz goes to 10 in one call; 5 Hz is untouched |
| `Decimation.CallsOnlyWhenAbove` | par_ic.py:259-260 | the `downsample` targets are strictly decreasing, all below the original rate, all among the targets, and the last one is the final rate |
| `Decimation.NothingBelow` | par_ic.py:259 | a rate at or below every target causes no call and stays unchanged |
| `Decimation.CascadeIdempotent` | par_ic.py:257-261 | re-running the cascade on its output makes no `downsample` call and leaves the rate unchanged |
| `Decimation.VisitsEveryLowerTarget` | par_ic.py:257-261 | with non-increasing targets, every target below the original rate is called, so no intermediate rate is skipped |
| `Traces.Trace.constructor` | par_ic.py:214 | the trace object holds the stream's trace |
| `Traces.Trace.Detrend` | par_ic.py:239-241 | detrending records its step and changes nothing else |
| `Traces.Trace.Demean` | par_ic.py:243-245 | demeaning records its step and changes nothing else |
| `Traces.Trace.Taper` | par_ic.py:250-252 | tapering records its step with the configured width |
| `Traces.Trace.Downsample` | par_ic.py:260 | `downsample(trace, f)` leaves the trace at rate `f` |
| `Traces.Trace.Copy` | par_ic.py:262 | the copy is a new object with the same contents |
| `Traces.Trace.RemoveResponse` | par_ic.py:270 | returns whether the response was removed; on success the trace takes the corrected samples' NaN and infinity status |
| `StageDriver.ProcessTrace` | par_ic.py:214-280 | one trace-loop iteration gives the specified verdict, the value it assigns to `removed` (if any), and an object to append exactly when the trace is emitted |
| `StageDriver.GateCharacterization` | par_ic.py:222-277 | NaN is tested before infinity, and a trace stopped there never reaches decimation or removal; a trace is emitted exactly when both tests pass and, with removal on, the remover succeeds without NaN; an emitted trace has no NaN, keeps its identity and has the cascade's rate |
| `StageDriver.InfinityAfterRemovalEmitted` | par_ic.py:268-280 | a remover output with infinite but no NaN samples is still emitted |
| `StageDriver.TraceLoop` | par_ic.py:213-285 | after the loop, `colloc_data` holds the emitted traces in order, and `removed` holds the flag of the last iteration that set it |
| `StageDriver.SurvivorsAreClean` | par_ic.py:222-230 | every trace in `colloc_data` comes from a stream trace with no NaN and no infinite sample, and has no NaN itself |
| `StageDriver.LastRemovalIsLastAttempt` | par_ic.py:270-291 | `removed` after the loop is the outcome of the last trace that reached the remover, or its old value when none did |
| `StageDriver.SurvivorSetsFlag` | par_ic.py:268-280 | when any trace survives with removal on, `removed` was set in this file and is bound |
| `StageDriver.LoopStream` | par_ic.py:198-207 | the stream the trace loop indexes is at least as long as the count taken before trimming |
| `StageDriver.RemovedBound` | par_ic.py:287-293 | with removal on, a non-empty remerged stream means `removed` was set in this file, so the gate never reads an unbound or stale name |
| `StageDriver.Persist` | par_ic.py:290-293 | the persistence loop writes what the gate specification says |
| `StageDriver.ProcessFile` | par_ic.py:178-295 | one file-loop iteration: skip on a read failure, otherwise merge, split, trim, the trace loop, remerge, cleanup and the persistence gate, as specified by `FileSpec` |
| `StageDriver.OutcomeIgnoresIncomingFlag` | par_ic.py:287-293 | a file's outcome does not depend on the value `removed` carries in from earlier files |
| `StageDriver.PersistenceGate` | par_ic.py:287-293 | without removal every remerged trace is written, in order, under the run tag; with removal all are written when the last removal outcome of this file is success, and none otherwise |
| `StageDriver.StaleFlagDropsSurvivor` | par_ic.py:268-293 | when a file's first trace is corrected and its second cannot be, one trace survives the remerge but nothing is written |
| `Worker.RunFiles` | par_ic.py:171-188 | the file loop visits every file in order, carrying `removed` from file to file, as `FileLoop` specifies |
| `Worker.EachFileOnItsOwn` | par_ic.py:171-295 | every file gets exactly one outcome, in order, equal to the outcome it would get on its own |
| `Worker.ReadFailureSkipsFile` | par_ic.py:178-188 | a read failure of either kind makes that file's outcome `Skipped` and the loop still covers all files |
| `Worker.RunWorker` | par_ic.py:131-171 | a rank processes exactly its chunk of the broadcast list, against the targets in descending order |
| `Worker.Ic` | par_ic.py:32-149 | the broadcast values are the coordinator's tag, archive path and file list, and each rank's outcomes are those of its chunk |

## Left out

- MPI: the rank, the size and the three `comm.bcast` calls are plain parameters and values. The broadcast is a rendezvous, and that is not modelled.
- Logging: every `print` to the log or to stdout, the `verbose` flag and `ofid.flush()`. Each discard reason is a distinct `Verdict` constructor, and each read failure a distinct `ReadFailure`.
- Timing (`time.time()`), `sys.getsizeof`, the memory profiler import, plotting.
- File-system effects: `shutil.copy` of the configuration, and the per-year `os.mkdir` loop. The existence test is a set of existing paths, and `glob` is a list of listings, one per input directory.
- Configuration parsing: `read_xml`, the `'1'`/`'0'` toggles, `split(' ')` of the directory and rate strings, `float()` conversions. `Config` holds the parsed, typed values.
- Numeric internals of the collaborators. The rates are reals, so NaN or infinite target rates are not modelled.
- Chunk length: `int(ceil(float(L)/float(size)))` goes through floating point. The model uses the exact integer ceiling, which agrees as long as `L` is exactly representable (below 2^53).
- Date format: `%Y` is modelled as glibc prints it, unpadded. Years below 1000 would give a shorter tag. The round trip is stated for four-digit years.
- Trace objects: the model makes a fresh `Trace` object from each stream element, and the per-trace collaborators change that object in place. The source changes the stream's own trace object. The stream is not read again after the loop, so this cannot be observed, but aliasing between stream elements is not modelled.
- `Collaborators.Valid`: the trimmer must not drop traces, since the source indexes the trimmed stream with the count taken before trimming and would raise `IndexError`. Merging or cleaning an empty stream must give an empty stream, otherwise the source could read an unbound `removed`. Those two failure paths are excluded, not modelled.
- `Traces.Trace.Detrend`, `Traces.Trace.Demean`, `Traces.Trace.Taper` and `Traces.Trace.Downsample` are assumed not to introduce NaN or infinite samples: the model leaves `hasNaN` and `hasInf` unchanged. The source tests for NaN only before these steps and after `remove_response`. With removal off, the "no NaN" and "no infinity" conclusions of `StageDriver.GateCharacterization` and `StageDriver.SurvivorsAreClean` about the emitted trace rest on this assumption.
- `Traces.Trace.RemoveResponse`: the corrected trace is assumed to keep the input trace's identity and sampling rate. The source rebinds `newtrace` to whatever `remove_response` returns, and the model changes only the NaN and infinity status and the history. With removal on, the conclusions `t.id == v.id` and `t.rate == CascadeRate(v.rate, fs)` of `StageDriver.GateCharacterization` rest on this assumption.
- Sampling rates are not required to be positive, and `Trace` carries no invariant about its rate. The source relies on none, and no proof here uses one.
- `Partition.Assignment`: its own contract gives only the chunk's length. Which files the chunk holds is stated by `AssignedPrefix`, `AssignmentsCover` and `UniqueOwner`.
- KERNELS/noisemeasurement.py: float signal-to-noise computations and plotting. It is not part of this model.
- download_fetchdata.py: shell commands for an external download tool. It is not part of this model.
