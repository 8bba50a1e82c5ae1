/** The per-file stage driver of a worker: read, merge, optional split and
    trim, the per-trace quality gates and processing, the final remerge and
    the persistence gate. The stream-level collaborators (reader, merger,
    splitter, trimmer, stream cleanup) and the response remover's decision are
    function-valued parameters; the per-trace collaborators act in place on a
    `Trace` object. */
module StageDriver {
  import opened Common
  import opened Traces
  import opened Decimation

  /** The run's configuration, with the `'1'`/`'0'` switches as booleans. */
  datatype Config = Config(
    check: bool,
    split: bool, segmentLength: real, minLength: real,
    trim: bool,
    detrend: bool, demean: bool,
    taper: bool, taperWidth: real,
    mergeGap: real,
    sourceRates: seq<real>,
    targetRates: seq<real>,
    removeResponse: bool, response: ResponseParams)

  /** `except (TypeError, IOError)` and the bare `except` of the read. */
  datatype ReadFailure = WrongTypeOrMissing | UnexpectedError

  datatype ReadResult = Read(traces: seq<TraceValue>) | ReadFailed(failure: ReadFailure)

  /** `read`, `mt.mergetraces`, `proc.slice_traces`, `proc.trim_next_sec`,
      `Stream._cleanup` and the outcome of `proc.remove_response`. */
  datatype Collaborators = Collaborators(
    read: string -> ReadResult,
    merge: (seq<TraceValue>, seq<real>, real) -> seq<TraceValue>,
    slice: (seq<TraceValue>, real, real) -> seq<TraceValue>,
    trimNextSecond: seq<TraceValue> -> seq<TraceValue>,
    cleanup: seq<TraceValue> -> seq<TraceValue>,
    remover: Remover)
  {
    /** What the driver relies on: trimming never drops traces (the loop
        indexes the trimmed stream with the count taken before trimming), and
        merging or cleaning an empty stream gives an empty stream. */
    ghost predicate Valid() {
      && (forall d :: |trimNextSecond(d)| >= |d|)
      && (forall rates, gap :: merge([], rates, gap) == [])
      && cleanup([]) == []
    }
  }

  /** How one trace leaves the trace loop; each discard has its own reason. */
  datatype Verdict =
    | HasNaN
    | HasInf
    | ResponseNotRemoved
    | Unstable
    | Emitted(trace: TraceValue)

  /** The optional detrend, demean and taper stages, in that order. */
  function Preprocessed(v: TraceValue, cfg: Config): TraceValue {
    var a := if cfg.detrend then AfterStep(v, DetrendStep) else v;
    var b := if cfg.demean then AfterStep(a, DemeanStep) else a;
    if cfg.taper then AfterStep(b, TaperStep(cfg.taperWidth)) else b
  }

  /** One iteration of the trace loop. */
  function TraceVerdict(v: TraceValue, cfg: Config, fs: seq<real>, remover: Remover): Verdict {
    if v.hasNaN then HasNaN
    else if v.hasInf then HasInf
    else
      var d := Decimated(Preprocessed(v, cfg), fs);
      if !cfg.removeResponse then Emitted(d)
      else
        var outcome := remover(d, cfg.response);
        if outcome.NotRemoved? then ResponseNotRemoved
        else
          var c := AfterRemoval(d, outcome);
          if c.hasNaN then Unstable else Emitted(c)
  }

  /** The value this iteration assigns to `removed`, if it assigns one. */
  function RemovalFlag(verdict: Verdict, removeResponse: bool): Option<bool> {
    match verdict
    case ResponseNotRemoved => Some(false)
    case Unstable => Some(true)
    case Emitted(_) => if removeResponse then Some(true) else None
    case _ => None
  }

  /** One iteration of the trace loop on a fresh `Trace` object. */
  method ProcessTrace(v: TraceValue, cfg: Config, fs: seq<real>, remover: Remover)
    returns (verdict: Verdict, removal: Option<bool>, kept: Trace?)
    ensures verdict == TraceVerdict(v, cfg, fs, remover)
    ensures removal == RemovalFlag(verdict, cfg.removeResponse)
    ensures kept != null <==> verdict.Emitted?
    ensures kept != null ==> kept.Value() == verdict.trace
  {
    removal, kept := None, null;
    if v.hasNaN {
      return HasNaN, removal, kept;
    }
    if v.hasInf {
      return HasInf, removal, kept;
    }
    var trace := new Trace(v);
    if cfg.detrend {
      trace.Detrend();
    }
    if cfg.demean {
      trace.Demean();
    }
    if cfg.taper {
      trace.Taper(cfg.taperWidth);
    }
    Decimate(trace, fs);
    var newtrace := trace.Copy();
    if cfg.removeResponse {
      var removed := newtrace.RemoveResponse(cfg.response, remover);
      removal := Some(removed);
      if !removed {
        return ResponseNotRemoved, removal, kept;
      }
      if newtrace.hasNaN {
        return Unstable, removal, kept;
      }
    }
    verdict, kept := Emitted(newtrace.Value()), newtrace;
  }

  /** Quality gates: NaN is tested first, then infinity, and a trace stopped
      by either never reaches decimation or the response remover. A trace is
      emitted exactly when both tests pass and, with response removal on, the
      remover succeeds and its output has no NaN. The emitted trace keeps its
      identity and ends at the cascade's rate. */
  lemma GateCharacterization(v: TraceValue, cfg: Config, fs: seq<real>, remover: Remover)
    ensures v.hasNaN ==> TraceVerdict(v, cfg, fs, remover) == HasNaN
    ensures !v.hasNaN && v.hasInf ==> TraceVerdict(v, cfg, fs, remover) == HasInf
    ensures v.hasNaN || v.hasInf ==> RemovalFlag(TraceVerdict(v, cfg, fs, remover), cfg.removeResponse) == None
    ensures TraceVerdict(v, cfg, fs, remover).Emitted? <==>
      && !v.hasNaN && !v.hasInf
      && (cfg.removeResponse ==>
            var d := Decimated(Preprocessed(v, cfg), fs);
            remover(d, cfg.response).Removed? && !remover(d, cfg.response).nanAfter)
    ensures TraceVerdict(v, cfg, fs, remover).Emitted? ==>
      var t := TraceVerdict(v, cfg, fs, remover).trace;
      && t.id == v.id
      && !t.hasNaN
      && t.rate == CascadeRate(v.rate, fs)
      && (!cfg.removeResponse ==> !t.hasInf)
  {
    var d := Decimated(Preprocessed(v, cfg), fs);
    DecimatedIsCascade(Preprocessed(v, cfg), fs);
  }

  /** After a successful removal infinity is not tested again: a remover that
      produces infinite but no NaN samples gets the trace emitted. */
  lemma InfinityAfterRemovalEmitted(v: TraceValue, cfg: Config, fs: seq<real>)
    requires !v.hasNaN && !v.hasInf && cfg.removeResponse
    ensures TraceVerdict(v, cfg, fs, (t, p) => Removed(false, true)).Emitted?
    ensures TraceVerdict(v, cfg, fs, (t, p) => Removed(false, true)).trace.hasInf
  {
  }

  /** The verdicts of the first traces of a stream, in order. */
  function Verdicts(data: seq<TraceValue>, cfg: Config, fs: seq<real>, remover: Remover): (vs: seq<Verdict>)
    ensures |vs| == |data|
  {
    if data == [] then []
    else Verdicts(data[..|data| - 1], cfg, fs, remover) + [TraceVerdict(data[|data| - 1], cfg, fs, remover)]
  }

  lemma {:induction false} VerdictsAt(data: seq<TraceValue>, cfg: Config, fs: seq<real>, remover: Remover, i: nat)
    requires i < |data|
    ensures Verdicts(data, cfg, fs, remover)[i] == TraceVerdict(data[i], cfg, fs, remover)
  {
    if i < |data| - 1 {
      VerdictsAt(data[..|data| - 1], cfg, fs, remover, i);
    }
  }

  /** `colloc_data`: the emitted traces, in loop order. */
  function Survivors(vs: seq<Verdict>): seq<TraceValue> {
    if vs == [] then []
    else Survivors(vs[..|vs| - 1]) + (if vs[|vs| - 1].Emitted? then [vs[|vs| - 1].trace] else [])
  }

  /** `removed` after the loop: the flag of the last iteration that assigned
      it, or the value it had before the loop. */
  function LastRemoval(vs: seq<Verdict>, removeResponse: bool, before: Option<bool>): Option<bool> {
    if vs == [] then before
    else
      var flag := RemovalFlag(vs[|vs| - 1], removeResponse);
      if flag.Some? then flag else LastRemoval(vs[..|vs| - 1], removeResponse, before)
  }

  function Values(ts: seq<Trace>): (vs: seq<TraceValue>)
    reads ts
    ensures |vs| == |ts|
  {
    if ts == [] then [] else Values(ts[..|ts| - 1]) + [ts[|ts| - 1].Value()]
  }

  /** The trace loop over the first `count` traces of the (trimmed) stream. */
  method TraceLoop(data: seq<TraceValue>, count: nat, cfg: Config, fs: seq<real>, remover: Remover, removedIn: Option<bool>)
    returns (colloc: seq<Trace>, verdicts: seq<Verdict>, removed: Option<bool>)
    requires count <= |data|
    ensures verdicts == Verdicts(data[..count], cfg, fs, remover)
    ensures Values(colloc) == Survivors(verdicts)
    ensures removed == LastRemoval(verdicts, cfg.removeResponse, removedIn)
  {
    colloc, verdicts, removed := [], [], removedIn;
    for k := 0 to count
      invariant verdicts == Verdicts(data[..k], cfg, fs, remover)
      invariant Values(colloc) == Survivors(verdicts)
      invariant removed == LastRemoval(verdicts, cfg.removeResponse, removedIn)
    {
      assert data[..k + 1][..k] == data[..k];
      var verdict, removal, kept := ProcessTrace(data[k], cfg, fs, remover);
      if removal.Some? {
        removed := removal;
      }
      assert (verdicts + [verdict])[..k] == verdicts;
      verdicts := verdicts + [verdict];
      if kept != null {
        assert (colloc + [kept])[..|colloc|] == colloc;
        colloc := colloc + [kept];
      }
    }
  }

  /** Every trace in `colloc_data` was emitted by a trace of the stream that
      had neither NaN nor infinite samples, and has no NaN itself. */
  lemma {:induction false} SurvivorsAreClean(data: seq<TraceValue>, cfg: Config, fs: seq<real>, remover: Remover, t: TraceValue)
    requires t in Survivors(Verdicts(data, cfg, fs, remover))
    ensures !t.hasNaN
    ensures exists i :: 0 <= i < |data| && !data[i].hasNaN && !data[i].hasInf
                        && TraceVerdict(data[i], cfg, fs, remover) == Emitted(t)
  {
    var n := |data| - 1;
    var vs := Verdicts(data, cfg, fs, remover);
    assert vs[..n] == Verdicts(data[..n], cfg, fs, remover);
    if t in Survivors(vs[..n]) {
      SurvivorsAreClean(data[..n], cfg, fs, remover, t);
      var i :| 0 <= i < n && !data[..n][i].hasNaN && !data[..n][i].hasInf
               && TraceVerdict(data[..n][i], cfg, fs, remover) == Emitted(t);
      assert data[..n][i] == data[i];
    } else {
      GateCharacterization(data[n], cfg, fs, remover);
    }
  }

  /** `removed` after the loop is the flag of the last iteration that reached
      the response remover, or is unchanged when none did. */
  lemma {:induction false} LastRemovalIsLastAttempt(vs: seq<Verdict>, removeResponse: bool, before: Option<bool>)
    ensures (forall i :: 0 <= i < |vs| ==> RemovalFlag(vs[i], removeResponse) == None)
            ==> LastRemoval(vs, removeResponse, before) == before
    ensures (exists i :: 0 <= i < |vs| && RemovalFlag(vs[i], removeResponse) != None)
            ==> exists j :: (0 <= j < |vs|
                  && LastRemoval(vs, removeResponse, before) == RemovalFlag(vs[j], removeResponse) != None
                  && forall i :: j < i < |vs| ==> RemovalFlag(vs[i], removeResponse) == None)
  {
    if vs != [] {
      var n := |vs| - 1;
      if RemovalFlag(vs[n], removeResponse) == None {
        LastRemovalIsLastAttempt(vs[..n], removeResponse, before);
        assert forall i :: 0 <= i < n ==> vs[..n][i] == vs[i];
      }
    }
  }

  /** With response removal on, a file that kept any trace assigned `removed`
      itself, so its value does not come from an earlier file and it is bound. */
  lemma {:induction false} SurvivorSetsFlag(vs: seq<Verdict>, before: Option<bool>)
    requires Survivors(vs) != []
    ensures LastRemoval(vs, true, before) == LastRemoval(vs, true, None) != None
  {
    var n := |vs| - 1;
    if !vs[n].Emitted? {
      assert Survivors(vs) == Survivors(vs[..n]);
      SurvivorSetsFlag(vs[..n], before);
    }
  }

  /** A call of `rn.rename_seismic_data(trace, prepname)`. */
  datatype Written = Written(trace: TraceValue, tag: string)

  /** What one file yields: skipped on a read failure, or the verdicts of its
      traces, the remerged survivors and what was handed to the renamer. */
  datatype FileOutcome =
    | Skipped(failure: ReadFailure)
    | Processed(verdicts: seq<Verdict>, remerged: seq<TraceValue>, written: seq<Written>)

  datatype FileResult = FileResult(outcome: FileOutcome, removed: Option<bool>)

  function WriteAll(ts: seq<TraceValue>, tag: string): (w: seq<Written>)
    ensures |w| == |ts|
  {
    seq(|ts|, i requires 0 <= i < |ts| => Written(ts[i], tag))
  }

  /** The persistence gate, evaluated for each remerged trace: with response
      removal off everything is written; with it on, everything or nothing,
      by the value `removed` has after the trace loop. */
  function Persisted(remerged: seq<TraceValue>, removeResponse: bool, removed: Option<bool>, tag: string): seq<Written> {
    if !removeResponse || removed == Some(true) then WriteAll(remerged, tag) else []
  }

  /** Merge then optional split: the stream whose length is `n_traces`. */
  function Segments(raw: seq<TraceValue>, cfg: Config, co: Collaborators): seq<TraceValue> {
    var merged := co.merge(raw, cfg.sourceRates, cfg.mergeGap);
    if cfg.split then co.slice(merged, cfg.segmentLength, cfg.minLength) else merged
  }

  /** The stream the trace loop indexes: the segments, trimmed when enabled. */
  function LoopStream(raw: seq<TraceValue>, cfg: Config, co: Collaborators): (data: seq<TraceValue>)
    requires co.Valid()
    ensures |data| >= |Segments(raw, cfg, co)|
  {
    if cfg.trim then co.trimNextSecond(Segments(raw, cfg, co)) else Segments(raw, cfg, co)
  }

  /** One iteration of the file loop, given the value `removed` has on entry. */
  function FileSpec(path: string, cfg: Config, fs: seq<real>, co: Collaborators, tag: string, removedIn: Option<bool>): FileResult
    requires co.Valid()
  {
    match co.read(path)
    case ReadFailed(failure) => FileResult(Skipped(failure), removedIn)
    case Read(raw) =>
      var vs := Verdicts(LoopStream(raw, cfg, co)[..|Segments(raw, cfg, co)|], cfg, fs, co.remover);
      var removed := LastRemoval(vs, cfg.removeResponse, removedIn);
      var remerged := co.cleanup(co.merge(Survivors(vs), fs, cfg.mergeGap));
      FileResult(Processed(vs, remerged, Persisted(remerged, cfg.removeResponse, removed, tag)), removed)
  }

  /** With response removal on, a non-empty remerged stream means `removed`
      was assigned in this very file. */
  lemma RemovedBound(raw: seq<TraceValue>, cfg: Config, fs: seq<real>, co: Collaborators, removedIn: Option<bool>)
    requires co.Valid() && cfg.removeResponse
    ensures var vs := Verdicts(LoopStream(raw, cfg, co)[..|Segments(raw, cfg, co)|], cfg, fs, co.remover);
      co.cleanup(co.merge(Survivors(vs), fs, cfg.mergeGap)) != [] ==>
        LastRemoval(vs, true, removedIn) == LastRemoval(vs, true, None) != None
  {
    var vs := Verdicts(LoopStream(raw, cfg, co)[..|Segments(raw, cfg, co)|], cfg, fs, co.remover);
    if Survivors(vs) != [] {
      SurvivorSetsFlag(vs, removedIn);
    }
  }

  /** The persistence loop: `removed` is read once per remerged trace, and
      must be bound by then when response removal is on. */
  method Persist(remerged: seq<TraceValue>, removeResponse: bool, removed: Option<bool>, tag: string)
    returns (written: seq<Written>)
    requires removeResponse && remerged != [] ==> removed.Some?
    ensures written == Persisted(remerged, removeResponse, removed, tag)
  {
    written := [];
    for k := 0 to |remerged|
      invariant written == Persisted(remerged[..k], removeResponse, removed, tag)
    {
      if !removeResponse || removed.value {
        written := written + [Written(remerged[k], tag)];
      }
    }
    assert remerged[..|remerged|] == remerged;
  }

  /** The body of the file loop. */
  method ProcessFile(path: string, cfg: Config, fs: seq<real>, co: Collaborators, tag: string, removedIn: Option<bool>)
    returns (result: FileResult)
    requires co.Valid()
    ensures result == FileSpec(path, cfg, fs, co, tag, removedIn)
  {
    var read := co.read(path);
    if read.ReadFailed? {
      return FileResult(Skipped(read.failure), removedIn);
    }
    var data := co.merge(read.traces, cfg.sourceRates, cfg.mergeGap);
    if cfg.split {
      data := co.slice(data, cfg.segmentLength, cfg.minLength);
    }
    var count := |data|;
    assert count == |Segments(read.traces, cfg, co)|;
    if cfg.trim {
      data := co.trimNextSecond(data);
    }
    assert data == LoopStream(read.traces, cfg, co);
    var colloc, verdicts, removed := TraceLoop(data, count, cfg, fs, co.remover, removedIn);
    var remerged := co.cleanup(co.merge(Values(colloc), fs, cfg.mergeGap));
    if cfg.removeResponse {
      RemovedBound(read.traces, cfg, fs, co, removedIn);
    }
    var written := Persist(remerged, cfg.removeResponse, removed, tag);
    return FileResult(Processed(verdicts, remerged, written), removed);
  }

  /** Each file's outcome depends on that file alone: the value `removed`
      carries in from earlier files never reaches the persistence gate. */
  lemma OutcomeIgnoresIncomingFlag(path: string, cfg: Config, fs: seq<real>, co: Collaborators, tag: string,
                                   before1: Option<bool>, before2: Option<bool>)
    requires co.Valid()
    ensures FileSpec(path, cfg, fs, co, tag, before1).outcome == FileSpec(path, cfg, fs, co, tag, before2).outcome
  {
    if co.read(path).Read? && cfg.removeResponse {
      RemovedBound(co.read(path).traces, cfg, fs, co, before1);
      RemovedBound(co.read(path).traces, cfg, fs, co, before2);
    }
  }

  /** Persistence: with response removal off every remerged trace goes to the
      renamer, in order and under the run tag; with it on, all of them or none,
      by the flag the file's last removal attempt left. */
  lemma PersistenceGate(path: string, cfg: Config, fs: seq<real>, co: Collaborators, tag: string, removedIn: Option<bool>)
    requires co.Valid()
    ensures var r := FileSpec(path, cfg, fs, co, tag, removedIn);
      r.outcome.Processed? ==>
        && |r.outcome.written| <= |r.outcome.remerged|
        && (forall i :: 0 <= i < |r.outcome.written| ==> r.outcome.written[i] == Written(r.outcome.remerged[i], tag))
        && (!cfg.removeResponse ==> |r.outcome.written| == |r.outcome.remerged|)
        && (cfg.removeResponse ==>
              (|r.outcome.written| == |r.outcome.remerged| <==> r.outcome.remerged == [] || r.removed == Some(true)))
        && (cfg.removeResponse && r.removed != Some(true) ==> r.outcome.written == [])
        && (cfg.removeResponse && r.outcome.remerged != [] ==>
              r.removed == LastRemoval(r.outcome.verdicts, true, None) != None)
  {
    if co.read(path).Read? && cfg.removeResponse {
      RemovedBound(co.read(path).traces, cfg, fs, co, removedIn);
    }
  }

  /** The flag is stale for earlier traces: when the first trace of a file is
      corrected and the second cannot be, the first survives the gates and
      the remerge but is not written. */
  lemma StaleFlagDropsSurvivor(path: string, cfg: Config, fs: seq<real>, co: Collaborators, tag: string,
                               a: TraceValue, b: TraceValue)
    requires cfg.removeResponse && !cfg.split && !cfg.trim
    requires !a.hasNaN && !a.hasInf && !b.hasNaN && !b.hasInf && a.id != b.id
    requires co.read(path) == Read([a, b])
    requires forall ts, rates, gap :: co.merge(ts, rates, gap) == ts
    requires forall ts :: co.cleanup(ts) == ts
    requires forall d :: |co.trimNextSecond(d)| >= |d|
    requires forall t, p :: co.remover(t, p) == if t.id == a.id then Removed(false, false) else NotRemoved
    ensures co.Valid()
    ensures var r := FileSpec(path, cfg, fs, co, tag, None);
      && |r.outcome.remerged| == 1
      && r.outcome.written == []
  {
    var data := [a, b];
    assert LoopStream([a, b], cfg, co)[..|Segments([a, b], cfg, co)|] == data;
    assert data[..1] == [a];
    assert [a][..0] == [];
    var vs := Verdicts(data, cfg, fs, co.remover);
    assert vs[..1] == Verdicts([a], cfg, fs, co.remover);
    GateCharacterization(a, cfg, fs, co.remover);
    GateCharacterization(b, cfg, fs, co.remover);
    assert Preprocessed(a, cfg).id == a.id && Preprocessed(b, cfg).id == b.id;
    DecimatedIsCascade(Preprocessed(a, cfg), fs);
    DecimatedIsCascade(Preprocessed(b, cfg), fs);
    assert vs[0].Emitted? && vs[1] == ResponseNotRemoved;
    assert Survivors(vs[..1][..0]) == [];
    assert Survivors(vs[..1]) == [vs[0].trace];
    assert Survivors(vs) == [vs[0].trace];
  }
}
