/** `ic` for one rank: the coordinator's values arrive by broadcast (modelled
    as plain values), the rank takes its chunk of the file list, puts the
    target rates in descending order and runs the stage driver over its files
    in order. The variable `removed` lives for the whole call, so it is
    threaded from file to file. */
module Worker {
  import opened Common
  import opened Decimation
  import opened Partition
  import opened StageDriver
  import opened Coordinator
  import opened RunTag

  datatype LoopResult = LoopResult(outcomes: seq<FileOutcome>, removed: Option<bool>)

  /** The file loop over `files`, with `removed` holding `before` on entry. */
  function FileLoop(files: seq<string>, cfg: Config, fs: seq<real>, co: Collaborators, tag: string, before: Option<bool>): LoopResult
    requires co.Valid()
  {
    if files == [] then LoopResult([], before)
    else
      var prev := FileLoop(files[..|files| - 1], cfg, fs, co, tag, before);
      var r := FileSpec(files[|files| - 1], cfg, fs, co, tag, prev.removed);
      LoopResult(prev.outcomes + [r.outcome], r.removed)
  }

  /** `for filepath in mycontent: ...`; a file that cannot be read is skipped
      and the loop goes on with the next one. */
  method RunFiles(files: seq<string>, cfg: Config, fs: seq<real>, co: Collaborators, tag: string)
    returns (outcomes: seq<FileOutcome>)
    requires co.Valid()
    ensures outcomes == FileLoop(files, cfg, fs, co, tag, None).outcomes
  {
    outcomes := [];
    var removed: Option<bool> := None;
    for i := 0 to |files|
      invariant LoopResult(outcomes, removed) == FileLoop(files[..i], cfg, fs, co, tag, None)
    {
      assert files[..i + 1][..i] == files[..i];
      var r := ProcessFile(files[i], cfg, fs, co, tag, removed);
      outcomes, removed := outcomes + [r.outcome], r.removed;
    }
    assert files[..|files|] == files;
  }

  /** Every file gets exactly one outcome, in order, and that outcome is the
      one the file would get on its own: a skipped file or a stale `removed`
      from an earlier file does not affect any other file. */
  lemma {:induction false} EachFileOnItsOwn(files: seq<string>, cfg: Config, fs: seq<real>, co: Collaborators, tag: string, before: Option<bool>)
    requires co.Valid()
    ensures |FileLoop(files, cfg, fs, co, tag, before).outcomes| == |files|
    ensures forall i :: 0 <= i < |files| ==>
      FileLoop(files, cfg, fs, co, tag, before).outcomes[i] == FileSpec(files[i], cfg, fs, co, tag, None).outcome
  {
    if files != [] {
      var n := |files| - 1;
      EachFileOnItsOwn(files[..n], cfg, fs, co, tag, before);
      var prev := FileLoop(files[..n], cfg, fs, co, tag, before);
      OutcomeIgnoresIncomingFlag(files[n], cfg, fs, co, tag, prev.removed, None);
      forall i | 0 <= i < n
        ensures FileLoop(files, cfg, fs, co, tag, before).outcomes[i] == FileSpec(files[i], cfg, fs, co, tag, None).outcome
      {
        assert files[..n][i] == files[i];
      }
    }
  }

  /** A read failure of either kind skips that file only. */
  lemma ReadFailureSkipsFile(files: seq<string>, cfg: Config, fs: seq<real>, co: Collaborators, tag: string, i: nat)
    requires co.Valid() && i < |files| && co.read(files[i]).ReadFailed?
    ensures |FileLoop(files, cfg, fs, co, tag, None).outcomes| == |files|
    ensures FileLoop(files, cfg, fs, co, tag, None).outcomes[i] == Skipped(co.read(files[i]).failure)
  {
    EachFileOnItsOwn(files, cfg, fs, co, tag, None);
  }

  /** The part of `ic` every rank runs after the broadcast. */
  method RunWorker(content: seq<string>, tag: string, rank: nat, size: nat, cfg: Config, co: Collaborators)
    returns (mine: seq<string>, outcomes: seq<FileOutcome>)
    requires 1 <= size && rank < size && co.Valid()
    ensures mine == Assignment(content, size, rank)
    ensures outcomes == FileLoop(mine, cfg, DescendingTargets(cfg.targetRates), co, tag, None).outcomes
  {
    var fs := DescendingTargets(cfg.targetRates);
    var clen := ChunkLen(|content|, size);
    mine := content[Min(rank * clen, |content|)..Min((rank + 1) * clen, |content|)];
    outcomes := RunFiles(mine, cfg, fs, co, tag);
  }

  /** `ic(xmlinput, content)` as seen by rank `rank` of `size`: the coordinator's
      decisions, then this rank's share of the work. */
  method Ic(rank: nat, size: nat, arg: ContentArg, listings: seq<seq<string>>, cfg: Config,
            dataDir: string, tag: string, existing: set<string>, year: nat, dayOfYear: nat, co: Collaborators)
    returns (b: Broadcast, mine: seq<string>, outcomes: seq<FileOutcome>)
    requires 1 <= size && rank < size && co.Valid()
    ensures b.tag == ChooseTag(dataDir, tag, existing, year, dayOfYear).tag
    ensures b.archivePath == ArchivePath(dataDir, b.tag)
    ensures arg.FromInputDirs? ==> b.content == PreparedContent(Concat(listings), cfg.check)
    ensures arg.SingleFile? ==> b.content == [arg.path]
    ensures arg.FileList? ==> b.content == PreparedContent(arg.paths, cfg.check)
    ensures mine == Assignment(b.content, size, rank)
    ensures outcomes == FileLoop(mine, cfg, DescendingTargets(cfg.targetRates), co, b.tag, None).outcomes
  {
    b := Coordinate(arg, listings, cfg.check, dataDir, tag, existing, year, dayOfYear);
    mine, outcomes := RunWorker(b.content, b.tag, rank, size, cfg, co);
  }
}
