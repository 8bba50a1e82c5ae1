/** The coordinator's part of a run (rank 0 before the broadcast): pick the run
    tag, collect the input file names, sort them and, in check mode, keep only
    a few. Directory listings (`glob`), the configuration file and the clock
    are parameters. */
module Coordinator {
  import opened Sorting
  import opened RunTag

  /** The `content` argument of `ic`: absent (list the input directories), one
      file name, or a list of file names. */
  datatype ContentArg = FromInputDirs | SingleFile(path: string) | FileList(paths: seq<string>)

  /** The listings of the input directories, concatenated in directory order. */
  function Concat(listings: seq<seq<string>>): seq<string> {
    if listings == [] then [] else Concat(listings[..|listings| - 1]) + listings[|listings| - 1]
  }

  lemma {:induction false} ConcatMembers(listings: seq<seq<string>>, f: string)
    ensures f in Concat(listings) <==> exists i :: 0 <= i < |listings| && f in listings[i]
  {
    if listings != [] {
      var n := |listings| - 1;
      ConcatMembers(listings[..n], f);
      if f in listings[n] {
        assert f in Concat(listings);
      }
      if exists i :: 0 <= i < n + 1 && f in listings[i] {
        var i :| 0 <= i < n + 1 && f in listings[i];
        if i < n {
          assert listings[..n][i] == listings[i];
        }
      }
    }
  }

  /** The unsorted file list, before `content.sort()`. */
  method GatherContent(arg: ContentArg, listings: seq<seq<string>>) returns (content: seq<string>)
    ensures arg.FromInputDirs? ==> forall f :: f in content <==> exists i :: 0 <= i < |listings| && f in listings[i]
    ensures arg.SingleFile? ==> content == [arg.path]
    ensures arg.FileList? ==> content == arg.paths
    ensures arg.FromInputDirs? ==> content == Concat(listings)
  {
    match arg {
      case FromInputDirs =>
        content := [];
        for i := 0 to |listings|
          invariant content == Concat(listings[..i])
        {
          assert listings[..i + 1][..i] == listings[..i];
          content := content + listings[i];
        }
        assert listings[..|listings|] == listings;
        forall f ensures f in content <==> exists i :: 0 <= i < |listings| && f in listings[i] {
          ConcatMembers(listings, f);
        }
      case SingleFile(p) =>
        content := [p];
      case FileList(ps) =>
        content := ps;
    }
  }

  /** In check mode a list of more than four files shrinks to its first two
      and last two; otherwise the list is kept. */
  function SelectForCheck(content: seq<string>, check: bool): (r: seq<string>)
    ensures check && |content| > 4 ==> r == [content[0], content[1], content[|content| - 2], content[|content| - 1]]
    ensures !(check && |content| > 4) ==> r == content
    ensures |r| <= (if check then 4 else |content|)
    ensures multiset(r) <= multiset(content)
  {
    if check && |content| > 4 then
      var n := |content|;
      assert content == [content[0], content[1]] + content[2..n - 2] + [content[n - 2], content[n - 1]];
      [content[0], content[1], content[n - 2], content[n - 1]]
    else content
  }

  /** The selection keeps a sorted list sorted. */
  lemma SelectKeepsOrder(content: seq<string>, check: bool)
    requires SortedBy(content, LexLe)
    ensures SortedBy(SelectForCheck(content, check), LexLe)
  {
    var r := SelectForCheck(content, check);
    var n := |content|;
    if check && n > 4 {
      var idx := [0, 1, n - 2, n - 1];
      forall i, j | 0 <= i < j < 4 ensures LexLe(r[i], r[j]) {
        assert r[i] == content[idx[i]] && r[j] == content[idx[j]];
      }
    }
  }

  /** In check mode a long list keeps its first two and its last two files. */
  lemma SelectEnds(content: seq<string>, check: bool)
    requires check && |content| > 4
    ensures var r := SelectForCheck(content, check);
      |r| == 4 && r[..2] == content[..2] && r[2..] == content[|content| - 2..]
  {
  }

  /** Sorting, then the check-mode selection, gives a sorted list. */
  lemma PreparedSorted(gathered: seq<string>, check: bool)
    ensures SortedBy(SelectForCheck(Sort(gathered, LexLe), check), LexLe)
  {
    LexTotalPreorder();
    SortSorted(gathered, LexLe);
    SelectKeepsOrder(Sort(gathered, LexLe), check);
  }

  /** The file list every worker receives: sorted, then cut down in check mode. */
  function PreparedContent(gathered: seq<string>, check: bool): (r: seq<string>)
    ensures SortedBy(r, LexLe)
    ensures multiset(r) <= multiset(gathered)
    ensures !(check && |gathered| > 4) ==> multiset(r) == multiset(gathered)
    ensures check && |gathered| > 4 ==>
      var s := Sort(gathered, LexLe);
      |r| == 4 && r[..2] == s[..2] && r[2..] == s[|s| - 2..]
  {
    var s := Sort(gathered, LexLe);
    assert |s| == |gathered| by {
      assert |multiset(s)| == |multiset(gathered)|;
    }
    PreparedSorted(gathered, check);
    if check && |s| > 4 then
      SelectEnds(s, check);
      SelectForCheck(s, check)
    else
      SelectForCheck(s, check)
  }

  /** What the coordinator broadcasts: the file list and the run tag (the
      configuration itself is passed through unchanged). */
  datatype Broadcast = Broadcast(content: seq<string>, tag: string, archivePath: string)

  method Coordinate(arg: ContentArg, listings: seq<seq<string>>, check: bool,
                    dataDir: string, tag: string, existing: set<string>, year: nat, dayOfYear: nat)
    returns (b: Broadcast)
    ensures b.tag == ChooseTag(dataDir, tag, existing, year, dayOfYear).tag
    ensures b.archivePath == ArchivePath(dataDir, b.tag)
    ensures SortedBy(b.content, LexLe)
    ensures arg.FromInputDirs? ==> b.content == PreparedContent(Concat(listings), check)
    ensures arg.SingleFile? ==> b.content == [arg.path]
    ensures arg.FileList? ==> b.content == PreparedContent(arg.paths, check)
  {
    var choice := ChooseTag(dataDir, tag, existing, year, dayOfYear);
    var content := GatherContent(arg, listings);
    assert arg.SingleFile? ==> Sort(content, LexLe) == [arg.path];
    b := Broadcast(PreparedContent(content, check), choice.tag, choice.archivePath);
  }
}
