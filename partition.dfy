/** Work distribution: the broadcast file list is cut into `size` contiguous
    chunks of `ceil(L / size)` files, and rank `r` takes chunk `r` (an empty
    one when `r * clen >= L`). */
module Partition {

  function Min(a: int, b: int): int { if a <= b then a else b }

  /** `int(ceil(float(L) / float(size)))`: the least `c` with `c * size >= L`. */
  function ChunkLen(total: nat, workers: nat): (c: nat)
    requires workers >= 1
    ensures c * workers >= total
    ensures c > 0 ==> (c - 1) * workers < total
  {
    (total + workers - 1) / workers
  }

  /** Python's clipped slice `content[rank*clen : (rank+1)*clen]` as a pair of indices. */
  function Lo(total: nat, workers: nat, rank: nat): (lo: nat)
    requires workers >= 1
    ensures lo <= total
  {
    Min(rank * ChunkLen(total, workers), total)
  }

  function Hi(total: nat, workers: nat, rank: nat): (hi: nat)
    requires workers >= 1
    ensures Lo(total, workers, rank) <= hi <= total
  {
    Min((rank + 1) * ChunkLen(total, workers), total)
  }

  /** The files rank `rank` of `workers` processes. */
  function Assignment<T>(content: seq<T>, workers: nat, rank: nat): (mine: seq<T>)
    requires workers >= 1
    ensures |mine| <= ChunkLen(|content|, workers)
    ensures rank * ChunkLen(|content|, workers) >= |content| ==> mine == []
    ensures (rank + 1) * ChunkLen(|content|, workers) <= |content| ==> |mine| == ChunkLen(|content|, workers)
  {
    var c := ChunkLen(|content|, workers);
    MulStep(rank, c);
    content[Lo(|content|, workers, rank)..Hi(|content|, workers, rank)]
  }

  /** The assignments of ranks 0 .. n-1, concatenated in rank order. */
  function AssignedUpTo<T>(content: seq<T>, workers: nat, n: nat): seq<T>
    requires workers >= 1
  {
    if n == 0 then [] else AssignedUpTo(content, workers, n - 1) + Assignment(content, workers, n - 1)
  }

  lemma {:induction false} AssignedPrefix<T>(content: seq<T>, workers: nat, n: nat)
    requires workers >= 1
    ensures AssignedUpTo(content, workers, n) == content[..Lo(|content|, workers, n)]
  {
    if n > 0 {
      AssignedPrefix(content, workers, n - 1);
      MulStep(n - 1, ChunkLen(|content|, workers));
      assert Hi(|content|, workers, n - 1) == Lo(|content|, workers, n);
      assert content[..Lo(|content|, workers, n)]
          == content[..Lo(|content|, workers, n - 1)]
           + content[Lo(|content|, workers, n - 1)..Lo(|content|, workers, n)];
    }
  }

  /** The chunks of all ranks, in rank order, are exactly the file list. */
  lemma AssignmentsCover<T>(content: seq<T>, workers: nat)
    requires workers >= 1
    ensures AssignedUpTo(content, workers, workers) == content
  {
    AssignedPrefix(content, workers, workers);
    assert Lo(|content|, workers, workers) == |content|;
  }

  lemma MulStep(r: nat, c: nat)
    ensures (r + 1) * c == r * c + c
  {
  }

  lemma MulMono(a: nat, b: nat, c: nat)
    requires a <= b
    ensures a * c <= b * c
  {
  }

  /** `a * c < b * c` with a positive `c` gives `a < b`. */
  lemma MulCancel(a: nat, b: nat, c: nat)
    requires a * c < b * c
    ensures a < b
  {
    if b <= a {
      MulMono(b, a, c);
    }
  }

  /** `r * c <= i < (r + 1) * c` holds exactly for `r == i / c`. */
  lemma DivRange(i: nat, c: nat, r: nat)
    requires c > 0
    ensures r * c <= i < (r + 1) * c <==> r == i / c
  {
    var q := i / c;
    MulStep(q, c);
    MulStep(r, c);
    if r < q {
      MulMono(r + 1, q, c);
    } else if r > q {
      MulMono(q + 1, r, c);
    }
  }

  /** Every file index belongs to exactly one rank, namely `i / clen`. */
  lemma UniqueOwner(total: nat, workers: nat, i: nat)
    requires workers >= 1 && i < total
    ensures var c := ChunkLen(total, workers);
      c > 0 && i / c < workers &&
      forall r: nat :: r < workers ==>
        (Lo(total, workers, r) <= i < Hi(total, workers, r) <==> r == i / c)
  {
    var c := ChunkLen(total, workers);
    DivRange(i, c, i / c);
    MulCancel(i / c, workers, c);
    forall r: nat | r < workers
      ensures Lo(total, workers, r) <= i < Hi(total, workers, r) <==> r == i / c
    {
      DivRange(i, c, r);
    }
  }

  /** Several trailing ranks can be short or empty, not only the last:
      5 files over 4 workers gives chunks of 2, 2, 1 and 0 files. */
  lemma ShortChunksExample()
    ensures ChunkLen(5, 4) == 2
    ensures |Assignment([1, 2, 3, 4, 5], 4, 2)| == 1
    ensures Assignment([1, 2, 3, 4, 5], 4, 3) == []
  {
  }
}
