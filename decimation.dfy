/** The decimation cascade: the configured target rates are put in
    descending order once per run, and every trace is walked through them,
    downsampled to each target that lies below its current rate. */
module Decimation {
  import opened Sorting
  import opened Traces

  predicate NonIncreasing(fs: seq<real>) {
    forall i, j :: 0 <= i < j < |fs| ==> fs[i] >= fs[j]
  }

  /** `Fs_new.sort()` followed by `Fs_new = Fs_new[::-1]`: the same rates,
      duplicates kept, largest first. */
  function DescendingTargets(parsed: seq<real>): (fs: seq<real>)
    ensures multiset(fs) == multiset(parsed)
    ensures NonIncreasing(fs)
  {
    RealLeTotalPreorder();
    SortSorted(parsed, RealLe);
    ReversedAscending(Sort(parsed, RealLe));
    Reverse(Sort(parsed, RealLe))
  }

  lemma ReversedAscending(asc: seq<real>)
    requires SortedBy(asc, RealLe)
    ensures NonIncreasing(Reverse(asc))
  {
    var fs := Reverse(asc);
    forall i, j | 0 <= i < j < |fs| ensures fs[i] >= fs[j] {
      assert fs[i] == asc[|asc| - 1 - i] && fs[j] == asc[|asc| - 1 - j];
      assert RealLe(asc[|asc| - 1 - j], asc[|asc| - 1 - i]);
    }
  }

  /** The rate after the cascade loop has walked `fs` from `rate`. */
  function CascadeRate(rate: real, fs: seq<real>): real
    decreases |fs|
  {
    if fs == [] then rate
    else CascadeRate(if rate > fs[0] then fs[0] else rate, fs[1..])
  }

  /** The targets `downsample` is called with, in call order. */
  function CascadeCalls(rate: real, fs: seq<real>): seq<real>
    decreases |fs|
  {
    if fs == [] then []
    else if rate > fs[0] then [fs[0]] + CascadeCalls(fs[0], fs[1..])
    else CascadeCalls(rate, fs[1..])
  }

  function DownsampleSteps(calls: seq<real>): seq<Step> {
    if calls == [] then [] else [DownsampleStep(calls[0])] + DownsampleSteps(calls[1..])
  }

  /** A trace after the cascade loop. */
  function Decimated(v: TraceValue, fs: seq<real>): TraceValue
    decreases |fs|
  {
    if fs == [] then v
    else Decimated(if v.rate > fs[0] then AfterDownsample(v, fs[0]) else v, fs[1..])
  }

  /** The cascade loop, lines `k=0; while k<len(Fs_new): ...`. */
  method Decimate(t: Trace, fs: seq<real>)
    modifies t
    ensures t.Value() == Decimated(old(t.Value()), fs)
  {
    var k := 0;
    while k < |fs|
      invariant 0 <= k <= |fs|
      invariant Decimated(t.Value(), fs[k..]) == Decimated(old(t.Value()), fs)
    {
      assert fs[k..][1..] == fs[k + 1..];
      if t.rate > fs[k] {
        t.Downsample(fs[k]);
      }
      k := k + 1;
    }
  }

  /** A decimated trace keeps its identity and samples, takes the cascade's
      final rate, and records one downsampling step per call. */
  lemma {:induction false} DecimatedIsCascade(v: TraceValue, fs: seq<real>)
    ensures Decimated(v, fs).rate == CascadeRate(v.rate, fs)
    ensures Decimated(v, fs).history == v.history + DownsampleSteps(CascadeCalls(v.rate, fs))
    ensures Decimated(v, fs).(rate := v.rate, history := v.history) == v
    decreases |fs|
  {
    if fs != [] {
      var w := if v.rate > fs[0] then AfterDownsample(v, fs[0]) else v;
      DecimatedIsCascade(w, fs[1..]);
      if v.rate > fs[0] {
        var calls := CascadeCalls(fs[0], fs[1..]);
        assert ([fs[0]] + calls)[1..] == calls;
      }
    }
  }

  /** One more loop iteration: `downsample` is called exactly when the current
      rate is strictly above the target, and the rate never goes up. */
  lemma {:induction false} CascadeStep(rate: real, fs: seq<real>, f: real)
    ensures CascadeRate(rate, fs + [f])
         == (if CascadeRate(rate, fs) > f then f else CascadeRate(rate, fs))
    ensures CascadeCalls(rate, fs + [f])
         == CascadeCalls(rate, fs) + (if CascadeRate(rate, fs) > f then [f] else [])
    ensures CascadeRate(rate, fs + [f]) <= CascadeRate(rate, fs)
    decreases |fs|
  {
    if fs == [] {
      assert [f][1..] == [];
    } else {
      assert (fs + [f])[1..] == fs[1..] + [f];
      CascadeStep(if rate > fs[0] then fs[0] else rate, fs[1..], f);
    }
  }

  /** Across the iterations of the loop the rate never increases. */
  lemma RateNeverIncreases(rate: real, fs: seq<real>, k: nat)
    requires k < |fs|
    ensures CascadeRate(rate, fs[..k + 1]) <= CascadeRate(rate, fs[..k])
  {
    assert fs[..k + 1] == fs[..k] + [fs[k]];
    CascadeStep(rate, fs[..k], fs[k]);
  }

  /** The final rate is at most the original rate and every target, and is
      either the original rate or one of the targets. */
  lemma {:induction false} CascadeIsMinimum(rate: real, fs: seq<real>)
    ensures CascadeRate(rate, fs) <= rate
    ensures forall i :: 0 <= i < |fs| ==> CascadeRate(rate, fs) <= fs[i]
    ensures CascadeRate(rate, fs) == rate || CascadeRate(rate, fs) in fs
    decreases |fs|
  {
    if fs != [] {
      CascadeIsMinimum(if rate > fs[0] then fs[0] else rate, fs[1..]);
      forall i | 1 <= i < |fs| ensures CascadeRate(rate, fs) <= fs[i] {
        assert fs[1..][i - 1] == fs[i];
      }
    }
  }

  /** With targets in descending order the final rate is the smaller of the
      original rate and the last target: with [50, 20, 10], 100 and 15 end
      at 10 while 5 stays 5. */
  lemma CascadeFinal(rate: real, fs: seq<real>)
    requires NonIncreasing(fs) && fs != []
    ensures CascadeRate(rate, fs) == (if rate <= fs[|fs| - 1] then rate else fs[|fs| - 1])
  {
    CascadeIsMinimum(rate, fs);
  }

  lemma CascadeExample()
    ensures CascadeRate(100.0, [50.0, 20.0, 10.0]) == 10.0
    ensures CascadeCalls(100.0, [50.0, 20.0, 10.0]) == [50.0, 20.0, 10.0]
    ensures CascadeRate(15.0, [50.0, 20.0, 10.0]) == 10.0
    ensures CascadeCalls(15.0, [50.0, 20.0, 10.0]) == [10.0]
    ensures CascadeRate(5.0, [50.0, 20.0, 10.0]) == 5.0
    ensures CascadeCalls(5.0, [50.0, 20.0, 10.0]) == []
  {
  }

  /** Each call lowers the rate: the call targets are strictly decreasing,
      all below the original rate, all taken from the targets, and the last
      one is the final rate. */
  lemma {:induction false} CallsOnlyWhenAbove(rate: real, fs: seq<real>)
    ensures var calls := CascadeCalls(rate, fs);
      && (forall i :: 0 <= i < |calls| ==> calls[i] < rate && calls[i] in fs)
      && (forall i, j :: 0 <= i < j < |calls| ==> calls[i] > calls[j])
      && CascadeRate(rate, fs) == (if calls == [] then rate else calls[|calls| - 1])
    decreases |fs|
  {
    if fs != [] {
      var next := if rate > fs[0] then fs[0] else rate;
      CallsOnlyWhenAbove(next, fs[1..]);
      var rest := CascadeCalls(next, fs[1..]);
      if rate > fs[0] {
        var calls := [fs[0]] + rest;
        assert forall i :: 1 <= i < |calls| ==> calls[i] == rest[i - 1];
      }
    }
  }

  /** A trace whose rate is at or below every target is left alone. */
  lemma {:induction false} NothingBelow(rate: real, fs: seq<real>)
    requires forall i :: 0 <= i < |fs| ==> rate <= fs[i]
    ensures CascadeCalls(rate, fs) == [] && CascadeRate(rate, fs) == rate
    decreases |fs|
  {
    if fs != [] {
      NothingBelow(rate, fs[1..]);
    }
  }

  /** Running the cascade again on its own output calls `downsample` no more
      and leaves the rate unchanged (whatever the order of the targets). */
  lemma CascadeIdempotent(rate: real, fs: seq<real>)
    ensures CascadeCalls(CascadeRate(rate, fs), fs) == []
    ensures CascadeRate(CascadeRate(rate, fs), fs) == CascadeRate(rate, fs)
  {
    CascadeIsMinimum(rate, fs);
    NothingBelow(CascadeRate(rate, fs), fs);
  }

  /** With descending targets the trace passes through every target below its
      original rate, instead of jumping straight to the lowest one. */
  lemma {:induction false} VisitsEveryLowerTarget(rate: real, fs: seq<real>, f: real)
    requires NonIncreasing(fs) && f in fs && f < rate
    ensures f in CascadeCalls(rate, fs)
    decreases |fs|
  {
    if fs[0] < rate {
      if f != fs[0] {
        assert f in fs[1..];
        VisitsEveryLowerTarget(fs[0], fs[1..], f);
      }
    } else {
      assert f != fs[0];
      VisitsEveryLowerTarget(rate, fs[1..], f);
    }
  }
}
