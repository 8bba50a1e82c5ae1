/** Traces: one channel's recording. The samples are abstracted to whether
    any of them is NaN or infinite; the numeric processing the collaborators
    apply is recorded as a history of steps. `TraceValue` is a snapshot,
    `Trace` the object the per-trace stages change in place. */
module Traces {

  /** A processing step a collaborator applied to a trace. */
  datatype Step =
    | DetrendStep
    | DemeanStep
    | TaperStep(width: real)
    | DownsampleStep(rate: real)
    | ResponseStep

  datatype TraceValue = TraceValue(id: string, rate: real, hasNaN: bool, hasInf: bool, history: seq<Step>)

  /** The parameters handed to the instrument-response remover. */
  datatype ResponseParams = ResponseParams(respDir: string, unit: string, freqs: seq<real>, waterLevel: real)

  /** What the response remover reports: failure, or success together with
      whether the corrected samples contain NaN or infinite values. */
  datatype Removal = NotRemoved | Removed(nanAfter: bool, infAfter: bool)

  /** The remover's decision for a trace; which response files exist and how
      the deconvolution behaves are outside the model. */
  type Remover = (TraceValue, ResponseParams) -> Removal

  function AfterStep(v: TraceValue, s: Step): TraceValue {
    v.(history := v.history + [s])
  }

  function AfterDownsample(v: TraceValue, f: real): TraceValue {
    v.(rate := f, history := v.history + [DownsampleStep(f)])
  }

  function AfterRemoval(v: TraceValue, outcome: Removal): TraceValue {
    match outcome
    case NotRemoved => v
    case Removed(nan, inf) => v.(hasNaN := nan, hasInf := inf, history := v.history + [ResponseStep])
  }

  class Trace {
    var id: string
    var rate: real
    var hasNaN: bool
    var hasInf: bool
    var history: seq<Step>

    function Value(): TraceValue
      reads this
    {
      TraceValue(id, rate, hasNaN, hasInf, history)
    }

    constructor (v: TraceValue)
      ensures Value() == v
    {
      id, rate, hasNaN, hasInf, history := v.id, v.rate, v.hasNaN, v.hasInf, v.history;
    }

    /** `proc.detrend`: removes a linear trend; rate and identity are kept. */
    method Detrend()
      modifies this
      ensures Value() == AfterStep(old(Value()), DetrendStep)
    {
      history := history + [DetrendStep];
    }

    /** `proc.demean`. */
    method Demean()
      modifies this
      ensures Value() == AfterStep(old(Value()), DemeanStep)
    {
      history := history + [DemeanStep];
    }

    /** `proc.taper` with the configured edge width. */
    method Taper(width: real)
      modifies this
      ensures Value() == AfterStep(old(Value()), TaperStep(width))
    {
      history := history + [TaperStep(width)];
    }

    /** `proc.downsample(trace, f)`: the trace comes out at rate `f`. */
    method Downsample(f: real)
      modifies this
      ensures rate == f
      ensures Value() == AfterDownsample(old(Value()), f)
    {
      rate := f;
      history := history + [DownsampleStep(f)];
    }

    /** `trace.copy()`: a new, independent trace with the same contents. */
    method Copy() returns (c: Trace)
      ensures fresh(c) && c.Value() == Value()
    {
      c := new Trace(Value());
    }

    /** `proc.remove_response`: reports whether the response was removed and,
        when it was, leaves the corrected trace in place. */
    method RemoveResponse(params: ResponseParams, remover: Remover) returns (removed: bool)
      modifies this
      ensures removed <==> remover(old(Value()), params).Removed?
      ensures Value() == AfterRemoval(old(Value()), remover(old(Value()), params))
    {
      var outcome := remover(Value(), params);
      removed := outcome.Removed?;
      if removed {
        hasNaN, hasInf := outcome.nanAfter, outcome.infAfter;
        history := history + [ResponseStep];
      }
    }
  }
}
