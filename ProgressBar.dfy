/** The part of a `cli-progress` single bar both the bundler and the upload
    handler drive: whether it was started, whether it was stopped since,
    its total and its current value. `cli-progress` is a library outside
    this model, so the three transitions below define what its calls do;
    what the callers promise about the bar is proved from them in
    `UploadOnProgress` and `GetCodeFromPath`. */
module ProgressBar {

  datatype BarState = BarState(started: bool, stopped: bool, total: int, value: int)

  /** The bar after `start(total, startValue)`, by definition. */
  function AfterStart(b: BarState, total: int, startValue: int): (r: BarState)
    ensures r.started && !r.stopped && r.total == total && r.value == startValue
  {
    BarState(true, false, total, startValue)
  }

  /** The bar after `update(value)`, by definition: only the value moves. */
  function AfterUpdate(b: BarState, value: int): (r: BarState)
    ensures r.value == value && r.started == b.started && r.stopped == b.stopped && r.total == b.total
  {
    b.(value := value)
  }

  /** The bar after `stop()`, by definition: stopped, everything else kept. */
  function AfterStop(b: BarState): (r: BarState)
    ensures r.stopped && r.started == b.started && r.total == b.total && r.value == b.value
  {
    b.(stopped := true)
  }

  class SingleBar {
    var started: bool
    var stopped: bool
    var total: int
    var value: int

    function State(): BarState
      reads this
    {
      BarState(started, stopped, total, value)
    }

    /** A new bar: not started, total 100 and value 0. */
    constructor ()
      ensures State() == BarState(false, false, 100, 0)
    {
      started, stopped, total, value := false, false, 100, 0;
    }

    method Start(total': int, startValue: int)
      modifies this
      ensures State() == AfterStart(old(State()), total', startValue)
    {
      started, stopped, total, value := true, false, total', startValue;
    }

    method Update(value': int)
      modifies this
      ensures State() == AfterUpdate(old(State()), value')
    {
      value := value';
    }

    method Stop()
      modifies this
      ensures State() == AfterStop(old(State()))
    {
      stopped := true;
    }
  }
}
