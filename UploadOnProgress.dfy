/** The upload progress handler (src/output/utils/uploadOnProgress.ts): a
    three-way branch on each progress event that starts, advances or
    finishes a progress bar. */
module UploadOnProgress {
  import opened Wrappers
  import opened ProgressBar

  /** One progress event: bytes loaded so far and, when known, the total. */
  datatype ProgressEvent = ProgressEvent(loadedSize: int, totalSize: Option<int>)

  /** `totalSize ?? fallback`. */
  function TotalOr(e: ProgressEvent, fallback: int): int {
    if e.totalSize.Some? then e.totalSize.value else fallback
  }

  /** What one event does to the bar. */
  function OnProgress(b: BarState, e: ProgressEvent): (r: BarState)
    // the zero check comes first, even when the total is 0 too
    ensures e.loadedSize == 0 ==> r == BarState(true, false, TotalOr(e, 0), 0)
    // a non-zero load equal to a known total finishes the bar
    ensures e.loadedSize != 0 && e.totalSize == Some(e.loadedSize) ==>
      r == BarState(b.started, true, b.total, e.loadedSize)
    // any other load only moves the bar
    ensures e.loadedSize != 0 && e.totalSize != Some(e.loadedSize) ==> r == b.(value := e.loadedSize)
  {
    if e.loadedSize == 0 then AfterStart(b, TotalOr(e, e.loadedSize), e.loadedSize)
    else if e.totalSize == Some(e.loadedSize) then AfterStop(AfterUpdate(b, e.loadedSize))
    else AfterUpdate(b, e.loadedSize)
  }

  /** The bar after a whole series of events. */
  function Replay(b: BarState, events: seq<ProgressEvent>): BarState
    decreases |events|
  {
    if |events| == 0 then b else Replay(OnProgress(b, events[0]), events[1..])
  }

  lemma {:induction false} ReplaySnoc(b: BarState, events: seq<ProgressEvent>, e: ProgressEvent)
    ensures Replay(b, events + [e]) == OnProgress(Replay(b, events), e)
    decreases |events|
  {
    if |events| == 0 {
      assert [] + [e] == [e];
    } else {
      assert (events + [e])[1..] == events[1..] + [e];
      ReplaySnoc(OnProgress(b, events[0]), events[1..], e);
    }
  }

  /** Without a known total no event stops a bar that is not stopped. */
  lemma {:induction false} UnknownTotalNeverStops(b: BarState, events: seq<ProgressEvent>)
    requires !b.stopped
    requires forall k :: 0 <= k < |events| ==> events[k].totalSize.None?
    ensures !Replay(b, events).stopped
    decreases |events|
  {
    if |events| > 0 {
      UnknownTotalNeverStops(OnProgress(b, events[0]), events[1..]);
    }
  }

  /** After an event with a positive load the bar shows exactly that load. */
  lemma ValueFollowsLastLoad(b: BarState, events: seq<ProgressEvent>)
    requires |events| > 0 && events[|events| - 1].loadedSize > 0
    ensures Replay(b, events).value == events[|events| - 1].loadedSize
  {
    var init := events[..|events| - 1];
    assert events == init + [events[|events| - 1]];
    ReplaySnoc(b, init, events[|events| - 1]);
  }

  /** An upload reported from 0 up to its known, positive total leaves the
      bar started, stopped and full. */
  lemma {:induction false} CompleteUploadFinishesBar(b: BarState, events: seq<ProgressEvent>, total: int)
    requires total > 0 && |events| > 0
    requires events[0].loadedSize == 0
    requires forall k :: 0 <= k < |events| ==> events[k].totalSize == Some(total)
    requires events[|events| - 1].loadedSize == total
    ensures Replay(b, events) == BarState(true, true, total, total)
  {
    var init := events[..|events| - 1];
    assert events == init + [events[|events| - 1]];
    ReplaySnoc(b, init, events[|events| - 1]);
    StartedWithTotal(b, init, total);
  }

  /** Once an event with load 0 and total `total` has been seen, and every
      event carries that total, the bar is started with that total. */
  lemma {:induction false} StartedWithTotal(b: BarState, events: seq<ProgressEvent>, total: int)
    requires |events| > 0 && events[0].loadedSize == 0
    requires forall k :: 0 <= k < |events| ==> events[k].totalSize == Some(total)
    ensures Replay(b, events).started && Replay(b, events).total == total
  {
    var b1 := OnProgress(b, events[0]);
    assert b1.started && b1.total == total;
    KeepsStartedAndTotal(b1, events[1..], total);
  }

  lemma {:induction false} KeepsStartedAndTotal(b: BarState, events: seq<ProgressEvent>, total: int)
    requires b.started && b.total == total
    requires forall k :: 0 <= k < |events| ==> events[k].totalSize == Some(total)
    ensures Replay(b, events).started && Replay(b, events).total == total
    decreases |events|
  {
    if |events| > 0 {
      KeepsStartedAndTotal(OnProgress(b, events[0]), events[1..], total);
    }
  }

  /** The handler `uploadOnProgress(progressBar)` returns. */
  class UploadProgressHandler {
    const progressBar: SingleBar

    constructor (bar: SingleBar)
      ensures progressBar == bar
    {
      progressBar := bar;
    }

    method Handle(e: ProgressEvent)
      modifies progressBar
      ensures progressBar.State() == OnProgress(old(progressBar.State()), e)
    {
      if e.loadedSize == 0 {
        progressBar.Start(TotalOr(e, e.loadedSize), e.loadedSize);
      } else if e.totalSize == Some(e.loadedSize) {
        progressBar.Update(e.loadedSize);
        progressBar.Stop();
      } else {
        progressBar.Update(e.loadedSize);
      }
    }
  }
}
