/** A module's worker (`src/v1/module_worker.py`): a latest-frame cell written by the main loop
    and a loop that runs the module on each new frame. The thread is not modelled: one
    iteration of the loop is `Step`, and the module's own processing is left to the caller,
    which `Step` hands the frame to. */
module Worker {
  import opened Types

  /** The length of the timing window. */
  const WindowSize: nat := 30

  /** The newest `n` entries of `s`. */
  function Newest(s: seq<real>, n: nat): (r: seq<real>)
    ensures |r| == if |s| <= n then |s| else n
  {
    if |s| <= n then s else s[|s| - n..]
  }

  /** `infer_times.append(dt)` followed by `pop(0)` when the list grew past the window. */
  function Record(times: seq<real>, dt: real): (r: seq<real>)
    ensures r != [] && r[|r| - 1] == dt
    ensures |times| < WindowSize ==> r == times + [dt]
    ensures |times| <= WindowSize ==> |r| <= WindowSize
    ensures r[..|r| - 1] == (if |times| >= WindowSize then times[1..] else times)
  {
    var t := times + [dt];
    if |t| > WindowSize then
      assert t[1..][..|t| - 2] == times[1..];
      t[1..]
    else
      assert t[..|t| - 1] == times;
      t
  }

  /** Recording into a window that holds the newest durations yields the newest durations
      including the new one: the window keeps the most recent 30 durations, oldest first. */
  lemma RecordKeepsNewest(durations: seq<real>, dt: real)
    ensures Record(Newest(durations, WindowSize), dt) == Newest(durations + [dt], WindowSize)
    ensures |Record(Newest(durations, WindowSize), dt)| <= WindowSize
  {
    var d := durations + [dt];
    if |durations| > WindowSize {
      assert Newest(durations, WindowSize) + [dt] == d[|durations| - WindowSize..];
      assert d[|durations| - WindowSize..][1..] == d[|d| - WindowSize..];
    }
  }

  class ModuleWorker {
    var latestFrame: Option<Frame>
    var latestTs: real
    var running: bool
    var hasThread: bool
    /** The loop-local `last_ts` of the current loop. */
    var lastTs: real
    var inferTimes: seq<real>
    /** Every duration recorded so far. */
    ghost var durations: seq<real>
    /** The timestamps the current loop has handed to the module, in order. */
    ghost var processed: seq<real>

    ghost predicate Valid()
      reads this
    {
      inferTimes == Newest(durations, WindowSize) &&
      (processed == [] ==> lastTs == 0.0) &&
      (processed != [] ==> lastTs == processed[|processed| - 1]) &&
      (forall i :: 0 <= i < |processed| ==> processed[i] != 0.0) &&
      (forall i :: 0 < i < |processed| ==> processed[i - 1] != processed[i])
    }

    /** No frame, timestamp 0.0, not running, no timings. */
    constructor ()
      ensures latestFrame == None && latestTs == 0.0
      ensures !running && !hasThread && inferTimes == []
      ensures Valid()
    {
      latestFrame := None;
      latestTs := 0.0;
      running := false;
      hasThread := false;
      lastTs := 0.0;
      inferTimes := [];
      durations := [];
      processed := [];
    }

    /** `start`: sets the running flag and begins a fresh loop, whose `last_ts` starts at 0.0.
        There is no guard against a loop that is already running. */
    method Start()
      requires Valid()
      modifies this
      ensures Valid()
      ensures running && hasThread && lastTs == 0.0 && processed == []
      ensures latestFrame == old(latestFrame) && latestTs == old(latestTs)
      ensures inferTimes == old(inferTimes)
    {
      running := true;
      hasThread := true;
      lastTs := 0.0;
      processed := [];
    }

    /** `stop`: clears the running flag; the loop ends at its next check. */
    method Stop()
      requires Valid()
      modifies this
      ensures Valid()
      ensures !running
      ensures hasThread == old(hasThread) && lastTs == old(lastTs) && processed == old(processed)
      ensures latestFrame == old(latestFrame) && latestTs == old(latestTs)
      ensures inferTimes == old(inferTimes)
    {
      running := false;
    }

    /** `update_frame`: overwrites the cell; an unread earlier frame is simply lost. */
    method UpdateFrame(frame: Frame, ts: real)
      requires Valid()
      modifies this
      ensures Valid()
      ensures latestFrame == Some(frame) && latestTs == ts
      ensures running == old(running) && hasThread == old(hasThread)
      ensures lastTs == old(lastTs) && processed == old(processed)
      ensures inferTimes == old(inferTimes) && durations == old(durations)
    {
      latestFrame := Some(frame);
      latestTs := ts;
    }

    /** One iteration of the loop. Nothing happens when the loop is not running, when there is
        no frame, when the timestamp is 0.0, or when it is the one processed last; otherwise the
        frame is returned for processing exactly once, its timestamp becomes `last_ts`, and the
        processing time `dt` enters the timing window. */
    method Step(dt: real) returns (ran: Option<Frame>)
      requires Valid()
      modifies this
      ensures Valid()
      ensures ran.Some? <==>
        old(running) && old(latestFrame).Some? && old(latestTs) != 0.0 && old(latestTs) != old(lastTs)
      ensures ran.Some? ==>
        ran == old(latestFrame) && lastTs == old(latestTs) &&
        processed == old(processed) + [old(latestTs)] &&
        inferTimes == Record(old(inferTimes), dt) && |inferTimes| <= WindowSize
      ensures ran.None? ==>
        lastTs == old(lastTs) && processed == old(processed) && inferTimes == old(inferTimes)
      ensures latestFrame == old(latestFrame) && latestTs == old(latestTs)
      ensures running == old(running) && hasThread == old(hasThread)
    {
      if !running {
        return None;
      }
      var frame := latestFrame;
      var ts := latestTs;
      if frame.None? || ts == 0.0 || ts == lastTs {
        return None;
      }
      lastTs := ts;
      processed := processed + [ts];
      RecordKeepsNewest(durations, dt);
      inferTimes := Record(inferTimes, dt);
      durations := durations + [dt];
      ran := frame;
    }
  }
}
