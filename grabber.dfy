/** The frame grabber (`src/v1/frame_grabber.py`): a loop that reads the camera and publishes
    only the newest frame, paced to a target rate. The thread and its sleeps are not modelled:
    one iteration of the loop is `Step`, with the camera's answer and the clock readings
    passed in and the sleep it would take returned. */
module Grabber {
  import opened Types

  /** `1 / max(target_fps, 0.1)`: the pacing interval, at most ten seconds. */
  function MinDt(fps: real): (r: real)
    ensures 0.0 < r <= 10.0
    ensures fps >= 0.1 ==> r * fps == 1.0
    ensures fps <= 0.1 ==> r == 10.0
  {
    1.0 / (if fps >= 0.1 then fps else 0.1)
  }

  /** The pacing rule after a publish: the due time advances by one interval, and the loop
      sleeps until then; if that time has already passed, the due time is reset to the clock
      instead of being left in the past. The result is the new due time and the sleep. */
  function Pace(nextT: real, minDt: real, now: real): (r: (real, real))
    ensures r.1 >= 0.0
    ensures r.0 == now + r.1
    ensures r.0 >= now
    ensures nextT + minDt > now ==> r.0 == nextT + minDt
    ensures nextT + minDt <= now ==> r.0 == now
  {
    var due := nextT + minDt;
    var sleepS := due - now;
    if sleepS > 0.0 then (due, sleepS) else (now, 0.0)
  }

  /** Lag never accumulates: whatever the due time was, after a publish the loop is never more
      than one interval ahead of the clock, and a late loop catches up at once. */
  lemma PaceBounded(nextT: real, minDt: real, now: real)
    requires nextT <= now
    requires minDt > 0.0
    ensures now <= Pace(nextT, minDt, now).0 <= now + minDt
    ensures Pace(nextT, minDt, now).1 <= minDt
  {
  }

  class FrameGrabber {
    const targetFps: real
    var latest: Option<Frame>
    var latestTs: real
    var framesGrabbed: nat
    var running: bool
    var hasThread: bool
    /** The loop-local `next_t` of the current loop. */
    var nextT: real
    /** Every publish, in order: the frame together with the stamp it was published under. */
    ghost var published: seq<(Frame, real)>

    /** The frame and its stamp are always those of one and the same publish, the last one. */
    ghost predicate Valid()
      reads this
    {
      framesGrabbed == |published| &&
      (published == [] ==> latest == None && latestTs == 0.0) &&
      (published != [] ==> latest == Some(published[|published| - 1].0) && latestTs == published[|published| - 1].1)
    }

    /** Nothing published, not running. */
    constructor (targetFps: real)
      ensures this.targetFps == targetFps
      ensures latest == None && latestTs == 0.0 && framesGrabbed == 0
      ensures !running && !hasThread
      ensures Valid()
    {
      this.targetFps := targetFps;
      latest := None;
      latestTs := 0.0;
      framesGrabbed := 0;
      running := false;
      hasThread := false;
      nextT := 0.0;
      published := [];
    }

    /** `get_latest`: the newest frame and its timestamp, `(None, 0.0)` before the first
        publish; after N publishes, the Nth frame with the Nth stamp, never a frame of one
        publish paired with the stamp of another. */
    function GetLatest(): (r: (Option<Frame>, real))
      reads this
      requires Valid()
      ensures framesGrabbed == 0 ==> r == (None, 0.0)
      ensures framesGrabbed > 0 ==>
        r.0 == Some(published[framesGrabbed - 1].0) && r.1 == published[framesGrabbed - 1].1
    {
      (latest, latestTs)
    }

    /** `start`: a no-op on a running grabber; otherwise it sets the flag and begins a loop
        whose due time is the clock reading `now`. */
    method Start(now: real)
      requires Valid()
      modifies this
      ensures Valid()
      ensures old(running) ==> running == old(running) && hasThread == old(hasThread) && nextT == old(nextT)
      ensures !old(running) ==> running && hasThread && nextT == now
      ensures latest == old(latest) && latestTs == old(latestTs) && framesGrabbed == old(framesGrabbed)
      ensures published == old(published)
    {
      if running {
        return;
      }
      running := true;
      hasThread := true;
      nextT := now;
    }

    /** `stop`: clears the running flag and forgets the thread. */
    method Stop()
      requires Valid()
      modifies this
      ensures Valid()
      ensures !running && !hasThread
      ensures nextT == old(nextT)
      ensures latest == old(latest) && latestTs == old(latestTs) && framesGrabbed == old(framesGrabbed)
      ensures published == old(published)
    {
      running := false;
      hasThread := false;
    }

    /** One iteration of the loop: `read` is the camera's answer, `stampNow` the clock reading
        that stamps the frame, `paceNow` the one the pacing compares with. A failed read changes
        nothing and waits 0.01 s; a frame is published with its stamp, the counter goes up by exactly one, and
        the pacing rule moves the due time. `sleepS` is how long the loop then sleeps. */
    method Step(read: Option<Frame>, stampNow: real, paceNow: real) returns (sleepS: real)
      requires Valid()
      modifies this
      ensures Valid()
      ensures sleepS >= 0.0
      ensures !old(running) || read.None? ==>
        latest == old(latest) && latestTs == old(latestTs) && framesGrabbed == old(framesGrabbed) &&
        nextT == old(nextT) && published == old(published)
      ensures !old(running) ==> sleepS == 0.0
      ensures old(running) && read.None? ==> sleepS == 0.01
      ensures old(running) && read.Some? ==>
        latest == read && latestTs == stampNow && framesGrabbed == old(framesGrabbed) + 1 &&
        published == old(published) + [(read.value, stampNow)] &&
        (nextT, sleepS) == Pace(old(nextT), MinDt(targetFps), paceNow)
      ensures running == old(running) && hasThread == old(hasThread)
    {
      if !running {
        return 0.0;
      }
      if read.None? {
        return 0.01;
      }
      latest := read;
      latestTs := stampNow;
      framesGrabbed := framesGrabbed + 1;
      published := published + [(read.value, stampNow)];
      var (due, s) := Pace(nextT, MinDt(targetFps), paceNow);
      nextT := due;
      sleepS := s;
    }
  }
}
