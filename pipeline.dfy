/** The fusion decision of the main loop (`src/v1/pathpal_pipeline_v1.py`): skipping frames
    already seen, the person and face cues, the choice of the detection that gives the
    direction, and the classification of the range reading, all sent through the event policy.
    Events are values of a datatype rather than formatted text. */
module Pipeline {
  import opened Types
  import opened Seqs
  import opened Utils
  import opened Policy
  import opened SharedState
  import opened Worker

  /** `max(s, key=area)`: the index of the first detection of largest area. */
  function LargestIndex(s: seq<Det>): (i: nat)
    requires s != []
    ensures i < |s|
    ensures forall j :: 0 <= j < |s| ==> Area(s[j].bbox) <= Area(s[i].bbox)
    ensures forall j :: 0 <= j < i ==> Area(s[j].bbox) < Area(s[i].bbox)
    decreases |s|
  {
    if |s| == 1 then 0
    else
      var i := LargestIndex(s[..|s| - 1]);
      if Area(s[|s| - 1].bbox) > Area(s[i].bbox) then |s| - 1 else i
  }

  /** `s[i]` is a largest detection of `s` and no earlier one is as large: the one `max` returns. */
  ghost predicate FirstLargest(s: seq<Det>, i: int) {
    0 <= i < |s| &&
    (forall j :: 0 <= j < |s| ==> Area(s[j].bbox) <= Area(s[i].bbox)) &&
    (forall j :: 0 <= j < i ==> Area(s[j].bbox) < Area(s[i].bbox))
  }

  function Largest(s: seq<Det>): Det
    requires s != []
  {
    s[LargestIndex(s)]
  }

  /** The messages the loop emits. */
  datatype Event =
    | PersonOn(side: Side)
    | NoPerson
    | FaceOn(side: Side)
    | ObstacleNear(cm: real, direction: string)
    | ObstacleAhead(cm: real)

  /** The person cue: the side of the largest person, or "no person". */
  function PersonEvent(persons: seq<Det>, w: int): (r: Event)
    ensures r.NoPerson? <==> persons == []
    ensures persons != [] ==> r.PersonOn? && exists i :: FirstLargest(persons, i) && r.side == SideFromBbox(persons[i].bbox, w)
  {
    if persons != [] then
      assert FirstLargest(persons, LargestIndex(persons));
      PersonOn(SideFromBbox(Largest(persons).bbox, w))
    else NoPerson
  }

  /** The face cue: the side of the largest face; nothing at all without faces. */
  function FaceEvents(faces: seq<Det>, w: int): (r: seq<Event>)
    ensures |r| <= 1
    ensures r == [] <==> faces == []
    ensures r != [] ==> r[0].FaceOn? && exists i :: FirstLargest(faces, i) && r[0].side == SideFromBbox(faces[i].bbox, w)
    ensures forall i :: 0 <= i < |r| ==> r[i].FaceOn?
  {
    if faces != [] then
      assert FirstLargest(faces, LargestIndex(faces));
      [FaceOn(SideFromBbox(Largest(faces).bbox, w))]
    else []
  }

  /** `RANGE_DIR_FALLBACK`; a value other than the first two behaves like "none". */
  datatype Fallback = LargestAny | CenterOnly | NoFallback

  /** The configuration the loop reads from its variables module. */
  datatype Config = Config(
    targetDirection: string,
    priority: seq<string>,
    fallback: Fallback,
    nearCm: real,
    farCm: real)

  /** The index of the first priority label that has detections. */
  function FirstMatch(dets: seq<Det>, priority: seq<string>): (r: Option<nat>)
    ensures r.Some? ==> r.value < |priority| && Filter(dets, HasClass(priority[r.value])) != []
    ensures r.Some? ==> forall j :: 0 <= j < r.value ==> Filter(dets, HasClass(priority[j])) == []
    ensures r.None? ==> forall j :: 0 <= j < |priority| ==> Filter(dets, HasClass(priority[j])) == []
    decreases |priority|
  {
    if priority == [] then None
    else if Filter(dets, HasClass(priority[0])) != [] then Some(0)
    else
      match FirstMatch(dets, priority[1..])
      case None => None
      case Some(k) => Some(k + 1)
  }

  /** The detection that gives the direction: the largest one of the first priority label
      that has any, later labels not consulted; failing that, the largest detection of all
      under the "largest_any" fallback, and none otherwise. */
  function Target(dets: seq<Det>, cfg: Config): (r: Option<Det>)
    ensures dets == [] ==> r == None
    ensures r.Some? ==> r.value in dets
    ensures dets != [] && FirstMatch(dets, cfg.priority).Some? ==>
      var lbl := cfg.priority[FirstMatch(dets, cfg.priority).value];
      r.Some? && r.value.className == lbl &&
      forall e :: e in dets && e.className == lbl ==> Area(e.bbox) <= Area(r.value.bbox)
    ensures dets != [] && FirstMatch(dets, cfg.priority).None? ==>
      (r.Some? <==> cfg.fallback == LargestAny) &&
      (r.Some? ==> forall e :: e in dets ==> Area(e.bbox) <= Area(r.value.bbox))
    ensures dets != [] && FirstMatch(dets, cfg.priority).Some? ==>
      var cands := Filter(dets, HasClass(cfg.priority[FirstMatch(dets, cfg.priority).value]));
      r.Some? && exists i :: FirstLargest(cands, i) && r.value == cands[i]
    ensures dets != [] && FirstMatch(dets, cfg.priority).None? && r.Some? ==>
      exists i :: FirstLargest(dets, i) && r.value == dets[i]
  {
    if dets == [] then None
    else
      match FirstMatch(dets, cfg.priority)
      case Some(i) =>
        var candidates := Filter(dets, HasClass(cfg.priority[i]));
        var t := Largest(candidates);
        assert FirstLargest(candidates, LargestIndex(candidates));
        FilterMember(dets, HasClass(cfg.priority[i]), t);
        forall e | e in dets && e.className == cfg.priority[i]
          ensures Area(e.bbox) <= Area(t.bbox)
        {
          FilterMember(dets, HasClass(cfg.priority[i]), e);
        }
        Some(t)
      case None =>
        assert FirstLargest(dets, LargestIndex(dets));
        if cfg.fallback == LargestAny then Some(Largest(dets)) else None
  }

  /** The direction word: the side of the target; "center" when "center_only" applies; the
      configured default otherwise, and always when there are no detections. */
  function Direction(dets: seq<Det>, w: int, cfg: Config): (r: string)
    ensures Target(dets, cfg).Some? ==> r == SideName(SideFromBbox(Target(dets, cfg).value.bbox, w))
    ensures dets == [] ==> r == cfg.targetDirection
    ensures dets != [] && FirstMatch(dets, cfg.priority).None? && cfg.fallback == CenterOnly ==> r == "center"
    ensures dets != [] && FirstMatch(dets, cfg.priority).None? && cfg.fallback == NoFallback ==> r == cfg.targetDirection
  {
    match Target(dets, cfg)
    case Some(t) => SideName(SideFromBbox(t.bbox, w))
    case None =>
      if dets != [] && FirstMatch(dets, cfg.priority).None? && cfg.fallback == CenterOnly then "center"
      else cfg.targetDirection
  }

  /** The range cue: near obstacle with the direction, obstacle ahead between the two
      thresholds, silence beyond the far threshold or without a reading. */
  function RangeEvents(rangeCm: Option<real>, direction: string, cfg: Config): (r: seq<Event>)
    ensures |r| <= 1
    ensures r != [] ==> rangeCm.Some?
    ensures rangeCm.Some? && rangeCm.value <= cfg.nearCm ==> r == [ObstacleNear(rangeCm.value, direction)]
    ensures rangeCm.Some? && cfg.nearCm < rangeCm.value <= cfg.farCm ==> r == [ObstacleAhead(rangeCm.value)]
    ensures rangeCm.None? || (rangeCm.value > cfg.nearCm && rangeCm.value > cfg.farCm) ==> r == []
    ensures forall i :: 0 <= i < |r| ==> (r[i].ObstacleNear? && r[i].direction == direction) || r[i].ObstacleAhead?
  {
    match rangeCm
    case None => []
    case Some(cm) =>
      if cm <= cfg.nearCm then [ObstacleNear(cm, direction)]
      else if cm <= cfg.farCm then [ObstacleAhead(cm)]
      else []
  }

  /** The events of one processed frame, in the order the loop emits them: exactly one person
      cue, a face cue exactly when there are faces, and a range cue only with a reading, carrying
      the chosen direction when the obstacle is near. */
  function Messages(persons: seq<Det>, faces: seq<Det>, dets: seq<Det>, rangeCm: Option<real>, w: int, cfg: Config): (r: seq<Event>)
    ensures forall i :: 0 < i < |r| ==> !r[i].PersonOn? && !r[i].NoPerson?
    ensures (exists i :: 0 <= i < |r| && r[i].FaceOn?) <==> faces != []
    ensures rangeCm.None? ==> forall i :: 0 <= i < |r| ==> !r[i].ObstacleNear? && !r[i].ObstacleAhead?
    ensures forall i :: 0 <= i < |r| && r[i].ObstacleNear? ==> r[i].direction == Direction(dets, w, cfg)
  {
    var direction := Direction(dets, w, cfg);
    var face := FaceEvents(faces, w);
    var range := RangeEvents(rangeCm, direction, cfg);
    CueOrder(PersonEvent(persons, w), face, range, direction);
    [PersonEvent(persons, w)] + face + range
  }

  /** A person cue followed by face cues and then range cues carrying `direction`: the person
      cue is first and alone, a face cue is there exactly when `face` is non-empty, a range cue
      only when `range` is, and every near-obstacle cue carries `direction`. */
  lemma CueOrder(person: Event, face: seq<Event>, range: seq<Event>, direction: string)
    requires person.PersonOn? || person.NoPerson?
    requires forall i :: 0 <= i < |face| ==> face[i].FaceOn?
    requires forall i :: 0 <= i < |range| ==> (range[i].ObstacleNear? && range[i].direction == direction) || range[i].ObstacleAhead?
    ensures var r := [person] + face + range;
      && (forall i :: 0 < i < |r| ==> !r[i].PersonOn? && !r[i].NoPerson?)
      && ((exists i :: 0 <= i < |r| && r[i].FaceOn?) <==> face != [])
      && (range == [] ==> forall i :: 0 <= i < |r| ==> !r[i].ObstacleNear? && !r[i].ObstacleAhead?)
      && (forall i :: 0 <= i < |r| && r[i].ObstacleNear? ==> r[i].direction == direction)
  {
    var r := [person] + face + range;
    assert forall i :: 0 < i <= |face| ==> r[i] == face[i - 1];
    assert forall i :: |face| < i < |r| ==> r[i] == range[i - 1 - |face|];
    if face != [] {
      assert r[1].FaceOn?;
    }
  }

  /** Each message emitted at the one clock reading of the iteration. */
  function CallsAt(msgs: seq<Event>, now: real): (r: seq<Call<Event>>)
    ensures |r| == |msgs|
    ensures forall i :: 0 <= i < |msgs| ==> r[i] == Call(msgs[i], now)
  {
    seq(|msgs|, i requires 0 <= i < |msgs| => Call(msgs[i], now))
  }

  /** The target selection with its priority loop, which stops at the first label that has
      candidates, and the fallback that applies when none has. */
  method SelectTarget(dets: seq<Det>, w: int, cfg: Config) returns (target: Option<Det>, direction: string)
    ensures target == Target(dets, cfg)
    ensures direction == Direction(dets, w, cfg)
  {
    direction := cfg.targetDirection;
    target := None;
    if dets != [] {
      var i := 0;
      while i < |cfg.priority|
        invariant 0 <= i <= |cfg.priority|
        invariant forall j :: 0 <= j < i ==> Filter(dets, HasClass(cfg.priority[j])) == []
        invariant target == None
      {
        var candidates := Filter(dets, HasClass(cfg.priority[i]));
        if candidates != [] {
          assert FirstMatch(dets, cfg.priority) == Some(i);
          target := Some(candidates[LargestIndex(candidates)]);
          break;
        }
        i := i + 1;
      }
      if target.None? {
        assert FirstMatch(dets, cfg.priority).None?;
        match cfg.fallback
        case LargestAny =>
          target := Some(dets[LargestIndex(dets)]);
        case CenterOnly =>
          direction := "center";
        case NoFallback =>
      }
    }
    if target.Some? {
      direction := SideName(SideFromBbox(target.value.bbox, w));
    }
  }

  lemma CallsAtSnoc(msgs: seq<Event>, m: Event, now: real)
    ensures CallsAt(msgs + [m], now) == CallsAt(msgs, now) + [Call(m, now)]
  {
  }

  /** One `emit` that extends the run of `msgs` from `s0` by `msg`. */
  method EmitNext(events: EventPolicy<Event>, msg: Event, now: real,
                  ghost s0: PolicyState<Event>, ghost msgs: seq<Event>, sent: seq<Call<Event>>)
    returns (sent': seq<Call<Event>>)
    requires events.State() == Run(s0, events.cooldown, CallsAt(msgs, now)).0
    requires sent == Run(s0, events.cooldown, CallsAt(msgs, now)).1
    modifies events
    ensures events.State() == Run(s0, events.cooldown, CallsAt(msgs + [msg], now)).0
    ensures sent' == Run(s0, events.cooldown, CallsAt(msgs + [msg], now)).1
  {
    CallsAtSnoc(msgs, msg, now);
    var calls := CallsAt(msgs, now);
    assert (calls + [Call(msg, now)])[..|calls|] == calls;
    var ok := events.Emit(msg, now);
    sent' := if ok then sent + [Call(msg, now)] else sent;
  }

  /** The main loop's state across iterations. */
  class MainLoop {
    const cfg: Config
    const events: EventPolicy<Event>
    const state: FusionState
    const cocoWorker: ModuleWorker
    const faceWorker: ModuleWorker
    /** The loop-local `last_ts`. */
    var lastTs: real

    /** The policy is created with a two-second cooldown; no frame has been seen. */
    constructor (cfg: Config, state: FusionState, cocoWorker: ModuleWorker, faceWorker: ModuleWorker)
      ensures this.cfg == cfg && this.state == state
      ensures this.cocoWorker == cocoWorker && this.faceWorker == faceWorker
      ensures fresh(events) && events.cooldown == 2.0 && events.lastMsg == None && events.lastT == 0.0
      ensures lastTs == 0.0
    {
      this.cfg := cfg;
      this.state := state;
      this.cocoWorker := cocoWorker;
      this.faceWorker := faceWorker;
      events := new EventPolicy(2.0);
      lastTs := 0.0;
    }

    /** One iteration on the grabber's `(frame, ts)` at clock reading `now`. A missing frame or
        a timestamp equal to the last one processed is skipped and changes nothing. Otherwise
        the timestamp is recorded, `now_ts` is published, both workers receive the frame, and
        the events of the snapshot are sent through the policy; `sent` are the delivered ones. */
    method Step(frame: Option<Frame>, ts: real, now: real) returns (processed: bool, sent: seq<Call<Event>>)
      requires cocoWorker.Valid() && faceWorker.Valid()
      modifies this, state, events, cocoWorker, faceWorker
      ensures cocoWorker.Valid() && faceWorker.Valid()
      ensures processed <==> frame.Some? && ts != old(lastTs)
      ensures !processed ==>
        lastTs == old(lastTs) && sent == [] &&
        unchanged(state) && unchanged(events) && unchanged(cocoWorker) && unchanged(faceWorker)
      ensures processed ==>
        lastTs == ts && state.nowTs == Some(now) &&
        cocoWorker.latestFrame == frame && cocoWorker.latestTs == ts &&
        faceWorker.latestFrame == frame && faceWorker.latestTs == ts
      ensures cocoWorker.running == old(cocoWorker.running) && cocoWorker.hasThread == old(cocoWorker.hasThread)
      ensures cocoWorker.lastTs == old(cocoWorker.lastTs) && cocoWorker.inferTimes == old(cocoWorker.inferTimes)
      ensures cocoWorker.processed == old(cocoWorker.processed) && cocoWorker.durations == old(cocoWorker.durations)
      ensures faceWorker.running == old(faceWorker.running) && faceWorker.hasThread == old(faceWorker.hasThread)
      ensures faceWorker.lastTs == old(faceWorker.lastTs) && faceWorker.inferTimes == old(faceWorker.inferTimes)
      ensures faceWorker.processed == old(faceWorker.processed) && faceWorker.durations == old(faceWorker.durations)
      ensures processed ==>
        var msgs := Messages(state.persons, state.faces, state.cocoDets, state.rangeCm, frame.value.width, cfg);
        events.State() == Run(old(events.State()), events.cooldown, CallsAt(msgs, now)).0 &&
        sent == Run(old(events.State()), events.cooldown, CallsAt(msgs, now)).1
      ensures state.cocoDets == old(state.cocoDets) && state.faces == old(state.faces)
      ensures state.persons == old(state.persons) && state.personPresent == old(state.personPresent)
      ensures state.rangeCm == old(state.rangeCm) && state.rangeRawCm == old(state.rangeRawCm)
      ensures state.rangeTs == old(state.rangeTs) && state.obstacleNear == old(state.obstacleNear)
    {
      sent := [];
      if frame.None? {
        return false, [];
      }
      if ts == lastTs {
        return false, [];
      }
      processed := true;
      lastTs := ts;
      state.nowTs := Some(now);
      HandOver(frame.value, ts);
      sent := Announce(state.persons, state.faces, state.cocoDets, state.rangeCm, frame.value.width, now);
    }

    /** Both workers receive the frame; nothing else of theirs changes. */
    method HandOver(frame: Frame, ts: real)
      requires cocoWorker.Valid() && faceWorker.Valid()
      modifies cocoWorker, faceWorker
      ensures cocoWorker.Valid() && faceWorker.Valid()
      ensures cocoWorker.latestFrame == Some(frame) && cocoWorker.latestTs == ts
      ensures faceWorker.latestFrame == Some(frame) && faceWorker.latestTs == ts
      ensures cocoWorker.running == old(cocoWorker.running) && cocoWorker.hasThread == old(cocoWorker.hasThread)
      ensures cocoWorker.lastTs == old(cocoWorker.lastTs) && cocoWorker.inferTimes == old(cocoWorker.inferTimes)
      ensures cocoWorker.processed == old(cocoWorker.processed) && cocoWorker.durations == old(cocoWorker.durations)
      ensures faceWorker.running == old(faceWorker.running) && faceWorker.hasThread == old(faceWorker.hasThread)
      ensures faceWorker.lastTs == old(faceWorker.lastTs) && faceWorker.inferTimes == old(faceWorker.inferTimes)
      ensures faceWorker.processed == old(faceWorker.processed) && faceWorker.durations == old(faceWorker.durations)
    {
      cocoWorker.UpdateFrame(frame, ts);
      faceWorker.UpdateFrame(frame, ts);
    }

    /** The events part of an iteration on a snapshot of the shared state: the person cue, the
        face cue, then the range cue carrying the chosen direction, each through `emit`. */
    method Announce(persons: seq<Det>, faces: seq<Det>, dets: seq<Det>, rangeCm: Option<real>, w: int, now: real)
      returns (sent: seq<Call<Event>>)
      modifies events
      ensures events.State() == Run(old(events.State()), events.cooldown, CallsAt(Messages(persons, faces, dets, rangeCm, w, cfg), now)).0
      ensures sent == Run(old(events.State()), events.cooldown, CallsAt(Messages(persons, faces, dets, rangeCm, w, cfg), now)).1
    {
      sent := [];
      ghost var s0 := events.State();
      ghost var msgs: seq<Event> := [];
      var personCue := NoPerson;
      if persons != [] {
        var p := persons[LargestIndex(persons)];
        personCue := PersonOn(SideFromBbox(p.bbox, w));
      }
      sent := EmitNext(events, personCue, now, s0, msgs, sent);
      msgs := msgs + [personCue];
      assert msgs == [PersonEvent(persons, w)];

      if faces != [] {
        var f := faces[LargestIndex(faces)];
        sent := EmitNext(events, FaceOn(SideFromBbox(f.bbox, w)), now, s0, msgs, sent);
        msgs := msgs + [FaceOn(SideFromBbox(f.bbox, w))];
      }
      assert msgs == [PersonEvent(persons, w)] + FaceEvents(faces, w);

      var target, direction := SelectTarget(dets, w, cfg);

      if rangeCm.Some? {
        if rangeCm.value <= cfg.nearCm {
          sent := EmitNext(events, ObstacleNear(rangeCm.value, direction), now, s0, msgs, sent);
          msgs := msgs + [ObstacleNear(rangeCm.value, direction)];
        } else if rangeCm.value <= cfg.farCm {
          sent := EmitNext(events, ObstacleAhead(rangeCm.value), now, s0, msgs, sent);
          msgs := msgs + [ObstacleAhead(rangeCm.value)];
        }
      }
      assert msgs == Messages(persons, faces, dets, rangeCm, w, cfg);
    }
  }

  /** The first emitted event of a processed frame is always the person cue, so the policy
      never sees two frames in a row without it. */
  lemma PersonCueFirst(persons: seq<Det>, faces: seq<Det>, dets: seq<Det>, rangeCm: Option<real>, w: int, cfg: Config)
    ensures Messages(persons, faces, dets, rangeCm, w, cfg)[0] == PersonEvent(persons, w)
    ensures 1 <= |Messages(persons, faces, dets, rangeCm, w, cfg)| <= 3
  {
  }
}
