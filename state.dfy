/** The shared state dictionary the modules write and the main loop reads
    (`src/v1/pathpal_pipeline_v1.py`). Keys the loop creates up front are plain fields; keys that
    appear only once a module has written them are `Option`s, `None` standing both for a missing
    key and for a stored `None`, which every reader treats alike. */
module SharedState {
  import opened Types

  class FusionState {
    var cocoDets: seq<Det>
    var faces: seq<Det>
    var personPresent: bool
    var persons: seq<Det>
    var rangeCm: Option<real>
    var rangeRawCm: Option<real>
    var rangeTs: Option<real>
    var obstacleNear: Option<bool>
    var nowTs: Option<real>

    /** The dictionary as the main loop creates it: no detections, no person, and none of the
        range or clock keys yet. */
    constructor ()
      ensures cocoDets == [] && faces == [] && !personPresent && persons == []
      ensures rangeCm == None && rangeRawCm == None && rangeTs == None && obstacleNear == None
      ensures nowTs == None
    {
      cocoDets := [];
      faces := [];
      personPresent := false;
      persons := [];
      rangeCm := None;
      rangeRawCm := None;
      rangeTs := None;
      obstacleNear := None;
      nowTs := None;
    }

    /** The three keys the COCO module writes, written together; the other keys keep their values. */
    method PutCoco(dets: seq<Det>, present: bool, persons: seq<Det>)
      modifies this
      ensures cocoDets == dets && personPresent == present && this.persons == persons
      ensures faces == old(faces) && rangeCm == old(rangeCm) && rangeRawCm == old(rangeRawCm)
      ensures rangeTs == old(rangeTs) && obstacleNear == old(obstacleNear) && nowTs == old(nowTs)
    {
      cocoDets := dets;
      personPresent := present;
      this.persons := persons;
    }
  }
}
