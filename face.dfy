/** The person gate of the face module (`src/v1/face_module.py`). The face detector and the
    scaling of its boxes are not modelled: its findings arrive as a list of detections. */
module Face {
  import opened Types
  import opened SharedState

  class FaceModule {
    constructor ()
    {
    }

    /** `process`: with no person present the published faces are cleared and the detector is
        not consulted; otherwise its findings, relabelled "face", are published. Only `faces`
        changes. */
    method Process(state: FusionState, found: seq<Det>)
      modifies state
      ensures !old(state.personPresent) ==> state.faces == []
      ensures old(state.personPresent) ==> |state.faces| == |found|
      ensures old(state.personPresent) ==>
        forall i :: 0 <= i < |found| ==> state.faces[i] == Det("face", found[i].score, found[i].bbox)
      ensures state.cocoDets == old(state.cocoDets) && state.personPresent == old(state.personPresent)
      ensures state.persons == old(state.persons) && state.rangeCm == old(state.rangeCm)
      ensures state.rangeRawCm == old(state.rangeRawCm) && state.rangeTs == old(state.rangeTs)
      ensures state.obstacleNear == old(state.obstacleNear) && state.nowTs == old(state.nowTs)
    {
      if !state.personPresent {
        state.faces := [];
        return;
      }
      var faces: seq<Det> := [];
      for i := 0 to |found|
        invariant |faces| == i
        invariant forall k :: 0 <= k < i ==> faces[k] == Det("face", found[k].score, found[k].bbox)
      {
        faces := faces + [Det("face", found[i].score, found[i].bbox)];
      }
      state.faces := faces;
    }
  }
}
