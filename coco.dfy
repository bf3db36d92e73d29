/** Shaping of the COCO detector's results (`src/v1/coco_detector.py`): the post-processing
    loop of `CocoDetector.infer`, which resolves class indices to label names and drops
    low-scoring records, and `CocoModule.process`, which keeps the wanted labels and publishes
    the person summary. The network, its tensors and the scaling of normalised boxes to pixels
    are not modelled: the loop receives each record's class index, score and pixel box. */
module Coco {
  import opened Types
  import opened Seqs
  import opened SharedState

  function Digit(d: int): char
    requires 0 <= d < 10
  {
    "0123456789"[d]
  }

  function DigitValue(c: char): int {
    if '0' <= c <= '9' then c as int - '0' as int else 0
  }

  /** Decimal digits of a natural number, as Python's `str` writes them. */
  function NatToString(n: nat): (r: string)
    ensures r != []
    ensures forall i :: 0 <= i < |r| ==> '0' <= r[i] <= '9'
  {
    if n < 10 then [Digit(n)] else NatToString(n / 10) + [Digit(n % 10)]
  }

  /** Reads decimal digits back. */
  function ParseNat(s: string): nat {
    if s == [] then 0
    else
      var d := DigitValue(s[|s| - 1]);
      ParseNat(s[..|s| - 1]) * 10 + (if d >= 0 then d else 0)
  }

  /** The digits written are the digits of `n`: reading them back gives `n`. */
  lemma {:induction false} ParseNatToString(n: nat)
    ensures ParseNat(NatToString(n)) == n
  {
    var s := NatToString(n);
    if n >= 10 {
      ParseNatToString(n / 10);
      assert s[..|s| - 1] == NatToString(n / 10);
    }
  }

  /** `f"{n}"`: a minus sign before the digits of a negative number. */
  function IntToString(n: int): (r: string)
    ensures r != []
    ensures n < 0 <==> r[0] == '-'
    ensures n >= 0 ==> ParseNat(r) == n
    ensures n < 0 ==> ParseNat(r[1..]) == -n
  {
    ParseNatToString(if n < 0 then -n else n);
    if n < 0 then "-" + NatToString(-n) else NatToString(n)
  }

  /** `f"class_{cls}"`: the name given to an index outside the label list. */
  function ClassName(cls: int): (r: string)
    ensures |r| > 6 && r[..6] == "class_"
  {
    "class_" + IntToString(cls)
  }

  /** Labels SSD label files put at index 0 for the background class. */
  predicate IsBackground(name: string) {
    name == "???" || name == "background"
  }

  /** Label resolution: `labels[cls]` for an index in range, `class_<cls>` otherwise; a
      background entry is replaced by the entry after it when there is one, which corrects
      label files that are shifted by one. */
  function ResolveLabel(labels: seq<string>, cls: int): (r: string)
    ensures !(0 <= cls < |labels|) ==> r == ClassName(cls)
    ensures 0 <= cls < |labels| && !IsBackground(labels[cls]) ==> r == labels[cls]
    ensures 0 <= cls < |labels| && IsBackground(labels[cls]) && cls + 1 < |labels| ==> r == labels[cls + 1]
    ensures 0 <= cls && cls + 1 == |labels| && IsBackground(labels[cls]) ==> r == labels[cls]
    ensures r in labels || r == ClassName(cls)
  {
    var name := if 0 <= cls < |labels| then labels[cls] else ClassName(cls);
    assert IsBackground(name) ==> 0 <= cls by {
      if cls < 0 {
        assert name[0] == 'c';
      }
    }
    if IsBackground(name) && cls + 1 < |labels| then labels[cls + 1] else name
  }

  /** What the network reports for one detection slot: class index, score and the box already
      scaled to pixels. */
  datatype RawRecord = RawRecord(cls: int, score: real, bbox: BBox)

  /** The detection one slot describes. */
  function Resolve(labels: seq<string>, r: RawRecord): Det {
    Det(ResolveLabel(labels, r.cls), r.score, r.bbox)
  }

  /** The detections the slots describe, before the threshold, in slot order. */
  function Records(labels: seq<string>, raw: seq<RawRecord>): (r: seq<Det>)
    ensures |r| == |raw|
  {
    if raw == [] then [] else Records(labels, raw[..|raw| - 1]) + [Resolve(labels, raw[|raw| - 1])]
  }

  lemma {:induction false} RecordsAt(labels: seq<string>, raw: seq<RawRecord>, i: nat)
    requires i < |raw|
    ensures Records(labels, raw)[i] == Resolve(labels, raw[i])
    decreases |raw|
  {
    if i < |raw| - 1 {
      RecordsAt(labels, raw[..|raw| - 1], i);
    }
  }

  function ScoreAtLeast(thresh: real): Det -> bool {
    (d: Det) => d.score >= thresh
  }

  /** `min(num, len(scores))`, never negative as a loop bound. */
  function SlotCount(num: int, available: nat): (n: nat)
    ensures n <= available
    ensures num >= 0 ==> n == if num <= available then num else available
    ensures num < 0 ==> n == 0
  {
    if num <= 0 then 0 else if num <= available then num else available
  }

  /** `CocoDetector`: the label list and the score threshold. */
  class CocoDetector {
    const labels: seq<string>
    const scoreThresh: real

    constructor (labels: seq<string>, scoreThresh: real)
      ensures this.labels == labels && this.scoreThresh == scoreThresh
    {
      this.labels := labels;
      this.scoreThresh := scoreThresh;
    }

    /** The post-processing loop of `infer`: slots at index `min(num, len(scores))` and beyond
        are ignored, slots scoring below the threshold are skipped, the rest are kept in slot
        order with their resolved label. */
    method Infer(raw: seq<RawRecord>, num: int) returns (dets: seq<Det>)
      ensures dets == Filter(Records(labels, raw[..SlotCount(num, |raw|)]), ScoreAtLeast(scoreThresh))
    {
      var n := SlotCount(num, |raw|);
      dets := [];
      for i := 0 to n
        invariant dets == Filter(Records(labels, raw[..i]), ScoreAtLeast(scoreThresh))
      {
        var r := raw[i];
        assert raw[..i + 1][..i] == raw[..i];
        FilterAppend(Records(labels, raw[..i]), [Resolve(labels, r)], ScoreAtLeast(scoreThresh));
        FilterSingle(Resolve(labels, r), ScoreAtLeast(scoreThresh));
        if r.score < scoreThresh {
          continue;
        }
        var name := ResolveLabel(labels, r.cls);
        dets := dets + [Det(name, r.score, r.bbox)];
      }
    }
  }

  /** Every detection `infer` returns scores at least the threshold and is the resolved form of
      a slot before the slot count; every such slot with a high enough score is returned. */
  lemma InferMembers(labels: seq<string>, thresh: real, raw: seq<RawRecord>, num: int, d: Det)
    ensures d in Filter(Records(labels, raw[..SlotCount(num, |raw|)]), ScoreAtLeast(thresh)) <==>
      d.score >= thresh &&
      exists i :: 0 <= i < SlotCount(num, |raw|) && d == Resolve(labels, raw[i])
  {
    var n := SlotCount(num, |raw|);
    var rs := Records(labels, raw[..n]);
    FilterMember(rs, ScoreAtLeast(thresh), d);
    if d in rs {
      var i :| 0 <= i < |rs| && rs[i] == d;
      RecordsAt(labels, raw[..n], i);
      assert raw[..n][i] == raw[i];
    }
    if exists i :: 0 <= i < n && d == Resolve(labels, raw[i]) {
      var i :| 0 <= i < n && d == Resolve(labels, raw[i]);
      RecordsAt(labels, raw[..n], i);
      assert raw[..n][i] == raw[i];
      assert rs[i] == d;
    }
  }

  /** The labels the module passes on. */
  predicate IsWanted(name: string) {
    name in {"person", "car", "bus", "truck", "bicycle", "motorcycle"}
  }

  function Wanted(): Det -> bool {
    (d: Det) => IsWanted(d.className)
  }

  /** The comprehension keeps a detection exactly when its label is one of the six wanted
      labels; nothing is added and no wanted detection is lost. */
  lemma WantedMembers(dets: seq<Det>, d: Det)
    ensures d in Filter(dets, Wanted()) <==>
      d in dets && d.className in {"person", "car", "bus", "truck", "bicycle", "motorcycle"}
  {
    FilterMember(dets, Wanted(), d);
  }

  /** Every detection the comprehension keeps has a wanted label. */
  lemma AllWanted(dets: seq<Det>)
    ensures forall d :: d in Filter(dets, Wanted()) ==> IsWanted(d.className)
  {
    forall d | d in Filter(dets, Wanted()) ensures IsWanted(d.className) {
      FilterMember(dets, Wanted(), d);
    }
  }

  /** The person sublist is non-empty exactly when some detection is a person. */
  lemma PersonsPresent(dets: seq<Det>)
    ensures Filter(dets, HasClass("person")) != [] <==> exists d :: d in dets && d.className == "person"
  {
    var persons := Filter(dets, HasClass("person"));
    if persons != [] {
      FilterMember(dets, HasClass("person"), persons[0]);
    }
    forall d | d in dets && d.className == "person" ensures d in persons {
      FilterMember(dets, HasClass("person"), d);
    }
  }

  /** Picking persons out of the wanted detections is picking them out of all detections,
      since "person" is a wanted label. */
  lemma {:induction false} PersonsOfWanted(dets: seq<Det>)
    ensures Filter(Filter(dets, Wanted()), HasClass("person")) == Filter(dets, HasClass("person"))
  {
    if dets != [] {
      PersonsOfWanted(dets[1..]);
      if HasClass("person")(dets[0]) {
        assert Wanted()(dets[0]);
      }
    }
  }

  /** `CocoModule`: a detector with the score threshold 0.45. */
  class CocoModule {
    const det: CocoDetector

    constructor (labels: seq<string>)
      ensures det.labels == labels && det.scoreThresh == 0.45
    {
      det := new CocoDetector(labels, 0.45);
    }

    /** `process`: the wanted detections, in detector order, become `coco_dets`; the persons
        among them become `persons`, and `person_present` says whether there is any. Nothing
        else in the shared state changes. */
    method Process(state: FusionState, raw: seq<RawRecord>, num: int)
      modifies state
      ensures state.cocoDets == Filter(Filter(Records(det.labels, raw[..SlotCount(num, |raw|)]), ScoreAtLeast(det.scoreThresh)), Wanted())
      ensures state.persons == Filter(state.cocoDets, HasClass("person"))
      ensures state.personPresent <==> exists d :: d in state.cocoDets && d.className == "person"
      ensures forall d :: d in state.cocoDets ==> IsWanted(d.className)
      ensures state.faces == old(state.faces) && state.rangeCm == old(state.rangeCm)
      ensures state.rangeRawCm == old(state.rangeRawCm) && state.rangeTs == old(state.rangeTs)
      ensures state.obstacleNear == old(state.obstacleNear) && state.nowTs == old(state.nowTs)
    {
      var dets := det.Infer(raw, num);
      var wanted := Filter(dets, Wanted());
      var persons := Filter(wanted, HasClass("person"));
      AllWanted(dets);
      PersonsPresent(wanted);
      state.PutCoco(wanted, |persons| > 0, persons);
    }
  }
}
