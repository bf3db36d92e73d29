/** Class-wise non-maximum suppression over pixel boxes (src/v1/nms.py). */
module Nms {
  import opened Types
  import opened Seqs

  function Max(a: int, b: int): int { if a >= b then a else b }
  function Min(a: int, b: int): int { if a <= b then a else b }

  /** Area of the clipped intersection of two boxes (never negative). */
  function Inter(a: BBox, b: BBox): int {
    var iw := Max(0, Min(a.x2, b.x2) - Max(a.x1, b.x1));
    var ih := Max(0, Min(a.y2, b.y2) - Max(a.y1, b.y1));
    iw * ih
  }

  /** Area of a box with each side clamped at zero. */
  function ClampedArea(b: BBox): int {
    Max(0, b.x2 - b.x1) * Max(0, b.y2 - b.y1)
  }

  /** The union area `area_a + area_b - inter`. */
  function Denom(a: BBox, b: BBox): int {
    ClampedArea(a) + ClampedArea(b) - Inter(a, b)
  }

  /** `_iou`: intersection over union, 0 when the boxes do not overlap or the union is empty. */
  function Iou(a: BBox, b: BBox): (r: real)
    ensures 0.0 <= r <= 1.0
    ensures r == 0.0 <==> Inter(a, b) <= 0
  {
    InterWithinDenom(a, b);
    RatioRange(Inter(a, b), Denom(a, b));
    Ratio(Inter(a, b), Denom(a, b))
  }

  /** The two guarded divisions of `_iou` on the intersection and union areas. */
  function Ratio(inter: int, denom: int): real {
    if inter <= 0 then 0.0
    else if denom > 0 then inter as real / denom as real else 0.0
  }

  /** Zero without overlap or with an empty union; otherwise the union is at least the
      intersection, so the second guard of `_iou` never fires and the value lies in (0, 1]. */
  lemma IouRange(a: BBox, b: BBox)
    ensures Inter(a, b) <= 0 ==> Iou(a, b) == 0.0
    ensures Denom(a, b) <= 0 ==> Iou(a, b) == 0.0
    ensures Inter(a, b) > 0 ==> Denom(a, b) > 0 && 0.0 < Iou(a, b) <= 1.0
    ensures Inter(a, b) > 0 ==> Iou(a, b) * Denom(a, b) as real == Inter(a, b) as real
  {
    InterWithinDenom(a, b);
    RatioRange(Inter(a, b), Denom(a, b));
  }

  lemma RatioRange(i: int, d: int)
    requires i > 0 ==> i <= d
    ensures i <= 0 ==> Ratio(i, d) == 0.0
    ensures d <= 0 ==> Ratio(i, d) == 0.0
    ensures i > 0 ==> d > 0 && 0.0 < Ratio(i, d) <= 1.0
    ensures i > 0 ==> Ratio(i, d) * d as real == i as real
  {
    if i > 0 {
      RatioBounds(i, d);
    }
  }

  lemma RatioBounds(i: int, d: int)
    requires 0 < i <= d
    ensures 0.0 < i as real / d as real <= 1.0
    ensures (i as real / d as real) * d as real == i as real
  {
    var r := i as real / d as real;
    assert r * d as real == i as real;
    PositiveFactor(1.0 - r, d as real);
  }

  lemma PositiveFactor(x: real, d: real)
    requires d > 0.0 && x * d >= 0.0
    ensures x >= 0.0
  {
  }

  lemma MulMono(a: int, b: int, c: int, d: int)
    requires 0 <= a <= c && 0 <= b <= d
    ensures a * b <= c * d
  {
    assert a * b <= c * b;
    assert c * b <= c * d;
  }

  /** The intersection is bounded by both clamped areas, hence by the union. */
  lemma InterWithinDenom(a: BBox, b: BBox)
    ensures Inter(a, b) <= ClampedArea(a) && Inter(a, b) <= ClampedArea(b)
    ensures Inter(a, b) > 0 ==> Denom(a, b) >= ClampedArea(a) >= Inter(a, b) > 0
  {
    var iw := Max(0, Min(a.x2, b.x2) - Max(a.x1, b.x1));
    var ih := Max(0, Min(a.y2, b.y2) - Max(a.y1, b.y1));
    MulMono(iw, ih, Max(0, a.x2 - a.x1), Max(0, a.y2 - a.y1));
    MulMono(iw, ih, Max(0, b.x2 - b.x1), Max(0, b.y2 - b.y1));
  }

  /** The overlap measure does not depend on the order of its arguments. */
  lemma IouSymmetric(a: BBox, b: BBox)
    ensures Iou(a, b) == Iou(b, a)
  {
    assert Inter(a, b) == Inter(b, a);
    assert Denom(a, b) == Denom(b, a);
  }

  /** The threshold test needs no division: below the threshold exactly when
      `inter < thresh * denom` for overlapping boxes, and when `0 < thresh` otherwise. */
  lemma IouBelowThreshold(a: BBox, b: BBox, thresh: real)
    ensures Iou(a, b) < thresh <==>
      if Inter(a, b) <= 0 then 0.0 < thresh
      else (Inter(a, b) as real) < thresh * (Denom(a, b) as real)
  {
    InterWithinDenom(a, b);
    RatioBelowThreshold(Inter(a, b), Denom(a, b), thresh);
  }

  lemma RatioBelowThreshold(i: int, d: int, thresh: real)
    requires i > 0 ==> i <= d
    ensures Ratio(i, d) < thresh <==>
      if i <= 0 then 0.0 < thresh else (i as real) < thresh * (d as real)
  {
    if i > 0 {
      RatioBounds(i, d);
      RatioBelow(i as real / d as real, i as real, d as real, thresh);
    }
  }

  /** For a ratio `r` with `r * d == i` and `d` positive, `r < thresh` exactly when `i < thresh * d`. */
  lemma RatioBelow(r: real, i: real, d: real, thresh: real)
    requires d > 0.0 && r * d == i
    ensures r < thresh <==> i < thresh * d
  {
    assert thresh * d - i == (thresh - r) * d;
    if r < thresh {
      assert (thresh - r) * d > 0.0;
    } else {
      assert (r - thresh) * d >= 0.0;
    }
  }

  function Score(d: Det): real { d.score }


  /** An overlap measure that does not depend on argument order, as `_iou` does not. */
  ghost predicate Symmetric(iou: (BBox, BBox) -> real) {
    forall a, b :: iou(a, b) == iou(b, a)
  }

  /** Any two distinct positions holding the same label overlap less than `thresh`. */
  ghost predicate Separated(s: seq<Det>, iou: (BBox, BBox) -> real, thresh: real) {
    forall i, j :: 0 <= i < |s| && 0 <= j < |s| && i != j && s[i].className == s[j].className ==>
      iou(s[i].bbox, s[j].bbox) < thresh
  }

  /** Some kept detection of `d`'s label, scoring at least as high, overlaps `d` by at least `thresh`. */
  ghost predicate Suppressor(d: Det, kept: seq<Det>, iou: (BBox, BBox) -> real, thresh: real) {
    exists k :: k in kept && k.className == d.className && k.score >= d.score && iou(d.bbox, k.bbox) >= thresh
  }

  /** Every detection of `input` that `kept` lost (counted with multiplicity) has a suppressor. */
  ghost predicate Covered(input: seq<Det>, kept: seq<Det>, iou: (BBox, BBox) -> real, thresh: real) {
    forall d :: multiset(kept)[d] < multiset(input)[d] ==> Suppressor(d, kept, iou, thresh)
  }

  /** The greedy pass over one label's group, already sorted by score: keep a detection only
      when it overlaps every detection kept so far by less than `thresh`. */
  method SuppressGroup(group: seq<Det>, name: string, iou: (BBox, BBox) -> real, thresh: real)
    returns (kept: seq<Det>)
    requires Symmetric(iou)
    requires forall k :: 0 <= k < |group| ==> group[k].className == name
    requires SortedDesc(group, Score)
    ensures multiset(kept) <= multiset(group)
    ensures Separated(kept, iou, thresh)
    ensures Covered(group, kept, iou, thresh)
    ensures group != [] ==> kept != [] && kept[0] == group[0]
  {
    kept := [];
    for i := 0 to |group|
      invariant multiset(kept) <= multiset(group[..i])
      invariant Separated(kept, iou, thresh)
      invariant Covered(group[..i], kept, iou, thresh)
      invariant i > 0 ==> kept != [] && kept[0] == group[0]
    {
      var d := group[i];
      if forall k :: k in kept ==> iou(d.bbox, k.bbox) < thresh {
        KeepStep(group, i, kept, iou, thresh);
        kept := kept + [d];
      } else {
        DropStep(group, i, kept, iou, thresh);
      }
    }
    assert group[..|group|] == group;
  }

  /** Loop step of `SuppressGroup` when `group[i]` is kept. */
  lemma KeepStep(group: seq<Det>, i: nat, kept: seq<Det>, iou: (BBox, BBox) -> real, thresh: real)
    requires Symmetric(iou)
    requires i < |group|
    requires multiset(kept) <= multiset(group[..i])
    requires Separated(kept, iou, thresh)
    requires Covered(group[..i], kept, iou, thresh)
    requires forall k :: k in kept ==> iou(group[i].bbox, k.bbox) < thresh
    ensures multiset(kept + [group[i]]) <= multiset(group[..i + 1])
    ensures Separated(kept + [group[i]], iou, thresh)
    ensures Covered(group[..i + 1], kept + [group[i]], iou, thresh)
  {
    var d := group[i];
    assert group[..i + 1] == group[..i] + [d];
    forall e | e in kept && e.className == d.className ensures iou(e.bbox, d.bbox) < thresh {
      assert iou(e.bbox, d.bbox) == iou(d.bbox, e.bbox);
    }
    SeparatedSnoc(kept, d, iou, thresh);
    forall e | multiset(kept + [d])[e] < multiset(group[..i + 1])[e]
      ensures Suppressor(e, kept + [d], iou, thresh)
    {
      assert multiset(kept)[e] < multiset(group[..i])[e];
      var k :| k in kept && k.className == e.className && k.score >= e.score && iou(e.bbox, k.bbox) >= thresh;
      assert k in kept + [d];
    }
  }

  /** Loop step of `SuppressGroup` when `group[i]` is dropped: an earlier kept detection
      suppresses it, and that one scores at least as high because the group is sorted. */
  lemma DropStep(group: seq<Det>, i: nat, kept: seq<Det>, iou: (BBox, BBox) -> real, thresh: real)
    requires i < |group|
    requires forall k :: 0 <= k < |group| ==> group[k].className == group[0].className
    requires SortedDesc(group, Score)
    requires multiset(kept) <= multiset(group[..i])
    requires Covered(group[..i], kept, iou, thresh)
    requires !(forall k :: k in kept ==> iou(group[i].bbox, k.bbox) < thresh)
    ensures multiset(kept) <= multiset(group[..i + 1])
    ensures Covered(group[..i + 1], kept, iou, thresh)
  {
    var d := group[i];
    assert group[..i + 1] == group[..i] + [d];
    var k :| k in kept && iou(d.bbox, k.bbox) >= thresh;
    assert k in multiset(group[..i]);
    var m :| 0 <= m < i && group[m] == k;
    assert Suppressor(d, kept, iou, thresh);
  }

  /** Appending a detection separated from every element keeps a sequence separated. */
  lemma SeparatedSnoc(t: seq<Det>, y: Det, iou: (BBox, BBox) -> real, thresh: real)
    requires Symmetric(iou)
    requires Separated(t, iou, thresh)
    requires forall e :: e in t && e.className == y.className ==> iou(e.bbox, y.bbox) < thresh
    ensures Separated(t + [y], iou, thresh)
  {
    var r := t + [y];
    forall i, j | 0 <= i < |r| && 0 <= j < |r| && i != j && r[i].className == r[j].className
      ensures iou(r[i].bbox, r[j].bbox) < thresh
    {
      if i == |t| {
        assert r[j] in t;
        assert iou(r[j].bbox, y.bbox) == iou(y.bbox, r[j].bbox);
      } else if j == |t| {
        assert r[i] in t;
      } else {
        assert r[i] == t[i] && r[j] == t[j];
      }
    }
  }

  /** Dropping the last element keeps a sequence separated. */
  lemma SeparatedInit(s: seq<Det>, iou: (BBox, BBox) -> real, thresh: real)
    requires s != []
    requires Separated(s, iou, thresh)
    ensures Separated(s[..|s| - 1], iou, thresh)
  {
    var init := s[..|s| - 1];
    forall i, j | 0 <= i < |init| && 0 <= j < |init| && i != j && init[i].className == init[j].className
      ensures iou(init[i].bbox, init[j].bbox) < thresh
    {
      assert init[i] == s[i] && init[j] == s[j];
    }
  }

  /** An element of a sequence with `y` appended is `y` or an element of the sequence, and the
      elements before `y` are all separated from it when `s` is separated. */
  lemma SeparatedFromLast(s: seq<Det>, iou: (BBox, BBox) -> real, thresh: real, e: Det)
    requires s != []
    requires Separated(s, iou, thresh)
    requires e in s[..|s| - 1] && e.className == s[|s| - 1].className
    ensures iou(e.bbox, s[|s| - 1].bbox) < thresh
  {
    var k :| 0 <= k < |s| - 1 && s[..|s| - 1][k] == e;
    assert s[k] == e;
  }

  /** A detection inserted into a separated sequence keeps it separated, provided it is
      separated from every element already there. */
  lemma {:induction false} InsertKeepsSeparated(x: Det, s: seq<Det>, iou: (BBox, BBox) -> real, thresh: real)
    requires Symmetric(iou)
    requires SortedDesc(s, Score)
    requires Separated(s, iou, thresh)
    requires forall e :: e in s && e.className == x.className ==> iou(e.bbox, x.bbox) < thresh
    ensures Separated(InsertAfterEqual(x, s, Score), iou, thresh)
    decreases |s|
  {
    if s == [] || Score(s[|s| - 1]) >= Score(x) {
      SeparatedSnoc(s, x, iou, thresh);
    } else {
      var last := s[|s| - 1];
      var init := s[..|s| - 1];
      InsertBeforeLast(x, s, Score);
      SeparatedInit(s, iou, thresh);
      InsertKeepsSeparated(x, init, iou, thresh);
      var t := InsertAfterEqual(x, init, Score);
      LastSeparatedFromInserted(x, s, t, iou, thresh);
      SeparatedSnoc(t, last, iou, thresh);
    }
  }

  /** Inserting `x` into all but the last element of a separated sequence gives a sequence whose
      every element is separated from that last element, when `x` is. */
  lemma LastSeparatedFromInserted(x: Det, s: seq<Det>, t: seq<Det>, iou: (BBox, BBox) -> real, thresh: real)
    requires s != [] && Symmetric(iou)
    requires Separated(s, iou, thresh)
    requires multiset(t) == multiset(s[..|s| - 1]) + multiset{x}
    requires s[|s| - 1].className == x.className ==> iou(s[|s| - 1].bbox, x.bbox) < thresh
    ensures forall e :: e in t && e.className == s[|s| - 1].className ==> iou(e.bbox, s[|s| - 1].bbox) < thresh
  {
    var last := s[|s| - 1];
    forall e | e in t && e.className == last.className
      ensures iou(e.bbox, last.bbox) < thresh
    {
      assert e in multiset(t);
      if e != x {
        assert e in multiset(s[..|s| - 1]);
        SeparatedFromLast(s, iou, thresh, e);
      } else {
        assert iou(e.bbox, last.bbox) == iou(last.bbox, e.bbox);
      }
    }
  }

  /** Sorting a separated sequence keeps it separated. */
  lemma {:induction false} SortKeepsSeparated(s: seq<Det>, iou: (BBox, BBox) -> real, thresh: real)
    requires Symmetric(iou)
    requires Separated(s, iou, thresh)
    ensures Separated(SortByKeyDesc(s, Score), iou, thresh)
    decreases |s|
  {
    if s != [] {
      var rest := s[..|s| - 1];
      var x := s[|s| - 1];
      SeparatedInit(s, iou, thresh);
      SortKeepsSeparated(rest, iou, thresh);
      var sr := SortByKeyDesc(rest, Score);
      forall e | e in sr && e.className == x.className
        ensures iou(e.bbox, x.bbox) < thresh
      {
        assert e in multiset(sr);
        assert e in multiset(rest);
        SeparatedFromLast(s, iou, thresh, e);
      }
      InsertKeepsSeparated(x, sr, iou, thresh);
    }
  }

  lemma IouIsSymmetric()
    ensures Symmetric(Iou)
  {
    forall a, b ensures Iou(a, b) == Iou(b, a) {
      IouSymmetric(a, b);
    }
  }

  /** What the per-label loop of `NmsDets` has established once the labels `done` are handled. */
  ghost predicate GroupsDone(dets: seq<Det>, done: seq<string>, out: seq<Det>, iou: (BBox, BBox) -> real, thresh: real) {
    && (forall e :: e in out ==> e.className in done)
    && multiset(out) <= multiset(dets)
    && Separated(out, iou, thresh)
    && (forall e: Det :: e.className in done && multiset(out)[e] < multiset(dets)[e] ==> Suppressor(e, out, iou, thresh))
  }

  /** Appending the survivors of a fresh label's group extends the loop's invariant to that label. */
  lemma GroupStep(dets: seq<Det>, done: seq<string>, name: string, out: seq<Det>, group: seq<Det>, kept: seq<Det>, iou: (BBox, BBox) -> real, thresh: real)
    requires name !in done
    requires GroupsDone(dets, done, out, iou, thresh)
    requires multiset(group) == multiset(Filter(dets, HasClass(name)))
    requires multiset(kept) <= multiset(group)
    requires Separated(kept, iou, thresh)
    requires Covered(group, kept, iou, thresh)
    ensures GroupsDone(dets, done + [name], out + kept, iou, thresh)
  {
    forall e | e in kept ensures e.className == name {
      assert e in multiset(group);
      assert e in Filter(dets, HasClass(name));
      FilterMember(dets, HasClass(name), e);
    }
    GroupCounts(dets, done, name, out, group, kept);
    GroupSeparated(done, name, out, kept, iou, thresh);
    GroupCovered(dets, done, name, out, group, kept, iou, thresh);
  }

  lemma GroupCounts(dets: seq<Det>, done: seq<string>, name: string, out: seq<Det>, group: seq<Det>, kept: seq<Det>)
    requires name !in done
    requires forall e :: e in out ==> e.className in done
    requires forall e :: e in kept ==> e.className == name
    requires multiset(out) <= multiset(dets)
    requires multiset(group) == multiset(Filter(dets, HasClass(name)))
    requires multiset(kept) <= multiset(group)
    ensures multiset(out + kept) <= multiset(dets)
  {
    forall e ensures multiset(out + kept)[e] <= multiset(dets)[e] {
      FilterCount(dets, HasClass(name), e);
      if e.className == name {
        assert e !in out;
      } else {
        assert e !in kept;
      }
    }
  }

  lemma GroupSeparated(done: seq<string>, name: string, out: seq<Det>, kept: seq<Det>, iou: (BBox, BBox) -> real, thresh: real)
    requires name !in done
    requires forall e :: e in out ==> e.className in done
    requires forall e :: e in kept ==> e.className == name
    requires Separated(out, iou, thresh)
    requires Separated(kept, iou, thresh)
    ensures Separated(out + kept, iou, thresh)
  {
    var out' := out + kept;
    forall a | 0 <= a < |out'| ensures (a < |out|) == (out'[a].className in done) {
      if a < |out| {
        assert out'[a] in out;
      } else {
        assert out'[a] in kept;
      }
    }
    forall a, b | 0 <= a < |out'| && 0 <= b < |out'| && a != b && out'[a].className == out'[b].className
      ensures iou(out'[a].bbox, out'[b].bbox) < thresh
    {
      if a < |out| {
        assert out'[a] == out[a] && out'[b] == out[b];
      } else {
        assert out'[a] == kept[a - |out|] && out'[b] == kept[b - |out|];
      }
    }
  }

  lemma GroupCovered(dets: seq<Det>, done: seq<string>, name: string, out: seq<Det>, group: seq<Det>, kept: seq<Det>, iou: (BBox, BBox) -> real, thresh: real)
    requires name !in done
    requires forall e :: e in out ==> e.className in done
    requires forall e :: e in kept ==> e.className == name
    requires multiset(group) == multiset(Filter(dets, HasClass(name)))
    requires Covered(group, kept, iou, thresh)
    requires forall e: Det :: e.className in done && multiset(out)[e] < multiset(dets)[e] ==> Suppressor(e, out, iou, thresh)
    ensures forall e: Det :: e.className in done + [name] && multiset(out + kept)[e] < multiset(dets)[e] ==> Suppressor(e, out + kept, iou, thresh)
  {
    var out' := out + kept;
    forall e: Det | e.className in done + [name] && multiset(out')[e] < multiset(dets)[e]
      ensures Suppressor(e, out', iou, thresh)
    {
      FilterCount(dets, HasClass(name), e);
      if e.className == name {
        assert e !in out;
        assert multiset(kept)[e] < multiset(group)[e];
        var k :| k in kept && k.className == e.className && k.score >= e.score && iou(e.bbox, k.bbox) >= thresh;
        assert k in out';
      } else {
        assert e !in kept;
        var k :| k in out && k.className == e.className && k.score >= e.score && iou(e.bbox, k.bbox) >= thresh;
        assert k in out';
      }
    }
  }

  /** `nms_dets`: group by label in first-seen order, suppress greedily inside each label's
      score-sorted group, concatenate the survivors and sort them by score (stably). */
  method NmsDets(dets: seq<Det>, iouThresh: real) returns (out: seq<Det>)
    ensures dets == [] ==> out == []
    ensures multiset(out) <= multiset(dets)
    ensures |out| <= |dets|
    ensures SortedDesc(out, Score)
    ensures Separated(out, Iou, iouThresh)
    ensures Covered(dets, out, Iou, iouThresh)
  {
    if dets == [] {
      return dets;
    }
    var names, byLabel := GroupByLabel(dets);
    IouIsSymmetric();
    var unsorted := SuppressEachLabel(dets, names, byLabel, Iou, iouThresh);
    assert Covered(dets, unsorted, Iou, iouThresh) by {
      forall e | multiset(unsorted)[e] < multiset(dets)[e] ensures Suppressor(e, unsorted, Iou, iouThresh) {
        assert e in dets;
      }
    }
    // the survivors end up in descending score order across all labels
    out := SortByKeyDesc(unsorted, Score);
    SortKeepsSeparated(unsorted, Iou, iouThresh);
    SuppressorsSurvivePermutation(dets, unsorted, out, iouThresh);
    SubMultisetLength(out, dets);
  }

  /** The loop over `by_label`: each label's group, sorted by score, goes through the greedy
      pass and its survivors are appended to `out`. */
  method SuppressEachLabel(dets: seq<Det>, names: seq<string>, byLabel: map<string, seq<Det>>, iou: (BBox, BBox) -> real, iouThresh: real)
    returns (out: seq<Det>)
    requires Symmetric(iou)
    requires forall n :: n in names ==> n in byLabel && byLabel[n] == Filter(dets, HasClass(n))
    requires forall a, b :: 0 <= a < b < |names| ==> names[a] != names[b]
    ensures GroupsDone(dets, names, out, iou, iouThresh)
  {
    out := [];
    for j := 0 to |names|
      invariant GroupsDone(dets, names[..j], out, iou, iouThresh)
    {
      out := SuppressLabel(dets, names, j, byLabel[names[j]], out, iou, iouThresh);
    }
    assert names[..|names|] == names;
  }

  /** One iteration of that loop, for the label `names[j]` and its group `members`. */
  method SuppressLabel(dets: seq<Det>, names: seq<string>, j: nat, members: seq<Det>, out: seq<Det>,
                       iou: (BBox, BBox) -> real, iouThresh: real)
    returns (out': seq<Det>)
    requires Symmetric(iou)
    requires j < |names|
    requires forall a, b :: 0 <= a < b < |names| ==> names[a] != names[b]
    requires members == Filter(dets, HasClass(names[j]))
    requires GroupsDone(dets, names[..j], out, iou, iouThresh)
    ensures GroupsDone(dets, names[..j + 1], out', iou, iouThresh)
  {
    var name := names[j];
    ghost var done := names[..j];
    assert name !in done;
    assert names[..j + 1] == done + [name];
    var group := SortByKeyDesc(members, Score);
    forall k | 0 <= k < |group| ensures group[k].className == name {
      assert group[k] in multiset(members);
      FilterMember(dets, HasClass(name), group[k]);
    }
    var kept := SuppressGroup(group, name, iou, iouThresh);
    GroupStep(dets, done, name, out, group, kept, iou, iouThresh);
    out' := out + kept;
  }

  /** The `by_label` dictionary of `nms_dets`: its keys in insertion (first-seen) order and, for
      each key, the detections carrying that label in input order. */
  method GroupByLabel(dets: seq<Det>) returns (names: seq<string>, byLabel: map<string, seq<Det>>)
    ensures forall n :: n in byLabel <==> n in names
    ensures forall a, b :: 0 <= a < b < |names| ==> names[a] != names[b]
    ensures forall d :: d in dets ==> d.className in byLabel
    ensures forall n :: n in byLabel ==> byLabel[n] == Filter(dets, HasClass(n))
  {
    names, byLabel := [], map[];
    for i := 0 to |dets|
      invariant GroupedUpTo(dets, i, names, byLabel)
    {
      var d := dets[i];
      ghost var (names0, byLabel0) := (names, byLabel);
      if d.className in byLabel {
        byLabel := byLabel[d.className := byLabel[d.className] + [d]];
      } else {
        names := names + [d.className];
        byLabel := byLabel[d.className := [d]];
      }
      GroupingStep(dets, i, names0, byLabel0, names, byLabel);
    }
    assert dets[..|dets|] == dets;
  }

  /** The grouping after the first `i` detections: the labels seen, each listed once and in
      step with the map's keys, each mapped to its detections in input order. */
  ghost predicate GroupedUpTo(dets: seq<Det>, i: nat, names: seq<string>, byLabel: map<string, seq<Det>>)
    requires i <= |dets|
  {
    && (forall n :: n in byLabel <==> n in names)
    && (forall a, b :: 0 <= a < b < |names| ==> names[a] != names[b])
    && (forall k :: 0 <= k < i ==> dets[k].className in byLabel)
    && (forall n :: n in byLabel ==> byLabel[n] == Filter(dets[..i], HasClass(n)))
  }

  /** One iteration of the grouping loop extends the grouping by one detection. */
  lemma GroupingStep(dets: seq<Det>, i: nat, names: seq<string>, byLabel: map<string, seq<Det>>,
                  names': seq<string>, byLabel': map<string, seq<Det>>)
    requires i < |dets| && GroupedUpTo(dets, i, names, byLabel)
    requires dets[i].className in byLabel ==>
      names' == names && byLabel' == byLabel[dets[i].className := byLabel[dets[i].className] + [dets[i]]]
    requires dets[i].className !in byLabel ==>
      names' == names + [dets[i].className] && byLabel' == byLabel[dets[i].className := [dets[i]]]
    ensures GroupedUpTo(dets, i + 1, names', byLabel')
  {
    var c := dets[i].className;
    LabelStep(dets, i, byLabel);
    forall n | n in byLabel' ensures byLabel'[n] == Filter(dets[..i + 1], HasClass(n)) {
      if n != c {
        assert n in byLabel;
      }
    }
    forall k | 0 <= k < i + 1 ensures dets[k].className in byLabel' {
      if k < i {
        assert dets[k].className in byLabel;
      }
    }
    if c !in byLabel {
      forall a, b | 0 <= a < b < |names'| ensures names'[a] != names'[b] {
        if b == |names| {
          assert names'[a] == names[a] && names[a] in byLabel;
        }
      }
    }
  }

  /** One step of the grouping loop: the group of `dets[i]`'s label grows by `dets[i]`, the other
      groups are unchanged, and a label seen for the first time had an empty group. */
  lemma LabelStep(dets: seq<Det>, i: nat, byLabel: map<string, seq<Det>>)
    requires i < |dets|
    requires forall n :: n in byLabel ==> byLabel[n] == Filter(dets[..i], HasClass(n))
    requires forall k :: 0 <= k < i ==> dets[k].className in byLabel
    ensures forall n :: n in byLabel && n != dets[i].className ==> byLabel[n] == Filter(dets[..i + 1], HasClass(n))
    ensures dets[i].className in byLabel ==> byLabel[dets[i].className] + [dets[i]] == Filter(dets[..i + 1], HasClass(dets[i].className))
    ensures dets[i].className !in byLabel ==> [dets[i]] == Filter(dets[..i + 1], HasClass(dets[i].className))
  {
    var d := dets[i];
    assert dets[..i + 1] == dets[..i] + [d];
    forall n ensures Filter(dets[..i + 1], HasClass(n)) == Filter(dets[..i], HasClass(n)) + (if n == d.className then [d] else []) {
      FilterAppend(dets[..i], [d], HasClass(n));
      FilterSingle(d, HasClass(n));
    }
    if d.className !in byLabel {
      FilterNone(dets[..i], HasClass(d.className));
    }
  }

  /** Reordering the survivors keeps every lost detection's suppressor among them. */
  lemma SuppressorsSurvivePermutation(dets: seq<Det>, a: seq<Det>, b: seq<Det>, thresh: real)
    requires multiset(a) == multiset(b)
    requires Covered(dets, a, Iou, thresh)
    ensures Covered(dets, b, Iou, thresh)
  {
    forall e | multiset(b)[e] < multiset(dets)[e] ensures Suppressor(e, b, Iou, thresh) {
      var k :| k in a && k.className == e.className && k.score >= e.score && Iou(e.bbox, k.bbox) >= thresh;
      assert k in multiset(a);
      assert k in b;
    }
  }

  /** Nothing is suppressed across labels: every input detection is matched in the output by a
      detection of its own label scoring at least as high. */
  lemma LabelRepresented(dets: seq<Det>, out: seq<Det>, iou: (BBox, BBox) -> real, thresh: real, d: Det)
    requires Covered(dets, out, iou, thresh)
    requires d in dets
    ensures exists k :: k in out && k.className == d.className && k.score >= d.score
  {
    if multiset(out)[d] < multiset(dets)[d] {
      assert Suppressor(d, out, iou, thresh);
    } else {
      assert d in multiset(out);
    }
  }

  /** Hence the highest-scoring detection of each label survives, up to ties in score. */
  lemma BestOfLabelSurvives(dets: seq<Det>, out: seq<Det>, iou: (BBox, BBox) -> real, thresh: real, d: Det)
    requires multiset(out) <= multiset(dets)
    requires Covered(dets, out, iou, thresh)
    requires d in dets
    requires forall e :: e in dets && e.className == d.className ==> e.score <= d.score
    ensures exists k :: k in out && k.className == d.className && k.score == d.score
  {
    LabelRepresented(dets, out, iou, thresh, d);
    var k :| k in out && k.className == d.className && k.score >= d.score;
    assert k in multiset(dets);
  }
}
