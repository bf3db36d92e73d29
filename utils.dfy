/** Geometry helpers used to turn a detection into a direction cue (`src/v1/utils.py`). */
module Utils {
  import opened Types

  /** Horizontal third of the frame a box's centre falls in. */
  datatype Side = Left | Center | Right

  /** The word the source uses for a side in its event text and direction variable. */
  function SideName(s: Side): string {
    match s
    case Left => "left"
    case Center => "center"
    case Right => "right"
  }

  /** `side_from_bbox`: compares the centre `(x1 + x2) / 2` with `w / 3` and `2w / 3`, computed
      with true division as the source does. The contract restates the decision on integers
      alone, so the result depends on `x1`, `x2` and `w` only, and a centre exactly on a third
      line is "center". (For a negative width the left test wins over the right one.) */
  function SideFromBbox(b: BBox, w: int): (r: Side)
    ensures r == Left <==> 3 * (b.x1 + b.x2) < 2 * w
    ensures r == Right <==> 2 * w <= 3 * (b.x1 + b.x2) && 3 * (b.x1 + b.x2) > 4 * w
    ensures r == Center <==> 2 * w <= 3 * (b.x1 + b.x2) <= 4 * w
  {
    var cx := (b.x1 + b.x2) as real / 2.0;
    if cx < w as real / 3.0 then Left
    else if cx > 2.0 * w as real / 3.0 then Right
    else Center
  }

  /** Moving a box vertically never changes its side. */
  lemma SideIgnoresY(b: BBox, y1: int, y2: int, w: int)
    ensures SideFromBbox(BBox(b.x1, y1, b.x2, y2), w) == SideFromBbox(b, w)
  {
  }

  function Clamp(v: int, hi: int): int {
    if hi <= v then (if 0 <= hi then hi else 0) else (if 0 <= v then v else 0)
  }

  /** `_clamp_bbox`: each coordinate is clamped into `[0, size - 1]`, then each pair of corners
      is swapped into order. For a frame of at least one pixel the box lies inside it; a box
      already inside the frame and ordered comes back unchanged. */
  function ClampBbox(b: BBox, w: int, h: int): (r: BBox)
    ensures r.x1 <= r.x2 && r.y1 <= r.y2
    ensures w >= 1 ==> 0 <= r.x1 && r.x2 <= w - 1
    ensures h >= 1 ==> 0 <= r.y1 && r.y2 <= h - 1
    ensures w < 1 ==> r.x1 == 0 && r.x2 == 0
    ensures h < 1 ==> r.y1 == 0 && r.y2 == 0
    ensures {r.x1, r.x2} == {Clamp(b.x1, w - 1), Clamp(b.x2, w - 1)}
    ensures {r.y1, r.y2} == {Clamp(b.y1, h - 1), Clamp(b.y2, h - 1)}
    ensures 0 <= b.x1 <= b.x2 <= w - 1 && 0 <= b.y1 <= b.y2 <= h - 1 ==> r == b
  {
    var x1 := Clamp(b.x1, w - 1);
    var x2 := Clamp(b.x2, w - 1);
    var y1 := Clamp(b.y1, h - 1);
    var y2 := Clamp(b.y2, h - 1);
    var (x1', x2') := if x2 < x1 then (x2, x1) else (x1, x2);
    var (y1', y2') := if y2 < y1 then (y2, y1) else (y1, y2);
    BBox(x1', y1', x2', y2')
  }

  /** Clamping twice is clamping once. */
  lemma ClampIdempotent(b: BBox, w: int, h: int)
    ensures ClampBbox(ClampBbox(b, w, h), w, h) == ClampBbox(b, w, h)
  {
    var r := ClampBbox(b, w, h);
    if w >= 1 && h >= 1 {
      assert 0 <= r.x1 <= r.x2 <= w - 1 && 0 <= r.y1 <= r.y2 <= h - 1;
    }
  }
}
