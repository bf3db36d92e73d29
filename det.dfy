/** Shared value types of the perception path: the detection record and its box. */
module Types {

  /** Absence is explicit (Python's `None`). */
  datatype Option<+T> = None | Some(value: T) {
    function GetOr(default: T): T {
      match this
      case Some(v) => v
      case None => default
    }
  }

  /** An axis-aligned pixel box `(x1, y1, x2, y2)`; nothing forces x1 <= x2 or y1 <= y2. */
  datatype BBox = BBox(x1: int, y1: int, x2: int, y2: int)

  /** A detection: class label (`label` in the source; the word is reserved in Dafny), confidence score and pixel box. */
  datatype Det = Det(className: string, score: real, bbox: BBox)

  /** `d.label == name`, as a filter condition. */
  function HasClass(name: string): Det -> bool {
    (d: Det) => d.className == name
  }

  /** A camera frame: its size, and pixel contents the model never inspects. */
  datatype Frame = Frame(height: int, width: int, pixels: seq<int>)

  /** The area key used by the fusion loop to pick the "largest" detection.
      The factors are not clamped, so an inverted box gets a negative or misleading area. */
  function Area(b: BBox): (r: int)
    ensures b.x1 <= b.x2 && b.y1 <= b.y2 ==> r >= 0
    ensures b.x1 == b.x2 || b.y1 == b.y2 ==> r == 0
    ensures b.x1 > b.x2 && b.y1 > b.y2 ==> r > 0
  {
    (b.x2 - b.x1) * (b.y2 - b.y1)
  }
}
