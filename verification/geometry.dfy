/** Integer geometry shared by the layout: sizes reported by widgets, the
    rectangles handed to child viewports, and the two folds the layout
    performs over a sequence of extents (a running sum and a running maximum). */
module Geometry {

  /** A width/height pair, as reported by a widget's or a view's `Size()`. */
  datatype Dims = Dims(w: int, h: int)

  /** The rectangle a child viewport is resized to: origin (x, y), extent w × h. */
  datatype Rect = Rect(x: int, y: int, w: int, h: int)

  /** The direction in which the children are stacked. Any orientation other
      than horizontal lays out vertically, so two variants cover `layout` in panes.go. */
  datatype Orientation = Horizontal | Vertical

  function Max(a: int, b: int): int {
    if a < b then b else a
  }

  /** Sum of a sequence, folded from the front the way the layout loop
      accumulates its running offset. */
  function Sum(s: seq<int>): int
    decreases |s|
  {
    if |s| == 0 then 0 else Sum(s[..|s| - 1]) + s[|s| - 1]
  }

  /** The running maximum of the layout loop, which starts at zero: the
      largest element, or zero when the sequence is empty or all negative. */
  function MaxFrom0(s: seq<int>): (r: int)
    decreases |s|
    ensures r >= 0
    ensures forall i :: 0 <= i < |s| ==> s[i] <= r
    ensures r == 0 || exists i :: 0 <= i < |s| && s[i] == r
  {
    if |s| == 0 then 0
    else
      var m := MaxFrom0(s[..|s| - 1]);
      if s[|s| - 1] > m then s[|s| - 1] else m
  }

  /** Extending a prefix by one element adds that element to its sum. */
  lemma SumStep(s: seq<int>, i: nat)
    requires i < |s|
    ensures Sum(s[..i + 1]) == Sum(s[..i]) + s[i]
  {
    assert s[..i + 1][..i] == s[..i];
  }

  /** Extending a prefix by one element updates its running maximum. */
  lemma MaxFrom0Step(s: seq<int>, i: nat)
    requires i < |s|
    ensures MaxFrom0(s[..i + 1]) == Max(MaxFrom0(s[..i]), s[i])
  {
    assert s[..i + 1][..i] == s[..i];
  }
}
