/** The integer layout of a pane container (`vlayout` and `hlayout` in
    ui/elements/panes.go). Both walk the children in order, give each one a
    rectangle whose offset along the stacking axis is the sum of the extents
    before it, and report the container's size as that sum along the stacking
    axis and the largest child extent across it. With `expand`, the last child
    is stretched to the end of the view. The two functions are mirror images,
    so they are modelled once, over a main axis (the stacking direction) and a
    cross axis. */
module Layout {
  import opened Geometry

  /** Extent along the stacking axis: height when vertical, width when horizontal. */
  function Main(o: Orientation, s: Dims): int {
    match o
    case Vertical => s.h
    case Horizontal => s.w
  }

  /** Extent across the stacking axis. */
  function Cross(o: Orientation, s: Dims): int {
    match o
    case Vertical => s.w
    case Horizontal => s.h
  }

  function Mains(o: Orientation, sizes: seq<Dims>): seq<int> {
    seq(|sizes|, i requires 0 <= i < |sizes| => Main(o, sizes[i]))
  }

  function Crosses(o: Orientation, sizes: seq<Dims>): seq<int> {
    seq(|sizes|, i requires 0 <= i < |sizes| => Cross(o, sizes[i]))
  }

  /** The main-axis extent each child is given: its own, except that with
      `expand` the last child grows to reach the end of the view when the view
      reaches further than the child would. */
  function Extents(o: Orientation, expand: bool, view: Dims, sizes: seq<Dims>): (r: seq<int>)
    ensures |r| == |sizes|
    ensures forall i :: 0 <= i < |sizes| && !(expand && i == |sizes| - 1) ==> r[i] == Main(o, sizes[i])
    ensures expand && |sizes| > 0 ==>
              r[|sizes| - 1] == Max(Main(o, sizes[|sizes| - 1]), Main(o, view) - Sum(Mains(o, sizes)[..|sizes| - 1]))
  {
    var m := Mains(o, sizes);
    if expand && |m| > 0 then
      m[..|m| - 1] + [Max(m[|m| - 1], Main(o, view) - Sum(m[..|m| - 1]))]
    else
      m
  }

  /** The rectangle of a child at `offset` along the stacking axis with main
      extent `extent`; across the axis it always spans the whole view. */
  function Place(o: Orientation, view: Dims, offset: int, extent: int): Rect {
    match o
    case Vertical => Rect(0, offset, view.w, extent)
    case Horizontal => Rect(offset, 0, extent, view.h)
  }

  /** What one layout pass computes: a rectangle per child, and the
      container's own width and height. */
  datatype Placement = Placement(rects: seq<Rect>, width: int, height: int)

  /** The container size of a placement, seen as Dims. */
  function Extent(pl: Placement): Dims {
    Dims(pl.width, pl.height)
  }

  /** The rectangles place children one after another: each at the sum of
      the extents before it, spanning the view across the axis. */
  ghost predicate Placed(o: Orientation, view: Dims, ext: seq<int>, rects: seq<Rect>) {
    && |rects| <= |ext|
    && forall j :: 0 <= j < |rects| ==> rects[j] == Place(o, view, Sum(ext[..j]), ext[j])
  }

  /** `pl` is the layout of children of the given sizes in a view of size
      `view`: child i sits at the sum of the extents before it, the
      container's main extent is the sum of all extents, and its cross extent
      is the largest child cross extent (zero with no children). */
  ghost predicate Arranged(o: Orientation, expand: bool, view: Dims, sizes: seq<Dims>, pl: Placement) {
    var ext := Extents(o, expand, view, sizes);
    && |pl.rects| == |sizes|
    && Placed(o, view, ext, pl.rects)
    && Main(o, Extent(pl)) == Sum(ext)
    && Cross(o, Extent(pl)) == MaxFrom0(Crosses(o, sizes))
  }

  /** The extent the loop settles on for child i, given the running offset
      of the children before it. */
  lemma ExtentStep(o: Orientation, expand: bool, view: Dims, sizes: seq<Dims>, i: nat)
    requires i < |sizes|
    ensures var ext, m := Extents(o, expand, view, sizes), Main(o, sizes[i]);
            ext[i] == if expand && i == |sizes| - 1 && Main(o, view) - Sum(ext[..i]) > m
                      then Main(o, view) - Sum(ext[..i]) else m
  {
    var ext := Extents(o, expand, view, sizes);
    if expand && i == |sizes| - 1 {
      assert ext[..i] == Mains(o, sizes)[..i];
    }
  }

  lemma PlacedStep(o: Orientation, view: Dims, ext: seq<int>, rects: seq<Rect>)
    requires Placed(o, view, ext, rects)
    requires |rects| < |ext|
    ensures Placed(o, view, ext, rects + [Place(o, view, Sum(ext[..|rects|]), ext[|rects|])])
  {
  }

  /** The loop of one layout pass over the children's reported sizes, as the
      Go loop in panes.go writes it: a running offset along the stacking axis and a running
      maximum across it, placing each child as it goes. */
  method Stack(o: Orientation, expand: bool, view: Dims, sizes: seq<Dims>)
    returns (rects: seq<Rect>, offset: int, cross: int)
    ensures |rects| == |sizes|
    ensures Placed(o, view, Extents(o, expand, view, sizes), rects)
    ensures offset == Sum(Extents(o, expand, view, sizes))
    ensures cross == MaxFrom0(Crosses(o, sizes))
  {
    ghost var ext := Extents(o, expand, view, sizes);
    ghost var crosses := Crosses(o, sizes);
    rects, offset, cross := [], 0, 0;
    var i := 0;
    while i < |sizes|
      invariant 0 <= i <= |sizes|
      invariant |rects| == i
      invariant offset == Sum(ext[..i])
      invariant cross == MaxFrom0(crosses[..i])
      invariant Placed(o, view, ext, rects)
    {
      var m, c := Main(o, sizes[i]), Cross(o, sizes[i]);
      MaxFrom0Step(crosses, i);
      if c > cross {
        cross := c;
      }
      if expand && i == |sizes| - 1 && Main(o, view) - offset > m {
        m := Main(o, view) - offset;
      }
      ExtentStep(o, expand, view, sizes, i);
      SumStep(ext, i);
      PlacedStep(o, view, ext, rects);
      rects := rects + [Place(o, view, offset, m)];
      offset := offset + m;
      i := i + 1;
    }
    assert ext[..i] == ext;
    assert crosses[..i] == crosses;
  }

  /** One layout pass: the children are stacked, and the container takes the
      stacked extent along its axis and the widest child across it. */
  method Arrange(o: Orientation, expand: bool, view: Dims, sizes: seq<Dims>) returns (pl: Placement)
    ensures Arranged(o, expand, view, sizes, pl)
  {
    var rects, offset, cross := Stack(o, expand, view, sizes);
    match o
    case Vertical => pl := Placement(rects, cross, offset);
    case Horizontal => pl := Placement(rects, offset, cross);
  }

  /** Without `expand`, child i of the vertical layout gets the rectangle
      (0, h_0 + … + h_{i-1}, vx, h_i), the container is as high as the sum of
      the heights and as wide as the widest child; the horizontal layout is
      the mirror image. */
  lemma PlainLayout(o: Orientation, view: Dims, sizes: seq<Dims>, pl: Placement)
    requires Arranged(o, false, view, sizes, pl)
    ensures o == Vertical ==>
              && (forall i :: 0 <= i < |sizes| ==>
                    pl.rects[i] == Rect(0, Sum(Mains(o, sizes)[..i]), view.w, sizes[i].h))
              && pl.height == Sum(Mains(o, sizes))
              && pl.width == MaxFrom0(Crosses(o, sizes))
    ensures o == Horizontal ==>
              && (forall i :: 0 <= i < |sizes| ==>
                    pl.rects[i] == Rect(Sum(Mains(o, sizes)[..i]), 0, sizes[i].w, view.h))
              && pl.width == Sum(Mains(o, sizes))
              && pl.height == MaxFrom0(Crosses(o, sizes))
  {
    assert Extents(o, false, view, sizes) == Mains(o, sizes);
  }

  /** With `expand` and at least one child, the extents differ from the
      children's own only in the last one, and they add up to the larger of
      the children's sum and the view. */
  lemma ExpandExtents(o: Orientation, view: Dims, sizes: seq<Dims>)
    requires |sizes| > 0
    ensures Extents(o, false, view, sizes) == Mains(o, sizes)
    ensures var n := |sizes|;
            Extents(o, true, view, sizes)[..n - 1] == Mains(o, sizes)[..n - 1]
    ensures Sum(Extents(o, true, view, sizes)) == Max(Sum(Mains(o, sizes)), Main(o, view))
  {
    var n, m := |sizes|, Mains(o, sizes);
    var ext := Extents(o, true, view, sizes);
    assert ext[..n - 1] == m[..n - 1];
    assert ext[..n] == ext && m[..n] == m;
    SumStep(ext, n - 1);
    SumStep(m, n - 1);
  }

  /** Two placements whose extents agree on the first k children agree on
      those children's rectangles. */
  lemma PlacedPrefixAgree(o: Orientation, view: Dims, e1: seq<int>, e2: seq<int>, r1: seq<Rect>, r2: seq<Rect>, k: nat)
    requires Placed(o, view, e1, r1) && Placed(o, view, e2, r2)
    requires k <= |r1| && k <= |r2|
    requires e1[..k] == e2[..k]
    ensures r1[..k] == r2[..k]
  {
    forall i | 0 <= i < k
      ensures r1[i] == r2[i]
    {
      assert e1[..i] == e1[..k][..i];
      assert e2[..i] == e2[..k][..i];
      assert e1[i] == e1[..k][i] && e2[i] == e2[..k][i];
    }
  }

  /** With `expand` and at least one child, only the last child's main extent
      changes: it becomes the larger of its own and what is left of the view
      after the others. Every earlier rectangle and the cross extent are those
      of the plain layout, and the container's main extent becomes the larger
      of the sum of the children and the view. */
  lemma ExpandStretchesLast(o: Orientation, view: Dims, sizes: seq<Dims>, stretched: Placement, plain: Placement)
    requires Arranged(o, true, view, sizes, stretched)
    requires Arranged(o, false, view, sizes, plain)
    requires |sizes| > 0
    ensures stretched.rects[..|sizes| - 1] == plain.rects[..|sizes| - 1]
    ensures var n, m := |sizes|, Mains(o, sizes);
            && plain.rects[n - 1] == Place(o, view, Sum(m[..n - 1]), m[n - 1])
            && stretched.rects[n - 1] == Place(o, view, Sum(m[..n - 1]), Max(m[n - 1], Main(o, view) - Sum(m[..n - 1])))
    ensures Main(o, Extent(stretched)) == Max(Main(o, Extent(plain)), Main(o, view))
    ensures Cross(o, Extent(stretched)) == Cross(o, Extent(plain))
  {
    var n, m := |sizes|, Mains(o, sizes);
    var ext := Extents(o, true, view, sizes);
    ExpandExtents(o, view, sizes);
    PlacedPrefixAgree(o, view, ext, m, stretched.rects, plain.rects, n - 1);
    assert stretched.rects[n - 1] == Place(o, view, Sum(ext[..n - 1]), ext[n - 1]);
    assert plain.rects[n - 1] == Place(o, view, Sum(m[..n - 1]), m[n - 1]);
  }
}
