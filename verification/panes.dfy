/** The pane container of ui/elements/panes.go: an ordered list of children
    stacked vertically or horizontally inside a parent view, optionally
    stretching the last child to the end of the view. Every edit that changes
    the list is followed by a layout pass. Widgets are identities; the size
    each one reports when asked is the parameter `sizeOf`. */
module Panes {
  import opened Wrappers
  import opened Geometry
  import opened Layout
  import opened Children

  /** The container state. `view` is None until a parent view is attached;
      `width` and `height` are what `Size()` reports. */
  datatype Panes<W> = Panes(
    children: seq<Child<W>>,
    orientation: Orientation,
    expand: bool,
    width: int,
    height: int,
    view: Option<Dims>)

  /** `NewPanes` (and `NewVPanes`, `NewHPanes`, which fix the orientation):
      no children, no view, size zero. */
  function New<W>(o: Orientation, expand: bool): (p: Panes<W>)
    ensures p.children == [] && p.view.None?
    ensures p.orientation == o && p.expand == expand
    ensures p.width == 0 && p.height == 0
  {
    Panes([], o, expand, 0, 0, None)
  }

  /** The sizes the children's widgets report, in child order. */
  function SizesOf<W>(cs: seq<Child<W>>, sizeOf: W -> Dims): seq<Dims> {
    seq(|cs|, i requires 0 <= i < |cs| => sizeOf(cs[i].widget))
  }

  /** The rectangles of the children's viewports, in child order. */
  function Ports<W>(cs: seq<Child<W>>): seq<Rect> {
    seq(|cs|, i requires 0 <= i < |cs| => cs[i].port)
  }

  /** The container is laid out in its view: its children's viewports and its
      own size are those of one layout pass over the sizes the widgets report. */
  ghost predicate LaidOut<W>(p: Panes<W>, sizeOf: W -> Dims) {
    && p.view.Some?
    && Arranged(p.orientation, p.expand, p.view.value, SizesOf(p.children, sizeOf),
                Placement(Ports(p.children), p.width, p.height))
  }

  /** `q` is `p` with its children replaced by `edited` and then laid out:
      the same widgets in the same order, the same settings and view; with no
      view nothing else changes, with a view the layout is recomputed. */
  ghost predicate Settled<W>(p: Panes<W>, edited: seq<Child<W>>, q: Panes<W>, sizeOf: W -> Dims) {
    && Ids(q.children) == Ids(edited)
    && q.orientation == p.orientation
    && q.expand == p.expand
    && q.view == p.view
    && (p.view.None? ==> q == p.(children := edited))
    && (p.view.Some? ==> LaidOut(q, sizeOf))
  }

  /** `Widgets()`: a fresh sequence holding each child's widget, in child order. */
  method Widgets<W>(p: Panes<W>) returns (ws: seq<W>)
    ensures |ws| == |p.children|
    ensures forall i :: 0 <= i < |ws| ==> ws[i] == p.children[i].widget
  {
    ws := [];
    var i := 0;
    while i < |p.children|
      invariant 0 <= i <= |p.children|
      invariant |ws| == i
      invariant forall j :: 0 <= j < i ==> ws[j] == p.children[j].widget
    {
      ws := ws + [p.children[i].widget];
      i := i + 1;
    }
  }

  /** `layout`: without a view nothing happens; otherwise one layout pass
      (`vlayout` or `hlayout` by orientation) resizes every child's viewport
      and sets the container's size. */
  method Relayout<W>(p: Panes<W>, sizeOf: W -> Dims) returns (q: Panes<W>)
    ensures Settled(p, p.children, q, sizeOf)
  {
    if p.view.None? {
      return p;
    }
    var cs := p.children;
    var pl := Arrange(p.orientation, p.expand, p.view.value, SizesOf(cs, sizeOf));
    var placed := seq(|cs|, i requires 0 <= i < |cs| => Child(cs[i].widget, pl.rects[i]));
    assert Ports(placed) == pl.rects;
    assert SizesOf(placed, sizeOf) == SizesOf(cs, sizeOf);
    q := p.(children := placed, width := pl.width, height := pl.height);
  }

  /** `Size()`: the size the last layout pass computed. Once the container
      is laid out in a view, that is the sum of the children's extents along
      the stacking axis (the last one stretched with `expand`) and the largest
      child extent across it, or zero with no children. */
  function Size<W>(p: Panes<W>, ghost sizeOf: W -> Dims): (r: (int, int))
    ensures LaidOut(p, sizeOf) ==>
              var sizes := SizesOf(p.children, sizeOf);
              var ext := Extents(p.orientation, p.expand, p.view.value, sizes);
              var cross := MaxFrom0(Crosses(p.orientation, sizes));
              && (p.orientation == Vertical ==> r == (cross, Sum(ext)))
              && (p.orientation == Horizontal ==> r == (Sum(ext), cross))
  {
    (p.width, p.height)
  }

  /** `SetView`: the container takes the new parent view, which may be nil,
      and lays itself out in it. Only the view changes: the widgets, their
      order, the orientation and `expand` are kept, and with a nil view the
      layout returns early, so nothing else changes. */
  method SetView<W>(p: Panes<W>, view: Option<Dims>, sizeOf: W -> Dims) returns (q: Panes<W>)
    ensures Settled(p.(view := view), p.children, q, sizeOf)
  {
    q := Relayout(p.(view := view), sizeOf);
  }

  /** `Append`: the widget's new child goes last, then the container is laid out. */
  method Append<W>(p: Panes<W>, w: W, sizeOf: W -> Dims) returns (q: Panes<W>)
    ensures Ids(q.children) == Ids(p.children) + [w]
    ensures Settled(p, Children.Append(p.children, Fresh(w)), q, sizeOf)
  {
    var edited := Children.Append(p.children, Fresh(w));
    q := Relayout(p.(children := edited), sizeOf);
    assert Ids(edited) == Ids(p.children) + [w];
  }

  /** `Prepend`: the widget's new child goes first, then the container is laid out. */
  method Prepend<W>(p: Panes<W>, w: W, sizeOf: W -> Dims) returns (q: Panes<W>)
    ensures Ids(q.children) == [w] + Ids(p.children)
    ensures Settled(p, Children.Prepend(p.children, Fresh(w)), q, sizeOf)
  {
    var edited := Children.Prepend(p.children, Fresh(w));
    q := Relayout(p.(children := edited), sizeOf);
    assert Ids(edited) == [w] + Ids(p.children);
  }

  /** `Remove`: when some child shows the widget, those children are dropped
      and the container is laid out; otherwise nothing changes at all, not
      even the layout. */
  method Remove<W(==)>(p: Panes<W>, w: W, sizeOf: W -> Dims) returns (q: Panes<W>)
    ensures w !in Ids(p.children) ==> q == p
    ensures w in Ids(p.children) ==> Settled(p, Children.Remove(p.children, w), q, sizeOf)
    ensures w !in Ids(q.children)
  {
    var changed := w in Ids(p.children);
    if changed {
      var edited := Children.Remove(p.children, w);
      q := Relayout(p.(children := edited), sizeOf);
    } else {
      q := p;
    }
  }

  /** `InsertBefore`: when some child shows `mark`, the widget's new child is
      put just before the first such child and the container is laid out;
      otherwise nothing changes at all. */
  method InsertBefore<W(==)>(p: Panes<W>, mark: W, w: W, sizeOf: W -> Dims) returns (q: Panes<W>)
    ensures mark !in Ids(p.children) ==> q == p
    ensures mark in Ids(p.children) ==> Settled(p, Children.InsertBefore(p.children, mark, Fresh(w)), q, sizeOf)
  {
    match IndexOf(p.children, mark)
    case None =>
      q := p;
    case Some(_) =>
      q := Relayout(p.(children := Children.InsertBefore(p.children, mark, Fresh(w))), sizeOf);
  }

  /** `InsertAfter`: when some child shows `mark`, the widget's new child is
      put just after the first such child and the container is laid out;
      otherwise nothing changes at all. */
  method InsertAfter<W(==)>(p: Panes<W>, mark: W, w: W, sizeOf: W -> Dims) returns (q: Panes<W>)
    ensures mark !in Ids(p.children) ==> q == p
    ensures mark in Ids(p.children) ==> Settled(p, Children.InsertAfter(p.children, mark, Fresh(w)), q, sizeOf)
  {
    match IndexOf(p.children, mark)
    case None =>
      q := p;
    case Some(_) =>
      q := Relayout(p.(children := Children.InsertAfter(p.children, mark, Fresh(w))), sizeOf);
  }
}
