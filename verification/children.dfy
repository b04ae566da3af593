/** The ordered child list of a pane container (`panesChild` and the list
    edits of ui/elements/panes.go). A child pairs a widget, compared only by
    identity, with the rectangle of the viewport the container created for it. */
module Children {
  import opened Wrappers
  import opened Geometry

  datatype Child<W> = Child(widget: W, port: Rect)

  /** The rectangle a new child's viewport is created with, before any layout. */
  const Unplaced := Rect(0, 0, 0, 0)

  /** The child the container creates for a widget it is given. */
  function Fresh<W>(w: W): Child<W> {
    Child(w, Unplaced)
  }

  /** The widgets of the children, in child order. */
  function Ids<W>(cs: seq<Child<W>>): seq<W> {
    seq(|cs|, i requires 0 <= i < |cs| => cs[i].widget)
  }

  /** No widget appears twice among the children. */
  ghost predicate Distinct<W>(cs: seq<Child<W>>) {
    forall i, j :: 0 <= i < j < |cs| ==> cs[i].widget != cs[j].widget
  }

  /** Position of the first child showing `w`, the index at which the scans
      of `InsertBefore` and `InsertAfter` stop; None when no child shows it. */
  function IndexOf<W(==)>(cs: seq<Child<W>>, w: W): (r: Option<nat>)
    ensures r.Some? ==> r.value < |cs| && cs[r.value].widget == w
    ensures r.Some? ==> forall j :: 0 <= j < r.value ==> cs[j].widget != w
    ensures r.None? <==> w !in Ids(cs)
  {
    if |cs| == 0 then None
    else if cs[0].widget == w then assert Ids(cs)[0] == w; Some(0)
    else
      assert Ids(cs) == [cs[0].widget] + Ids(cs[1..]);
      match IndexOf(cs[1..], w)
      case None => None
      case Some(i) => Some(i + 1)
  }

  /** `Append`: the new child goes last; every earlier child keeps its index. */
  function Append<W>(cs: seq<Child<W>>, c: Child<W>): (r: seq<Child<W>>)
    ensures |r| == |cs| + 1
    ensures forall i :: 0 <= i < |cs| ==> r[i] == cs[i]
    ensures r[|cs|] == c
  {
    cs + [c]
  }

  /** `Prepend`: the new child goes first; every earlier child moves exactly
      one index later. */
  function Prepend<W>(cs: seq<Child<W>>, c: Child<W>): (r: seq<Child<W>>)
    ensures |r| == |cs| + 1
    ensures r[0] == c
    ensures forall i :: 0 <= i < |cs| ==> r[i + 1] == cs[i]
  {
    [c] + cs
  }

  /** `InsertBefore`: the new child takes the place of the first child
      showing `mark`, which with everything after it moves one index later.
      Without such a child nothing changes. */
  function InsertBefore<W(==)>(cs: seq<Child<W>>, mark: W, c: Child<W>): (r: seq<Child<W>>)
    ensures mark !in Ids(cs) ==> r == cs
    ensures mark in Ids(cs) ==>
              var i := IndexOf(cs, mark).value;
              && |r| == |cs| + 1
              && r[..i] == cs[..i]
              && r[i] == c
              && r[i + 1..] == cs[i..]
  {
    match IndexOf(cs, mark)
    case None => cs
    case Some(i) => cs[..i] + [c] + cs[i..]
  }

  /** `InsertAfter`: the new child goes right after the first child showing
      `mark`; everything after that child moves one index later. Without such
      a child nothing changes. */
  function InsertAfter<W(==)>(cs: seq<Child<W>>, mark: W, c: Child<W>): (r: seq<Child<W>>)
    ensures mark !in Ids(cs) ==> r == cs
    ensures mark in Ids(cs) ==>
              var i := IndexOf(cs, mark).value;
              && |r| == |cs| + 1
              && r[..i + 1] == cs[..i + 1]
              && r[i + 1] == c
              && r[i + 2..] == cs[i + 1..]
  {
    match IndexOf(cs, mark)
    case None => cs
    case Some(i) => cs[..i + 1] + [c] + cs[i + 1..]
  }

  /** `Remove`, corrected: every child showing `w` is dropped and
      the others keep their relative order. */
  function Remove<W(==)>(cs: seq<Child<W>>, w: W): (r: seq<Child<W>>)
    ensures |r| <= |cs|
    ensures forall j :: 0 <= j < |r| ==> r[j].widget != w && r[j] in cs
    ensures forall j :: 0 <= j < |cs| && cs[j].widget != w ==> cs[j] in r
  {
    if |cs| == 0 then []
    else
      var rest := Remove(cs[1..], w);
      if cs[0].widget == w then rest else [cs[0]] + rest
  }

  /** Removal works piecewise: removing from a concatenation removes from
      each part. With `RemoveAbsent` this fixes the result for any number of
      matches: the children not showing `w` survive in their original order,
      each as often as before. */
  lemma {:induction false} RemoveConcat<W>(a: seq<Child<W>>, b: seq<Child<W>>, w: W)
    ensures Remove(a + b, w) == Remove(a, w) + Remove(b, w)
  {
    if |a| == 0 {
      assert a + b == b;
    } else {
      assert (a + b)[0] == a[0];
      assert (a + b)[1..] == a[1..] + b;
      RemoveConcat(a[1..], b, w);
    }
  }

  /** Removal drops exactly the matching children: one child is kept when it
      does not show `w` and dropped when it does. */
  lemma RemoveSingleton<W>(c: Child<W>, w: W)
    ensures Remove([c], w) == if c.widget == w then [] else [c]
  {
    assert [c][1..] == [];
  }

  /** Removing a widget no child shows leaves the list exactly as it was. */
  lemma {:induction false} RemoveAbsent<W>(cs: seq<Child<W>>, w: W)
    requires w !in Ids(cs)
    ensures Remove(cs, w) == cs
  {
    if |cs| > 0 {
      assert cs[0].widget == Ids(cs)[0];
      assert Ids(cs[1..]) == Ids(cs)[1..];
      RemoveAbsent(cs[1..], w);
      assert [cs[0]] + cs[1..] == cs;
    }
  }

  /** Deleting index i of a list is keeping its head and deleting index
      i - 1 of its tail. */
  lemma DeleteInTail<T>(s: seq<T>, i: nat)
    requires 0 < i < |s|
    ensures [s[0]] + (s[1..][..i - 1] + s[1..][i..]) == s[..i] + s[i + 1..]
  {
    assert s[1..][..i - 1] == s[1..i];
    assert s[1..][i..] == s[i + 1..];
    assert [s[0]] + s[1..i] == s[..i];
  }

  /** The widget of a child in the tail is the widget of the next child of the list. */
  lemma TailShown<W>(cs: seq<Child<W>>, w: W)
    requires |cs| > 0
    requires forall j :: 0 < j < |cs| ==> cs[j].widget != w
    ensures w !in Ids(cs[1..])
  {
    var tail := cs[1..];
    forall j | 0 <= j < |tail|
      ensures Ids(tail)[j] != w
    {
      assert tail[j] == cs[j + 1];
    }
  }

  /** Removing a widget shown by exactly one child, at index i, deletes that
      one child and nothing else: the children before it keep their indices
      and the ones after it move one index earlier. */
  lemma {:induction false} RemoveOne<W>(cs: seq<Child<W>>, w: W, i: nat)
    requires i < |cs| && cs[i].widget == w
    requires forall j :: 0 <= j < |cs| && j != i ==> cs[j].widget != w
    ensures Remove(cs, w) == cs[..i] + cs[i + 1..]
  {
    if i == 0 {
      TailShown(cs, w);
      RemoveAbsent(cs[1..], w);
    } else {
      RemoveOne(cs[1..], w, i - 1);
      DeleteInTail(cs, i);
    }
  }

  /** Among distinct children, `Remove` deletes exactly the child that
      `IndexOf` finds. */
  lemma RemoveDistinct<W>(cs: seq<Child<W>>, w: W)
    requires Distinct(cs)
    requires w in Ids(cs)
    ensures var i := IndexOf(cs, w).value; Remove(cs, w) == cs[..i] + cs[i + 1..]
  {
    var i := IndexOf(cs, w).value;
    RemoveOne(cs, w, i);
  }

  /** A widget not shown by any child is not the widget of any child. */
  lemma NotShown<W>(cs: seq<Child<W>>, w: W)
    requires w !in Ids(cs)
    ensures forall j :: 0 <= j < |cs| ==> cs[j].widget != w
  {
    forall j | 0 <= j < |cs|
      ensures cs[j].widget != w
    {
      assert Ids(cs)[j] == cs[j].widget;
    }
  }

  /** Putting a child for a widget not yet shown at index k, then removing
      that widget, gives back the original list. */
  lemma RemoveUndoesSplice<W>(cs: seq<Child<W>>, k: nat, c: Child<W>)
    requires k <= |cs|
    requires c.widget !in Ids(cs)
    ensures Remove(cs[..k] + [c] + cs[k..], c.widget) == cs
  {
    NotShown(cs, c.widget);
    var s := cs[..k] + [c] + cs[k..];
    RemoveOne(s, c.widget, k);
    assert s[..k] == cs[..k] && s[k + 1..] == cs[k..];
    assert cs[..k] + cs[k..] == cs;
  }

  /** Putting a child for a widget not yet shown anywhere into distinct
      children keeps them distinct. */
  lemma SpliceKeepsDistinct<W>(cs: seq<Child<W>>, k: nat, c: Child<W>)
    requires k <= |cs|
    requires Distinct(cs)
    requires c.widget !in Ids(cs)
    ensures Distinct(cs[..k] + [c] + cs[k..])
  {
    NotShown(cs, c.widget);
    var s := cs[..k] + [c] + cs[k..];
    forall i, j | 0 <= i < j < |s|
      ensures s[i].widget != s[j].widget
    {
      var i' := if i < k then i else i - 1;
      var j' := if j < k then j else j - 1;
      if i != k && j != k {
        assert s[i] == cs[i'] && s[j] == cs[j'];
      } else if i == k {
        assert s[j] == cs[j'];
      } else {
        assert s[i] == cs[i'];
      }
    }
  }

  /** Appending or prepending a widget not yet shown is undone by removing
      it, and keeps distinct children distinct. */
  lemma AppendInverse<W>(cs: seq<Child<W>>, c: Child<W>)
    requires c.widget !in Ids(cs)
    ensures Remove(Append(cs, c), c.widget) == cs
    ensures Remove(Prepend(cs, c), c.widget) == cs
    ensures Distinct(cs) ==> Distinct(Append(cs, c)) && Distinct(Prepend(cs, c))
  {
    assert Append(cs, c) == cs[..|cs|] + [c] + cs[|cs|..];
    assert Prepend(cs, c) == cs[..0] + [c] + cs[0..];
    RemoveUndoesSplice(cs, |cs|, c);
    RemoveUndoesSplice(cs, 0, c);
    if Distinct(cs) {
      SpliceKeepsDistinct(cs, |cs|, c);
      SpliceKeepsDistinct(cs, 0, c);
    }
  }

  /** Inserting a widget not yet shown before a mark is undone by removing
      it, whether or not the mark was found, and keeps distinct children
      distinct. */
  lemma InsertBeforeInverse<W>(cs: seq<Child<W>>, mark: W, c: Child<W>)
    requires c.widget !in Ids(cs)
    ensures Remove(InsertBefore(cs, mark, c), c.widget) == cs
    ensures Distinct(cs) ==> Distinct(InsertBefore(cs, mark, c))
  {
    if mark in Ids(cs) {
      var i := IndexOf(cs, mark).value;
      RemoveUndoesSplice(cs, i, c);
      if Distinct(cs) {
        SpliceKeepsDistinct(cs, i, c);
      }
    } else {
      RemoveAbsent(cs, c.widget);
    }
  }

  /** Inserting a widget not yet shown after a mark is undone by removing
      it, whether or not the mark was found, and keeps distinct children
      distinct. */
  lemma InsertAfterInverse<W>(cs: seq<Child<W>>, mark: W, c: Child<W>)
    requires c.widget !in Ids(cs)
    ensures Remove(InsertAfter(cs, mark, c), c.widget) == cs
    ensures Distinct(cs) ==> Distinct(InsertAfter(cs, mark, c))
  {
    if mark in Ids(cs) {
      var i := IndexOf(cs, mark).value;
      RemoveUndoesSplice(cs, i + 1, c);
      if Distinct(cs) {
        SpliceKeepsDistinct(cs, i + 1, c);
      }
    } else {
      RemoveAbsent(cs, c.widget);
    }
  }

  /** Removing keeps distinct children distinct. */
  lemma {:induction false} RemoveKeepsDistinct<W>(cs: seq<Child<W>>, w: W)
    requires Distinct(cs)
    ensures Distinct(Remove(cs, w))
  {
    if |cs| > 0 {
      RemoveKeepsDistinct(cs[1..], w);
      var rest := Remove(cs[1..], w);
      forall j | 0 <= j < |rest|
        ensures rest[j].widget != cs[0].widget
      {
        var k :| 0 <= k < |cs[1..]| && cs[1..][k] == rest[j];
        assert cs[k + 1] == rest[j];
      }
    }
  }
}
