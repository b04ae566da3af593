/** `Remove` of ui/elements/panes.go exactly as written. The loop ranges over
    the child slice while deleting from it in place: the range reads the
    shared backing array, whose length stays that of the original slice, and
    each deletion shifts the rest of the live slice one place to the left and
    shortens it. A deletion at index i slices the live list from i + 1, which
    panics once i + 1 exceeds its current length. */
module RemoveLoop {
  import opened Wrappers
  import opened Children

  /** The loop from index i on, over backing array `buf` and live length
      `len`: the final array and length, or None for a panic. */
  function Sweep<W(==)>(buf: seq<Child<W>>, len: nat, i: nat, w: W): (r: Option<(seq<Child<W>>, nat)>)
    requires len <= |buf| && i <= |buf|
    decreases |buf| - i
    ensures r.Some? ==> |r.value.0| == |buf| && r.value.1 <= len
  {
    if i == |buf| then Some((buf, len))
    else if buf[i].widget != w then Sweep(buf, len, i + 1, w)
    else if len < i + 1 then None
    else Sweep(buf[..i] + buf[i + 1..len] + buf[len - 1..], len - 1, i + 1, w)
  }

  /** The children the loop leaves, or None when it panics. */
  function AsWritten<W(==)>(cs: seq<Child<W>>, w: W): Option<seq<Child<W>>> {
    match Sweep(cs, |cs|, 0, w)
    case None => None
    case Some((buf, len)) => Some(buf[..len])
  }

  /** The widget appears at most once among the children. */
  ghost predicate AtMostOnce<W>(cs: seq<Child<W>>, w: W) {
    forall i, j :: 0 <= i < j < |cs| && cs[i].widget == w ==> cs[j].widget != w
  }

  /** With no match left in the array, the loop runs out without changes. */
  lemma {:induction false} SweepQuiet<W>(buf: seq<Child<W>>, len: nat, i: nat, w: W)
    requires len <= |buf| && i <= |buf|
    requires forall j :: i <= j < |buf| ==> buf[j].widget != w
    ensures Sweep(buf, len, i, w) == Some((buf, len))
    decreases |buf| - i
  {
    if i < |buf| {
      SweepQuiet(buf, len, i + 1, w);
    }
  }

  /** Entries that do not match are stepped over. */
  lemma {:induction false} SweepSkip<W>(buf: seq<Child<W>>, len: nat, i: nat, k: nat, w: W)
    requires len <= |buf| && i <= k <= |buf|
    requires forall j :: i <= j < k ==> buf[j].widget != w
    ensures Sweep(buf, len, i, w) == Sweep(buf, len, k, w)
    decreases k - i
  {
    if i < k {
      SweepSkip(buf, len, i + 1, k, w);
    }
  }

  /** When the widget appears once, at index k, the loop deletes that child
      and, the rest having shifted left, meets no further match. */
  lemma SweepOnce<W>(cs: seq<Child<W>>, w: W, k: nat)
    requires k < |cs| && cs[k].widget == w
    requires forall j :: 0 <= j < |cs| && j != k ==> cs[j].widget != w
    ensures AsWritten(cs, w) == Some(cs[..k] + cs[k + 1..])
  {
    var n := |cs|;
    SweepSkip(cs, n, 0, k, w);
    var shifted := cs[..k] + cs[k + 1..n] + cs[n - 1..];
    assert |shifted| == n;
    forall j | k + 1 <= j < n
      ensures shifted[j].widget != w
    {
      if j < n - 1 {
        assert shifted[j] == cs[j + 1];
      } else {
        assert shifted[j] == cs[n - 1];
      }
    }
    SweepQuiet(shifted, n - 1, k + 1, w);
    assert shifted[..n - 1] == cs[..k] + cs[k + 1..];
  }

  /** Whenever the widget appears at most once, the loop as written does what
      the corrected `Children.Remove` does, and never panics. */
  lemma AsWrittenAgrees<W>(cs: seq<Child<W>>, w: W)
    requires AtMostOnce(cs, w)
    ensures AsWritten(cs, w) == Some(Remove(cs, w))
  {
    match IndexOf(cs, w)
    case None =>
      NotShown(cs, w);
      SweepQuiet(cs, |cs|, 0, w);
      assert cs[..|cs|] == cs;
      RemoveAbsent(cs, w);
    case Some(k) =>
      SweepOnce(cs, w, k);
      RemoveOne(cs, w, k);
  }

  /** In particular, among distinct children the loop is safe. */
  lemma DistinctAgrees<W>(cs: seq<Child<W>>, w: W)
    requires Distinct(cs)
    ensures AsWritten(cs, w) == Some(Remove(cs, w))
  {
    AsWrittenAgrees(cs, w);
  }

  /** Two children showing the same widget: the first deletion leaves a live
      list of length one, and the second match slices it from index two,
      which panics. */
  lemma TwinPanics()
    ensures AsWritten([Child(7, Unplaced), Child(7, Unplaced)], 7) == None
  {
    var cs := [Child(7, Unplaced), Child(7, Unplaced)];
    assert cs[..0] + cs[1..2] + cs[1..] == cs;
    assert Sweep(cs, 1, 1, 7) == None;
    assert Sweep(cs, 2, 0, 7) == Sweep(cs, 1, 1, 7);
  }

  /** Adjacent duplicates between other children: the shift moves the second
      copy onto the index just examined, so the loop steps past it and one
      copy of the widget is left behind. */
  lemma AdjacentTwinSurvives()
    ensures AsWritten([Child(1, Unplaced), Child(7, Unplaced), Child(7, Unplaced), Child(2, Unplaced)], 7)
            == Some([Child(1, Unplaced), Child(7, Unplaced), Child(2, Unplaced)])
    ensures Remove([Child(1, Unplaced), Child(7, Unplaced), Child(7, Unplaced), Child(2, Unplaced)], 7)
            == [Child(1, Unplaced), Child(2, Unplaced)]
  {
    var a, b, c := Child(1, Unplaced), Child(7, Unplaced), Child(2, Unplaced);
    var cs := [a, b, b, c];
    var shifted := cs[..1] + cs[2..4] + cs[3..];
    assert shifted == [a, b, c, c];
    assert Sweep(cs, 4, 0, 7) == Sweep(cs, 4, 1, 7) == Sweep(shifted, 3, 2, 7);
    assert Sweep(shifted, 3, 2, 7) == Sweep(shifted, 3, 3, 7) == Sweep(shifted, 3, 4, 7) == Some((shifted, 3));
    assert shifted[..3] == [a, b, c];
    assert cs[1..] == [b, b, c] && cs[1..][1..] == [b, c] && cs[1..][1..][1..] == [c];
    assert Remove([c], 7) == [c];
    assert Remove([b, c], 7) == [c];
    assert Remove([b, b, c], 7) == [c];
  }
}
