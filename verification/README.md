# Pane container of kubetop, modelled in Dafny

kubetop is a terminal dashboard for a Kubernetes cluster. Its screens are
built from pane containers (`ui/elements/panes.go`): a container keeps an
ordered list of child widgets, stacks them vertically or horizontally inside
its parent view, and after every edit of the list recomputes, with integers
only, the rectangle each child's viewport gets and the container's own size.
With `expand` set, the last child is stretched to the end of the view.

The model has six modules:

- `Wrappers` (`wrappers.dfy`): the `Option` type, used for the possibly nil
  parent view and for the position of a widget among the children.
- `Geometry` (`geometry.dfy`): sizes, rectangles, orientation, and the two
  folds the layout performs (a running sum and a running maximum from zero).
- `Layout` (`layout.dfy`): one layout pass (`vlayout` / `hlayout`), written
  once over a main axis (the stacking direction) and a cross axis. `Stack` is
  the loop of `vlayout`/`hlayout` in panes.go, with invariants. `Arranged` is
  its closed-form reference: child i sits at the sum of the extents before it, the container's main
  extent is the sum, and its cross extent is the largest child extent.
- `Children` (`children.dfy`): the child list and its edits as pure functions
  over sequences, with their inverse and invariant lemmas.
- `RemoveLoop` (`remove_loop.dfy`): `Remove` exactly as written, a loop that
  deletes from the slice it is ranging over. See Findings.
- `Panes` (`panes.dfy`): the container state and its operations. Each
  operation is the list edit followed by a layout pass, as `afterModify`
  does it.

Widgets are identities compared by equality (the type parameter `W`). The
size a widget reports when the layout asks it is the parameter
`sizeOf: W -> Dims`. The parent view is `Option<Dims>`, and `None` stands for
the nil view. `Size()` is `Panes.Size`, and `NewPanes`, `NewVPanes` and
`NewHPanes` are `Panes.New`. `Resize()` (panes.go:79-83) is `Panes.Relayout`
followed by a resize notification, and the notification is left out.

## Model

| member | source | states |
|---|---|---|
| Geometry.MaxFrom0 | ui/elements/panes.go:200-207 | the running maximum that starts at 0 is at least 0, at least every element, and is either 0 or one of the elements |
| Layout.Extents | ui/elements/panes.go:214-216 | each child keeps its own main-axis extent, except that with expand the last one becomes the larger of its own extent and the view's extent minus the sum of the children before it |
| Layout.Stack | ui/elements/panes.go:200-222 | the loop places child i at the sum of the extents of the children before it, spanning the view across the axis; it ends with the total extent and the largest cross extent |
| Layout.Arrange | ui/elements/panes.go:193-260 | one layout pass gives one rectangle per child at its running offset; the container's main extent is the sum of the extents and its cross extent is the largest child cross extent, or 0 with no children |
| Layout.PlainLayout | ui/elements/panes.go:193-260 | without expand, vertical child i gets (0, h_0+…+h_{i-1}, vx, h_i), height is the sum of heights and width the largest width; horizontal is the mirror image |
| Layout.ExpandExtents | ui/elements/panes.go:214-216 | without expand every child keeps its own extent; with expand and at least one child, the extents differ from the children's own only in the last one and add up to max(sum of the children, view) |
| Layout.ExpandStretchesLast | ui/elements/panes.go:248-250 | with expand and at least one child, every earlier rectangle equals the plain one; the last keeps its offset and gets max(own, view − offset); main size becomes max(sum, view); cross size is unchanged |
| Children.IndexOf | ui/elements/panes.go:140-141 | returns the first index whose child shows the widget, or None exactly when no child shows it |
| Children.Append | ui/elements/panes.go:114 | the length grows by one, every earlier child keeps its index, and the new child is last |
| Children.Prepend | ui/elements/panes.go:120 | the new child is first and every earlier child moves exactly one index later |
| Children.InsertBefore | ui/elements/panes.go:139-152 | the new child takes the index of the first child showing the mark, which moves one later with the rest; the list is unchanged when no child shows the mark |
| Children.InsertAfter | ui/elements/panes.go:154-167 | the new child goes right after the first child showing the mark and the rest move one later; the list is unchanged when no child shows the mark |
| Children.Remove | ui/elements/panes.go:124-137 | no remaining child shows the widget, every remaining child was a child before, and every child not showing the widget remains |
| Children.RemoveConcat | ui/elements/panes.go:124-137 | removing from a concatenation removes from each part; with RemoveAbsent and RemoveSingleton this fixes the result for any number of matches: the other children survive in their order and multiplicity |
| Children.RemoveSingleton | ui/elements/panes.go:128-130 | a single child is dropped exactly when it shows the widget |
| Children.RemoveAbsent | ui/elements/panes.go:125-136 | removing a widget no child shows leaves the list exactly as it was |
| Children.RemoveOne | ui/elements/panes.go:127-131 | removing a widget shown by one child deletes that child and keeps the others in order |
| Children.RemoveDistinct | ui/elements/panes.go:124-137 | among distinct children, removal deletes exactly the child at the first matching index |
| Children.RemoveUndoesSplice | ui/elements/panes.go:144-146 | inserting a new widget's child at any index and then removing that widget restores the list |
| Children.SpliceKeepsDistinct | ui/elements/panes.go:144-146 | inserting a new widget's child at any index keeps distinct children distinct |
| Children.AppendInverse | ui/elements/panes.go:112-122 | Remove undoes Append and Prepend of a widget not yet shown, and both keep distinct children distinct |
| Children.InsertBeforeInverse | ui/elements/panes.go:139-152 | Remove undoes InsertBefore of a widget not yet shown, whether or not the mark was found, and distinctness is kept |
| Children.InsertAfterInverse | ui/elements/panes.go:154-167 | Remove undoes InsertAfter of a widget not yet shown, whether or not the mark was found, and distinctness is kept |
| Children.RemoveKeepsDistinct | ui/elements/panes.go:124-137 | removal keeps distinct children distinct |
| RemoveLoop.Sweep | ui/elements/panes.go:127-132 | the in-place loop keeps the backing array's length and never lengthens the live slice |
| RemoveLoop.SweepQuiet | ui/elements/panes.go:127-132 | with no match left in the array, the loop changes nothing |
| RemoveLoop.SweepSkip | ui/elements/panes.go:127-128 | entries that do not match are stepped over without effect |
| RemoveLoop.SweepOnce | ui/elements/panes.go:127-131 | a widget shown once is deleted and, after the shift, no further match is met |
| RemoveLoop.AsWrittenAgrees | ui/elements/panes.go:124-137 | when the widget is shown at most once, the loop as written never panics and gives the same list as Children.Remove |
| RemoveLoop.DistinctAgrees | ui/elements/panes.go:124-137 | on distinct children the loop as written is safe and equals Children.Remove |
| RemoveLoop.TwinPanics | ui/elements/panes.go:130 | on `[7, 7]` (two children, both showing widget 7), the loop as written panics |
| RemoveLoop.AdjacentTwinSurvives | ui/elements/panes.go:127-131 | on [1, 7, 7, 2], the loop as written leaves [1, 7, 2] where Children.Remove gives [1, 2] |
| Panes.New | ui/elements/panes.go:44-54 | a new container has the given orientation and expand flag, no children, no view, and width and height 0 |
| Panes.Size | ui/elements/panes.go:108-110 | reports the size the last layout pass computed: once laid out in a view, (largest child width, sum of the heights, the last one stretched with expand) when vertical, and (sum of the widths, largest child height) when horizontal |
| Panes.Widgets | ui/elements/panes.go:65-71 | returns a sequence as long as the child list, holding each child's widget in child order |
| Panes.Relayout | ui/elements/panes.go:184-196 | with no view the container is unchanged; with a view every child's viewport and the container size are those of Layout.Arranged for the reported sizes, and the widgets and their order are kept |
| Panes.SetView | ui/elements/panes.go:100-106 | only the view is replaced, and it may be nil: the widgets, orientation and expand flag are kept; with a nil view nothing else changes (layout returns early), otherwise the container is laid out in the new view |
| Panes.Append | ui/elements/panes.go:112-116 | the widgets become the old ones followed by w, and the container is laid out again when it has a view; without a view only the list changes |
| Panes.Prepend | ui/elements/panes.go:118-122 | the widgets become w followed by the old ones, then the container is laid out as for Append |
| Panes.Remove | ui/elements/panes.go:124-137 | if no child shows w, the container is unchanged and is not laid out again; otherwise the children showing w are removed and it is laid out again; either way w is no longer shown |
| Panes.InsertBefore | ui/elements/panes.go:139-152 | if no child shows the mark, the container is unchanged; otherwise the new child is inserted before the first match and the container is laid out again |
| Panes.InsertAfter | ui/elements/panes.go:154-167 | if no child shows the mark, the container is unchanged; otherwise the new child is inserted after the first match and the container is laid out again |

## Left out

- `SetTheme`: it reaches children through a runtime type assertion on an optional capability. There is no layout or list logic in it.
- `HandleEvent` and `Draw`: they route events to opaque child handlers and draw through the terminal library.
- The terminal-library side effects are left out. This covers `newChild`'s `SetView` and `Watch` calls on the widget, the `ViewPort.Resize` calls, each child's `Resize`, and the `PostEventWidgetResize` / `PostEventWidgetContent` notifications. The model records the rectangle each viewport would be resized to in `Child.port`, and a new child starts at the zero rectangle.
- `SetView` on the children's viewports: the model does not represent the link from a child viewport to its parent view. Only the rectangle relative to that view is modelled.
- Panes.Relayout: each widget's reported size is fixed for the whole pass (`sizeOf`). Widgets that change their reported size in response to an earlier sibling's `Resize` are not modelled.
- Layout.Arrange: Go's 64-bit `int` wrap-around on enormous sizes is not modelled. Sums are unbounded integers.
- Panes.Remove: uses the corrected removal (Children.Remove). The loop as written is modelled separately in RemoveLoop, and the two are proved equal whenever the widget is shown at most once.
- `ui/screen/pod.go`, `ui/screen/routes.go`: screen construction and route registration, outside the container.
- `util/env.go`: logging plumbing and a process-wide counter used for log identifiers.
- `backend/client/client.go`: construction of the cluster API client, which is network configuration.
- `backend/pod/database.go`: interface declarations, a list/watch wrapper delegating to the client library, and a `Filter` that returns nil. There is no implemented store, filtering or subscription behaviour to model.

## Findings

| source | as written | input that shows it | evidently intended | confidence | as-written member | corrected member |
|---|---|---|---|---|---|---|
| ui/elements/panes.go:127-131 | deletes from the slice while ranging over it; a later match slices the live list from an index past its length | children `[7, 7]`, remove 7: the second match slices a list of length 1 from index 2 and panics | every child showing the widget is removed, without a panic | medium, not executed | RemoveLoop.TwinPanics | Children.Remove |
| ui/elements/panes.go:127-131 | after a deletion the next element shifts onto the index just examined, so the loop steps past it | children `[1, 7, 7, 2]`, remove 7: the loop leaves `[1, 7, 2]` | `[1, 2]`: no child shows the removed widget | medium, not executed | RemoveLoop.AdjacentTwinSurvives | Children.Remove |
