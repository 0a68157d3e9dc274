# amux in Dafny

amux is a terminal multiplexer. This project models the parts of it whose
correctness is a matter of algorithms and protocols, and proves what they are
for. `dafny verify dfyconfig.toml` checks the whole project; `Common` holds the
types the models share.

**Layout.** `Numbers` and `Apportion` are the integer theory of sizing: largest
remainder, raising to minimums, equal shares, and what these are for, told without
the way they are computed; `Sizing` holds the loops. `LayoutTree`, `LayoutResize`,
`LayoutEdit` and `LayoutRun` are the split tree as a value, with resize, edge drags,
split, close, equalization and whole runs of these; `LayoutShare` and
`LayoutOutcome` say how each shares out cells, from the trees before and after. `LayoutHeap`,
`LayoutHeapResize`, `LayoutHeapEdit` and `LayoutRoot` are the same operations on
linked cells changed in place, each proved to compute the value-level operation
and to leave all child and parent links right. `HitTest` and `Navigate` are point
search and directional focus over a tiled tree.

**Mailbox.** `MailIds` is identifiers and their order, `MailStore` the store as a
value with its coherence over every run, `MailDrain` lists and drain summaries,
`MailSnapshot` saving and loading, `MailOutcome` what each operation does field by
field, `Mailbox` the store class with its loops.

**Client rendering.** `Capture` is incremental capture against an abstract
emulator; `CaptureHeap` is its backing slices and why growing them in place never
shows; `RendererPane` is what the actor keeps for one pane and `Renderer` the
actor with its commands. The emulator is a value with an operation library
(`Vt`) that is only assumed to log what it is fed, to change scrollback by
pushing, trimming and clearing, and to mark every row it changes.

**Actors.** `EventLoop` and `PaneActor` are step systems: one step is one channel
operation of one goroutine or a choice of the environment, and the theorems are
about every run.

**Streams.** `Osc52` is the clipboard-sequence scanner, `Mouse` the mouse report
parser, `Dispatch` the dispatcher for queued input, `Rotation` the rotating log
file.

Clock readings, failures of the file system, the handlers' answers and the
emulator's behaviour are parameters or arbitrary choices. Text tests (UTF-8,
labels, JSON) and sizes of JSON are functions of the environment.

Where code and documentation or expectation part, the model follows the code:

- The size guard of the OSC 52 scanner measures all that follows a prefix in the
  data at hand, not the sequence (`Osc52.BigReadLoses`, `Osc52.CutsDoNotMatter`).
- The mouse parser swallows a NUL that interrupts an escape, a bracket or a report
  (`Mouse.EveryByteAccounted`).
- A layout that zooms a pane outside the active window drops output held for it
  (`Renderer.RelaidOk`, `Renderer.DropLoses`). Output held for a pane that leaves
  the layout stays held exactly if the pane had no emulator and its place is not
  on screen (`Renderer.RelaidGone`, `Renderer.Renderer.HandleLayout`).
- Reading the buffer of a pane may start an emulator for it or replay output held
  for it, and publishes no capture. Such a pane (`stale`) has a capture that lags,
  or none, until it is published again (`RendererPane.ReplayLags`,
  `Renderer.LagPossible`). Between commands every other pane with an emulator,
  hidden ones too, has a capture that is what a rebuild would give; a stale pane
  is on screen only when zoomed from outside the active window.
- After a watchdog timeout the one command already started may still be handled
  (`EventLoop.NoStartAfterTimeout`).
- With no earlier position, the first event's start is its own position; a motion
  merged into it keeps that start (`Dispatch.JoiningPreserves`).
- A snapshot holding the greatest 64-bit number makes numbering wrap, and then
  identifiers repeat as soon as a loaded number is reached
  (`MailSnapshot.NextCollides`, `MailSnapshot.CollisionPossible`).

## Model

| member | source | states |
|---|---|---|
| `Apportion.ProportionalFills` | internal/mux/layout.go:605-679 | largest-remainder sizes always add up to the available cells (or to the minimums, if those need more), and no sibling is below the pane minimum |
| `Apportion.ProportionalQuota` | internal/mux/layout.go:656-676 | each sibling gets the floor or the ceiling of its exact share of the cells above the minimums |
| `Apportion.RoundedUpFirst` | internal/mux/layout.go:667-676 | a sibling that is rounded up comes before one that is not: larger remainder first, later sibling on ties |
| `Apportion.LeftoverBounds` | internal/mux/layout.go:667-676 | fewer leftover cells than siblings, never a negative number |
| `Apportion.LeftoverGoesToFractions` | internal/mux/layout.go:667-676 | whoever receives a leftover cell had a fractional share |
| `Apportion.RaiseMeetsMinimums` | internal/mux/layout.go:415-439 | raising to minimums reports success exactly when the sum allows it, then keeps the sum; every minimum is met either way |
| `Apportion.RaiseIdle` | internal/mux/layout.go:415-439 | sizes that meet their minimums are left alone |
| `Apportion.FitFills` | internal/mux/layout.go:331-350 | sizes fitted to subtree minimums fill max(target, sum of minimums) and meet every minimum; they are in proportion to the excess siblings had, and what minimums cost is taken back from the last sibling first |
| `Apportion.ProportionUnique` | internal/mux/layout.go:605-679 | there is only one division of the same cells with every sibling at its share rounded down or up, larger fractions and then later siblings rounded up first |
| `Apportion.FittedUnique` | internal/mux/layout.go:331-350 | and only one that meets given minimums |
| `Apportion.FittedPlain` | internal/mux/layout.go:331-350 | where every minimum is that of a pane, fitted sizes are exactly in proportion |
| `Apportion.EqualSizesFill` | internal/mux/layout.go:352-364 | equal sizes for a non-empty list of siblings add up to the total, and all but the last have exactly the whole part of a fair share |
| `Apportion.EqualFitFills` | internal/mux/layout.go:366-380 | equal sizes raised to subtree minimums succeed exactly when the minimums fit, then fill the total and meet them, even but for what minimums cost, taken back from the last sibling first |
| `Apportion.LeveledPlain` | internal/mux/layout.go:366-380 | where a fair share covers every minimum, all siblings but the last have exactly that |
| `Sizing.ProportionalChildSizes` | internal/mux/layout.go:605-679 | the sizing loops compute the largest-remainder sizes |
| `Sizing.RaiseSizesToMinimums` | internal/mux/layout.go:415-439 | the in-place loops over the size slice raise and take back exactly as specified |
| `Sizing.ProportionalSubtreeChildSizes` | internal/mux/layout.go:331-350 | the sizes used for a subtree resize are the fitted ones: in proportion but for what minimums ask |
| `Sizing.EqualSplitSizes` | internal/mux/layout.go:352-364 | the loop gives equal sizes that fill the total, the last sibling taking the rounding |
| `Sizing.EqualSubtreeSplitSizes` | internal/mux/layout.go:366-380 | equal sizes raised to minimums, or refusal, as specified; even but for what minimums ask |
| `LayoutTree.FixOffsetsTiles` | internal/mux/layout.go:213-235 | recomputing positions turns correct sizes into an exact tiling, whatever the positions were, and keeps the shape |
| `LayoutTree.ResizeSubtreeTiles` | internal/mux/layout.go:254-326 | a subtree resize makes an exact tiling of size max(requested, minimum) on each axis from arbitrarily stale sizes and positions |
| `LayoutTree.ResizeSubtreeErase` | internal/mux/layout.go:254-296 | a subtree resize changes sizes and positions only |
| `LayoutTree.SizedAboveMin` | internal/mux/layout.go:298-326 | a tiled subtree is never smaller than its minimum |
| `LayoutShare.ResizeSubtreeRescales` | internal/mux/layout.go:254-296 | a subtree resize divides every node in proportion to what its children were, on both axes |
| `LayoutShare.RescaledStays` | internal/mux/layout.go:254-296 | rescaled to the extent it had, a tiled subtree keeps every extent |
| `LayoutResize.SlackIsSizeMinusMin` | internal/mux/layout.go:441-472 | the bound on shrinking is exactly present size minus subtree minimum |
| `LayoutResize.ResizeAxisSized` | internal/mux/layout.go:507-524 | a target no smaller than the minimum is met exactly on one axis and keeps the sizes a tiling |
| `LayoutResize.ResizeToAxisSized` | internal/mux/layout.go:474-490 | a resize on one axis reaches max(target, minimum), divides every node along it in proportion to what its children were, leaves the other axis and the shape alone |
| `LayoutResize.ResizeAllTiles` | internal/mux/layout.go:238-252 | resizing a tiled tree gives the exact tiling of max(requested, minimum) on both axes, every node divided in proportion to what its children were, but for what their subtrees need |
| `LayoutResize.EdgeDragTiles` | internal/mux/layout.go:492-505 | moving one outer edge reaches max(target, minimum) and keeps tiling, shape and other axis; at every depth growth goes to the child at that edge, and a child shrinks only once every nearer one is at its minimum |
| `LayoutResize.EdgeDragGrowsOnlyEdgeChild` | internal/mux/layout.go:526-588 | growing a node along its split changes only the child at the moved edge |
| `LayoutResize.EdgeDragShrinksNearestFirst` | internal/mux/layout.go:526-588 | shrinking changes a child only once every child nearer the edge is at its minimum |
| `LayoutEdit.EqualizeChildrenTiles` | internal/mux/layout.go:781-799 | sharing the space of a node with room always succeeds and tiles it, evenly but for what subtrees need, each child divided in proportion within |
| `LayoutEdit.EqualizeAxisTiles` | internal/mux/layout.go:834-845 | equalizing one axis everywhere keeps a tiling and its shape |
| `LayoutEdit.EqualizeAxisLevels` | internal/mux/layout.go:834-845 | equalizing one axis divides every node along it evenly but for what subtrees need, and changes no extent on the other axis |
| `LayoutEdit.SplitKeeps` | internal/mux/layout.go:84-165 | a split succeeds exactly when the target is a leaf with room for two panes and a separator; it keeps the tiling, the root box, and adds the new pane right beside its target |
| `LayoutEdit.CloseKeeps` | internal/mux/layout.go:167-211 | closing any leaf but the root keeps the tiling and the root box, collapses single children, and loses exactly its pane |
| `LayoutOutcome.SplitShares` | internal/mux/layout.go:84-165 | a split leaf makes two halves that differ by one cell at most, the first the larger; beside siblings split the same way all share the space evenly; nothing else changes |
| `LayoutOutcome.CloseShares` | internal/mux/layout.go:167-211 | a closed leaf's siblings share its node evenly, a single one takes it over; nothing else changes |
| `LayoutRun.TransferKeeps` | internal/mux/window_resize.go:462-492 | moving cells between siblings keeps the node's tiling, extent and shape: one gains exactly what the other can give, down to its minimum, each at the edge facing the other, and the rest are untouched |
| `LayoutRun.ApplyShares` | internal/mux/layout.go:84-252 | each operation shares out cells as stated: halves and even shares for splits, closes and equalizations, proportions for resizes, facing edges for transfers; nothing else changes |
| `LayoutRun.ApplyKeeps` | internal/mux/layout.go:84-252 | one operation (split, close, equalize, resize, transfer) keeps the tiling, changes the box only as a resize says, and moves exactly one pane in or out of the order |
| `LayoutRun.RunTiles` | internal/mux/layout.go:84-252 | over every run of splits, closes, axis equalizations, resizes and transfers from one leaf of at least 2x2 the window stays exactly tiled, no leaf below the minimum, and each step changes box and pane order as stated, and shares out cells as `LayoutRun.ApplyShares` says |
| `LayoutHeap.LayoutCell.FixOffsets` | internal/mux/layout.go:213-235 | positions recomputed in place over linked cells |
| `LayoutHeap.LayoutCell.MinSubtreeSize` | internal/mux/layout.go:298-329 | the traversal computes the subtree minimum |
| `LayoutHeap.LayoutCell.ResizeSubtree` | internal/mux/layout.go:254-296 | the in-place recursion computes the value-level subtree resize |
| `LayoutHeapResize.ResizeCheck` | internal/mux/layout.go:441-472 | the traversal computes how far a subtree can shrink |
| `LayoutHeapResize.ResizeAxis` | internal/mux/layout.go:507-524 | in-place resize of one axis |
| `LayoutHeapResize.ResizeToAxis` | internal/mux/layout.go:474-490 | in-place resize of one axis to the clamped target |
| `LayoutHeapResize.ResizeAll` | internal/mux/layout.go:238-252 | in-place resize of both axes, then positions |
| `LayoutHeapResize.ResizeAxisFromEdge` | internal/mux/layout.go:526-588 | in-place growth and shrinkage from one edge, with the two loops |
| `LayoutHeapResize.ResizeToAxisFromEdge` | internal/mux/layout.go:492-505 | in-place edge move to the clamped target |
| `LayoutHeapEdit.EqualizeChildren` | internal/mux/layout.go:781-799 | in-place sharing of a node's space |
| `LayoutHeapEdit.EqualizeAxisRecursive` | internal/mux/layout.go:834-845 | in-place equalization of one axis |
| `LayoutHeapEdit.SplitWithOrder` | internal/mux/layout.go:88-165 | split in place: all child and parent links right afterwards, the value the split of the old value, and the leaf returned stands beside the target; a refusal changes nothing |
| `LayoutHeapEdit.Close` | internal/mux/layout.go:167-211 | close in place with collapse into the grandparent or to a new root: all links right afterwards, the value the close of the old value, and the cell returned is the next sibling, else the last one left |
| `LayoutHeapEdit.IndexInParent` | internal/mux/layout.go:879-889 | the index found is the cell's position among its parent's children, -1 without a parent |
| `LayoutHeapResize.TransferAxisSize` | internal/mux/window_resize.go:462-492 | in-place transfer of cells between two children |
| `LayoutRoot.Layout.constructor` | internal/mux/layout.go:57-66 | a leaf of at least the minimum size is a valid layout |
| `LayoutRoot.Layout.Split` | internal/mux/layout.go:84-165 | split and position fixing keep the window tiled and consistently linked, and share out cells as a split should |
| `LayoutRoot.Layout.Close` | internal/mux/layout.go:167-235 | close and position fixing keep the window tiled and consistently linked, the root possibly replaced, and share out cells as a close should |
| `LayoutRoot.Layout.Equalize` | internal/mux/layout.go:834-845 | equalization keeps the window tiled and consistently linked, divides every node along the axis evenly but for what subtrees need, and keeps the other axis |
| `LayoutRoot.Layout.Resize` | internal/mux/layout.go:238-252 | a resize keeps the window tiled and consistently linked, with the box stated and every node divided in proportion to what it was |
| `LayoutRoot.Layout.Transfer` | internal/mux/window_resize.go:462-492 | a transfer keeps the window tiled and consistently linked, and moves cells between the facing edges of two children only |
| `HitTest.HitExactlyOne` | internal/mux/layout.go:727-779 | a point is in the root rectangle exactly when exactly one of the pane search and the border search answers |
| `HitTest.LeafFoundUnique` | internal/mux/layout.go:727-749 | the leaf found contains the point and is the only leaf that does |
| `HitTest.LeavesDisjoint` | internal/mux/layout.go:727-749 | two leaves never share a point |
| `HitTest.BorderFoundSeparates` | internal/mux/layout.go:751-779 | the border found is the one-cell gap between two adjacent children of one node of the tree, both facing the point |
| `Navigate.Window.FindDirectional` | internal/mux/window_navigate.go:79-163 | the search returns, of the panes right across the border (or at the far window edge) that share a row or column, the one focused last, the first in tree order if none was, or none if there is no such pane |
| `Navigate.Window.SetActive` | internal/mux/window_navigate.go:9-15 | the pane becomes active with the next activity stamp |
| `Navigate.Window.Focus` | internal/mux/window_navigate.go:31-77 | focus goes to an adjacent candidate if there is one, else to a wrapped one, else stays |
| `Navigate.NeighbourExists` | internal/mux/window_navigate.go:79-163 | a leaf that does not touch an edge of a tiled tree has an adjacent, overlapping leaf on that side |
| `Navigate.DirectFindsUnlessAtEdge` | internal/mux/window_navigate.go:79-163 | without wrapping, a neighbour is found exactly when the active pane does not touch that window edge |
| `Navigate.WrapFindsUnlessSpanning` | internal/mux/window_navigate.go:79-163 | with wrapping, a pane is found exactly when the active pane does not span the window |
| `Navigate.FocusMovesUnlessSpanning` | internal/mux/window_navigate.go:31-163 | focus moves to another pane exactly when the active one does not span the window in that direction |
| `MailIds.FormatParses` | internal/mailbox/store.go:724-740 | reading an allocated identifier gives back its sequence number |
| `MailIds.FormatInjective` | internal/mailbox/store.go:724-728 | identifiers of different numbers differ |
| `MailIds.SortedUnique` | internal/mailbox/store.go:475-487 | there is exactly one ascending list of a set of identifiers, so map order does not show |
| `MailIds.SortedAllUnique` | internal/mailbox/store.go:464-473 | there is exactly one way to sort a list of identifiers, repeats included |
| `MailStore.SendCoherent` | internal/mailbox/store.go:352-434 | a successful send keeps deliveries, threads, replies, identifiers and limits in step, exactly unless the 64-bit sequence number was the last one |
| `MailStore.NextUnused` | internal/mailbox/store.go:724-728 | the next identifier is not in use |
| `MailStore.GrownReplies` | internal/mailbox/store.go:391-420 | after storing, Replies is the inverse of InReplyTo, and a reply has its parent's thread and a later number |
| `MailStore.GrownDeliveries` | internal/mailbox/store.go:421-431 | after storing, a delivery exists exactly for each message and recipient |
| `MailStore.GrownThreads` | internal/mailbox/store.go:415-420 | after storing, each thread lists exactly its messages, once |
| `MailStore.GrownLimits` | internal/mailbox/store.go:689-708 | stored count and bytes stay within the limits |
| `MailStore.UpdateCoherent` | internal/mailbox/store.go:640-687 | read, acknowledge and event-number updates keep all indexes in step |
| `MailStore.RunCoherent` | internal/mailbox/store.go:352-687 | the store after a run is coherent exactly when fewer sends went through than there are sequence numbers |
| `MailStore.LimitedRunCoherent` | internal/mailbox/store.go:689-694 | with a message limit, as by default, every run whatsoever stays coherent |
| `MailStore.RunRemembers` | internal/mailbox/store.go:352-434 | as long as the sequence numbers last, a stored message keeps its content, thread and parent in every later store |
| `MailOutcome.SendPosts` | internal/mailbox/store.go:352-434 | a send that goes through stores every field of the request as given, parts with their defaults and sizes, in the right thread, with one fresh delivery per recipient, and changes nothing else but the parent's replies |
| `MailOutcome.SendDecides` | internal/mailbox/store.go:352-390 | an acceptable request is refused exactly when the store is full, the parent is missing, the thread is not the parent's, or the bytes do not fit; for the reason that comes first |
| `MailOutcome.AcceptedWithin` | internal/mailbox/store.go:352-390 | a request is acceptable exactly if it does not give its body twice and what it would store is well formed and within the limits |
| `MailOutcome.RunWithin` | internal/mailbox/store.go:352-687 | over every run every stored message is well formed and within the limits |
| `MailOutcome.ReadSets` | internal/mailbox/store.go:652-666 | a read sets the time of reading, once, and nothing when peeking; no other delivery changes |
| `MailOutcome.AckSets` | internal/mailbox/store.go:668-687 | an acknowledgement sets time, status and note unless just that is recorded; no other delivery changes |
| `MailOutcome.EventSeqSets` | internal/mailbox/store.go:640-650 | an event number is set on one delivery only |
| `MailDrain.InsertDrainLatest` | internal/mailbox/store.go:590-604 | binary search and bounded insertion give the first entries of the sorted insertion |
| `MailDrain.NewestSorts` | internal/mailbox/store.go:590-611 | insertion in newest-first order is a sort: ordered, and a rearrangement |
| `MailDrain.FirstOfInsert` | internal/mailbox/store.go:590-604 | keeping only the first entries at each insertion loses none of the overall first entries |
| `MailDrain.LatestAreNewest` | internal/mailbox/store.go:543-611 | the latest entries are the first ones of all pending deliveries sorted newest first |
| `MailDrain.CountsAddUp` | internal/mailbox/store.go:543-588 | unread plus unacknowledged minus pending is the length of the unread list |
| `MailDrain.PreimageUnique` | internal/mailbox/store.go:624-631 | the text that is hashed determines identifiers and flags, for identifiers without NUL |
| `MailDrain.FingerprintDetermines` | internal/mailbox/store.go:543-631 | mailboxes with the same hashed text have the same pending messages in the same states |
| `MailDrain.DrainStatus` | internal/mailbox/store.go:543-588 | the loop over sorted deliveries computes counts, pending identifiers, latest entries and hashed text as specified |
| `MailDrain.List` | internal/mailbox/store.go:515-541 | the list shows all deliveries, or those neither read nor acknowledged, by identifier |
| `MailDrain.ReadSettles` | internal/mailbox/store.go:652-666 | a read takes just that delivery off the unread ones; again it changes nothing |
| `MailDrain.AckSettles` | internal/mailbox/store.go:668-687 | an acknowledgement takes just that delivery off the unacknowledged ones; the same again changes nothing |
| `MailOutcome.ListShows` | internal/mailbox/store.go:515-541 | a list shows all deliveries, or just those neither read nor acknowledged, by identifier, with the message's fields |
| `MailOutcome.StatusShows` | internal/mailbox/store.go:543-588 | unread, unacknowledged and pending are counted, pending identifiers listed in order, and as many latest entries shown as there are up to the limit |
| `MailOutcome.NewestFirstMeans` | internal/mailbox/store.go:606-611 | newest first is by time of delivery, greater identifiers first among equals |
| `MailSnapshot.RestoreSave` | internal/mailbox/store.go:219-335 | a snapshot of a coherent store is accepted and loads as the same store (thread lists up to order) with the same next identifier |
| `MailSnapshot.RestoredForever` | internal/mailbox/store.go:219-434 | from a store and its loaded snapshot, every further run of operations leads to the same stores, as long as the sequence numbers last |
| `MailSnapshot.SameAnswers` | internal/mailbox/store.go:447-588 | such stores give the same deliveries, lists, drain summaries and threads |
| `MailSnapshot.NewIdsUnused` | internal/mailbox/store.go:281-335 | if no parsed number is the 64-bit maximum, every identifier a loaded store hands out before numbering wraps is unused |
| `MailSnapshot.NextCollides` | internal/mailbox/store.go:281-335 | after any run from any accepted snapshot the next identifier is in use exactly when numbering has wrapped and reached a loaded number |
| `MailSnapshot.CollisionPossible` | internal/mailbox/store.go:281-335 | a snapshot holding the 64-bit maximum and zero is accepted and collides at once |
| `MailOutcome.RestoreDecides` | internal/mailbox/store.go:281-335 | a snapshot is accepted exactly if identifiers are present and distinct and deliveries are of listed messages, no two of one message to one pane; then what it lists is what is loaded |
| `MailOutcome.ThreadByMessage` | internal/mailbox/store.go:447-473 | a thread asked for by a message holds all its messages, each once, by identifier |
| `MailOutcome.ThreadByTopic` | internal/mailbox/store.go:447-487 | asked for by a topic, all messages on it, by identifier, or none |
| `Mailbox.Store.constructor` | internal/mailbox/store.go:196-210 | a new store is empty and coherent |
| `Mailbox.Store.Send` | internal/mailbox/store.go:352-434 | the method stores under the next identifier or refuses without effect, in the source's order of checks; in a coherent store that identifier is new |
| `Mailbox.Store.StoredByteCount` | internal/mailbox/store.go:696-708 | the loop over messages adds up all stored bytes |
| `Mailbox.Store.Read` | internal/mailbox/store.go:652-666 | a first read that is not a peek is recorded; a coherent store stays so |
| `Mailbox.Store.Ack` | internal/mailbox/store.go:668-687 | a new acknowledgement is recorded; a coherent store stays so |
| `Mailbox.Store.SetLastEventSeq` | internal/mailbox/store.go:640-650 | the event number is recorded; a coherent store stays so |
| `Mailbox.Store.List` | internal/mailbox/store.go:515-541 | the list of a pane's deliveries, or refusal without a pane |
| `Mailbox.Store.DrainStatus` | internal/mailbox/store.go:543-588 | the drain summary, its counts agreeing with the unread list |
| `Mailbox.Store.Thread` | internal/mailbox/store.go:447-509 | a thread by one of its messages, an identifier it lists twice given twice, or all messages on a topic; by identifier |
| `Mailbox.Store.Snapshot` | internal/mailbox/store.go:219-279 | all messages by identifier and all deliveries by pane and identifier |
| `Mailbox.RestoreSnapshot` | internal/mailbox/store.go:281-335 | loading loops accept and reject exactly as specified, with the first fault found; what is accepted can be read and listed |
| `Mailbox.RestoredReadable` | internal/mailbox/store.go:281-335 | in every store loaded from an accepted snapshot deliveries and threads name stored messages, whether or not its indexes agree |
| `Capture.ExtendScrollbackExact` | internal/client/renderer_capture_snapshot.go:83-108 | an accepted extension of the previous scrollback is the emulator's scrollback, across pushes, trims and clears |
| `Capture.ExtendScreenExact` | internal/client/renderer_capture_snapshot.go:134-150 | an accepted extension of the previous screen is the emulator's screen |
| `Capture.TakeExact` | internal/client/renderer_capture_snapshot.go:40-158 | whatever is reused, a capture is what a full rebuild would give, and leaves state good for the next one |
| `Capture.UnchangedIsSame` | internal/client/renderer_capture_snapshot.go:40-68 | a capture that reports no change publishes the screen captured before |
| `Capture.FollowsEvolves` | internal/client/renderer_capture_snapshot.go:69-158 | capture state stays good however the emulator changes |
| `Capture.DrainHarmless` | internal/client/renderer.go:403-416 | draining changed rows at render time is harmless once the capture is current |
| `Capture.DrainEarlyLoses` | internal/client/renderer.go:403-416 | draining rows no capture has seen makes the next capture wrong: the condition is needed |
| `Capture.CapturesAreRebuilds` | internal/client/renderer_capture_snapshot.go:40-158 | over every interleaving of changes, captures and renders on one emulator, each capture published is the rebuild at that moment |
| `CaptureHeap.Append` | internal/client/renderer_capture_snapshot.go:101-106 | appending to a slice writes behind it or into fresh storage, never inside it |
| `CaptureHeap.Extend` | internal/client/renderer_capture_snapshot.go:83-108 | the loop extends the previous slice as specified and leaves everything before its end unchanged |
| `CaptureHeap.RebuildScrollback` | internal/client/renderer_capture_snapshot.go:110-118 | the rebuild loop copies the scrollback into fresh storage |
| `CaptureHeap.ScrollCapture.Capture` | internal/client/renderer_capture_snapshot.go:69-118 | a capture publishes the emulator's scrollback and leaves every slice published before as it was |
| `CaptureHeap.ExtendScreenRows` | internal/client/renderer_capture_snapshot.go:134-150 | rows are copied before touched ones are replaced; a row outside the screen asks for a rebuild |
| `RendererPane.LawfulPossible` | internal/mux/emulator.go:18-75 | the assumptions made about the emulator can be met |
| `RendererPane.BufferedOk` | internal/client/renderer_state.go:183-229 | buffering loses and reorders nothing |
| `RendererPane.WarmedOk` | internal/client/renderer_state.go:209-278 | replay moves the held bytes to the emulator in order; without one they are gone |
| `RendererPane.PublishedOk` | internal/client/renderer_state.go:301-332 | publishing gives the pane a capture equal to a full rebuild and writes nothing |
| `Renderer.RoutedOk` | internal/client/renderer.go:174-198 | output is added behind all earlier output of the pane, in the emulator or held back, unless the pane is visible and can get no emulator |
| `Renderer.RelaidOk` | internal/client/renderer.go:67-170 | over a layout change a pane that stays keeps all its bytes, exactly unless held bytes are dropped |
| `Renderer.DropLoses` | internal/client/renderer.go:117-145 | held bytes of a zoomed pane outside the active layout, still cold, are lost |
| `Renderer.DropPossible` | internal/client/renderer.go:117-145 | a concrete layout and pane for which that happens |
| `Renderer.RelaidGone` | internal/client/renderer.go:99-145 | a pane that leaves keeps no emulator; what is held for it stays, all of it, exactly if it had no emulator and its place is not on screen |
| `RendererPane.ReplayLags` | internal/client/renderer_queries.go:277-291 | a reader's replay leaves the capture as it was: it is still right exactly when the replay changed neither screen nor scrollback |
| `Renderer.LagPossible` | internal/client/renderer_queries.go:277-291 | a concrete layout and hidden pane whose capture is out of date after a replay |
| `Renderer.ReplayedOk` | internal/client/renderer_state.go:244-278 | a replay keeps all bytes and the capture, and leaves a pane with an emulator and nothing held as it is; it has an emulator afterwards exactly if it had one or a size for it is known |
| `Renderer.StartedBegins` | internal/client/renderer_state.go:231-257 | a cold pane's emulator has the size recorded with what is held for it, else that of its cell without the status row, else that of the screen; without any of these it gets none |
| `Renderer.ReplayedCaughtUp` | internal/client/renderer_queries.go:277-291 | a replay leaves the emulator as if every held chunk had been written to it in order |
| `Renderer.RoutedHolds` | internal/client/renderer_state.go:183-229 | output for a cold pane out of sight is held behind what is held already, with the size recorded first kept, or else the layout's now |
| `Renderer.LazyIsEager` | internal/client/renderer_state.go:183-278 | lazy replay is eager feeding: the emulator replayed is what one of the size known at the first chunk would be, fed each chunk as it came |
| `Renderer.EntersCold` | internal/client/renderer.go:115-145 | a cold pane that enters the active layout starts at its recorded size, is fed what was held if it is on screen, and only then resized |
| `Renderer.FitsShown` | internal/client/renderer.go:778-804 | an emulator that fits has the size of the screen when zoomed, else that of its cell without the status row |
| `RendererPane.FedUnique` | internal/client/renderer_state.go:209-214 | what comes of feeding chunks in order is determined |
| `Renderer.NotedAllGet` | internal/client/renderer.go:244-309 | a batch delivers to each pane just what it holds for it, in order |
| `Renderer.Renderer.constructor` | internal/client/renderer.go:36-48 | a new renderer is in good order |
| `Renderer.Renderer.HandlePaneOutput` | internal/client/renderer.go:174-198 | output goes to the pane's emulator, on screen a new one of the right size, behind what is held, and the capture is renewed and equals a rebuild; else it is held with the right size, or dropped without one on screen; other panes stay as they were; accepted bytes are conserved |
| `Renderer.Renderer.HandlePaneOutputBatch` | internal/client/renderer.go:244-309 | the same for a batch: every pane written to is captured at the end, and equals a rebuild |
| `Renderer.Renderer.HandleLayout` | internal/client/renderer.go:67-170 | every emulator gets the size of its cell or the screen and a capture equal to a rebuild; bytes are conserved if a zoomed pane is in the active layout, else lost exactly as stated; of a pane that leaves just `Left` stays; cold panes enter at their recorded size or are left alone |
| `Renderer.Renderer.Resize` | internal/client/renderer.go:312-332 | a client resize gives every emulator its new size, leaves no capture out of date and conserves bytes |
| `Renderer.Renderer.DrainVisiblePaneScreenChanges` | internal/client/renderer.go:403-416 | render-time draining keeps the guarantees |
| `Renderer.Renderer.Replay` | internal/client/renderer_queries.go:277-291 | a known pane gets an emulator exactly when a size for it is known, of the size recorded with its held output or else the layout's, fed every held chunk in order; the capture stays, and is out of date exactly if an emulator was started or fed; else nothing changes |
| `Renderer.Renderer.CapturePane` | internal/client/renderer.go:587-600 | the same, and the pane's capture is renewed and equals a rebuild |
| `Renderer.Renderer.WarmPaneOutput` | internal/client/renderer_state.go:263-278 | the replay loop writes the held chunks in order, or drops them without an emulator |
| `Renderer.Renderer.EnsurePaneEmulator` | internal/client/renderer_state.go:244-261 | a known pane without an emulator gets one of the size recorded with its held output, or else of its cell or the screen |
| `Renderer.Renderer.PublishPaneCaptures` | internal/client/renderer_state.go:306-332 | exactly the given panes with emulators are captured |
| `Renderer.Renderer.RefreshPaneCaptures` | internal/client/renderer_state.go:286-299 | captures of gone panes are dropped and all others renewed |
| `Renderer.Renderer.PlaceEmulators` | internal/client/renderer.go:115-139 | emulators are kept, created for panes entering the active layout, and closed with what was held for them |
| `Renderer.Renderer.ResizeSnapshotEmulators` | internal/client/renderer.go:778-804 | emulators take the size of their cell, a zoomed one that of the screen |
| `EventLoop.StepInv` | internal/eventloop/loop.go:85-118 | every step of loop, handler, producers and environment keeps the handshake, queue order, channel slots and replies right |
| `EventLoop.StartsInQueueOrder` | internal/eventloop/loop.go:85-118 | in every state of every run commands have started in queue order without repetition, every command taken was started, is in hand, or was skipped because it is blank or its context had ended, and at most one is being handled |
| `EventLoop.OnlyDeadSkipped` | internal/eventloop/loop.go:85-155 | over every run only blank commands and those whose context has ended are skipped, no blank one is started, and a started one is handled, or about to be, unless its context ended |
| `EventLoop.LiveServed` | internal/eventloop/loop.go:85-328 | a run at rest without a stop, a timeout or a refusal of the hook has handled every enqueued command whose context is live and answered every such query |
| `EventLoop.RunOutcomes` | internal/eventloop/loop.go:239-328 | over every run producers get the context's error only if their context ended, and the stopped error only after a stop or the loop's end |
| `EventLoop.RunAnswers` | internal/eventloop/loop.go:262-328 | over every run only queries are replied to |
| `EventLoop.BegunLive` | internal/eventloop/loop.go:140-155 | over every run a command begins to be handled only while its context is live |
| `EventLoop.NoStartAfterTimeout` | internal/eventloop/loop.go:163-179 | after a timeout no later state has a further start; at most the command being looked at is still handled |
| `EventLoop.HandlerNeverBlocks` | internal/eventloop/loop.go:140-155 | the handler always has a step unless it waits for a request: entry, completion and reply channels are never full |
| `EventLoop.LoopNeverStuck` | internal/eventloop/loop.go:85-118 | unless the loop has ended or waits for work, loop or handler has a step |
| `EventLoop.GiveUpHonest` | internal/eventloop/loop.go:296-328 | a query gives up only after the loop is done, with no reply waiting |
| `EventLoop.StoppedErrorHonest` | internal/eventloop/loop.go:239-328 | over every run: the stopped error of an enqueued query means the loop was done, and the command is never handled unless the watchdog fired or its context ended |
| `EventLoop.RunsEnd` | internal/eventloop/loop.go:85-328 | every run has a bounded number of steps of producers, loop and handler; once stopped and at rest the loop has ended, the handler is gone or left behind by the watchdog in a command, and every producer has returned; what was handled by then is `EventLoop.LiveServed` |
| `PaneActor.StepInv` | internal/mux/pane_actor.go:17-84 | every step of callers, stoppers and actor loop keeps the protocol invariant |
| `PaneActor.RunsOnceInTurn` | internal/mux/pane_actor.go:17-84 | in every state of every run a closure has run at most once, exactly once when its caller returns, and no two at once before the loop ends |
| `PaneActor.Progress` | internal/mux/pane_actor.go:17-84 | while any goroutine has work left, some step is possible: nobody is stranded by a stop |
| `PaneActor.RunsEnd` | internal/mux/pane_actor.go:17-84 | every run is bounded, and a run that cannot continue has every caller returned and every closure run exactly once |
| `Osc52.FindEnd` | internal/mux/osc52.go:78-95 | the earliest terminator after the prefix, BEL or ESC backslash |
| `Osc52.OSC52Scanner.Scan` | internal/mux/osc52.go:24-73 | the scanning loop computes the specified sequences and carried bytes |
| `Osc52.ScanIsFeed` | internal/mux/osc52.go:24-73 | a scan the guard lets pass is the byte-at-a-time machine over the same bytes |
| `Osc52.GuardExact` | internal/mux/osc52.go:44-49 | the size guard changes what a scan yields exactly when it trips |
| `Osc52.CutsDoNotMatter` | internal/mux/osc52.go:24-73 | however a stream is cut into reads, the scanner finds what one unguarded scan of the whole finds, exactly when no read trips the guard |
| `Osc52.CutsWithinLimit` | internal/mux/osc52.go:24-73 | in particular when carried bytes plus chunk never exceed the limit |
| `Osc52.BigReadLoses` | internal/mux/osc52.go:44-49 | a short complete sequence is lost when one read brings more than the limit after it |
| `Osc52.CarryBounded` | internal/mux/osc52.go:18-19 | no more than the limit is ever carried |
| `Osc52.SequenceFound` | internal/mux/osc52.go:24-95 | a sequence after plain output is reported whatever follows, and scanning goes on after it |
| `Mouse.Parser.Feed` | internal/mouse/mouse.go:102-198 | the byte-at-a-time state machine in place, with its limits and its report handling |
| `Mouse.Parser.FlushPending` | internal/mouse/mouse.go:203-208 | only a lone ESC is given up at the end of a read |
| `Mouse.Parser.Flush` | internal/mouse/mouse.go:233-242 | the buffer and the extra byte are returned, NUL excepted, and the parser is reset |
| `Mouse.SplitSemicolons` | internal/mouse/mouse.go:301-312 | the loop splits at semicolons |
| `Mouse.SplitJoin` | internal/mouse/mouse.go:301-312 | splitting undoes joining |
| `Mouse.RunSpells` | internal/mouse/mouse.go:102-242 | bytes handed back, reports, malformed reports and the buffered tail spell the input less the swallowed NULs |
| `Mouse.EveryByteAccounted` | internal/mouse/mouse.go:102-242 | they spell the input exactly when no NUL arrives while an escape, a bracket or a report is pending |
| `Mouse.NulFreeAccounted` | internal/mouse/mouse.go:102-242 | NUL-free input is always accounted for in full |
| `Mouse.EscNulLost` | internal/mouse/mouse.go:118-126 | ESC NUL loses the NUL |
| `Mouse.PiecesAreRight` | internal/mouse/mouse.go:102-198 | reports have the shape of one and parameters that parse to the event given; bytes handed back never are a report |
| `Mouse.EventsChain` | internal/mouse/mouse.go:167-181 | each event starts where the one before it was |
| `Mouse.ReportRecognised` | internal/mouse/mouse.go:102-198 | anything shaped like a report, read from the ground state, comes out as exactly one event, or is dropped as malformed |
| `Mouse.ReportInStream` | internal/mouse/mouse.go:102-198 | a report inside a stream is recognised, as an event or as malformed, exactly when the parser is in the ground state at its ESC; otherwise no part of it is |
| `Mouse.EscHidesReport` | internal/mouse/mouse.go:118-126 | a report right behind a lone ESC yields no event |
| `Mouse.ControlWhole` | internal/mouse/mouse.go:118-165 | a control sequence of up to 65 bytes that is no mouse report comes back whole, in one piece |
| `Mouse.EncodeParses` | internal/mouse/mouse.go:245-298 | button code and coordinates written as a report come back as the event they denote, column and row counted from 0 |
| `Mouse.ReportRead` | internal/mouse/mouse.go:102-298 | a report of any button, modifiers and motion at any column and row is read as exactly one event with those, at that place counted from 0, coming from where the last event was |
| `Mouse.PressAtTenFive` | internal/mouse/mouse.go:245-298 | the bytes of a press of button 0 at column 10, row 5 |
| `Mouse.AtoiSigned` | internal/mouse/mouse.go:245-258 | a signed number is read with its sign |
| `Mouse.CodeFields` | internal/mouse/mouse.go:259-295 | button, modifiers and motion are independent fields of the button code |
| `Dispatch.FlushBufferedBytes` | internal/client/attach.go:254-261 | pending bytes go out in one call, or not at all if there are none |
| `Dispatch.DispatchMouse` | internal/client/attach.go:280-295 | an event goes out after a held motion, or a motion is merged |
| `Dispatch.DispatchQueuedMouseInputChunks` | internal/client/attach.go:263-326 | everything parsed is delivered in order, bytes gathered and motions merged; on exit only the report that prompted the last call and the unread rest are dropped |
| `Dispatch.JoiningPreserves` | internal/client/attach.go:263-326 | whatever is joined, bytes and clicks arrive in order with the pointer at the same place, total motion is the same, and each event starts where the one before ended |
| `Dispatch.DeliveryFaithful` | internal/client/attach.go:263-326 | the same for what the parser finds in any input |
| `Rotation.RotatingFileWriter.constructor` | internal/auditlog/rotation.go:155-181 | opening appends to the log, or rotates at once if it is full; the limits are normalised |
| `Rotation.RotatingFileWriter.Write` | internal/auditlog/rotation.go:183-221 | every byte reported written is in the log in order, all of it unless the writer was closed or a file step failed or wrote nothing; the disk keeps a suffix of all the log ever held, at least the latest min(written, backups * limit) bytes, and the active file stays within the limit |
| `Rotation.RotatingFileWriter.Rotate` | internal/auditlog/rotation.go:235-271 | rotation shifts every backup up by one, drops only the oldest and starts an empty file; a failing step leaves the disk in order |
| `Rotation.RotatingFileWriter.ShiftBackups` | internal/auditlog/rotation.go:247-262 | the rename loop moves a gap down from the oldest backup to the active file |
| `Rotation.RotatingFileWriter.Close` | internal/auditlog/rotation.go:223-233 | closing leaves the disk alone |
| `Rotation.GapStream` | internal/auditlog/rotation.go:247-262 | moving files up never reorders the stream and loses at most the oldest backup |
| `Rotation.FullStream` | internal/auditlog/rotation.go:183-221 | full backups add up to what must be retained |

## Left out

- `Focus("next")`, zoom and the ultra grid, the front-loaded sizes and the `...Needed` tests of layout.go, FindBorderNear, and the Window wrappers around the layout: they would only add easy members or need code that is not part of this model. ResizeBorder clamps by the pane minimum and not by subtree minimums, so it is not among the operations of a run.
- Overflow of Go's int in size arithmetic, and of the global activity counter: both are unbounded here.
- LayoutRoot.Layout.Split and LayoutRoot.Layout.Close take the path to the cell as a ghost argument; finding the cell of a pane is not part of them.
- Navigate.Window.Focus covers the four directions; a Window's size is taken to be that of its root.
- Which of several request checks of a send failed is not told apart beyond one reason (`BadRequest`); the order against the store's own checks is kept.
- Default limits put in for limits given as zero when a mailbox store is made; limits are taken as they apply.
- Trimming of the thread reference, cloning of messages and the unused maximum event number of the mailbox store; sha256 itself (the text that is hashed is modelled).
- Wrap-around of the 64-bit count of pushed scrollback lines, cursor and palette fields of a capture, which are copied as they are, and the panic on capturing a row of negative width.
- Several cells with the same pane in one layout, and what a batch reports about cursors and changes; lookups by name and rendering of captures.
- The terminal emulator, the compositor and rescaling of the client's layout in the renderer; the layout engine's resize is modelled on its own.
- The inline loop without a watchdog, the capacity of the command queue (a full queue only delays a producer), and recovery from panics in commands.
- paneActorValue, which runs the same protocol as withActor; re-entrant and panicking closures.
- InputLooksLikeMouse and the rest of attach.go; button names.
- Installing the rotating log as the process's output, file descriptors and paths; a second rotation inside one turn of the write loop, which its own condition rules out.
- What readers of a replayed pane show of it.
- Sockets, processes, terminals, configuration, copy mode, prediction, checkpoints and the command line.
