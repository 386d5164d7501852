# Verified models of the MasterBandit terminal

This project models the parts of the MasterBandit terminal emulator whose correctness
hangs on invariants over whole runs, on exact arithmetic, or on the interleaving of
threads, and proves what those parts are there to guarantee. It is written in Dafny;
`dafny verify dfyconfig.toml` checks all of it.

**The layout tree** (`Forest`, `Ancestry`, `TreeEdits`, `TreeReshape`, `TreeRuns`,
`LayoutTree`, with `TreeLaws`, `CollapseLaws`, `EdgeSearch`, `LeafOrder`, `MethodFacts`,
`DestroyFacts`, `TreeWalks`, `Preconditions`, `Zooms`, `TreeWitnesses`). The node store is a map from identities to nodes with two-way
parent/child links. Every public mutator is an operation of a state machine; a run of any
operations keeps the forest invariant, and the methods of the class `LayoutTree`, which
change the store step by step as the source does, each take exactly such a step. What each step does is stated
once more from outside, in terms of the tree before and after: child lists, links, what a
Stack shows, what is refused (`TreeLaws`, `CollapseLaws`), which edge a resize finds
(`EdgeSearch`), and which leaves a traversal lists in which order (`LeafOrder`). Where a
caller can break something, the exact condition is given: for cycles in `Preconditions`,
for zoom targets in `Zooms`.

**Layout** (`SpaceDivision`, `Layout`, `LayoutArea`, `LayoutFacts`, `LeafSwap`,
`EdgeShares`, `EdgeResize`, `EdgeRuns`, `SplitLayout`, `SplitClose`, `PaneActions`). Space
division in whole pixels, the tiling of the window by the visible leaves, what a swap, a
resize, a split, a split followed by a close, and a rotation of panes do to the layout and to the order of
the leaves, and why the revision counter is a sound key for cached layouts.

**The glyph atlas** (`GlyphAtlas`, `AtlasCompaction`, `FontAtlas`). Packing of 16-bit
outlines two virtual texels to a storage texel, and the compaction that evicts the glyphs
used longest ago and moves the others without changing what the shader reads.

**Main thread and render thread** (`Graveyard`, `FrameProtocol`, `FrameLaws`,
`RequestHandover`). Deferred destruction under every interleaving of staging, rebuild,
snapshot, frame end, sweep and parse: what is never freed, and what is freed when;
hand-over of one-shot requests exactly once.

**Smaller protocols.** Tracked desktop notifications (`Notifications`, and
`NotificationLaws` for what is on screen and which callbacks fire), the worker pool's
queue and batch barrier (`WorkerPool`, `PoolLaws`), multi-key bindings (`KeySequence`), the tile allocator of
colour glyphs (`ColrAtlas`) and the base64 codec (`Base64`). `Arithmetic` holds two facts
about quotients.

## Where the code and its comments part

The models follow the code. These are the places where that shows.

- A node may be attached below itself: only the child's parent link is looked at
  (src/LayoutTree.cpp:148, :199, :673). `Preconditions.AppendKeepsInvIff`,
  `ReplaceKeepsInvIff` and `SplitKeepsInvIff` give the exact condition, which `contains`
  could check first; `TreeWitnesses.CycleReachable` is a tree in which it fails.
- `zoomTarget` is checked when set and cleared on destroy only, so removals, replacements
  and swaps can put it outside its Stack, even above it. `Zooms.RunKeepsLayoutableIff` says
  exactly when a run keeps all zooms inside; `Zooms.LoopReachable` gives a reachable tree
  whose layout never ends. Layout itself is defined, and the methods verified, wherever it
  ends; the tiling is stated for trees whose zooms lie inside their Stacks.
- The tree's root may get a parent later, because `appendChild` does not look at the
  root. A swap of the leaf the layout starts at then changes nothing, and neither does a
  swap of two children of one Stack. Otherwise exactly the two entries change places, but
  a leaf that a visible Stack zooms on goes on being shown there; if the other leaf was
  seen and is not so held, it is no longer shown, and the held one is drawn at the later of
  the two places (`LeafSwap.SwapExchangesLayout`, `TreeWitnesses.LeafLostReachable`).
- A resize writes the pixels of two children as their weights and leaves the weights of
  the others as they are (src/LayoutTree.cpp:752-758), so an accepted resize need not move
  the edge by what was asked: with three panes of 100 pixels and stretch 1, growing the
  first by 10 makes it 164 wide and the third 2 (`EdgeRuns.ResizeOvershoots`).
  `EdgeResize.ResizeMovesEdgeIff` gives the exact condition, `EdgeGivesInNumbers` spells it
  out without size limits, and `ResizeMovesEdge` covers the case in which the other
  children weigh what they have. A target that is the last child shrinks by the asked
  pixels, although src/LayoutTree.h:205-212 says that its side grows.
- A split followed by a close resets the slot of the split pane to stretch 1 and no
  limits: the round trip is exact if and only if the slot was that before.
- Leftover pixels go to the last stretchable child even beyond its maximum.
- Neither the alignment padding nor the second sentinel texel is counted against the
  target of a compaction. `AtlasCompaction.UsedIs` gives the used mark exactly, and
  `UsedWithinTargetIff` says when it meets the target. An outline whose
  glyph is found later to have a colour graph is neither moved nor erased, and its words
  are not copied: it shares storage with a kept glyph if and only if it starts below what
  the kept glyphs need, and is blank past that (`AtlasCompaction.ColourOutlineSharedIff`;
  `FontAtlases.LateColourRun` is a run that comes to it).
- Requests recorded while the shadow state is rebuilt are wiped and have no effect at all.
  Nothing is lost over a run if and only if no rebuild recorded anything but flags that
  were raised outside a rebuild too.
- At shutdown the wait before draining the deferred destructions looks at terminals in
  the tabs only, although its comment speaks of those already staged
  (src/platform/PlatformDawn.cpp:511-540). `FrameProtocol.DrainSafeIff` states when the
  drain is safe, and `UnsafeDrainReachable` is a run of four steps after which it is not: a
  pane is closed while it is being parsed, and no pane that is left is parsed.
- A reply erases the id its call replaced without asking whose it is by then
  (src/platform/PlatformUtils_Linux.cpp:620-622). `Notifications.ReplyInverseIff` and
  `RunInverseIff` say exactly when the daemon-id map stays right, and
  `ReissuedIdLosesMapping` shows a run that loses a live mapping.
- An id that a notification loses when its action is invoked is not named by the next send
  of its key (src/platform/PlatformUtils_Linux.cpp:222-277). A daemon that leaves such a
  notification on screen then shows two of one key: `NotificationLaws.OneShownIff` says
  over runs exactly when that happens, `ActedShownTwice` is a run.
- An entry whose close callback is set although no close response was asked for stays in
  the bookkeeping after an action; `NotificationLaws.EntriesAlive` lists what keeps entries.
- Growing a colour-glyph bucket changes the stride of its slots: in a bucket that has not
  grown, acquiring a tile makes tiles overlap if and only if every slot is handed out and
  every tile is of the current generation (`ColrAtlases.OverlapIffFull`). Every bucket
  comes to that when one glyph more than it has slots is drawn in one generation, as in the
  runs of `OverlapReachable`.
- A task of the worker pool that dispatches a batch itself blocks its worker. Workers are
  stuck if and only if each that has not left waits so (`WorkerPool.StuckIff`), and then
  they stay stuck whatever follows (`StuckForGood`).
- A key that aborts a sequence is sent on without being tried as the start of another, and
  a binding that extends another one never fires.

## Model

| member | source | states |
|---|---|---|
| Forest.WithoutOne | src/LayoutTree.cpp:170-173 | erasing the slot found by id filters exactly that id out of a list without twins |
| Ancestry.SiblingsDisjoint | src/LayoutTree.cpp:101-112 | no node has two siblings among its ancestors |
| Ancestry.AcyclicByLift | src/LayoutTree.cpp:101-112 | parent chains stay finite when the changed links all lead out of a set closed under taking children |
| TreeEdits.CreateKeepsInv | src/LayoutTree.cpp:28-66 | a blank node with a fresh identity keeps the forest invariant |
| TreeEdits.AppendKeepsInv | src/LayoutTree.cpp:130-162 | appending a root that does not contain the parent keeps the invariant, the Stack's active child included |
| TreeEdits.RemoveKeepsInv | src/LayoutTree.cpp:164-184 | removing a child keeps the invariant, detaches exactly that child and retargets the active child |
| TreeEdits.ReplaceKeepsInv | src/LayoutTree.cpp:186-216 | replacing a child in its slot keeps the invariant |
| TreeEdits.RelocatedSameIds | src/LayoutTree.cpp:218-248 | moving a child past others loses and doubles no child |
| TreeEdits.RotatedAt | src/LayoutTree.cpp:250-273 | rotation takes the child at place i to place (i + delta) modulo the count, for negative deltas too |
| TreeEdits.RotatedSameIds | src/LayoutTree.cpp:250-273 | rotation loses and doubles no child |
| TreeEdits.SwapKeepsInv | src/LayoutTree.cpp:275-319 | swapping two nodes neither of which contains the other keeps the invariant |
| TreeEdits.PruneKeepsInv | src/LayoutTree.cpp:460-495 | erasing a set of nodes closed under taking children keeps the invariant |
| TreeLaws.AppendPuts | src/LayoutTree.cpp:130-162 | the child goes to the end of the list, an empty Stack makes it the active one, and nothing else changes |
| TreeLaws.RemoveTakes | src/LayoutTree.cpp:164-184 | the child leaves the list and hangs loose, a Stack that had it active falls back to its first remaining child, and nothing else changes |
| TreeLaws.ReplacePuts | src/LayoutTree.cpp:186-216 | the new child takes the very place of the old one, active or not, and the old one hangs loose |
| TreeLaws.MoveShifts | src/LayoutTree.cpp:218-248 | the child ends the asked number of places on and the others keep their order |
| TreeLaws.RotateTurns | src/LayoutTree.cpp:250-273 | every child ends the asked number of places on, around the end |
| TreeLaws.SwapAccepted | src/LayoutTree.cpp:275-292 | a swap is accepted exactly for two nodes that hang somewhere, neither below the other |
| TreeLaws.SlotSet | src/LayoutTree.cpp:420-458 | exactly one hint of one child is set, a negative value as 0 |
| TreeLaws.BarBound | src/LayoutTree.cpp:370-396 | a tab bar is bound to the Stack asked for, or to none |
| TreeLaws.CreatedOrNamed | src/LayoutTree.cpp:28-66 | a new node hangs nowhere and has no caption; a caption changes nothing else |
| TreeLaws.RootFollows | src/LayoutTree.cpp:72-87 | the root becomes the node asked for if that hangs nowhere, and otherwise stays as long as it is there |
| TreeLaws.DestroyLeaves | src/LayoutTree.cpp:460-495 | survivors keep everything but the destroyed nodes in their lists and what named one of them |
| TreeLaws.ActiveShows | src/LayoutTree.cpp:349-368 | the child becomes the active one and is shown in the place of the Stack, unless the Stack is zoomed; nothing outside the Stack moves |
| TreeLaws.ZoomShowsTarget | src/LayoutTree.cpp:321-347 | the Stack shows its zoom target in its place, and its active child when the zoom ends; nothing outside the Stack moves |
| TreeLaws.RemovalAccepted | src/LayoutTree.cpp:460-467 | destroying takes any node there is; collapsing starts exactly at a hanging Container with one child that is not the one to stop at |
| TreeReshape.SplitKeepsInv | src/LayoutTree.cpp:665-704 | a split succeeds, keeps the invariant, and yields the forest described node by node; that the wrapper takes over the weights of the pane is `SplitLayout.SplitKeepsPlaces` |
| SplitLayout.SplitKeepsPlaces | src/LayoutTree.cpp:677-692 | the parent keeps its places: stretch, minimum, maximum and pinned cells of every place are what they were, with the wrapper standing where the pane stood, and a Stack that had it active has the wrapper active |
| SplitLayout.SplitKeepsLayout | src/LayoutTree.cpp:665-704 | for every start and window: where the layout starts inside one of the two panes, or a visible Stack zooms on the split one, nothing changes; otherwise the wrapper has the very rectangle of the pane and every node outside keeps its entry, present or absent |
| SplitLayout.SplitSharesPlace | src/LayoutTree.cpp:694-703 | the two panes share the wrapper's rectangle in halves along the asked direction, in the asked order, the second taking the odd pixel |
| TreeLaws.SplitAccepted | src/LayoutTree.cpp:665-676 | a split is accepted exactly for a node that hangs somewhere and a new one that does not |
| Preconditions.SplitKeepsInvIff | src/LayoutTree.cpp:665-704 | splitting keeps the invariant if and only if the incoming node does not contain the parent of the split one |
| TreeReshape.CollapseKeepsInv | src/LayoutTree.cpp:805-827 | collapsing one-child Containers keeps the invariant and ends |
| CollapseLaws.CollapsedIff | src/LayoutTree.cpp:805-827 | collapsing removes exactly the chain of one-child Containers above its start, up to the first node that has more children, is no Container, hangs nowhere or is the one to stop at |
| CollapseLaws.CollapseKeepsLeaves | src/LayoutTree.cpp:805-827 | the Terminals below every node that stays are the same, in the same order, and so are the active ones |
| Preconditions.AppendKeepsInvIff | src/LayoutTree.cpp:130-162 | appending keeps the invariant if and only if the child does not contain the parent |
| TreeWitnesses.CycleReachable | src/LayoutTree.cpp:130-162 | a reachable tree in which a node is accepted as its own child, which breaks the invariant |
| Preconditions.ReplaceKeepsInvIff | src/LayoutTree.cpp:186-216 | replacing keeps the invariant if and only if the new child does not contain the parent |
| Zooms.RemoveKeepsZoomsIff | src/LayoutTree.cpp:164-184 | removing a child keeps all zoom targets inside their Stacks if and only if no Stack outside the removed subtree zooms into it |
| Zooms.ReplaceKeepsZoomsIff | src/LayoutTree.cpp:186-216 | replacing a child keeps them inside if and only if no Stack outside the replaced subtree zooms into it |
| Zooms.SwapKeepsZoomsIff | src/LayoutTree.cpp:275-319 | swapping keeps them inside if and only if each Stack that zooms below one of the two nodes from outside it holds the other as well |
| Zooms.LeafSwapKeepsZoomsIff | src/LayoutTree.cpp:275-319 | for two Terminals that is: every Stack that zooms on one of them holds both |
| Zooms.CollapseZooms | src/LayoutTree.cpp:805-827 | collapsing keeps all zoom targets inside their Stacks |
| Zooms.AcceptedKeepsZoomsIff | src/LayoutTree.cpp:28-495 | of all accepted operations only a removal, a replacement and a swap can move a zoom outside its Stack, each exactly when it fails its condition |
| Zooms.RunKeepsLayoutableIff | src/LayoutTree.cpp:28-495 | over every run all zooms stay inside their Stacks throughout if and only if every accepted removal, replacement and swap meets its condition |
| Zooms.LoopReachable | src/LayoutTree.cpp:130-184 | a Stack zoomed onto its child, emptied, and appended below that child is reachable, and its layout does not end in any window |
| TreeRuns.StepKeepsInv | src/LayoutTree.cpp:28-495 | every public operation, accepted or refused, keeps the forest invariant and a live root |
| TreeRuns.RunKeepsInv | src/LayoutTree.cpp:28-495 | the invariant holds after every run of operations |
| TreeRuns.DestroyLeavesNothing | src/LayoutTree.cpp:460-495 | after destroyNode exactly the subtree is gone, and no survivor names a destroyed node as parent, child, active child or zoom target |
| TreeRuns.RevisionTellsGeometry | src/LayoutTree.h:228-244 | in any run the revision never falls, and equal revisions mean that old nodes kept links and data and new ones hang nowhere |
| TreeRuns.RevisionKeysLayout | src/LayoutTree.h:235-244 | in any run, equal revisions at two moments mean equal layouts, for every window and cell size for which the layout ends |
| TreeRuns.QuietKeepsLayout | src/LayoutTree.cpp:72-458 | an operation that is refused, creates, labels or consumes the dirty flag leaves every layout as it was |
| SpaceDivision.DivisionFits | src/LayoutTree.cpp:521-590 | no child gets a negative size, the sizes never exceed the extent, and fill it if and only if a child is flexible or the wishes reach it |
| SpaceDivision.MaximumExceededIff | src/LayoutTree.cpp:556-590 | a child exceeds its maximum, or a larger minimum, if and only if it is the last flexible one and its wish with all leftover pixels does, which is then its size |
| SpaceDivision.MinimumHoldsIff | src/LayoutTree.cpp:546-578 | a flexible child gets at least its minimum if and only if there is room for that behind the children before it, whatever its share |
| SpaceDivision.SizeIs | src/LayoutTree.cpp:540-590 | the size of every child that the extent does not cut off and that does not take the leftover: the pinned pixels, or its share of what is not pinned, rounded down, held between minimum and maximum |
| SpaceDivision.DivideSpace | src/LayoutTree.cpp:521-590 | the loops compute the specified division, whose sizes `SizeIs`, `MinimumHoldsIff`, `MaximumExceededIff` and `DivisionFits` give |
| SpaceDivision.TakeBack | src/LayoutTree.cpp:564-578 | shrinking from the end backward is cutting the wishes off at the extent |
| SpaceDivision.GiveLeftover | src/LayoutTree.cpp:579-590 | the loop gives the leftover to the last flexible child, if there is one |
| Layout.ShownBelow | src/LayoutTree.cpp:603-612 | what a Stack shows lies strictly below it |
| TreeLaws.HintsSeen | src/LayoutTree.cpp:510-601 | in a visible Container, as seen in the layout: a pinned child that ends before the Container does is its pinned cells long, in cell widths along a row and heights along a column, and any other child for which there is room has its minimum |
| Layout.VisibleLeavesTile | src/LayoutTree.cpp:501-631 | leaf rectangles lie in the window and share no pixel, and when every visible Container has a flexible child and every visible Stack shows one, every pixel of the window belongs to a leaf |
| LayoutArea.AreasAddUp | src/LayoutTree.cpp:501-631 | under the same condition the areas of the visible leaves add up to the window's |
| Layout.LayoutableEnds | src/LayoutTree.cpp:501-616 | with the zooms inside their Stacks the recursion ends from every node, in every rectangle |
| LayoutFacts.RectsSame | src/LayoutTree.cpp:501-616 | the layout of a subtree depends on the data of the nodes in it alone |
| LayoutFacts.RectsOutside | src/LayoutTree.cpp:501-616 | a change inside one node moves nothing outside its subtree |
| LeafSwap.SwapExchangesLayout | src/LayoutTree.cpp:275-319 | after swapping any two Terminals the layout ends, and is unchanged when it starts at one of them or both stand in one Stack; otherwise exactly their two entries, present or absent, change places, but for a Terminal that a visible Stack zooms on: held both stay, and one held alone takes the later place while the other is gone |
| LeafSwap.BeforeIff | src/LayoutTree.cpp:592-601 | which of two nodes layout comes to first is told by the one node that has them below different children |
| TreeWitnesses.LeafLostReachable | src/LayoutTree.cpp:275-319 | a reachable tree in which an accepted swap takes a visible leaf out of sight, the other being zoomed on by a visible Stack |
| LeafSwap.BehindZoom | src/LayoutTree.cpp:603-612 | behind a visible Stack that zooms on a leaf no other leaf is shown |
| LeafSwap.SwapBehindZooms | src/LayoutTree.cpp:275-319 | where every Stack that zooms on one of the two holds both, the layout is unchanged if such a Stack is visible and otherwise the two entries change places |
| LeafSwap.SwapExchangesLeaves | src/LayoutTree.cpp:766-787 | swapping two Terminals exchanges exactly their two places in the traversal of the leaves |
| LeafSwap.LeavesBelow | src/LayoutTree.cpp:766-787 | every listed leaf is a Terminal below the start |
| LeafSwap.LeavesDistinct | src/LayoutTree.cpp:766-787 | no leaf is listed twice |
| LeafOrder.LeavesAll | src/LayoutTree.cpp:766-787 | the traversal lists exactly the Terminals below its start |
| LeafOrder.LeavesShown | src/LayoutTree.cpp:766-787 | restricted to what is active it lists exactly those below the active child of every Stack on the way |
| LeafOrder.LeavesOrder | src/LayoutTree.cpp:766-787 | the list is in the order in which layout comes to the Terminals |
| EdgeResize.ResizeKeepsInv | src/LayoutTree.cpp:706-764 | a resize keeps the invariant |
| EdgeSearch.EdgeIff | src/LayoutTree.cpp:715-741 | the search finds an edge if and only if there is a nearest Container along the axis with another child, namely between the child that holds the target and the next one, or the one before if it is the last |
| TreeLaws.ResizeAccepted | src/LayoutTree.cpp:706-764 | a resize is accepted exactly if there is such an edge and both children at it are visible |
| EdgeResize.ResizeMovesEdgeIff | src/LayoutTree.cpp:706-764 | for any number of children and any size limits, an accepted resize moves the shared edge by exactly the asked pixels, both children visible, if and only if both are asked to take a pixel at least and the division of the new weights grants them those pixels behind the children before; nothing outside the Container moves |
| EdgeResize.EdgeGivesInNumbers | src/LayoutTree.cpp:521-590 | without size limits that is: both asked extents are at least 1, the children before keep their place, the weights do not exceed the room and fall short of it by less than makes up a pixel for either of the two, and nothing is left over that the second would take |
| EdgeResize.SiblingsGive | src/LayoutTree.cpp:743-759 | where the other children weigh together what they have, before the edge and behind it, and all fill the Container, it is: both asked extents are at least 1; every child then gets its weight in pixels |
| EdgeResize.ResizeMovesEdge | src/LayoutTree.cpp:706-764 | in that case, for any number of children, an accepted resize moves the edge exactly if and only if both asked extents are at least 1, and if each other child weighs what it has, none of them moves |
| EdgeResize.ResizeMovesTwo | src/LayoutTree.cpp:706-764 | with two children and no limits it moves the edge exactly if and only if they fill the Container and both asked extents are at least 1 |
| EdgeShares.WeightsArePixels | src/LayoutTree.cpp:521-590 | where the weights of all children add up to the extent, each gets its weight in pixels |
| EdgeShares.PairIff | src/LayoutTree.cpp:556-590 | two neighbours get given pixels behind given ones if and only if the wishes, what does not fit and the leftover grant it |
| EdgeShares.GrantedIff | src/LayoutTree.cpp:521-590 | without limits two weights are granted as pixels if and only if the weights are balanced and the wishes before add up to the place |
| EdgeRuns.ResizeOvershoots | src/LayoutTree.cpp:706-764 | a reachable tree of three equal panes in which an accepted resize by 10 moves the edge by 64 and takes 98 of 100 pixels from the third |
| SplitClose.SplitThenCloseRestores | src/LayoutTree.cpp:665-704 | splitting, destroying the new pane and collapsing restores links, order, active children and zooms, with the slot of the pane reset |
| SplitClose.RoundTripExactly | src/LayoutTree.cpp:805-827 | that round trip is exact if and only if the slot had the default weights |
| MethodFacts.RotateRangeRelocates | src/LayoutTree.cpp:236-244 | turning a range by one is taking a child out and putting it back at its target |
| MethodFacts.NormalizedShift | src/LayoutTree.cpp:260-263 | the truncating remainders normalise to the mathematical remainder |
| MethodFacts.SwapStepsSwap | src/LayoutTree.cpp:298-317 | the writes of a swap, in order, exchange the two names everywhere |
| DestroyFacts.DetachEraseIsPrune | src/LayoutTree.cpp:475-490 | detaching a childless node, erasing it and clearing zooms on it removes every mention of it |
| MethodFacts.KidTornDown | src/LayoutTree.cpp:465-473 | destroying the children one by one removes their subtrees one by one |
| MethodFacts.CollapsedAlone | src/LayoutTree.cpp:818-825 | when an emptied Container is destroyed nothing goes with it |
| TreeWalks.FindSlot | src/LayoutTree.cpp:404-409 | the loop finds the first slot with the id |
| TreeWalks.LayoutSubtree | src/LayoutTree.cpp:501-616 | wherever it ends, the recursive walk adds exactly the specified layout to what was placed before |
| TreeWalks.LayoutStrips | src/LayoutTree.cpp:592-601 | the cursor loop hands each child its strip and skips empty ones, wherever the layout ends |
| TreeWalks.FindEdge | src/LayoutTree.cpp:715-741 | the climb finds the edge the specification names |
| TreeWalks.WalkLeaves | src/LayoutTree.cpp:766-787 | the walk appends exactly the specified leaves, in order |
| LayoutTrees.LayoutTree.constructor | src/LayoutTree.h:246-251 | an empty tree satisfies the invariant |
| LayoutTrees.LayoutTree.MarkDirty | src/LayoutTree.h:235-235 | sets the flag and bumps the revision |
| LayoutTrees.LayoutTree.TakeDirty | src/LayoutTree.h:236-236 | consumes the flag and nothing else |
| LayoutTrees.LayoutTree.CreateNode | src/LayoutTree.cpp:28-66 | takes the specified step, keeping the invariant |
| LayoutTrees.LayoutTree.SetRoot | src/LayoutTree.cpp:72-87 | accepts exactly an existing parentless node |
| LayoutTrees.LayoutTree.Contains | src/LayoutTree.cpp:101-112 | the climbing loop decides the ancestor relation |
| LayoutTrees.LayoutTree.AppendChild | src/LayoutTree.cpp:130-162 | appends the child or refuses without effect, and takes the specified step when the child does not contain the parent |
| LayoutTrees.LayoutTree.RemoveChild | src/LayoutTree.cpp:164-184 | takes the specified step or refuses without effect |
| LayoutTrees.LayoutTree.ReplaceChild | src/LayoutTree.cpp:186-216 | replaces the child or refuses without effect, and takes the specified step when the new child does not contain the parent |
| LayoutTrees.LayoutTree.MoveChild | src/LayoutTree.cpp:218-248 | takes the specified step or refuses without effect |
| LayoutTrees.LayoutTree.RotateChildren | src/LayoutTree.cpp:250-273 | takes the specified step or refuses without effect |
| LayoutTrees.LayoutTree.SwapLeaves | src/LayoutTree.cpp:275-319 | takes the specified step or refuses without effect |
| LayoutTrees.LayoutTree.SetStackZoom | src/LayoutTree.cpp:321-347 | accepts nil or a node strictly below the Stack |
| LayoutTrees.LayoutTree.SetActiveChild | src/LayoutTree.cpp:349-368 | accepts exactly a child of a Stack |
| LayoutTrees.LayoutTree.SetTabBarStack | src/LayoutTree.cpp:370-394 | accepts nil or an existing Stack |
| LayoutTrees.LayoutTree.SetLabel | src/LayoutTree.cpp:396-401 | changes no geometry and no revision |
| LayoutTrees.LayoutTree.SetSlot | src/LayoutTree.cpp:420-458 | sets one sizing hint of one child of a Container, negative values as 0 |
| LayoutTrees.LayoutTree.DestroyNode | src/LayoutTree.cpp:460-495 | the bottom-up teardown removes exactly the subtree |
| LayoutTrees.LayoutTree.CollapseSingletonsAbove | src/LayoutTree.cpp:805-827 | the climbing loop computes the specified collapse |
| LayoutTrees.LayoutTree.SplitByWrapping | src/LayoutTree.cpp:665-704 | takes the specified step or refuses without effect; `SplitLayout.SplitKeepsLayout` says what that step keeps |
| LayoutTrees.LayoutTree.ComputeRects | src/LayoutTree.cpp:618-631 | computes the specified layout from the root, wherever it ends |
| LayoutTrees.LayoutTree.ComputeRectsFrom | src/LayoutTree.cpp:624-631 | computes the specified layout from any node, wherever it ends |
| LayoutTrees.LayoutTree.ResizeEdgeAlongAxis | src/LayoutTree.cpp:706-764 | takes the specified step or refuses without effect |
| LayoutTrees.LayoutTree.TerminalLeavesIn | src/LayoutTree.cpp:766-787 | lists the specified leaves |
| PaneActions.PanesMaySwap | src/platform/Platform_Actions.cpp:203-220 | any two panes of a tab can be swapped |
| PaneActions.SwapMovesPanes | src/platform/Platform_Actions.cpp:203-220 | a swap exchanges the two places in the pane order and moves no other pane |
| PaneActions.RotatedOnce | src/platform/Platform_Actions.cpp:203-220 | one round more turns by one more, in either direction |
| PaneActions.BubbleForward | src/platform/Platform_Actions.cpp:207-212 | bubbling the last pane to the front turns the order by one |
| PaneActions.BubbleBackward | src/platform/Platform_Actions.cpp:213-219 | bubbling the first pane to the back turns it by minus one |
| PaneActions.RotatePanes | src/platform/Platform_Actions.cpp:190-226 | the rounds rotate the pane order by delta modulo its length, whatever the shape of the tree |
| PaneActions.SwapWithNeighbour | src/platform/Platform_Actions.cpp:145-189 | next and previous exchange the focused pane with its neighbour around the end, or change nothing |
| GlyphAtlas.PackedReads | src/shaders/hb-gpu-fragment.wgsl:44-55 | both halves of a packed word come back with their signs |
| GlyphAtlas.PackedWord | src/text.cpp:256-265 | the first value is the low half of the word and the second the high half, each modulo 2^16 |
| GlyphAtlas.FetchHalves | src/text.cpp:246-273 | an even virtual texel reads the low halves of its storage texel, an odd one the high halves |
| GlyphAtlas.EncodedSpells | src/text.cpp:256-265 | the packed words spell the source, zero past its end |
| GlyphAtlas.FetchReadsSource | src/shaders/hb-gpu-fragment.wgsl:44-55 | fetching virtual texel t, component c of a glyph gives source value 4t + c, zero past the end |
| GlyphAtlas.StoredKeepsInv | src/text.cpp:246-273 | storing a glyph keeps offsets even and in bounds, storage disjoint, the sum of needs below the used mark, and the buffer large enough |
| GlyphAtlas.StoredKeepsFaithful | src/text.cpp:246-273 | after storing, the new glyph reads back its source and every other glyph what it read before |
| AtlasCompaction.PackedKeepsInv | src/text.cpp:587-633 | packing the kept glyphs keeps the atlas invariant |
| AtlasCompaction.PlaceRoom | src/text.cpp:598-617 | every copy stays inside the new buffer, which has the old size |
| AtlasCompaction.KeptGlyphReadsSame | src/text.cpp:587-633 | every kept glyph reads at its new offset what it read at its old one |
| AtlasCompaction.UsedIs | src/text.cpp:588-617 | the used mark is 1 without a kept glyph, and otherwise 2 plus the texels kept plus one for each odd glyph kept but the last |
| AtlasCompaction.UsedWithinTargetIff | src/text.cpp:576-617 | it meets the target if and only if the room the budget left takes one texel more and the padding; it ends at most one texel per kept glyph above it |
| AtlasCompaction.PrefixNewest | src/text.cpp:572-586 | the kept glyphs are the newest ones, as many as the target admits |
| AtlasCompaction.PackedKeepsFaithful | src/text.cpp:587-633 | after compaction every outline still reads back what it was encoded from |
| AtlasCompaction.ColourOutlineSharedIff | src/text.cpp:587-628 | the entry of a colour glyph's outline stays as it was; some kept glyph now shares storage with it if and only if it starts below what the kept glyphs need, and past that all words are zero |
| AtlasCompaction.ColourOutlineOverwritten | src/text.cpp:619-628 | if it stood first it shares its first texel with the newest kept glyph as soon as there is one |
| FontAtlases.LateColourRun | src/text.cpp:75-272 | a run of encode, late colour flag, encode and compact after which the first glyph's offset reads the second glyph's value |
| FontAtlases.FontAtlas.constructor | src/text.h:82-89 | an empty atlas satisfies the invariant |
| FontAtlases.FontAtlas.BeginFontFrame | src/text.cpp:527-535 | moves no glyph |
| FontAtlases.FontAtlas.EnsureGlyphEncoded | src/text.cpp:75-272 | touches a known glyph, adds a placeholder, or stores an outline, and keeps every outline readable |
| FontAtlases.FontAtlas.StoreOutline | src/text.cpp:246-273 | allocation and packing loops store the encoded words at the next even texel |
| FontAtlases.FontAtlas.WriteWords | src/text.cpp:256-265 | the nested loops write the encoded words and nothing below them |
| FontAtlases.FontAtlas.CompactAtlasLRU | src/text.cpp:541-646 | compacts exactly when over budget, keeps the newest glyphs that fit, leaves the used mark at the exact value, and keeps every outline readable |
| FontAtlases.FontAtlas.ChooseKept | src/text.cpp:576-586 | the loop keeps a newest set that fits the target |
| FontAtlases.FontAtlas.PackKept | src/text.cpp:588-617 | the loop copies every kept glyph to its place |
| FontAtlases.FontAtlas.EraseEvicted | src/text.cpp:619-628 | the loop erases exactly the outlines that are not kept |
| Graveyards.SweepSplits | src/platform/Graveyard.h:57-68 | a sweep frees exactly the ripe entries and keeps exactly the others |
| Graveyards.SweepInOrder | src/platform/Graveyard.h:57-68 | a sweep keeps the order both of what it leaves and of what it frees |
| Graveyards.Graveyard.Defer | src/platform/Graveyard.h:39-47 | appends one entry, or none for a null pointer |
| Graveyards.Graveyard.Sweep | src/platform/Graveyard.h:57-68 | the in-place removal keeps and frees what the specification says, in order |
| Graveyards.Graveyard.DrainAll | src/platform/Graveyard.h:70-72 | frees everything |
| FrameProtocol.SweepConserves | src/platform/Graveyard.h:57-68 | a sweep loses no object and doubles none |
| FrameProtocol.StepKeepsInv | src/platform/Platform_EventLoop.cpp:378-402 | every step of either thread keeps ownership unique and guards what the running frame holds |
| FrameProtocol.RunSafe | src/platform/Graveyard.h:12-25 | in every interleaving no freed object is in the snapshot of a running frame or being parsed, and none is freed twice |
| FrameProtocol.SweepFreesRipe | src/platform/Graveyard.h:57-68 | a sweep frees a queued object if and only if a frame has ended since its stamp and no parse runs on it |
| FrameLaws.FrameHolds | src/platform/PlatformDawn.cpp:58-83 | over every run a frame holds exactly the panes of the last rebuild before its snapshot that were not taken out in between, until it ends |
| FrameLaws.OwnedIff | src/platform/Platform_EventLoop.cpp:368-402 | over every run the tree owns exactly what was created and not taken out, and of that, what a parse set aside is set aside |
| FrameLaws.HandInOrder | src/platform/Platform_EventLoop.cpp:378-402 | objects are queued in the order in which they were taken out, and none gets lost |
| FrameLaws.TakenOutIsFreed | src/platform/Graveyard.h:57-68 | over every run what was taken out and passed on is freed by a sweep if and only if that sweep sees a count above its stamp and as many parses of it have ended as begun |
| FrameLaws.FrameEndFrees | src/platform/Graveyard.h:12-25 | it is enough that a frame ended after the object was taken out and the sweep sees that |
| FrameLaws.FreedFor | src/platform/Graveyard.h:57-68 | only what was taken out is freed, by a sweep that saw a count above its stamp, while nobody parsed it |
| FrameLaws.LifeOfAPane | src/platform/Platform_EventLoop.cpp:378-402 | a pane closed while a frame draws it outlives that frame and not the next sweep |
| FrameProtocol.DrainSafeIff | src/platform/PlatformDawn.cpp:509-540 | the final drain is safe if and only if no queued object is being parsed |
| FrameProtocol.UnsafeDrainReachable | src/platform/PlatformDawn.cpp:509-540 | a run in which a pane is closed while it is parsed ends with nothing left for the wait to see and a drain that is not safe |
| RequestHandover.ExactlyOnce | src/platform/RenderThread.cpp:61-151 | over every run the history of requests is the delivered snapshots, then the shadow state, then the pending state, in order |
| RequestHandover.NextSnapshotDelivers | src/platform/PlatformDawn.cpp:58-83 | over every run a request goes out with the first accepted snapshot after the first apply after it, as one stretch of each channel that begins where everything asked before it ends, hence in no earlier snapshot |
| RequestHandover.SnapshotHolds | src/platform/PlatformDawn.cpp:58-83 | the same request by request: everything recorded is in that snapshot as often as asked for and in none before it; a recorded DestroyPane(p) is among its destroyed panes |
| RequestHandover.RefusedIff | src/platform/PlatformDawn.cpp:58-83 | a snapshot is refused exactly for want of an area, and then changes nothing |
| RequestHandover.LostExactlyDuringRebuild | src/platform/RenderThread.cpp:128-151 | every list request made is handed on and every flag raised is seen, over a run, if and only if no rebuild recorded anything but flags raised outside a rebuild too |
| RequestHandover.RebuildRequestsVanish | src/platform/RenderThread.cpp:128-151 | over every run, what rebuilds record, flags included, changes neither the accumulator nor the shadow state nor any snapshot |
| RequestHandover.DestroyedAppend | src/platform/RenderThread.cpp:105-126 | distilling the destroys keeps their order across batches |
| RequestHandover.DestroyedIff | src/platform/RenderThread.cpp:105-126 | on each of the three channels exactly the destroys that were asked for are passed on |
| RequestHandover.DestroyedCounts | src/platform/RenderThread.cpp:105-126 | each as often as it was asked for |
| RequestHandover.DestroyedInOrder | src/platform/RenderThread.cpp:105-126 | and in the order in which they were asked for |
| RequestHandover.RenderSync.Record | src/platform/Platform_EventLoop.cpp:421-425 | adds to the accumulator |
| RequestHandover.RenderSync.ApplyPendingMutations | src/platform/RenderThread.cpp:61-151 | moves the accumulator into the shadow state and clears it, rebuild requests included; every destroy goes with it (`RequestHandover.DestroyedIff`) |
| RequestHandover.RenderSync.DistillDestroys | src/platform/RenderThread.cpp:105-126 | the loop passes on exactly the destroys, as often as asked and in order |
| RequestHandover.RenderSync.SnapshotUnderLock | src/platform/PlatformDawn.cpp:58-83 | hands out a copy and clears the one-shot part, or refuses without effect |
| Notifications.StepKeepsInv | src/platform/PlatformUtils_Linux.cpp:578-650 | every send, reply with any id, signal and close keeps one call in flight per key and the latest payload last |
| Notifications.ReplyInverseIff | src/platform/PlatformUtils_Linux.cpp:612-625 | a reply keeps the daemon-id map and the entries' ids inverse if and only if it failed, or its id is not 0 and neither that id nor the replaced id it erases is another notification's |
| Notifications.StepInverseIff | src/platform/PlatformUtils_Linux.cpp:222-327 | no other event breaks the inverse |
| Notifications.RunInverseIff | src/platform/PlatformUtils_Linux.cpp:79-81 | over every run they are inverse throughout if and only if every reply meets that condition |
| Notifications.LatestPayloadWins | src/platform/PlatformUtils_Linux.cpp:762-842 | over every run, whatever ids the replies carry, at most one Notify per key is outstanding, what was dispatched is a subsequence of what was sent, and when nothing is outstanding the last dispatched is the last sent |
| NotificationLaws.PromotedReplaces | src/platform/PlatformUtils_Linux.cpp:626-650 | a payload that waits goes out with the reply: it replaces the id the reply brings, or the one the notification had if the reply failed, and its callbacks take over |
| NotificationLaws.DispatchNames | src/platform/PlatformUtils_Linux.cpp:578-842 | in every step each key dispatches nothing, or exactly one payload, as a call that replaces the id its notification has at that moment |
| NotificationLaws.StepShownIff | src/platform/PlatformUtils_Linux.cpp:222-650 | with a daemon that replaces in place, a step keeps one notification per key on screen if and only if it leaves nothing there that the bookkeeping forgets |
| NotificationLaws.OneShownIff | src/platform/PlatformUtils_Linux.cpp:79-81 | over every run with such a daemon everything on screen is the one notification of its key throughout if and only if the daemon never leaves there what the bookkeeping forgets |
| NotificationLaws.ActedShownTwice | src/platform/PlatformUtils_Linux.cpp:222-277 | a run with a daemon that leaves notifications on screen after their action, which ends with two of one key |
| NotificationLaws.CallbacksOnce | src/platform/PlatformUtils_Linux.cpp:280-327 | over every run a notification has the callbacks of the payload dispatched last, never of one it replaced, and close callbacks go out at most once for each payload dispatched |
| NotificationLaws.EntriesAlive | src/platform/PlatformUtils_Linux.cpp:578-650 | over every run with a daemon that gives out fresh ids every entry kept is shown, in flight, or holds a close callback that was not asked to be called |
| Notifications.IdsInverse | src/platform/PlatformUtils_Linux.cpp:79-81 | they are inverse throughout when the daemon never gives out an id that a notification has or an outstanding call still replaces, but for the answered call's own |
| Notifications.ReissuedIdLosesMapping | src/platform/PlatformUtils_Linux.cpp:617-623 | a concrete run in which a daemon that gives an id out again makes a reply drop another key's mapping |
| Notifications.NotificationCenter.SendNotification | src/platform/PlatformUtils_Linux.cpp:806-842 | dispatches, or queues in place of what was queued |
| Notifications.NotificationCenter.OnNotifyReply | src/platform/PlatformUtils_Linux.cpp:578-650 | remaps ids, promotes what is queued or ends the flight; the promoted payload replaces the id of `NotificationLaws.PromotedReplaces` |
| Notifications.NotificationCenter.HandleClosed | src/platform/PlatformUtils_Linux.cpp:280-327 | fires the close callback exactly for the entry that has the id |
| Notifications.NotificationCenter.HandleActionInvoked | src/platform/PlatformUtils_Linux.cpp:222-277 | fires the current click callback of the key the id leads to; single-shot entries lose it with their id, or go |
| Notifications.NotificationCenter.CloseNotification | src/platform/PlatformUtils_Linux.cpp:844-900 | closes the id the notification has, or without one fires the close callback at once and for the last time |
| WorkerPool.StepKeepsInv | src/WorkerPool.h:52-113 | every step of submitters, dispatchers and workers, running tasks that queue more during destruction included, keeps tasks conserved and batch counters exact |
| WorkerPool.Barrier | src/WorkerPool.h:64-98 | in every interleaving no task runs twice, and a dispatch returns only after its function ran exactly once for each item |
| WorkerPool.AllRunBeforeExit | src/WorkerPool.h:103-114 | when all workers have left, every task ever queued, after the stop included, has run exactly once, and no more can be queued |
| PoolLaws.FirstInFirstOut | src/WorkerPool.h:52-114 | over every run the n-th task taken is the n-th that was queued, the queue holds the rest in order, and the functions that ran are those called |
| PoolLaws.WaitsIff | src/WorkerPool.h:64-98 | over every run a task waits for a batch exactly from its dispatch to the return of that batch |
| WorkerPool.StuckIff | src/WorkerPool.h:64-98 | while a batch is open the workers are stuck if and only if each that has not left holds a task that waits in a dispatch of its own for a batch that is not done |
| WorkerPool.StuckForGood | src/WorkerPool.h:64-98 | over every run, stuck workers with an open batch stay stuck: no task runs any more and the dispatch never returns |
| WorkerPool.NestedDispatchSticks | src/WorkerPool.h:64-98 | a pool of one worker whose task dispatches comes to that |
| KeySequence.ActionsFound | src/Bindings.cpp:414-424 | actions are collected if and only if some binding is complete |
| KeySequence.ActionsInOrder | src/Bindings.cpp:414-424 | every complete binding adds its action, in the order of the bindings |
| KeySequence.SameIff | src/Bindings.h:10-31 | two strokes count as the same if and only if they differ at most in the side of a modifier key |
| KeySequence.OutcomeIff | src/Bindings.cpp:426-438 | the strokes match if and only if some binding is complete, wait if and only if none is but one goes on, and are handed back but for the last otherwise |
| KeySequence.SequenceMatcher.Advance | src/Bindings.cpp:406-438 | the loops decide match, prefix or abort exactly as `KeySequence.OutcomeIff` says, and keep the strokes only while they wait |
| KeySequence.KeysConserved | src/platform/InputController.cpp:99-126 | over every run the keys pressed are, in order, those sent on and the chords fired, then those held back, which mirror the matcher and are a proper start of a binding and never a whole one |
| KeySequence.BindingFires | src/platform/InputController.cpp:99-126 | over every run, from a keyboard that holds nothing back, pressing the keys of a binding none of whose proper starts is a whole binding fires exactly one chord, of all those keys, with the binding's action, and holds nothing back |
| KeySequence.TimeoutReleases | src/platform/InputController.cpp:1255-1271 | a timeout sends every key held back on, in order, and holds nothing back |
| KeySequence.AbortReleases | src/platform/InputController.cpp:112-126 | a key with which no binding goes on sends the keys held back on, in order, then itself |
| KeySequence.LongerBindingNeverFires | src/Bindings.cpp:406-438 | a binding that extends another never fires |
| KeySequence.InputController.OnKey | src/platform/InputController.cpp:99-126 | takes the specified step |
| KeySequence.InputController.OnSequenceTimeout | src/platform/InputController.cpp:1255-1271 | sends the held-back keys on and starts over |
| ColrAtlases.SlotRoundTrip | src/ColrAtlas.cpp:97-110 | a slot and its position tell each other |
| ColrAtlases.PositionRoundTrip | src/ColrAtlas.cpp:77-94 | an evicted rectangle is reused exactly, with whatever stride the atlas has |
| ColrAtlases.UngrownTilesApart | src/ColrAtlas.cpp:97-113 | in every state of a bucket that has not grown no two tiles overlap |
| ColrAtlases.AllottedKeeps | src/ColrAtlas.cpp:97-113 | handing out the next slot keeps tiles counted, placed and in slots of their own |
| ColrAtlases.RecycledKeeps | src/ColrAtlas.cpp:77-94 | giving a victim's rectangle away keeps the invariant |
| ColrAtlases.OldestGoes | src/ColrAtlas.cpp:41-142 | a call evicts one tile at most: only when every slot is handed out, never one of this generation, none of its bucket used longer ago, and its place goes to the glyph asked for |
| ColrAtlases.UseMarks | src/ColrAtlas.cpp:30-55 | a tile found or asked for again keeps its place and is in use, and so is one just placed |
| ColrAtlases.TileKept | src/ColrAtlas.cpp:30-142 | over every run a glyph found or placed keeps its tile in its place, whatever else is drawn, until the generation advances or the atlas is cleared |
| ColrAtlases.GrownKeeps | src/ColrAtlas.cpp:144-163 | growing keeps the invariant and makes room |
| ColrAtlases.GrowthOverlaps | src/ColrAtlas.cpp:97-113 | the first slot handed out after growing from the first size overlaps an old tile |
| ColrAtlases.OverlapIffFull | src/ColrAtlas.cpp:41-114 | in a bucket that has not grown, acquiring a tile for an uncached glyph makes tiles overlap if and only if, before, every slot is handed out and every tile is of the current generation |
| ColrAtlases.OverlapReachable | src/ColrAtlas.cpp:41-114 | for every bucket, a run from the empty atlas that draws one glyph more than there are slots comes to two overlapping tiles with the last glyph and not before |
| ColrAtlases.ColrAtlas.AdvanceGeneration | src/ColrAtlas.cpp:20-23 | keeps the invariant |
| ColrAtlases.ColrAtlas.FindTile | src/ColrAtlas.cpp:30-39 | keeps a found tile alive |
| ColrAtlases.ColrAtlas.AcquireTile | src/ColrAtlas.cpp:41-114 | touches, hands out the next slot, reuses the oldest tile of an older generation, grows, or refuses, in that order, with as many tiles cached as slots handed out |
| ColrAtlases.ColrAtlas.EvictOldest | src/ColrAtlas.cpp:116-142 | erases a tile of minimal generation in the bucket, never one of the current generation |
| ColrAtlases.ColrAtlas.GrowBucket | src/ColrAtlas.cpp:144-157 | doubles the dimension up to the largest |
| ColrAtlases.ColrAtlas.Clear | src/ColrAtlas.cpp:165-173 | starts over |
| Base64.Encode | src/Utils.h:44-58 | the loop computes the specified encoding |
| Base64.Decode | src/Utils.h:18-42 | the loop computes the specified decoding, its accumulator wrapping at 32 bits |
| Base64.GroupsDecode | src/Utils.h:18-58 | after any number of groups the decoder has the bytes of those groups and stands at a byte boundary, whatever wrapped around |
| Base64.RoundTrip | src/Utils.h:18-58 | decoding an encoding gives the bytes back, for every length |
| Base64.WrappedRoundTrip | src/Utils.h:33-33 | so does decoding one with padding and line breaks put in or left out anywhere |
| Base64.AlphabetIs | src/Utils.h:44-58 | the sixty-four letters are those of Table 1 of RFC 4648, and decode to their places |
| Base64.GroupSpells | src/Utils.h:44-58 | a group spells its three bytes as one number of four digits, highest first, and a shorter one leaves off the digits its bytes do not reach |
| Base64.OthersCountAsZero | src/Utils.h:18-42 | any other character but padding and line breaks decodes as the letter A does |

## Left out

- Node pointers and the aliasing between them: the tree's nodes are values in a map field, which the methods replace one entry at a time.
- LayoutTrees.LayoutTree.CreateNode: the generated identity is a parameter, and the four create methods are one.
- LayoutTrees.LayoutTree.SplitByWrapping: the generated wrapper identity is a parameter.
- LayoutTrees.LayoutTree.ComputeRects: requires that the layout ends, as does every method that computes one; a call that recurses for ever is not modelled.
- Layout.VisibleLeavesTile: requires zoom targets inside their Stacks; a Stack that zooms elsewhere may draw a node twice.
- SplitLayout.SplitKeepsLayout: requires zoom targets inside their Stacks before the split.
- LeafSwap.SwapExchangesLayout: requires zoom targets inside their Stacks before the swap, not after it.
- EdgeResize.ResizeMovesEdgeIff: requires zoom targets inside their Stacks, since a node drawn twice has no one place to compare.
- EdgeResize.ResizeMovesEdge: for siblings that weigh what they have; `EdgeResize.ResizeMovesEdgeIff` is the condition for all others.
- PaneActions.RotatePanes: the panes of a tab are taken to be its Terminals over all children of every Stack; the script engine that lists them is not part of this model.
- Dividers, `leftmostTerminalIn`, `nearestAncestorOfKind` and the `opaque` marks of nodes, which would add only easy members.
- Overflow of pixel sizes, texel counts, generations, revisions and slot numbers in fixed-width integers.
- HarfBuzz, shaping and the encoding of outlines: a glyph's 16-bit data is an arbitrary sequence, and whether it has contours or a colour graph is an input.
- FontAtlases.FontAtlas.EnsureGlyphEncoded: one call is one step; the second look-up under the write lock, which matters only between threads, and the nested calls for clip glyphs are calls of their own.
- FontAtlases.FontAtlas.SortNewestFirst: any sort by use does; its result is pinned down up to glyphs of equal age.
- Outlines of glyphs flagged as colour glyphs, which compaction neither moves nor erases.
- FrameProtocol.RunSafe: assumes, as src/platform/RenderThread.h:55-67 says, that the counter rises after the last use of a frame's pointers, and that the counter read under the render mutex counts the frames that ended before the latest snapshot.
- The wake and stop flags of the render thread and the queue of exited terminals, which would add only easy members.
- RequestHandover.ExactlyOnce: covers release and destroy requests and one-shot flags; divider geometry, dirty panes, and the flags that have takers of their own are not part of this model.
- Notifications.NotificationCenter.OnNotifyReply: the reply is matched to its call by the message library; which callbacks a payload brings is all that is kept of them.
- NotificationLaws.OneShownIff: the daemon is taken to replace in place what it shows and to give anything else an id of its own, as section 9 of the Desktop Notifications Specification describes it.
- Untracked notifications, which share one key and bypass the in-flight check, and allocation failures of the message library.
- Threads as such: the render protocol and the worker pool are state machines over atomic steps, not objects; locks appear as the atomicity of a step.
- WorkerPool.Barrier: the lifetime of the stack-allocated batch and its mutex, and spurious wake-ups, are not part of this model; once the pool is being destroyed only its running tasks queue more.
- KeySequence.KeysConserved: bindings are fixed; a reload in the middle of a sequence resets the matcher alone.
- KeySequence.TimeoutReleases: when the timer runs out is not part of this model; that it is armed while keys are held back and not otherwise is stated by the methods.
- The keys' text and modifiers as the shell receives them, and what the fired actions do.
- ColrAtlases.ColrAtlas.AcquireTile: the bucket is an input, since its choice from a font size is floating point.
- Windowing, GPU resources, D-Bus wire format, files, processes, script bindings, configuration and logging.
