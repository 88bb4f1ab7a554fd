# rutabaga element tree, modelled in Dafny

This project models the element core of rutabaga's `src/element.c`: the
node type of a retained-mode widget tree and the operations that change or
query it. These are:

- inserting a child at the head or tail of a parent's children list, and
  unlinking one, with the mouse-capture hand-off on removal;
- the ancestry walk `rtb_elem_is_in_tree`;
- the two-direction layout recalculation `recalculate` / `recalc_rootward` /
  `recalc_leafward`, with its size-unchanged short-circuit and the
  recomputation of the derived bounds;
- `mark_dirty` and the per-surface next-frame redraw queue;
- event delivery `rtb_elem_deliver_event`, with the base `on_event` and the
  snoop flag;
- draw-state resolution in `rtb_elem_draw`, and the base `draw` that hands a
  state on to the children;
- the base `attached` and `child_attached`, and `rtb_elem_init`.

## Shape of the model

A class `Element.Window` stands for one window. It holds:

- an arena `elems` of element records (`ElementTypes.Element`: parent,
  children list, window flag, surface, attach state, visibility, `mouse_in`,
  snoop flag, paddings, implementation table);
- the attributes a recalculation changes (`attrs`): geometry, style and
  render-queue link of each element, and the surfaces with their
  `next_frame` queues;
- the mouse table from `include/rutabaga/mouse.h`: an `array` of
  `RTB_MOUSE_BUTTON_MAX + 1` buttons, the `buttons_down` mask,
  `element_underneath`, and the focused element.

Pointers become handles into the arena (`ElemId`). A ghost rank orders the
tree: every child ranks below the element whose list holds it, and every
parent ranks above its child. The recursive passes terminate on that rank.

Each method of the class does what its C function does, step by step, with
`TAILQ_FOREACH` loops as `while` loops. Each method's `ensures` ties the new
state to a function of the old state:

- `Recalc.Recalculation`, `Recalc.RootwardPass` and `Recalc.LeafwardPass`;
- `Attach.AddedChild` and `Detach.RemovedChild`;
- `RenderQueue.MarkedDirty`;
- `Dispatch.DrawTrace`.

Lemmas prove what the source promises about those functions. The window's
invariant `Valid()` is kept by every state-changing operation. It says:

- the ranks order the tree;
- parent back-references agree with the lists, and each element is listed
  at most once;
- every element has attributes;
- the window reaches down every list of a windowed element;
- the surfaces named by elements exist;
- the queues agree with the links.

Every element runs the base implementation (`base_impl`), so a call through
`recalc_cb`, `attached_cb`, `child_attached`, `draw_cb`, `event_cb` or
`mark_dirty` is a call of the base function. Some operations are parameters:

- the layout callback is a function from the element and the current
  geometry to the boxes it assigns;
- the style resolver `rtb_style_for_element` is a function from element to
  optional style;
- the answer of the built-in handler `rtb_handle` is a boolean.

On three points the model follows the code where a reader might expect otherwise:

- the mouse hand-off in `rtb_elem_remove_child` happens only when the
  removed child has `mouse_in` set, whatever the buttons target;
- removal clears the child's parent, style and state but leaves its window
  and surface pointers as they were;
- `rtb_elem_add_child` on a window-less parent does not set the child's
  parent. Only `attached` does. So a listed child may have a null parent,
  and the invariant only requires that a non-null parent lists the child.

## Model

| member | source | states |
|---|---|---|
| ElementTree.InTreeIffSubtree | src/element.c:314-322 | When children point back to their owners, following parents from `l` reaches `root` exactly when `l` is in `root`'s subtree. This holds in both directions. |
| ElementTree.InTreeIsInSubtree | src/element.c:314-322 | Reaching `root` by the parent walk implies membership in `root`'s subtree, under the arena invariants alone. |
| ElementTree.InTreeAntisymmetric | src/element.c:314-322 | Two elements that are each in the other's tree are the same element. The parent walk cannot cycle. |
| ElementTree.InTree | src/element.c:314-322 | The parent walk as a function: an absent leaf is in no tree, and otherwise the leaf is `root` or its parent is in `root`'s tree. Its meaning is given by `InTreeIffSubtree`, and `Element.Window.IsInTree` computes it by the loop. |
| ElementTree.Unlink | src/element.c:350 | `TAILQ_REMOVE`: an absent child leaves the list as it was. Otherwise the multiset loses exactly one copy of the child, and no new entries appear. |
| ElementTree.UnlinkAt | src/element.c:350 | Unlinking removes exactly the first position that holds the child and keeps all other entries in order. |
| ElementTree.UnlinkNoDuplicates | src/element.c:350 | On a list without duplicates, unlinking leaves a list without duplicates that no longer holds the child. |
| ElementTree.InsertChildPlaces | src/element.c:336-339 | HEAD puts the child first; any other location puts it last. The existing children keep their order around it, and the multiset gains the child. |
| ElementTree.UnlinkInsert | src/element.c:336-350 | Removing a child just inserted at either location restores the original list. |
| ElementTree.InsertUniqueOwners | src/element.c:336-339 | Inserting an element listed nowhere keeps each element listed by at most one element, at most once. |
| ElementTree.DropUniqueOwners | src/element.c:350 | Dropping a list entry keeps owners unique and leaves the dropped element listed nowhere. |
| ElementTree.InsertRanked | src/element.c:336-339 | Hanging a subtree that does not contain `self` below `self` keeps the tree acyclic: the new ranks order children below owners and parents above children. |
| RenderQueue.MarkDirtyKeepsQueues | src/element.c:197-207 | `mark_dirty` keeps links and queues in agreement and queues free of duplicates. Queues only grow at the tail, and no link but that of the marked element changes. |
| RenderQueue.MarkDirtyQueuesOnce | src/element.c:197-207 | After marking, an element with a live surface, or one already linked, is linked into exactly one queue and occurs there exactly once. A newly linked element went to the tail of its own surface's queue. |
| RenderQueue.MarkDirtyIdempotent | src/element.c:202-206 | Marking twice has the same effect as marking once. |
| RenderQueue.MarkedDirty | src/element.c:197-207 | `mark_dirty` as a function of links and queues. It does nothing without a surface, on an invalid surface, or when already linked. Otherwise it appends to the tail of the surface's queue. What it guarantees is stated by `MarkDirtyKeepsQueues`, `MarkDirtyQueuesOnce` and `MarkDirtyIdempotent`. |
| Dispatch.BaseCallbackConsumesCrossings | src/element.c:148-162 | With the base `on_event`, enter, leave, drag-enter and drag-leave are always reported handled, and without snoop `rtb_handle` never sees them. Every other event is handled exactly when `rtb_handle` says so, and `rtb_handle` always runs for it. |
| Dispatch.DeliverResultOrders | src/element.c:238-243 | The answer is the OR of the element's callback and `rtb_handle` in both orders. `rtb_handle` runs always under snoop, and otherwise exactly when the callback did not consume the event. |
| Dispatch.OnEvent | src/element.c:148-162 | The base `on_event`: true for the four crossing kinds and false otherwise. Its effect on delivery is stated by `BaseCallbackConsumesCrossings`. |
| Dispatch.DeliverResult | src/element.c:238-243 | The two short-circuit orders of the return statement, giving the answer and whether `rtb_handle` ran. Characterised by `DeliverResultOrders`. |
| Dispatch.ResolveDrawState | src/element.c:252-262 | The NORMAL-to-FOCUS/HOVER resolution of `rtb_elem_draw`. Characterised case by case by `ResolveDrawStateCases`. |
| Dispatch.ResolveDrawStateCases | src/element.c:256-262 | A non-NORMAL request is kept. NORMAL becomes FOCUS exactly when the element is focused, and HOVER exactly when it is not focused, has `mouse_in` and button 1 (mask bit 0) is up. Otherwise it stays NORMAL. |
| Dispatch.DrawSeqStep | src/element.c:137-143 | One turn of the children loop: drawing the remaining children is drawing the next child, then the rest. |
| Dispatch.DrawTraceInSubtree | src/element.c:251-252 | Every `draw_cb` call made while drawing `e` draws an element of `e`'s subtree that is not fully obscured. |
| Dispatch.DrawTraceIsPreorder | src/element.c:128-146 | When nothing in the subtree is fully obscured, the base `draw` visits the whole subtree, each element once, in depth-first list order. |
| Dispatch.DrawSeqIsPreorder | src/element.c:138-142 | The children loop visits the siblings' subtrees one after the other, in list order. |
| Dispatch.DrawTrace | src/element.c:246-265 | The `draw_cb` calls of `rtb_elem_draw` over the base `draw`: none for a fully obscured element, otherwise the element in its resolved state followed by its children's traces. `DrawTraceInSubtree` and `DrawTraceIsPreorder` state what it contains, and `Element.Window.Draw` computes it. |
| Dispatch.DrawSeq | src/element.c:137-143 | The children loop of `draw`: the children's traces joined in list order, each child in the state the parent's style passes down. `DrawSeqIsPreorder` and `DrawSeqStep` state its shape. |
| Geometry.LaidAlongConcat | src/element.c:175-178 | Laying out along two runs in turn is the same as laying out along their concatenation. |
| Geometry.WithBounds | src/element.c:113-119 | The recomputed geometry has `x2 = x + w`, `y2 = y + h` and an inner rectangle equal to the bounds shrunk by the outer padding. Position and size are unchanged. |
| Recalc.Recalculation | src/element.c:94-122 | Every element stays keyed, and the layout trace starts with `self`. A pass that went on leaves `self`'s bounds consistent with its position, size and padding. A leafward pass always goes on and touches neither links nor queues. |
| Recalc.RootwardPass | src/element.c:54-80 | The pass goes on exactly when the instigator's width or height changed under `self`'s layout. Otherwise only the layout ran: the trace is just `self`, and nothing but the geometry changes. |
| Recalc.ShortCircuitKeepsBounds | src/element.c:64-70 | A rootward recalculation goes on exactly when the instigator's width or height changed under `self`'s layout. One that stops short lays out only `self` and marks nothing dirty. The instigator keeps its size. Every element keeps its `x2`, `y2` and inner rectangle, because the bounds code at lines 113-119 is skipped. An element the layout assigns no box keeps its whole geometry. |
| Recalc.LeafwardPass | src/element.c:82-92 | A leafward pass changes neither links nor queues, and its trace starts with `self`. |
| Recalc.PassedOn | src/element.c:72-79 | The rest of a rootward pass keeps every element keyed, and its trace starts with `self`. |
| Recalc.ParentPassed | src/element.c:75-78 | The parent step and the final mark keep every element keyed. |
| Recalc.ChildrenPass | src/element.c:72-73 | The loop over the children changes neither links nor queues. |
| Recalc.RecalculationStyles | src/element.c:99-100 | A recalculation resolves the missing styles of exactly the elements it lays out, and leaves every present style and every unvisited element alone. |
| Recalc.LeafwardStyles | src/element.c:99-100 | A leafward pass from an element with a settled style resolves styles exactly on its trace. |
| Recalc.LeafwardTrace | src/element.c:82-92 | A leafward recalculation lays out the element's whole subtree, each element once, in depth-first list order. |
| Recalc.ChildrenTrace | src/element.c:90-91 | The children loop lays out the siblings' subtrees in list order. |
| Recalc.RootwardPassTrace | src/element.c:64-79 | A rootward pass that went on lays out `self`'s whole subtree first. Then, if there is a parent, the parent comes next. Otherwise the subtree is all. |
| Recalc.PassedOnTrace | src/element.c:72-76 | After `self`, the children's subtrees are laid out in preorder, and then the parent's recalculation follows. |
| Recalc.RecalculationQueues | src/element.c:75-78 | A recalculation keeps queues and links in agreement, only appends to queues, and newly links only elements on the parent path from `self`. A rootward pass that went on leaves `self` queued, or without a live surface. |
| Recalc.ParentPassedQueues | src/element.c:75-78 | The parent recalculation followed by `rtb_elem_mark_dirty(self)` keeps the queues sound, grows them, dirties only the parent path, and leaves `self` queued or without a live surface. |
| Recalc.MarkedSelfQueues | src/element.c:78 | Marking `self` at the end of a rootward pass keeps everything the pass did to the queues so far. |
| Attach.NewElement | src/element.c:393-425 | A new element is unattached, with no parent, children, window or surface. It is unobscured, has the given paddings, and has every callback slot filled. |
| Attach.FreshKeeps | src/element.c:393-425 | Adding a fresh element keeps the tree ranked, linked and windowed, and the new element is listed nowhere and forms a subtree of its own. |
| Attach.Attaching | src/element.c:164-181 | `attached` changes no children list and keeps every geometry entry. |
| Attach.AttachingOutside | src/element.c:164-181 | Attaching leaves every element outside `self`'s subtree as it was. Inside the subtree it changes only parent, window, surface and state. |
| Attach.AttachingMarks | src/element.c:170-180 | After attaching, every element of the subtree has the window and is ATTACHED. Each draws to `self`'s surface and has a parent whose list holds it. |
| Attach.ChildAttachingMarks | src/element.c:190-195 | `child_attached` hands the owner's surface and window to the child's whole subtree and attaches it below the owner. |
| Attach.ChildAttaching | src/element.c:190-195 | `child_attached` on the arena: it keeps the children lists and every geometry entry. Its effect is stated by `ChildAttachingOutside` and `ChildAttachingMarks`. |
| Attach.ChildrenAttaching | src/element.c:177-178 | The loop of `attached` over the children: it keeps the children lists and every geometry entry. Its effect is stated by `ChildrenAttachingMarks` and `ChildrenAttachingLaid`. |
| Attach.AttachingLaid | src/element.c:175-178 | Attaching runs the layout of the subtree's elements in depth-first list order. |
| Attach.InsertRankedLinked | src/element.c:336-339 | Inserting a child that is listed nowhere, and whose subtree does not contain `self`, keeps the arena ranked under new ranks and linked. |
| Attach.InsertedLists | src/element.c:336-339 | Insertion changes only `self`'s children list and no parent. |
| Attach.InsertWindowed | src/element.c:336-341 | After insertion, only the new entry may lack the window. Below a parent without a window, nothing lacks it. |
| Attach.AttachWindowed | src/element.c:342 | After `child_attached` below a windowed parent, the window reaches down every list again. |
| Attach.AttachSurfaces | src/element.c:193 | Handing the owner's surface down keeps every surface named by an element known. |
| Attach.AttachedRecalc | src/element.c:341-344 | `child_attached` followed by the rootward recalculation keeps the arena's keys and children lists. |
| Attach.AttachedQueues | src/element.c:341-344 | Attaching and recalculating keep surfaces known and queues in agreement with links. |
| Attach.AddedChild | src/element.c:324-345 | The child is inserted at the head or the tail of `self`'s list. Without a window nothing else changes. |
| Attach.AddedChildTree | src/element.c:324-345 | `rtb_elem_add_child` keeps the arena ranked, linked and keyed. |
| Attach.AddedChildWindowed | src/element.c:324-345 | After `rtb_elem_add_child`, the window reaches down every list and up every parent link. |
| Attach.AddedChildQueues | src/element.c:324-345 | After `rtb_elem_add_child`, surfaces are known and queues agree with links. |
| Attach.AddedChildSound | src/element.c:324-345 | `rtb_elem_add_child` keeps the whole window invariant. |
| Detach.RemovedChild | src/element.c:347-377 | The child always leaves `self`'s list, with the rest in order. Without a window nothing else changes. |
| Detach.ReleasedRecalc | src/element.c:370-376 | Releasing the child and recalculating keep the arena's keys and `self`'s list. |
| Detach.RemovedRanked | src/element.c:350-374 | Unlinking and clearing the child's parent keep the tree ranked. |
| Detach.RemovedParents | src/element.c:350 | Unlinking changes no parent back-reference. |
| Detach.RemovedLists | src/element.c:350 | After unlinking, the child is listed nowhere and owners stay unique. |
| Detach.ReleasedLinked | src/element.c:350-374 | Unlinking and clearing the parent keep parents and lists in agreement. |
| Detach.RemovedWindowed | src/element.c:350-374 | The window still reaches down every list, and no parent names a window-less element. |
| Detach.RemovedChildSound | src/element.c:347-377 | `rtb_elem_remove_child` keeps the whole window invariant. |
| Detach.RemovedChildReleased | src/element.c:370-376 | Below a windowed parent, the child ends listed nowhere, with no parent, UNATTACHED and without a style. It keeps its window and surface as they were. |
| Detach.RemovedInserted | src/element.c:336-350 | Removing a child right after inserting it restores the arena exactly. |
| Detach.AddedChildWindowedChild | src/element.c:341-342 | Below a windowed parent, `rtb_elem_add_child` keeps the parent's window and gives the child the window and the parent's surface (`child_attached`, lines 193-194). |
| Detach.AddedThenRemoved | src/element.c:324-377 | Adding a child below a windowed parent and then removing it restores the parent's children list. The child ends with a null parent, UNATTACHED and no style. It still has the window and the parent's surface, which removal does not clear. |
| Detach.HandedOffSubtree | src/element.c:355-368 | The hand-off retargets to `self` exactly the buttons whose target lies in `child`'s subtree and changes no button state. |
| Detach.Retargeted | src/element.c:361-363 | One button of the hand-off keeps its state. A button without a target is unchanged, and one targeting the child itself moves to the parent. |
| Detach.HandedOff | src/element.c:360-364 | The hand-off loop over the buttons keeps their number and states, and every target either stays or becomes the parent. `HandedOffSubtree` says which targets move. |
| Detach.Removed | src/element.c:350 | The arena after `TAILQ_REMOVE`. `RemovedParents`, `RemovedLists` and `RemovedInserted` state its effect. |
| Detach.Released | src/element.c:372-374 | The child's parent becomes null and its state UNATTACHED. Its children, window and surface are kept. |
| Element.Window.InitElement | src/element.c:393-425 | `rtb_elem_init` adds a fresh element with a zero geometry, no style and no queue link. The element is listed nowhere and is its own subtree, and the window invariant is kept. |
| Element.Window.MarkDirty | src/element.c:197-207 | The new links and queues are those of `MarkedDirty`, and the window invariant is kept. |
| Element.Window.IsInTree | src/element.c:314-322 | The loop over parent pointers returns `InTree`. An absent leaf gives false. |
| Element.Window.Draw | src/element.c:246-265 | The `draw_cb` calls made are exactly `DrawTrace`. A fully obscured element gives none. Otherwise the element comes first in its resolved state. |
| Element.Window.DrawBase | src/element.c:128-146 | The element's own call, then the children in list order, in the same state if the style has it, else NORMAL. |
| Element.Window.DrawChildren | src/element.c:137-143 | The loop draws the children one by one, and the calls are `DrawSeq`. |
| Element.Window.DeliverEvent | src/element.c:213-244 | An unattached element gives 0, runs nothing and changes nothing. Otherwise the answer and whether `rtb_handle` ran are `DeliverResult`. The element is marked dirty exactly on enter or leave with a HOVER style, or on down, up or drop with a FOCUS style. |
| Element.Window.Recalculate | src/element.c:94-122 | The result, the new attributes and the layout order are those of `Recalculation`. |
| Element.Window.RecalcRootward | src/element.c:54-80 | As `RootwardPass`. |
| Element.Window.PassOn | src/element.c:72-79 | As `PassedOn`. |
| Element.Window.ParentPass | src/element.c:75-78 | As `ParentPassed`. |
| Element.Window.RecalcLeafward | src/element.c:82-92 | As `LeafwardPass`. |
| Element.Window.RecalcChildren | src/element.c:72-73 | The children loop, as `ChildrenPass`. |
| Element.Window.AttachTo | src/element.c:164-181 | `attached`, as `Attaching`. It changes only the arena and the geometry. |
| Element.Window.ChildAttached | src/element.c:190-195 | `child_attached`, as `ChildAttaching`. |
| Element.Window.AddChild | src/element.c:324-345 | The new arena and attributes are `AddedChild`'s, under ranks for the grown tree, and the window invariant is kept. |
| Element.Window.InsertAndAttach | src/element.c:336-344 | The insertion, then below a window `child_attached` and the rootward recalculation, as `AddedChild`. |
| Element.Window.RemoveChild | src/element.c:347-377 | The new arena and attributes are `RemovedChild`'s. The buttons are `HandedOff` exactly when `self` has the window, the child has `mouse_in` and a button is down. `element_underneath` becomes `self` exactly when `self` has the window and the child has `mouse_in`. The invariant is kept. |
| Element.Window.UnlinkAndRelease | src/element.c:350-376 | The same steps with the same new state. Every button target either stays or becomes `self`. |
| Element.Window.ReleaseAndRecalc | src/element.c:370-376 | As `ReleasedRecalc`: parent, style and state cleared, then the leafward recalculation. |
| Element.Window.HandOff | src/element.c:355-368 | With a button down, the buttons become `HandedOff`; otherwise they are unchanged. `element_underneath` becomes `self`. |

## Left out

- `src/platform/x11-xcb/event.c` is not part of this model. It is platform event decoding, pointer grabs, the vsync thread and the window lock, all of which are I/O and concurrency.
- Window creation is not part of this model. The `Element.Window` constructor only builds a window around one attached root element on a valid surface, as a starting state.
- Coordinates and sizes are integers. `floorf` in `rtb_elem_set_position_from_point` is not modelled, and neither are the other setters (`rtb_elem_set_size_cb`, `rtb_elem_set_layout`, `rtb_elem_set_position`, `rtb_elem_set_size`), which are single field stores outside the core.
- `rtb_elem_trigger_recalc` and `rtb_elem_mark_dirty` are one-line dispatches through the implementation table. With every element on `base_impl` they are `Recalculate` and `MarkDirty`, and they have no members of their own.
- Only the base implementation is modelled. Widgets that override callbacks are outside this core. `rtb_layout_hpack_left` and `rtb_size_self` are the abstract layout parameter.
- `rtb_style_for_element` and `rtb_handle` are opaque callees and become parameters: a resolver function and the handler's boolean answer.
- `rtb_type_ref` / `rtb_type_unref`, the `handlers` vector (`VECTOR_INIT`, `rtb_elem_fini`), the `metatype` field and `LAYOUT_DEBUG_*` are not modelled. They have no effect on the tree, the geometry, the queues or the mouse table.
- The base `detached` does nothing, so removal does not model a call to it.
- `rtb_elem_init`'s default paddings (`RTB_DEFAULT_*_PAD`) are defined outside the core, so they are parameters. The copy of `base_impl` into the caller's table is modelled as the element's table being full.
- Element.Window.AddChild: also requires that the child is in no children list and that its subtree does not contain `self`. The source does not check this, but `TAILQ_INSERT` on an element already in a list, or a cycle, would corrupt the tree.
- Element.Window.RemoveChild: requires the child to be in `self`'s list, which `TAILQ_REMOVE` assumes and does not check.
- Element.Window.Draw: requires every element reached to have a style, and a window when asked for NORMAL, because the source dereferences both without a check.
- Element.Window.DeliverEvent: requires a style on an attached element for the event kinds that read it, for the same reason.
- Detach.HandedOffSubtree: states the subtree characterisation only where every child of `child`'s subtree points back to its owner. In general the hand-off is exactly `HandedOff`, defined by the parent walk of `rtb_elem_is_in_tree`.
- The per-window mutex and all concurrency are not modelled.
- Ranks are ghost state. They stand for the acyclicity the C code takes for granted and are not part of any element.
