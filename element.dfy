/**
 * The element core of `src/element.c` over one window: the elements of the
 * window live in an arena (`elems`: tree links and flags; `geoms`, `styles`
 * and `links` in `attrs`: their geometry, style and render-queue link), the
 * render surfaces with their next-frame queues in `attrs.surfaces`, and the window's mouse
 * state in `buttons`, `buttonsDown`, `elementUnderneath` and `focus`.  Every
 * element uses the base implementation table, so a call through
 * `recalc_cb`, `attached_cb`, `child_attached`, `draw_cb`, `event_cb` or
 * `mark_dirty` is a call of the base function; the layout callback and the
 * style resolver are parameters.
 */
module Element {
  import opened ElementTypes
  import opened ElementTree
  import opened RenderQueue
  import opened Dispatch
  import opened Geometry
  import opened Recalc
  import opened Attach
  import opened Detach

  class Window {
    var elems: Elems
    var attrs: Attrs
    const buttons: array<Button>
    var buttonsDown: bv8
    var elementUnderneath: Option<ElemId>
    var focus: Option<ElemId>
    ghost var rank: Ranks
    ghost var hi: nat

    /** The mouse state names only elements of the arena. */
    ghost predicate MouseKnown()
      reads this`elems, this`elementUnderneath, this`focus, buttons
    {
      && (forall i :: 0 <= i < buttons.Length && buttons[i].target.Some? ==> buttons[i].target.value in elems)
      && (elementUnderneath.Some? ==> elementUnderneath.value in elems)
      && (focus.Some? ==> focus.value in elems)
    }

    ghost predicate Valid()
      reads this, buttons
    {
      buttons.Length == ButtonCount && Sound(elems, rank, hi, attrs) && MouseKnown()
    }

    function Ctx(): DrawContext
      reads this`focus, this`buttonsDown
    {
      DrawContext(focus, buttonsDown)
    }

    /** A window whose own root element `root` is attached, has the window and
      * draws to the valid surface `surface`, whose queue is empty; no button is
      * pressed and nothing is focused or under the pointer. */
    constructor (root: ElemId, surface: SurfaceId, outerPad: Point, innerPad: Point)
      ensures Valid()
      ensures elems == map[root := NewElement(outerPad, innerPad).(hasWindow := true, surface := Some(surface), state := Attached)]
      ensures attrs.geoms == map[root := ZeroGeom] && attrs.styles == map[root := None] && attrs.links == map[root := None]
      ensures attrs.surfaces == map[surface := Surface(SurfaceValid, [])]
      ensures fresh(buttons) && forall i :: 0 <= i < buttons.Length ==> buttons[i] == Button(ButtonUp, None)
      ensures buttonsDown == 0 && elementUnderneath.None? && focus.None?
    {
      SingletonSound(root, NewElement(outerPad, innerPad).(hasWindow := true, surface := Some(surface), state := Attached), surface);
      elems := map[root := NewElement(outerPad, innerPad).(hasWindow := true, surface := Some(surface), state := Attached)];
      attrs := Attrs(map[root := ZeroGeom], map[root := None], map[root := None], map[surface := Surface(SurfaceValid, [])]);
      buttons := new Button[ButtonCount](_ => Button(ButtonUp, None));
      buttonsDown := 0;
      elementUnderneath := None;
      focus := None;
      rank := map[root := 0];
      hi := 1;
    }

    /** `rtb_elem_init` on a new element `id`: the arena gains the fresh element,
      * with a zeroed geometry, no style and no render-queue link; it is in no
      * children list and is a subtree of its own, so it may be added anywhere.
      * The memory of a new element is fresh: `id` is in no arena map that
      * might name it (`elems`, and the render-queue links). */
    method InitElement(id: ElemId, outerPad: Point, innerPad: Point)
      requires Valid() && id !in elems && id !in attrs.links
      modifies this`elems, this`attrs, this`rank, this`hi
      ensures Valid()
      ensures elems == old(elems)[id := NewElement(outerPad, innerPad)]
      ensures attrs == old(attrs).(geoms := old(attrs.geoms)[id := ZeroGeom], styles := old(attrs.styles)[id := None],
                                   links := old(attrs.links)[id := None])
      ensures Unowned(KidsOf(elems), id) && Preorder(KidsOf(elems), rank, id) == [id]
    {
      FreshKeeps(elems, rank, hi, id, NewElement(outerPad, innerPad));
      QueuesOkFresh(elems, attrs.links, attrs.surfaces, id, NewElement(outerPad, innerPad));
      FreshKeyed(elems, attrs, id, NewElement(outerPad, innerPad), ZeroGeom, None, None);
      elems := elems[id := NewElement(outerPad, innerPad)];
      attrs := attrs.(geoms := attrs.geoms[id := ZeroGeom], styles := attrs.styles[id := None], links := attrs.links[id := None]);
      rank, hi := rank[id := 0], hi + 1;
    }

    /** `mark_dirty`. */
    method MarkDirty(e: ElemId)
      requires e in elems && e in attrs.links
      modifies this`attrs
      ensures old(Valid()) ==> Valid()
      ensures var (ls, ss) := MarkedDirty(elems, old(attrs.links), old(attrs.surfaces), e);
              attrs == old(attrs).(links := ls, surfaces := ss)
    {
      if Valid() {
        MarkDirtyKeepsQueues(elems, attrs.links, attrs.surfaces, e);
      }
      var el := elems[e];
      if el.surface.None? || el.surface.value !in attrs.surfaces || attrs.surfaces[el.surface.value].state == SurfaceInvalid
         || attrs.links[e].Some? {
        return;
      }
      var s := el.surface.value;
      attrs := attrs.(links := attrs.links[e := Some(s)],
                      surfaces := attrs.surfaces[s := attrs.surfaces[s].(nextFrame := attrs.surfaces[s].nextFrame + [e])]);
    }

    /** `rtb_elem_is_in_tree`: walk the parent back-references from `leaf`. */
    method IsInTree(root: ElemId, leaf: Option<ElemId>) returns (r: bool)
      requires RankOrdered(elems, rank, hi)
      requires leaf.Some? ==> leaf.value in elems
      ensures r == InTree(ParentsOf(elems), rank, hi, root, leaf)
    {
      var l := leaf;
      while l.Some?
        invariant l.Some? ==> l.value in elems
        invariant InTree(ParentsOf(elems), rank, hi, root, l) == InTree(ParentsOf(elems), rank, hi, root, leaf)
        decreases if l.Some? then hi - rank[l.value] else 0
      {
        if l.value == root {
          return true;
        }
        l := elems[l.value].parent;
      }
      return false;
    }

    /** `rtb_elem_draw`: the `draw_cb` calls it makes, in order. */
    method Draw(self: ElemId, state: DrawState) returns (calls: seq<(ElemId, DrawState)>)
      requires ChildRanked(KidsOf(elems), rank) && self in elems
      requires Drawable(elems, attrs.styles, rank, Ctx(), self, state)
      ensures calls == DrawTrace(elems, attrs.styles, rank, Ctx(), self, state)
      decreases rank[self], 2
    {
      if elems[self].visibility == FullyObscured {
        return [];
      }
      var s := state;
      if s == DrawNormal {
        if focus == Some(self) {
          s := DrawFocus;
        } else if elems[self].mouseIn && buttonsDown & ButtonMask(Button1) == 0 {
          s := DrawHover;
        }
      }
      calls := DrawBase(self, s);
    }

    /** The base `draw`: the element's own call, then each child in list order,
      * in the same state when the style defines it, else NORMAL. */
    method DrawBase(self: ElemId, state: DrawState) returns (calls: seq<(ElemId, DrawState)>)
      requires ChildRanked(KidsOf(elems), rank) && self in elems && StyleOf(attrs.styles, self).Some?
      requires DrawableSeq(elems, attrs.styles, rank, Ctx(), KidsOf(elems)[self], ChildDrawState(StyleOf(attrs.styles, self).value, state), rank[self])
      ensures calls == [(self, state)] + DrawSeq(elems, attrs.styles, rank, Ctx(), KidsOf(elems)[self],
                                                 ChildDrawState(StyleOf(attrs.styles, self).value, state), rank[self])
      decreases rank[self], 1
    {
      var sub := if state in StyleOf(attrs.styles, self).value.available then state else DrawNormal;
      var t := DrawChildren(elems[self].children, sub, rank[self]);
      calls := [(self, state)] + t;
    }

    /** The `TAILQ_FOREACH` of the base `draw`: each child drawn in turn. */
    method DrawChildren(cs: seq<ElemId>, sub: DrawState, ghost bound: nat) returns (calls: seq<(ElemId, DrawState)>)
      requires ChildRanked(KidsOf(elems), rank)
      requires forall j :: 0 <= j < |cs| ==> cs[j] in elems && cs[j] in rank && rank[cs[j]] < bound
      requires DrawableSeq(elems, attrs.styles, rank, Ctx(), cs, sub, bound)
      ensures calls == DrawSeq(elems, attrs.styles, rank, Ctx(), cs, sub, bound)
      decreases bound, 0
    {
      calls := [];
      ghost var es, st, ctx := elems, attrs.styles, Ctx();
      assert cs[0..] == cs;
      var i := 0;
      while i < |cs|
        invariant 0 <= i <= |cs|
        invariant DrawableSeq(es, st, rank, ctx, cs[i..], sub, bound)
        invariant calls + DrawSeq(es, st, rank, ctx, cs[i..], sub, bound) == DrawSeq(es, st, rank, ctx, cs, sub, bound)
      {
        DrawSeqStep(es, st, rank, ctx, cs, i, sub, bound, calls);
        var t := Draw(cs[i], sub);
        calls := calls + t;
        i := i + 1;
      }
    }

    /** `rtb_elem_deliver_event` for an element on the base `on_event`, where the
      * built-in handler `rtb_handle` would answer `builtin`.  Returns the answer
      * and whether the built-in handler ran. */
    method DeliverEvent(self: ElemId, kind: EventKind, builtin: bool) returns (handled: bool, builtinRan: bool)
      requires Valid() && self in elems
      requires elems[self].state == Attached && (IsCrossing(kind) || IsButtonEvent(kind)) ==> StyleOf(attrs.styles, self).Some?
      modifies this`attrs
      ensures Valid()
      ensures elems[self].state == Unattached ==> !handled && !builtinRan && attrs == old(attrs)
      ensures elems[self].state == Attached ==>
        (handled, builtinRan) == DeliverResult(elems[self].snoop, OnEvent(kind), builtin)
      ensures elems[self].state == Attached ==>
        attrs ==
          if (IsCrossing(kind) || IsButtonEvent(kind)) && DirtiesOn(StyleOf(old(attrs.styles), self).value, kind)
          then var (ls, ss) := MarkedDirty(elems, old(attrs.links), old(attrs.surfaces), self);
               old(attrs).(links := ls, surfaces := ss)
          else old(attrs)
    {
      if elems[self].state == Unattached {
        return false, false;
      }
      var snoop := elems[self].snoop;
      var dirty := false;
      if IsCrossing(kind) {
        dirty := DrawHover in StyleOf(attrs.styles, self).value.available;
      } else if IsButtonEvent(kind) {
        dirty := DrawFocus in StyleOf(attrs.styles, self).value.available;
      }
      if dirty {
        MarkDirty(self);
      }
      var ret := OnEvent(kind);
      if snoop {
        builtinRan := true;
        handled := builtin || ret;
      } else {
        builtinRan := !ret;
        handled := ret || builtin;
      }
    }

    // -------------------------------------------------------------------
    // Recalculation
    // -------------------------------------------------------------------

    /** `recalculate`: what it returns, the attributes it leaves and the
      * elements it lays out are those of `Recalculation`. */
    method Recalculate(self: ElemId, inst: Option<ElemId>, dir: Direction, layout: Layout, styleFor: StyleFor)
      returns (r: bool, trace: seq<ElemId>)
      requires RankOrdered(elems, rank, hi) && Keyed(elems, attrs) && self in elems
      requires dir == Rootward ==> inst.Some? && inst.value in elems
      modifies this`attrs
      ensures Outcome(r, attrs, trace) == Recalculation(elems, rank, hi, old(attrs), self, inst, dir, layout, styleFor)
      decreases if dir == Rootward then 1 else 0, if dir == Rootward then hi - rank[self] else rank[self], 3, 0
    {
      if attrs.styles[self].None? {
        attrs := attrs.(styles := attrs.styles[self := styleFor(self)]);
      }
      if dir == Rootward {
        r, trace := RecalcRootward(self, inst.value, layout, styleFor);
        if !r {
          return;
        }
      } else {
        trace := RecalcLeafward(self, layout, styleFor);
        r := true;
      }
      attrs := attrs.(geoms := attrs.geoms[self := WithBounds(attrs.geoms[self], elems[self].outerPad)]);
    }

    /** `recalc_rootward`, as `RootwardPass`. */
    method RecalcRootward(self: ElemId, inst: ElemId, layout: Layout, styleFor: StyleFor)
      returns (changed: bool, trace: seq<ElemId>)
      requires RankOrdered(elems, rank, hi) && Keyed(elems, attrs) && self in elems && inst in elems
      modifies this`attrs
      ensures Outcome(changed, attrs, trace) == RootwardPass(elems, rank, hi, old(attrs), self, inst, layout, styleFor)
      decreases 1, hi - rank[self], 2, 0
    {
      var oldW, oldH := attrs.geoms[inst].w, attrs.geoms[inst].h;
      attrs := attrs.(geoms := ApplyLayout(attrs.geoms, self, layout));
      if attrs.geoms[inst].w == oldW && attrs.geoms[inst].h == oldH {
        return false, [self];
      }
      var t := PassOn(self, layout, styleFor);
      return true, t;
    }

    /** The second half of `recalc_rootward`, once the size has changed: the
      * children leafward, then the parent, then the element is marked dirty,
      * as `PassedOn`. */
    method PassOn(self: ElemId, layout: Layout, styleFor: StyleFor) returns (trace: seq<ElemId>)
      requires RankOrdered(elems, rank, hi) && Keyed(elems, attrs) && self in elems
      modifies this`attrs
      ensures (attrs, trace) == PassedOn(elems, rank, hi, old(attrs), self, layout, styleFor)
      decreases 1, hi - rank[self], 1, 0
    {
      var t := RecalcChildren(self, layout, styleFor);
      var tp := ParentPass(self, layout, styleFor);
      trace := [self] + (t + tp);
    }

    /** The parent of `self`, if any, recalculated rootward with `self` as
      * instigator, then `rtb_elem_mark_dirty(self)`, as `ParentPassed`. */
    method ParentPass(self: ElemId, layout: Layout, styleFor: StyleFor) returns (trace: seq<ElemId>)
      requires RankOrdered(elems, rank, hi) && Keyed(elems, attrs) && self in elems
      modifies this`attrs
      ensures (attrs, trace) == ParentPassed(elems, rank, hi, old(attrs), self, layout, styleFor)
      decreases 1, hi - rank[self], 0, 0
    {
      trace := [];
      if elems[self].parent.Some? {
        ChildrenRanked(elems, rank, hi, self);
        var _, t := Recalculate(elems[self].parent.value, Some(self), Rootward, layout, styleFor);
        trace := t;
      }
      MarkDirty(self);
    }

    /** `recalc_leafward`, as `LeafwardPass`. */
    method RecalcLeafward(self: ElemId, layout: Layout, styleFor: StyleFor) returns (trace: seq<ElemId>)
      requires RankOrdered(elems, rank, hi) && Keyed(elems, attrs) && self in elems
      modifies this`attrs
      ensures (attrs, trace) == LeafwardPass(elems, rank, hi, old(attrs), self, layout, styleFor)
      decreases 0, rank[self], 1, 0
    {
      attrs := attrs.(geoms := ApplyLayout(attrs.geoms, self, layout));
      var t := RecalcChildren(self, layout, styleFor);
      trace := [self] + t;
    }

    /** The children loop of both passes: every child, in list order, is
      * recalculated leafward with `self` as instigator, as `ChildrenPass`. */
    method RecalcChildren(self: ElemId, layout: Layout, styleFor: StyleFor) returns (trace: seq<ElemId>)
      requires RankOrdered(elems, rank, hi) && Keyed(elems, attrs) && self in elems
      modifies this`attrs
      ensures (attrs, trace) ==
        ChildrenPass(elems, rank, hi, old(attrs), self, elems[self].children, rank[self], layout, styleFor)
      decreases 0, rank[self], 0, 0
    {
      var cs := elems[self].children;
      ChildrenRanked(elems, rank, hi, self);
      ghost var all := ChildrenPass(elems, rank, hi, attrs, self, cs, rank[self], layout, styleFor);
      assert cs[0..] == cs;
      trace := [];
      var i := 0;
      while i < |cs|
        invariant 0 <= i <= |cs|
        invariant Keyed(elems, attrs)
        invariant forall c :: c in cs[i..] ==> c in elems && c in rank && rank[c] < rank[self]
        invariant ChildrenPass(elems, rank, hi, attrs, self, cs[i..], rank[self], layout, styleFor).0 == all.0
        invariant trace + ChildrenPass(elems, rank, hi, attrs, self, cs[i..], rank[self], layout, styleFor).1 == all.1
      {
        assert cs[i..][0] == cs[i] && cs[i..][1..] == cs[i + 1..];
        var _, t := Recalculate(cs[i], Some(self), Leafward, layout, styleFor);
        ghost var rest := ChildrenPass(elems, rank, hi, attrs, self, cs[i + 1..], rank[self], layout, styleFor);
        assert trace + (t + rest.1) == all.1;
        TraceAppend(trace, t, rest.1);
        trace := trace + t;
        i := i + 1;
      }
      assert cs[i..] == [] && trace + [] == trace;
    }

    // -------------------------------------------------------------------
    // Attaching
    // -------------------------------------------------------------------

    /** `attached(self, parent, window)`, as `Attaching`; `k` holds the
      * children lists, which it does not change. */
    method AttachTo(self: ElemId, parent: ElemId, ghost k: Kids, layout: Layout)
      requires ChildRanked(k, rank) && ListsAre(elems, k) && self in k
      modifies this`elems, this`attrs
      ensures (elems, attrs.geoms) == Attaching(old(elems), k, rank, old(attrs.geoms), self, parent, layout)
      ensures attrs == old(attrs).(geoms := attrs.geoms)
      decreases rank[self], 1, 0
    {
      elems := elems[self := elems[self].(parent := Some(parent), hasWindow := true)];
      attrs := attrs.(geoms := ApplyLayout(attrs.geoms, self, layout));
      var cs := elems[self].children;
      ghost var all := ChildrenAttaching(elems, k, rank, attrs.geoms, self, cs, rank[self], layout);
      assert cs[0..] == cs;
      var i := 0;
      while i < |cs|
        invariant 0 <= i <= |cs|
        invariant ListsAre(elems, k)
        invariant forall c :: c in cs[i..] ==> c in k && rank[c] < rank[self]
        invariant ChildrenAttaching(elems, k, rank, attrs.geoms, self, cs[i..], rank[self], layout) == all
        invariant attrs == old(attrs).(geoms := attrs.geoms)
      {
        assert cs[i..][0] == cs[i] && cs[i..][1..] == cs[i + 1..];
        ChildAttached(self, cs[i], k, layout);
        i := i + 1;
      }
      assert cs[i..] == [];
      elems := elems[self := elems[self].(state := Attached)];
    }

    /** `child_attached(self, child)`, as `ChildAttaching`. */
    method ChildAttached(self: ElemId, child: ElemId, ghost k: Kids, layout: Layout)
      requires ChildRanked(k, rank) && ListsAre(elems, k) && self in k && child in k
      modifies this`elems, this`attrs
      ensures (elems, attrs.geoms) == ChildAttaching(old(elems), k, rank, old(attrs.geoms), self, child, layout)
      ensures attrs == old(attrs).(geoms := attrs.geoms)
      decreases rank[child], 2, 0
    {
      elems := elems[child := elems[child].(surface := elems[self].surface)];
      AttachTo(child, self, k, layout);
    }

    /** `rtb_elem_add_child`, as `AddedChild` under ranks that put the
      * child's subtree below `self`.  The child must have every callback slot
      * filled (the `assert`s of the source); the caller hands over an element
      * that is in no children list and whose subtree does not hold `self`. */
    method AddChild(self: ElemId, child: ElemId, where: AddLocation, layout: Layout, styleFor: StyleFor)
      requires Valid() && self in elems && child in elems && Complete(elems[child].impl)
      requires Unowned(KidsOf(elems), child) && self !in Preorder(KidsOf(elems), rank, child)
      modifies this`elems, this`attrs, this`rank, this`hi
      ensures RankOrdered(Inserted(old(elems), self, child, where), rank, hi) && Linked(Inserted(old(elems), self, child, where))
      ensures (elems, attrs) == AddedChild(old(elems), rank, hi, old(attrs), self, child, where, layout, styleFor)
      ensures Valid()
    {
      ghost var es0, a0 := elems, attrs;
      rank, hi := InsertRanks(elems, rank, hi, self, child, where);
      AddedChildSound(es0, rank, hi, a0, self, child, where, layout, styleFor);
      InsertAndAttach(self, child, where, layout, styleFor);
    }

    /** The steps of `rtb_elem_add_child` once ranks for the grown tree are
      * chosen: the list insertion, then, below a windowed `self`,
      * `child_attached` and the rootward `recalculate`. */
    method InsertAndAttach(self: ElemId, child: ElemId, where: AddLocation, layout: Layout, styleFor: StyleFor)
      requires self in elems && child in elems && Keyed(elems, attrs)
      requires RankOrdered(Inserted(elems, self, child, where), rank, hi) && Linked(Inserted(elems, self, child, where))
      modifies this`elems, this`attrs
      ensures (elems, attrs) == AddedChild(old(elems), rank, hi, old(attrs), self, child, where, layout, styleFor)
    {
      InsertedKeyed(elems, attrs, self, child, where);
      elems := elems[self := elems[self].(children := InsertChild(elems[self].children, child, where))];
      if elems[self].hasWindow {
        AttachRankedLinked(elems, rank, hi, attrs.geoms, self, child, layout);
        AttachKeyed(elems, rank, attrs, self, child, layout);
        ChildAttached(self, child, KidsOf(elems), layout);
        var _, _ := Recalculate(self, Some(child), Rootward, layout, styleFor);
      }
    }

    /** `rtb_elem_remove_child`, as `RemovedChild`, with the mouse hand-off
      * when the pointer is inside the leaving child of a windowed `self`. */
    method RemoveChild(self: ElemId, child: ElemId, layout: Layout, styleFor: StyleFor)
      requires Valid() && self in elems && child in elems[self].children
      modifies this`elems, this`attrs, this`elementUnderneath, buttons
      ensures child in old(elems)
      ensures (elems, attrs) == RemovedChild(old(elems), rank, hi, old(attrs), self, child, layout, styleFor)
      ensures var moved := old(elems[self].hasWindow && elems[child].mouseIn);
        && buttons[..] == (if moved && buttonsDown != 0
                           then HandedOff(old(buttons[..]), ParentsOf(old(elems)), rank, hi, child, self)
                           else old(buttons[..]))
        && elementUnderneath == if moved then Some(self) else old(elementUnderneath)
      ensures Valid()
    {
      ChildrenRanked(elems, rank, hi, self);
      RemovedChildSound(elems, rank, hi, attrs, self, child, layout, styleFor);
      UnlinkAndRelease(self, child, layout, styleFor);
    }

    /** The steps of `rtb_elem_remove_child`: unlink; below a windowed `self`,
      * hand the mouse over if the pointer is inside `child`, then release the
      * child and recalculate. */
    method UnlinkAndRelease(self: ElemId, child: ElemId, layout: Layout, styleFor: StyleFor)
      requires RankOrdered(elems, rank, hi) && Keyed(elems, attrs) && MouseKnown() && self in elems && child in elems
      modifies this`elems, this`attrs, this`elementUnderneath, buttons
      ensures (elems, attrs) == RemovedChild(old(elems), rank, hi, old(attrs), self, child, layout, styleFor)
      ensures var moved := old(elems[self].hasWindow && elems[child].mouseIn);
        && buttons[..] == (if moved && buttonsDown != 0
                           then HandedOff(old(buttons[..]), ParentsOf(old(elems)), rank, hi, child, self)
                           else old(buttons[..]))
        && elementUnderneath == if moved then Some(self) else old(elementUnderneath)
      ensures forall i :: 0 <= i < buttons.Length ==> buttons[i].target in {old(buttons[i].target), Some(self)}
    {
      RemovedRanked(elems, rank, hi, self, child);
      RemovedParents(elems, self, child);
      elems := Removed(elems, self, child);
      if !elems[self].hasWindow {
        return;
      }
      if elems[child].mouseIn {
        HandOff(self, child);
      }
      ReleaseAndRecalc(self, child, layout, styleFor);
    }

    /** The end of `rtb_elem_remove_child` below a windowed `self`: the child
      * loses its parent, its style and its attached state, and `self` is
      * recalculated leafward with no instigator. */
    method ReleaseAndRecalc(self: ElemId, child: ElemId, layout: Layout, styleFor: StyleFor)
      requires self in elems && child in elems && RankOrdered(Released(elems, child), rank, hi) && Keyed(elems, attrs)
      modifies this`elems, this`attrs
      ensures (elems, attrs) == ReleasedRecalc(old(elems), rank, hi, old(attrs), self, child, layout, styleFor)
    {
      elems := elems[child := elems[child].(parent := None, state := Unattached)];
      attrs := attrs.(styles := attrs.styles[child := None]);
      var _, _ := Recalculate(self, None, Leafward, layout, styleFor);
    }

    /** The capture hand-off of `rtb_elem_remove_child`: with a button down,
      * every button whose target is in `child`'s tree is retargeted to
      * `self`; then `self` is the element under the pointer. */
    method HandOff(self: ElemId, child: ElemId)
      requires RankOrdered(elems, rank, hi) && MouseKnown() && self in elems
      modifies buttons, this`elementUnderneath
      ensures buttons[..] == if buttonsDown != 0 then HandedOff(old(buttons[..]), ParentsOf(elems), rank, hi, child, self)
                             else old(buttons[..])
      ensures elementUnderneath == Some(self)
      ensures forall i :: 0 <= i < buttons.Length ==> buttons[i].target in {old(buttons[i].target), Some(self)}
    {
      if buttonsDown != 0 {
        for i := 0 to buttons.Length
          invariant forall j :: 0 <= j < i ==> buttons[j] == Retargeted(old(buttons[j]), ParentsOf(elems), rank, hi, child, self)
          invariant forall j :: i <= j < buttons.Length ==> buttons[j] == old(buttons[j])
          invariant forall j :: 0 <= j < i ==> buttons[j].target in {old(buttons[j].target), Some(self)}
        {
          var inTree := IsInTree(child, buttons[i].target);
          if inTree {
            buttons[i] := buttons[i].(target := Some(self));
          }
        }
      }
      elementUnderneath := Some(self);
    }
  }
}
