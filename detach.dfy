/**
 * `rtb_elem_remove_child` on the arena and the attributes, and the hand-off
 * of mouse capture it performs when the pointer is inside the leaving child.
 */
module Detach {
  import opened ElementTypes
  import opened ElementTree
  import opened RenderQueue
  import opened Recalc
  import opened Attach

  /** The arena after `TAILQ_REMOVE` of `child` from `self`'s children. */
  function Removed(es: Elems, self: ElemId, child: ElemId): (r: Elems)
    requires self in es
  {
    es[self := es[self].(children := Unlink(es[self].children, child))]
  }

  /** The child as `rtb_elem_remove_child` leaves it below a windowed parent:
    * no parent and unattached, but still holding its window and surface. */
  function Released(es: Elems, child: ElemId): (r: Elems)
    requires child in es
    ensures child in r && r[child].children == es[child].children && r[child].hasWindow == es[child].hasWindow
    ensures r[child].surface == es[child].surface && r[child].parent.None? && r[child].state == Unattached
  {
    es[child := es[child].(parent := None, state := Unattached)]
  }

  /** The end of `rtb_elem_remove_child` below a windowed `self`: the child
    * is released and its style dropped (the base `detached` does nothing),
    * then `self` is recalculated leafward with no instigator. */
  function ReleasedRecalc(es: Elems, ghost rank: Ranks, ghost hi: nat, a: Attrs, self: ElemId, child: ElemId,
                          layout: Layout, styleFor: StyleFor): (r: (Elems, Attrs))
    requires self in es && child in es && RankOrdered(Released(es, child), rank, hi) && Keyed(es, a)
    ensures r.0.Keys == es.Keys && r.0[self].children == es[self].children
  {
    var es2 := Released(es, child);
    var a2 := a.(styles := a.styles[child := None]);
    assert Keyed(es2, a2);
    (es2, Recalculation(es2, rank, hi, a2, self, None, Leafward, layout, styleFor).attrs)
  }

  /** `rtb_elem_remove_child` on the arena and the attributes: `child` leaves
    * `self`'s list, and only when `self` has the window does the rest
    * happen. */
  function RemovedChild(es: Elems, ghost rank: Ranks, ghost hi: nat, a: Attrs, self: ElemId, child: ElemId,
                        layout: Layout, styleFor: StyleFor): (r: (Elems, Attrs))
    requires RankOrdered(es, rank, hi) && Keyed(es, a) && self in es && child in es
    ensures r.0.Keys == es.Keys && r.0[self].children == Unlink(es[self].children, child)
    ensures !es[self].hasWindow ==> r == (Removed(es, self, child), a)
  {
    var es1 := Removed(es, self, child);
    if !es[self].hasWindow then (es1, a)
    else
      RemovedRanked(es, rank, hi, self, child);
      ReleasedRecalc(es1, rank, hi, a, self, child, layout, styleFor)
  }

  // ---------------------------------------------------------------------
  // The arena stays sound
  // ---------------------------------------------------------------------

  /** Removing a list entry and clearing a parent keep the ranks valid. */
  lemma RemovedRanked(es: Elems, rank: Ranks, hi: nat, self: ElemId, child: ElemId)
    requires RankOrdered(es, rank, hi) && self in es && child in es
    ensures RankOrdered(Removed(es, self, child), rank, hi)
    ensures RankOrdered(Released(Removed(es, self, child), child), rank, hi)
  {
    var k := KidsOf(es);
    var es1 := Removed(es, self, child);
    assert KidsOf(es1) == k[self := Unlink(k[self], child)];
    assert KidsOf(Released(es1, child)) == KidsOf(es1);
    SublistRanked(k, rank, self, Unlink(k[self], child));
  }

  /** Unlinking changes no parent back-reference. */
  lemma RemovedParents(es: Elems, self: ElemId, child: ElemId)
    requires self in es
    ensures ParentsOf(Removed(es, self, child)) == ParentsOf(es)
  {
  }

  /** A parent back-reference of a listed child can only name the lister. */
  lemma ListedParent(es: Elems, self: ElemId, child: ElemId)
    requires Linked(es) && self in es && child in es && child in es[self].children
    ensures es[child].parent.None? || es[child].parent == Some(self)
  {
    var k := KidsOf(es);
    assert k[self] == es[self].children;
    var i :| 0 <= i < |k[self]| && k[self][i] == child;
    if es[child].parent.Some? {
      var q := es[child].parent.value;
      assert ParentsOf(es)[child] == Some(q);
      var j :| 0 <= j < |k[q]| && k[q][j] == child;
    }
  }

  /** The child's one list entry is the one removed: afterwards it is listed
    * nowhere, and the lists stay unique. */
  lemma RemovedLists(es: Elems, self: ElemId, child: ElemId)
    requires Linked(es) && self in es && child in es && child in es[self].children
    ensures Unowned(KidsOf(Removed(es, self, child)), child)
    ensures UniqueOwners(KidsOf(Removed(es, self, child)))
  {
    var k := KidsOf(es);
    assert k[self] == es[self].children;
    var i :| 0 <= i < |k[self]| && k[self][i] == child;
    forall j | 0 <= j < i
      ensures k[self][j] != child
    {
    }
    UnlinkAt(k[self], child, i);
    assert KidsOf(Removed(es, self, child)) == k[self := k[self][..i] + k[self][i + 1..]];
    DropUniqueOwners(k, self, i);
  }

  /** Unlinking, and clearing the child's parent, keep parents and lists in
    * agreement. */
  lemma ReleasedLinked(es: Elems, self: ElemId, child: ElemId)
    requires Linked(es) && self in es && child in es && child in es[self].children
    ensures Linked(Released(Removed(es, self, child), child))
  {
    RemovedLists(es, self, child);
    var es2 := Released(Removed(es, self, child), child);
    var p2, k2 := ParentsOf(es2), KidsOf(es2);
    assert k2 == KidsOf(Removed(es, self, child));
    forall e | e in p2 && p2[e].Some?
      ensures p2[e].value in k2 && e in k2[p2[e].value]
    {
      var q := p2[e].value;
      assert ParentsOf(es)[e] == Some(q);
      if q == self {
        UnlinkKeeps(es[self].children, child, e);
      }
    }
  }

  /** Without the window the child's parent was already null, and unlinking
    * alone keeps parents and lists in agreement. */
  lemma RemovedLinked(es: Elems, self: ElemId, child: ElemId)
    requires Linked(es) && self in es && child in es && child in es[self].children && es[child].parent.None?
    ensures Linked(Removed(es, self, child))
  {
    RemovedLists(es, self, child);
    var es1 := Removed(es, self, child);
    var p1, k1 := ParentsOf(es1), KidsOf(es1);
    forall e | e in p1 && p1[e].Some?
      ensures p1[e].value in k1 && e in k1[p1[e].value]
    {
      var q := p1[e].value;
      assert ParentsOf(es)[e] == Some(q);
      if q == self {
        UnlinkKeeps(es[self].children, child, e);
      }
    }
  }

  /** The window still reaches down every (shorter) list, and no parent is left
    * naming an element without it. */
  lemma RemovedWindowed(es: Elems, self: ElemId, child: ElemId)
    requires WindowedArena(es) && self in es && child in es
    ensures WindowedArena(Removed(es, self, child))
    ensures WindowedArena(Released(Removed(es, self, child), child))
  {
    var es1 := Removed(es, self, child);
    forall e, i | e in es1 && es1[e].hasWindow && 0 <= i < |es1[e].children| && es1[e].children[i] in es1
      ensures es1[es1[e].children[i]].hasWindow
    {
      assert es1[e].children[i] in es[e].children;
    }
  }

  /** `rtb_elem_remove_child` keeps the arena sound. */
  lemma RemovedChildSound(es: Elems, rank: Ranks, hi: nat, a: Attrs, self: ElemId, child: ElemId,
                          layout: Layout, styleFor: StyleFor)
    requires Sound(es, rank, hi, a) && self in es && child in es[self].children
    ensures child in es
    ensures var (es', a') := RemovedChild(es, rank, hi, a, self, child, layout, styleFor);
      Sound(es', rank, hi, a')
  {
    ChildrenRanked(es, rank, hi, self);
    RemovedRanked(es, rank, hi, self, child);
    ReleasedLinked(es, self, child);
    RemovedWindowed(es, self, child);
    if !es[self].hasWindow {
      ListedParent(es, self, child);
      RemovedLinked(es, self, child);
    }
  }

  /** Below a windowed parent, the child is let go: it is in no list, has no
    * parent, is unattached and has no style (the leafward pass over `self`
    * no longer reaches it), yet keeps its window and its surface. */
  lemma RemovedChildReleased(es: Elems, rank: Ranks, hi: nat, a: Attrs, self: ElemId, child: ElemId,
                             layout: Layout, styleFor: StyleFor)
    requires Sound(es, rank, hi, a) && self in es && child in es[self].children && es[self].hasWindow
    ensures child in es
    ensures var (es', a') := RemovedChild(es, rank, hi, a, self, child, layout, styleFor);
      && Unowned(KidsOf(es'), child)
      && es'[child].parent.None? && es'[child].state == Unattached
      && es'[child].hasWindow == es[child].hasWindow && es'[child].surface == es[child].surface
      && a'.styles[child].None?
  {
    ChildrenRanked(es, rank, hi, self);
    RemovedLists(es, self, child);
    RemovedRanked(es, rank, hi, self, child);
    var es2 := Released(Removed(es, self, child), child);
    var a2 := a.(styles := a.styles[child := None]);
    assert KidsOf(es2) == KidsOf(Removed(es, self, child));
    assert Keyed(es2, a2);
    LeafwardTrace(es2, rank, hi, a2, self, None, layout, styleFor);
    RecalculationStyles(es2, rank, hi, a2, self, None, Leafward, layout, styleFor);
    var k2 := KidsOf(es2);
    if child in Preorder(k2, rank, self) {
      PreorderOwner(k2, rank, self, child);
      assert false;
    }
  }

  /** Removing a child right after adding it restores the arena. */
  lemma RemovedInserted(es: Elems, self: ElemId, child: ElemId, where: AddLocation)
    requires self in es && child !in es[self].children
    ensures Removed(Inserted(es, self, child, where), self, child) == es
  {
    UnlinkInsert(es[self].children, child, where);
    assert Removed(Inserted(es, self, child, where), self, child)[self] == es[self];
  }

  /** Adding a child below a windowed parent leaves the parent as it was,
    * apart from its list, and gives the child the window and the parent's
    * surface. */
  lemma AddedChildWindowedChild(es: Elems, rank: Ranks, hi: nat, a: Attrs, self: ElemId, child: ElemId, where: AddLocation,
                                layout: Layout, styleFor: StyleFor)
    requires self in es && child in es && Keyed(es, a) && es[self].hasWindow
    requires RankOrdered(Inserted(es, self, child, where), rank, hi) && Linked(Inserted(es, self, child, where))
    ensures var es1 := AddedChild(es, rank, hi, a, self, child, where, layout, styleFor).0;
      && self in es1 && child in es1 && es1[self].hasWindow
      && es1[child].hasWindow && es1[child].surface == es[self].surface
  {
    var ins := Inserted(es, self, child, where);
    var k := KidsOf(ins);
    InsertChildPlaces(es[self].children, child, where);
    assert k[self] == ins[self].children;
    ChildAttachingOutside(ins, k, rank, a.geoms, self, child, layout);
    ChildAttachingMarks(ins, k, rank, a.geoms, self, child, layout);
    assert self !in Preorder(k, rank, child);
    assert child in Preorder(k, rank, child);
  }

  /** Adding a child below a windowed parent and removing it again restores
    * the parent's list; the child ends with no parent, unattached and
    * without a style, but keeps the window and the parent's surface that
    * attaching gave it. */
  lemma AddedThenRemoved(es: Elems, rank: Ranks, hi: nat, a: Attrs, self: ElemId, child: ElemId, where: AddLocation,
                         layout: Layout, styleFor: StyleFor)
    requires self in es && child in es && Keyed(es, a) && WindowedArena(es)
    requires SurfacesKnown(es, a.surfaces) && QueuesOk(a.links, a.surfaces)
    requires es[self].hasWindow && Unowned(KidsOf(es), child)
    requires RankOrdered(Inserted(es, self, child, where), rank, hi) && Linked(Inserted(es, self, child, where))
    ensures var (es1, a1) := AddedChild(es, rank, hi, a, self, child, where, layout, styleFor);
      && Sound(es1, rank, hi, a1) && self in es1 && child in es1 && child in es1[self].children
      && var (es2, a2) := RemovedChild(es1, rank, hi, a1, self, child, layout, styleFor);
         && self in es2 && child in es2 && child in a2.styles
         && es2[self].children == es[self].children
         && es2[child].parent.None? && es2[child].state == Unattached && a2.styles[child].None?
         && es2[child].hasWindow && es2[child].surface == es[self].surface
  {
    AddedChildSound(es, rank, hi, a, self, child, where, layout, styleFor);
    AddedChildWindowedChild(es, rank, hi, a, self, child, where, layout, styleFor);
    InsertChildPlaces(es[self].children, child, where);
    var (es1, a1) := AddedChild(es, rank, hi, a, self, child, where, layout, styleFor);
    RemovedChildReleased(es1, rank, hi, a1, self, child, layout, styleFor);
    assert forall i :: 0 <= i < |es[self].children| ==> es[self].children[i] != child by {
      assert KidsOf(es)[self] == es[self].children;
    }
    UnlinkInsert(es[self].children, child, where);
  }

  // ---------------------------------------------------------------------
  // Mouse capture hand-off
  // ---------------------------------------------------------------------

  /** The button retargeted to `self` when `rtb_elem_is_in_tree(child, target)`. */
  ghost function Retargeted(b: Button, p: Parents, rank: Ranks, hi: nat, child: ElemId, self: ElemId): (r: Button)
    requires ParentRanked(p, rank, hi) && (b.target.Some? ==> b.target.value in p)
    ensures r.state == b.state
    ensures b.target.None? ==> r == b
    ensures b.target == Some(child) ==> r.target == Some(self)
  {
    if InTree(p, rank, hi, child, b.target) then b.(target := Some(self)) else b
  }

  /** Every button captured inside `child`'s subtree now targets `self`. */
  ghost function HandedOff(bs: seq<Button>, p: Parents, rank: Ranks, hi: nat, child: ElemId, self: ElemId): (r: seq<Button>)
    requires ParentRanked(p, rank, hi)
    requires forall i :: 0 <= i < |bs| && bs[i].target.Some? ==> bs[i].target.value in p
    ensures |r| == |bs|
    ensures forall i :: 0 <= i < |bs| ==> r[i].state == bs[i].state && r[i].target in {bs[i].target, Some(self)}
  {
    seq(|bs|, i requires 0 <= i < |bs| => Retargeted(bs[i], p, rank, hi, child, self))
  }

  /** Where every child in `child`'s subtree points back to its owner, the
    * hand-off retargets exactly the buttons whose target lies in that
    * subtree, and changes no button state. */
  lemma HandedOffSubtree(bs: seq<Button>, es: Elems, rank: Ranks, hi: nat, child: ElemId, self: ElemId)
    requires RankOrdered(es, rank, hi) && Linked(es) && child in es
    requires forall i :: 0 <= i < |bs| && bs[i].target.Some? ==> bs[i].target.value in es
    requires AttachedBelow(ParentsOf(es), KidsOf(es), rank, child)
    ensures var r := HandedOff(bs, ParentsOf(es), rank, hi, child, self);
      && |r| == |bs|
      && forall i :: 0 <= i < |bs| ==>
           && r[i].state == bs[i].state
           && r[i].target == (if bs[i].target.Some? && bs[i].target.value in Preorder(KidsOf(es), rank, child)
                              then Some(self) else bs[i].target)
  {
    var p, k := ParentsOf(es), KidsOf(es);
    forall i | 0 <= i < |bs| && bs[i].target.Some?
      ensures InTree(p, rank, hi, child, bs[i].target) <==> bs[i].target.value in Preorder(k, rank, child)
    {
      InTreeIffSubtree(p, k, rank, hi, child, bs[i].target.value);
    }
  }
}
