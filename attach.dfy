/**
 * Which elements have a window, and how adding an element to the arena,
 * attaching a subtree and detaching a child keep the tree's invariants.
 */
module Attach {
  import opened ElementTypes
  import opened ElementTree
  import opened RenderQueue
  import opened Geometry
  import opened Recalc

  /** A window reaches down through children lists (except to the elements
    * in `pending`, which are listed but not attached yet), and a parent
    * back-reference only ever names an element that has the window. */
  ghost predicate WindowedExcept(es: Elems, pending: set<ElemId>)
  {
    && (forall e, i ::
          e in es && es[e].hasWindow && 0 <= i < |es[e].children| && es[e].children[i] in es && es[e].children[i] !in pending
          ==> es[es[e].children[i]].hasWindow)
    && (forall e :: e in es && es[e].parent.Some? && es[e].parent.value in es ==> es[es[e].parent.value].hasWindow)
  }

  ghost predicate WindowedArena(es: Elems)
  {
    WindowedExcept(es, {})
  }

  /** `rtb_elem_init`: a zeroed element on the base implementation, unattached,
    * with no window, no surface, no parent and no children, unobscured, and
    * the default paddings. */
  function NewElement(outerPad: Point, innerPad: Point): (e: Element)
    ensures e.state == Unattached && e.parent.None? && e.children == [] && !e.hasWindow
    ensures e.surface.None? && e.visibility == Unobscured
    ensures !e.mouseIn && !e.snoop && Complete(e.impl)
    ensures e.outerPad == outerPad && e.innerPad == innerPad
  {
    Element(None, [], false, None, Unattached, Unobscured, false, false, outerPad, innerPad, BaseImpl)
  }

  /** The geometry of a zeroed element. */
  const ZeroGeom: Geom := Geom(0, 0, 0, 0, 0, 0, Rect(0, 0, 0, 0))

  /** Adding a fresh, unlisted, childless and parentless element keeps every
    * invariant, and the new element is a subtree of its own. */
  lemma FreshKeeps(es: Elems, rank: Ranks, hi: nat, id: ElemId, el: Element)
    requires RankOrdered(es, rank, hi) && Linked(es) && WindowedArena(es) && id !in es
    requires el.parent.None? && el.children == []
    ensures RankOrdered(es[id := el], rank[id := 0], hi + 1) && Linked(es[id := el]) && WindowedArena(es[id := el])
    ensures Unowned(KidsOf(es[id := el]), id) && Preorder(KidsOf(es[id := el]), rank[id := 0], id) == [id]
  {
    var es', rank' := es[id := el], rank[id := 0];
    assert KidsOf(es') == KidsOf(es)[id := []] && ParentsOf(es') == ParentsOf(es)[id := None];
    FreshRanked(KidsOf(es), ParentsOf(es), rank, hi, id);
    FreshLinked(KidsOf(es), ParentsOf(es), id);
    FreshWindowed(es, rank, hi, id, el);
    assert Preorder(KidsOf(es'), rank', id) == [id] + PreorderSeq(KidsOf(es'), rank', [], 0);
  }

  lemma FreshRanked(k: Kids, p: Parents, rank: Ranks, hi: nat, id: ElemId)
    requires ChildRanked(k, rank) && ParentRanked(p, rank, hi) && id !in k && id !in p
    ensures ChildRanked(k[id := []], rank[id := 0]) && ParentRanked(p[id := None], rank[id := 0], hi + 1)
  {
  }

  lemma FreshLinked(k: Kids, p: Parents, id: ElemId)
    requires ParentsListed(p, k) && UniqueOwners(k) && id !in k && id !in p
    ensures ParentsListed(p[id := None], k[id := []]) && UniqueOwners(k[id := []])
  {
  }

  lemma FreshWindowed(es: Elems, rank: Ranks, hi: nat, id: ElemId, el: Element)
    requires RankOrdered(es, rank, hi) && WindowedArena(es) && id !in es
    requires el.parent.None? && el.children == []
    ensures WindowedArena(es[id := el])
  {
    var es' := es[id := el];
    forall e, i | e in es' && es'[e].hasWindow && 0 <= i < |es'[e].children| && es'[e].children[i] in es'
      ensures es'[es'[e].children[i]].hasWindow
    {
      assert e != id && es'[e] == es[e];
      assert e in KidsOf(es) && KidsOf(es)[e] == es[e].children;
      assert es[e].children[i] in KidsOf(es);
    }
    forall e | e in es' && es'[e].parent.Some? && es'[e].parent.value in es'
      ensures es'[es'[e].parent.value].hasWindow
    {
      assert e != id && es'[e] == es[e];
      assert es[e].parent == ParentsOf(es)[e];
    }
  }

  lemma QueuesOkFresh(es: Elems, ls: Links, ss: Surfaces, id: ElemId, el: Element)
    requires QueuesOk(ls, ss) && SurfacesKnown(es, ss) && id !in ls
    requires el.surface.None?
    ensures QueuesOk(ls[id := None], ss) && SurfacesKnown(es[id := el], ss)
  {
  }

  /** A fresh element gets an entry in every attribute map. */
  lemma FreshKeyed(es: Elems, a: Attrs, id: ElemId, el: Element, g: Geom, st: Option<Style>, l: Option<SurfaceId>)
    requires Keyed(es, a)
    ensures Keyed(es[id := el], a.(geoms := a.geoms[id := g], styles := a.styles[id := st], links := a.links[id := l]))
  {
  }

  // ---------------------------------------------------------------------
  // `attached` and `child_attached` over a subtree
  // ---------------------------------------------------------------------

  /** The children lists of the arena are those of `k`. */
  ghost predicate ListsAre(es: Elems, k: Kids)
  {
    forall e :: e in k ==> e in es && es[e].children == k[e]
  }

  /** `attached(self, parent, window)` on the element arena and the
    * geometries: `self` takes `parent` as its parent and the window, is laid
    * out, hands each child in list order to `child_attached`, and only then
    * becomes ATTACHED.  `k` holds the children lists, which attaching does
    * not change. */
  function Attaching(es: Elems, ghost k: Kids, ghost rank: Ranks, gs: Geoms, self: ElemId, parent: ElemId,
                     layout: Layout): (r: (Elems, Geoms))
    requires ChildRanked(k, rank) && ListsAre(es, k) && self in k
    ensures ListsAre(r.0, k) && forall e :: e in gs ==> e in r.1
    decreases rank[self], 1, 0
  {
    var es1 := es[self := es[self].(parent := Some(parent), hasWindow := true)];
    var gs1 := ApplyLayout(gs, self, layout);
    var (es2, gs2) := ChildrenAttaching(es1, k, rank, gs1, self, es[self].children, rank[self], layout);
    (es2[self := es2[self].(state := Attached)], gs2)
  }

  /** The `TAILQ_FOREACH` of `attached`: `child_attached(owner, c)` for each
    * `c` of `cs` in turn. */
  function ChildrenAttaching(es: Elems, ghost k: Kids, ghost rank: Ranks, gs: Geoms, owner: ElemId, cs: seq<ElemId>,
                             ghost bound: nat, layout: Layout): (r: (Elems, Geoms))
    requires ChildRanked(k, rank) && ListsAre(es, k) && owner in k
    requires forall c :: c in cs ==> c in k && rank[c] < bound
    ensures ListsAre(r.0, k) && forall e :: e in gs ==> e in r.1
    decreases bound, 0, |cs|
  {
    if cs == [] then (es, gs)
    else
      var (es1, gs1) := ChildAttaching(es, k, rank, gs, owner, cs[0], layout);
      ChildrenAttaching(es1, k, rank, gs1, owner, cs[1..], bound, layout)
  }

  /** `child_attached(owner, c)`: the child takes its owner's surface, then is
    * attached below the owner. */
  function ChildAttaching(es: Elems, ghost k: Kids, ghost rank: Ranks, gs: Geoms, owner: ElemId, c: ElemId,
                          layout: Layout): (r: (Elems, Geoms))
    requires ChildRanked(k, rank) && ListsAre(es, k) && owner in k && c in k
    ensures ListsAre(r.0, k) && forall e :: e in gs ==> e in r.1
    decreases rank[c], 2, 0
  {
    Attaching(es[c := es[c].(surface := es[owner].surface)], k, rank, gs, c, owner, layout)
  }

  /** The same elements, differing at most in parent, window, surface and
    * state, and so with the same children lists. */
  ghost predicate AttachFrame(es: Elems, es': Elems)
  {
    && es'.Keys == es.Keys && KidsOf(es') == KidsOf(es)
    && (forall e :: e in es ==> e in es' && es'[e] == es[e].(parent := es'[e].parent, hasWindow := es'[e].hasWindow,
                                                           surface := es'[e].surface, state := es'[e].state))
  }

  /** Replacing one element by itself with other parent, window, surface or
    * state stays within the frame. */
  lemma FrameStep(es: Elems, e: ElemId, v: Element)
    requires e in es && v.children == es[e].children
    requires v == es[e].(parent := v.parent, hasWindow := v.hasWindow, surface := v.surface, state := v.state)
    ensures AttachFrame(es, es[e := v])
  {
  }

  /** Attaching changes nothing outside the subtree, and inside it only
    * parents, windows, surfaces and states. */
  lemma {:induction false} AttachingOutside(es: Elems, k: Kids, rank: Ranks, gs: Geoms, self: ElemId, parent: ElemId,
                                            layout: Layout)
    requires ChildRanked(k, rank) && ListsAre(es, k) && self in k
    ensures var r := Attaching(es, k, rank, gs, self, parent, layout);
      AttachFrame(es, r.0) && forall e :: e in es && e !in Preorder(k, rank, self) ==> r.0[e] == es[e]
    decreases rank[self], 1, 0
  {
    var es1 := es[self := es[self].(parent := Some(parent), hasWindow := true)];
    FrameStep(es, self, es1[self]);
    var gs1 := ApplyLayout(gs, self, layout);
    ChildrenAttachingOutside(es1, k, rank, gs1, self, es[self].children, rank[self], layout);
    var (es2, _) := ChildrenAttaching(es1, k, rank, gs1, self, es[self].children, rank[self], layout);
    FrameStep(es2, self, es2[self].(state := Attached));
  }

  lemma {:induction false} ChildrenAttachingOutside(es: Elems, k: Kids, rank: Ranks, gs: Geoms, owner: ElemId,
                                                    cs: seq<ElemId>, bound: nat, layout: Layout)
    requires ChildRanked(k, rank) && ListsAre(es, k) && owner in k
    requires forall c :: c in cs ==> c in k && rank[c] < bound
    ensures var r := ChildrenAttaching(es, k, rank, gs, owner, cs, bound, layout);
      AttachFrame(es, r.0) && forall e :: e in es && e !in PreorderSeq(k, rank, cs, bound) ==> r.0[e] == es[e]
    decreases bound, 0, |cs|
  {
    if cs != [] {
      var (es1, gs1) := ChildAttaching(es, k, rank, gs, owner, cs[0], layout);
      ChildAttachingOutside(es, k, rank, gs, owner, cs[0], layout);
      ChildrenAttachingOutside(es1, k, rank, gs1, owner, cs[1..], bound, layout);
    }
  }

  lemma {:induction false} ChildAttachingOutside(es: Elems, k: Kids, rank: Ranks, gs: Geoms, owner: ElemId, c: ElemId,
                                                 layout: Layout)
    requires ChildRanked(k, rank) && ListsAre(es, k) && owner in k && c in k
    ensures var r := ChildAttaching(es, k, rank, gs, owner, c, layout);
      AttachFrame(es, r.0) && forall e :: e in es && e !in Preorder(k, rank, c) ==> r.0[e] == es[e]
    decreases rank[c], 2, 0
  {
    FrameStep(es, c, es[c].(surface := es[owner].surface));
    AttachingOutside(es[c := es[c].(surface := es[owner].surface)], k, rank, gs, c, owner, layout);
  }

  /** What `attached` leaves on an element of the attached subtree: the
    * window, ATTACHED, the surface `s`, and a parent whose list holds it. */
  ghost predicate AttachedUnder(es: Elems, k: Kids, e: ElemId, s: Option<SurfaceId>)
    requires e in es
  {
    && es[e].hasWindow && es[e].state == Attached && es[e].surface == s
    && es[e].parent.Some? && es[e].parent.value in k && e in k[es[e].parent.value]
  }

  /** After attaching, the whole subtree of `self` has the window, is
    * ATTACHED, draws to the surface of `self`, and has its parent set. */
  lemma {:induction false} AttachingMarks(es: Elems, k: Kids, rank: Ranks, gs: Geoms, self: ElemId, parent: ElemId,
                                          layout: Layout)
    requires ChildRanked(k, rank) && ListsAre(es, k) && self in k
    requires parent in k && self in k[parent]
    ensures var r := Attaching(es, k, rank, gs, self, parent, layout);
      forall e :: e in Preorder(k, rank, self) ==> e in r.0 && AttachedUnder(r.0, k, e, es[self].surface)
    decreases rank[self], 1, 0
  {
    var es1 := es[self := es[self].(parent := Some(parent), hasWindow := true)];
    var gs1 := ApplyLayout(gs, self, layout);
    var cs := es[self].children;
    ChildrenAttachingOutside(es1, k, rank, gs1, self, cs, rank[self], layout);
    ChildrenAttachingMarks(es1, k, rank, gs1, self, cs, rank[self], layout);
  }

  lemma {:induction false} ChildrenAttachingMarks(es: Elems, k: Kids, rank: Ranks, gs: Geoms, owner: ElemId,
                                                  cs: seq<ElemId>, bound: nat, layout: Layout)
    requires ChildRanked(k, rank) && ListsAre(es, k) && owner in k && bound <= rank[owner]
    requires forall c :: c in cs ==> c in k && rank[c] < bound && c in k[owner]
    ensures var r := ChildrenAttaching(es, k, rank, gs, owner, cs, bound, layout);
      forall e :: e in PreorderSeq(k, rank, cs, bound) ==> e in r.0 && AttachedUnder(r.0, k, e, es[owner].surface)
    decreases bound, 0, |cs|
  {
    if cs != [] {
      var (es1, gs1) := ChildAttaching(es, k, rank, gs, owner, cs[0], layout);
      ChildAttachingOutside(es, k, rank, gs, owner, cs[0], layout);
      ChildAttachingMarks(es, k, rank, gs, owner, cs[0], layout);
      ChildrenAttachingOutside(es1, k, rank, gs1, owner, cs[1..], bound, layout);
      ChildrenAttachingMarks(es1, k, rank, gs1, owner, cs[1..], bound, layout);
    }
  }

  lemma {:induction false} ChildAttachingMarks(es: Elems, k: Kids, rank: Ranks, gs: Geoms, owner: ElemId, c: ElemId,
                                               layout: Layout)
    requires ChildRanked(k, rank) && ListsAre(es, k) && owner in k && c in k[owner]
    ensures c in k
    ensures var r := ChildAttaching(es, k, rank, gs, owner, c, layout);
      forall e :: e in Preorder(k, rank, c) ==> e in r.0 && AttachedUnder(r.0, k, e, es[owner].surface)
    decreases rank[c], 2, 0
  {
    AttachingMarks(es[c := es[c].(surface := es[owner].surface)], k, rank, gs, c, owner, layout);
  }

  /** Attaching lays out the subtree in depth-first pre-order. */
  lemma {:induction false} AttachingLaid(es: Elems, k: Kids, rank: Ranks, gs: Geoms, self: ElemId, parent: ElemId,
                                         layout: Layout)
    requires ChildRanked(k, rank) && ListsAre(es, k) && self in k
    ensures Attaching(es, k, rank, gs, self, parent, layout).1 == LaidAlong(gs, Preorder(k, rank, self), layout)
    decreases rank[self], 1, 0
  {
    var es1 := es[self := es[self].(parent := Some(parent), hasWindow := true)];
    var gs1 := ApplyLayout(gs, self, layout);
    ChildrenAttachingLaid(es1, k, rank, gs1, self, es[self].children, rank[self], layout);
    var order := Preorder(k, rank, self);
    assert order[0] == self && order[1..] == PreorderSeq(k, rank, k[self], rank[self]);
  }

  lemma {:induction false} ChildrenAttachingLaid(es: Elems, k: Kids, rank: Ranks, gs: Geoms, owner: ElemId,
                                                 cs: seq<ElemId>, bound: nat, layout: Layout)
    requires ChildRanked(k, rank) && ListsAre(es, k) && owner in k
    requires forall c :: c in cs ==> c in k && rank[c] < bound
    ensures ChildrenAttaching(es, k, rank, gs, owner, cs, bound, layout).1 == LaidAlong(gs, PreorderSeq(k, rank, cs, bound), layout)
    decreases bound, 0, |cs|
  {
    if cs != [] {
      var (es1, gs1) := ChildAttaching(es, k, rank, gs, owner, cs[0], layout);
      AttachingLaid(es[cs[0] := es[cs[0]].(surface := es[owner].surface)], k, rank, gs, cs[0], owner, layout);
      ChildrenAttachingLaid(es1, k, rank, gs1, owner, cs[1..], bound, layout);
      LaidAlongConcat(gs, Preorder(k, rank, cs[0]), PreorderSeq(k, rank, cs[1..], bound), layout);
    }
  }

  // ---------------------------------------------------------------------
  // `rtb_elem_add_child`: what inserting and attaching keep
  // ---------------------------------------------------------------------

  /** The arena after `TAILQ_INSERT_HEAD` or `TAILQ_INSERT_TAIL` of `child`
    * into `self`'s children. */
  function Inserted(es: Elems, self: ElemId, child: ElemId, where: AddLocation): (r: Elems)
    requires self in es
  {
    es[self := es[self].(children := InsertChild(es[self].children, child, where))]
  }

  /** Inserting an unlisted child whose subtree does not hold `self` keeps the
    * tree ranked, under new ranks, and linked. */
  lemma InsertRankedLinked(es: Elems, rank: Ranks, hi: nat, self: ElemId, child: ElemId, where: AddLocation)
    requires RankOrdered(es, rank, hi) && Linked(es) && self in es && child in es
    requires Unowned(KidsOf(es), child) && self !in Preorder(KidsOf(es), rank, child)
    ensures RankOrdered(Inserted(es, self, child, where), Reranked(KidsOf(es), rank, child), hi + rank[child] + 1)
    ensures Linked(Inserted(es, self, child, where))
  {
    var k := KidsOf(es);
    InsertedLists(es, self, child, where);
    InsertRanked(k, ParentsOf(es), rank, hi, self, child, where);
    InsertUniqueOwners(k, self, child, where);
  }

  /** Ranks that order the arena once `child` is inserted. */
  lemma InsertRanks(es: Elems, rank: Ranks, hi: nat, self: ElemId, child: ElemId, where: AddLocation)
    returns (rank': Ranks, hi': nat)
    requires RankOrdered(es, rank, hi) && Linked(es) && self in es && child in es
    requires Unowned(KidsOf(es), child) && self !in Preorder(KidsOf(es), rank, child)
    ensures RankOrdered(Inserted(es, self, child, where), rank', hi') && Linked(Inserted(es, self, child, where))
  {
    InsertRankedLinked(es, rank, hi, self, child, where);
    rank', hi' := Reranked(KidsOf(es), rank, child), hi + rank[child] + 1;
  }

  /** Inserting changes one children list and no parent. */
  lemma InsertedLists(es: Elems, self: ElemId, child: ElemId, where: AddLocation)
    requires self in es
    ensures KidsOf(Inserted(es, self, child, where)) == KidsOf(es)[self := InsertChild(es[self].children, child, where)]
    ensures ParentsOf(Inserted(es, self, child, where)) == ParentsOf(es)
  {
  }

  /** After inserting, only the new list entry may lack the window, and not
    * even that below a parent without one. */
  lemma InsertWindowed(es: Elems, self: ElemId, child: ElemId, where: AddLocation)
    requires WindowedArena(es) && self in es
    ensures WindowedExcept(Inserted(es, self, child, where), {child})
    ensures !es[self].hasWindow ==> WindowedArena(Inserted(es, self, child, where))
  {
    var es' := Inserted(es, self, child, where);
    var cs := es[self].children;
    var off := if where == AddHead then 1 else 0;
    var pos := if where == AddHead then 0 else |cs|;
    assert es'[self].children[pos] == child;
    assert forall i :: 0 <= i < |cs| ==> es'[self].children[i + off] == cs[i];
    forall e, i | e in es' && es'[e].hasWindow && 0 <= i < |es'[e].children| && es'[e].children[i] in es'
                  && es'[e].children[i] != child
      ensures es'[es'[e].children[i]].hasWindow
    {
      var i0 := if e == self then i - off else i;
      assert es[e].children[i0] == es'[e].children[i];
    }
  }

  /** Attaching `child` below `self` keeps the children lists, the ranks, the
    * links and the geometry keys. */
  lemma AttachRankedLinked(es: Elems, rank: Ranks, hi: nat, gs: Geoms, self: ElemId, child: ElemId, layout: Layout)
    requires RankOrdered(es, rank, hi) && Linked(es) && self in es && child in es[self].children
    ensures child in es && KidsOf(es)[self] == es[self].children
    ensures var r := ChildAttaching(es, KidsOf(es), rank, gs, self, child, layout);
      KidsOf(r.0) == KidsOf(es) && RankOrdered(r.0, rank, hi) && Linked(r.0)
  {
    var k := KidsOf(es);
    assert k[self] == es[self].children;
    var i :| 0 <= i < |k[self]| && k[self][i] == child;
    var (es2, gs2) := ChildAttaching(es, k, rank, gs, self, child, layout);
    ChildAttachingOutside(es, k, rank, gs, self, child, layout);
    ChildAttachingMarks(es, k, rank, gs, self, child, layout);
    var sub := Preorder(k, rank, child);
    var p2 := ParentsOf(es2);
    forall e | e in p2
      ensures e in rank && rank[e] < hi
      ensures p2[e].Some? ==> p2[e].value in p2 && p2[e].value in rank && rank[e] < rank[p2[e].value]
      ensures p2[e].Some? ==> p2[e].value in k && e in k[p2[e].value]
    {
      assert e in ParentsOf(es);
      if e in sub {
        assert AttachedUnder(es2, k, e, es[self].surface);
        var q := es2[e].parent.value;
        var j :| 0 <= j < |k[q]| && k[q][j] == e;
      } else {
        assert es2[e] == es[e];
      }
    }
  }

  /** After attaching `child` below a windowed `self`, the window reaches down
    * every list again. */
  lemma AttachWindowed(es: Elems, rank: Ranks, hi: nat, gs: Geoms, self: ElemId, child: ElemId, layout: Layout)
    requires RankOrdered(es, rank, hi) && Linked(es) && self in es && child in es && child in es[self].children
    requires es[self].hasWindow && WindowedExcept(es, {child})
    ensures WindowedArena(ChildAttaching(es, KidsOf(es), rank, gs, self, child, layout).0)
  {
    var k := KidsOf(es);
    assert k[self] == es[self].children;
    var es2 := ChildAttaching(es, k, rank, gs, self, child, layout).0;
    ChildAttachingOutside(es, k, rank, gs, self, child, layout);
    ChildAttachingMarks(es, k, rank, gs, self, child, layout);
    var sub := Preorder(k, rank, child);
    var i0 :| 0 <= i0 < |k[self]| && k[self][i0] == child;
    assert self !in sub;
    forall e, i | e in es2 && es2[e].hasWindow && 0 <= i < |es2[e].children| && es2[e].children[i] in es2
      ensures es2[es2[e].children[i]].hasWindow
    {
      var c := es2[e].children[i];
      assert c == k[e][i];
      if c !in sub {
        if e in sub {
          PreorderChild(k, rank, e, i, c);
          PreorderClosed(k, rank, child, e, c);
        }
        assert es2[e] == es[e] && es2[c] == es[c];
      }
    }
    forall e | e in es2 && es2[e].parent.Some? && es2[e].parent.value in es2
      ensures es2[es2[e].parent.value].hasWindow
    {
      var q := es2[e].parent.value;
      if q !in sub {
        if e in sub {
          var j :| 0 <= j < |k[q]| && k[q][j] == e;
          if e == child {
            var i :| 0 <= i < |k[self]| && k[self][i] == child;
          } else {
            ListerInside(k, rank, child, e, q, j);
            assert false;
          }
        } else {
          assert es2[e] == es[e];
        }
        assert es2[q] == es[q];
      }
    }
  }

  /** Attaching hands the subtree `self`'s surface, so every surface an
    * element names is still known. */
  lemma AttachSurfaces(es: Elems, rank: Ranks, hi: nat, gs: Geoms, ss: Surfaces, self: ElemId, child: ElemId,
                       layout: Layout)
    requires RankOrdered(es, rank, hi) && self in es && child in es[self].children && SurfacesKnown(es, ss)
    ensures child in es
    ensures SurfacesKnown(ChildAttaching(es, KidsOf(es), rank, gs, self, child, layout).0, ss)
  {
    var k := KidsOf(es);
    assert k[self] == es[self].children;
    ChildAttachingOutside(es, k, rank, gs, self, child, layout);
    ChildAttachingMarks(es, k, rank, gs, self, child, layout);
  }

  /** Attaching keeps the arena's keys, so every element still has its
    * attributes. */
  lemma AttachKeyed(es: Elems, rank: Ranks, a: Attrs, self: ElemId, child: ElemId, layout: Layout)
    requires ChildRanked(KidsOf(es), rank) && Keyed(es, a) && self in es && child in es[self].children
    ensures child in KidsOf(es) && self in KidsOf(es)
    ensures var r := ChildAttaching(es, KidsOf(es), rank, a.geoms, self, child, layout);
      r.0.Keys == es.Keys && Keyed(r.0, a.(geoms := r.1))
  {
    var k := KidsOf(es);
    assert k[self] == es[self].children;
    ChildAttachingOutside(es, k, rank, a.geoms, self, child, layout);
  }

  /** The second half of `rtb_elem_add_child` below a windowed `self` that
    * already lists `child`: `child_attached` attaches the child's subtree,
    * then `self` is recalculated rootward with the child as instigator. */
  function AttachedRecalc(es: Elems, ghost rank: Ranks, ghost hi: nat, a: Attrs, self: ElemId, child: ElemId,
                          layout: Layout, styleFor: StyleFor): (r: (Elems, Attrs))
    requires RankOrdered(es, rank, hi) && Linked(es) && Keyed(es, a) && self in es && child in es[self].children
    ensures r.0.Keys == es.Keys && KidsOf(r.0) == KidsOf(es)
  {
    AttachRankedLinked(es, rank, hi, a.geoms, self, child, layout);
    AttachKeyed(es, rank, a, self, child, layout);
    var (es2, gs2) := ChildAttaching(es, KidsOf(es), rank, a.geoms, self, child, layout);
    (es2, Recalculation(es2, rank, hi, a.(geoms := gs2), self, Some(child), Rootward, layout, styleFor).attrs)
  }

  /** `rtb_elem_add_child` on the arena and the attributes: `child` goes at
    * the head or the tail of `self`'s children; only when `self` has the
    * window does the rest happen.  `rank` and `hi` order the arena after the
    * insertion (`InsertRankedLinked` gives such ranks). */
  function AddedChild(es: Elems, ghost rank: Ranks, ghost hi: nat, a: Attrs, self: ElemId, child: ElemId,
                      where: AddLocation, layout: Layout, styleFor: StyleFor): (r: (Elems, Attrs))
    requires self in es && child in es && Keyed(es, a)
    requires RankOrdered(Inserted(es, self, child, where), rank, hi) && Linked(Inserted(es, self, child, where))
    ensures r.0.Keys == es.Keys && r.0[self].children == InsertChild(es[self].children, child, where)
    ensures !es[self].hasWindow ==> r == (Inserted(es, self, child, where), a)
  {
    var ins := Inserted(es, self, child, where);
    if !es[self].hasWindow then (ins, a)
    else
      InsertedKeyed(es, a, self, child, where);
      AttachedRecalc(ins, rank, hi, a, self, child, layout, styleFor)
  }

  /** Inserting touches no surface and no key. */
  lemma InsertedKeyed(es: Elems, a: Attrs, self: ElemId, child: ElemId, where: AddLocation)
    requires self in es
    ensures Keyed(es, a) ==> Keyed(Inserted(es, self, child, where), a)
    ensures SurfacesKnown(es, a.surfaces) ==> SurfacesKnown(Inserted(es, self, child, where), a.surfaces)
  {
  }

  /** Attaching and recalculating keep the arena ranked and linked. */
  lemma AttachedTree(es: Elems, rank: Ranks, hi: nat, a: Attrs, self: ElemId, child: ElemId,
                     layout: Layout, styleFor: StyleFor)
    requires RankOrdered(es, rank, hi) && Linked(es) && Keyed(es, a) && self in es && child in es[self].children
    ensures var r := AttachedRecalc(es, rank, hi, a, self, child, layout, styleFor);
      RankOrdered(r.0, rank, hi) && Linked(r.0) && Keyed(r.0, r.1)
  {
    AttachRankedLinked(es, rank, hi, a.geoms, self, child, layout);
  }

  /** Attaching below a windowed `self` gives the window to every element
    * that was waiting for it. */
  lemma AttachedWindowed(es: Elems, rank: Ranks, hi: nat, a: Attrs, self: ElemId, child: ElemId,
                         layout: Layout, styleFor: StyleFor)
    requires RankOrdered(es, rank, hi) && Linked(es) && Keyed(es, a) && self in es && child in es[self].children
    requires es[self].hasWindow && WindowedExcept(es, {child})
    ensures WindowedArena(AttachedRecalc(es, rank, hi, a, self, child, layout, styleFor).0)
  {
    AttachRankedLinked(es, rank, hi, a.geoms, self, child, layout);
    AttachWindowed(es, rank, hi, a.geoms, self, child, layout);
  }

  /** Attaching and recalculating keep the surfaces known and the render
    * queues in agreement with the links. */
  lemma AttachedQueues(es: Elems, rank: Ranks, hi: nat, a: Attrs, self: ElemId, child: ElemId,
                       layout: Layout, styleFor: StyleFor)
    requires RankOrdered(es, rank, hi) && Linked(es) && Keyed(es, a) && self in es && child in es[self].children
    requires SurfacesKnown(es, a.surfaces) && QueuesOk(a.links, a.surfaces)
    ensures var r := AttachedRecalc(es, rank, hi, a, self, child, layout, styleFor);
      SurfacesKnown(r.0, r.1.surfaces) && QueuesOk(r.1.links, r.1.surfaces)
  {
    AttachRankedLinked(es, rank, hi, a.geoms, self, child, layout);
    AttachKeyed(es, rank, a, self, child, layout);
    AttachSurfaces(es, rank, hi, a.geoms, a.surfaces, self, child, layout);
    var (es2, gs2) := ChildAttaching(es, KidsOf(es), rank, a.geoms, self, child, layout);
    RecalculationQueues(es2, rank, hi, a.(geoms := gs2), self, Some(child), Rootward, layout, styleFor);
    SurfacesKnownGrow(es2, a.surfaces,
                      Recalculation(es2, rank, hi, a.(geoms := gs2), self, Some(child), Rootward, layout, styleFor).attrs.surfaces);
  }

  /** `rtb_elem_add_child` keeps the arena ranked, linked and keyed. */
  lemma AddedChildTree(es: Elems, rank: Ranks, hi: nat, a: Attrs, self: ElemId, child: ElemId,
                       where: AddLocation, layout: Layout, styleFor: StyleFor)
    requires self in es && child in es && Keyed(es, a)
    requires RankOrdered(Inserted(es, self, child, where), rank, hi) && Linked(Inserted(es, self, child, where))
    ensures var (es', a') := AddedChild(es, rank, hi, a, self, child, where, layout, styleFor);
      RankOrdered(es', rank, hi) && Linked(es') && Keyed(es', a')
  {
    InsertedKeyed(es, a, self, child, where);
    if es[self].hasWindow {
      AttachedTree(Inserted(es, self, child, where), rank, hi, a, self, child, layout, styleFor);
    }
  }

  /** After `rtb_elem_add_child` the window reaches down every children list
    * and up every parent link of an element that has it. */
  lemma AddedChildWindowed(es: Elems, rank: Ranks, hi: nat, a: Attrs, self: ElemId, child: ElemId,
                           where: AddLocation, layout: Layout, styleFor: StyleFor)
    requires self in es && child in es && Keyed(es, a) && WindowedArena(es)
    requires RankOrdered(Inserted(es, self, child, where), rank, hi) && Linked(Inserted(es, self, child, where))
    ensures WindowedArena(AddedChild(es, rank, hi, a, self, child, where, layout, styleFor).0)
  {
    InsertWindowed(es, self, child, where);
    InsertedKeyed(es, a, self, child, where);
    if es[self].hasWindow {
      AttachedWindowed(Inserted(es, self, child, where), rank, hi, a, self, child, layout, styleFor);
    }
  }

  /** After `rtb_elem_add_child` the surfaces the elements name exist and
    * the render queues agree with the links. */
  lemma AddedChildQueues(es: Elems, rank: Ranks, hi: nat, a: Attrs, self: ElemId, child: ElemId,
                         where: AddLocation, layout: Layout, styleFor: StyleFor)
    requires self in es && child in es && Keyed(es, a)
    requires RankOrdered(Inserted(es, self, child, where), rank, hi) && Linked(Inserted(es, self, child, where))
    requires SurfacesKnown(es, a.surfaces) && QueuesOk(a.links, a.surfaces)
    ensures var (es', a') := AddedChild(es, rank, hi, a, self, child, where, layout, styleFor);
      SurfacesKnown(es', a'.surfaces) && QueuesOk(a'.links, a'.surfaces)
  {
    InsertedKeyed(es, a, self, child, where);
    if es[self].hasWindow {
      AttachedQueues(Inserted(es, self, child, where), rank, hi, a, self, child, layout, styleFor);
    }
  }

  /** Everything a window keeps true of its arena: ranks order the tree, the
    * links agree, every element is keyed in the attributes, windows are
    * inherited, and surfaces and queues agree. */
  ghost predicate Sound(es: Elems, rank: Ranks, hi: nat, a: Attrs)
  {
    && RankOrdered(es, rank, hi) && Linked(es) && Keyed(es, a) && WindowedArena(es)
    && SurfacesKnown(es, a.surfaces) && QueuesOk(a.links, a.surfaces)
  }

  /** A window holding only its own root, parentless and childless, with an
    * empty queue on its surface, is sound. */
  lemma SingletonSound(root: ElemId, el: Element, surface: SurfaceId)
    requires el.parent.None? && el.children == [] && el.surface == Some(surface)
    ensures Sound(map[root := el], map[root := 0], 1,
                  Attrs(map[root := ZeroGeom], map[root := None], map[root := None], map[surface := Surface(SurfaceValid, [])]))
  {
  }

  /** `rtb_elem_add_child` keeps the arena sound. */
  lemma AddedChildSound(es: Elems, rank: Ranks, hi: nat, a: Attrs, self: ElemId, child: ElemId,
                        where: AddLocation, layout: Layout, styleFor: StyleFor)
    requires self in es && child in es && Keyed(es, a) && WindowedArena(es)
    requires RankOrdered(Inserted(es, self, child, where), rank, hi) && Linked(Inserted(es, self, child, where))
    requires SurfacesKnown(es, a.surfaces) && QueuesOk(a.links, a.surfaces)
    ensures var (es', a') := AddedChild(es, rank, hi, a, self, child, where, layout, styleFor);
      Sound(es', rank, hi, a')
  {
    AddedChildTree(es, rank, hi, a, self, child, where, layout, styleFor);
    AddedChildWindowed(es, rank, hi, a, self, child, where, layout, styleFor);
    AddedChildQueues(es, rank, hi, a, self, child, where, layout, styleFor);
  }
}
