/**
 * `recalculate`, `recalc_rootward` and `recalc_leafward` as functions of the
 * attributes they change: each returns what the C function returns, the
 * attributes it leaves behind and the elements whose layout callback ran, in
 * order.  The tree itself (children lists, parents, paddings, surfaces of the
 * elements) does not change during a recalculation.
 */
module Recalc {
  import opened ElementTypes
  import opened ElementTree
  import opened RenderQueue
  import opened Geometry

  /** The attributes of the elements that a recalculation changes. */
  datatype Attrs = Attrs(geoms: Geoms, styles: Styles, links: Links, surfaces: Surfaces)

  /** The result of a recalculation (`recalculate` returning 1 or 0), the
    * attributes after it, and the elements laid out, in the order their
    * `layout_cb` ran. */
  datatype Outcome = Outcome(went: bool, attrs: Attrs, trace: seq<ElemId>)

  /** Every element has a geometry, a style slot and a render-queue link. */
  predicate Keyed(es: Elems, a: Attrs)
  {
    forall e :: e in es ==> e in a.geoms && e in a.styles && e in a.links
  }

  /** The order of a rootward pass that went on: the element and its whole
    * subtree (its own layout, then each child's leafward pass), and then, if
    * it has a parent, the parent's recalculation. */
  ghost predicate RootwardTrace(k: Kids, p: Parents, rank: Ranks, self: ElemId, trace: seq<ElemId>)
    requires ChildRanked(k, rank) && self in k && self in p
  {
    var sub := Preorder(k, rank, self);
    && sub <= trace
    && (p[self].None? ==> trace == sub)
    && (p[self].Some? ==> |trace| > |sub| && trace[|sub|] == p[self].value)
  }

  /** Only elements on the parent path upwards from `self` (itself included)
    * were newly linked into a render queue. */
  ghost predicate DirtiedRootward(es: Elems, ls: Links, ls': Links, rank: Ranks, hi: nat, self: ElemId)
  {
    && ParentRanked(ParentsOf(es), rank, hi) && self in es
    && forall e :: e in es && e in ls && e in ls' && ls'[e] != ls[e] ==> InTree(ParentsOf(es), rank, hi, e, Some(self))
  }

  /** `recalculate(self, instigator, dir)`: resolve a missing style, pass the
    * recalculation on in `dir`, and unless a rootward pass stopped short,
    * recompute the far corner and the inner rectangle of `self`. */
  function Recalculation(es: Elems, ghost rank: Ranks, ghost hi: nat, a: Attrs, self: ElemId, inst: Option<ElemId>,
                         dir: Direction, layout: Layout, styleFor: StyleFor): (r: Outcome)
    requires RankOrdered(es, rank, hi) && Keyed(es, a) && self in es
    requires dir == Rootward ==> inst.Some? && inst.value in es
    ensures Keyed(es, r.attrs)
    ensures |r.trace| >= 1 && r.trace[0] == self
    ensures r.went ==> Bounded(r.attrs.geoms[self], es[self].outerPad)
    ensures dir == Leafward ==>
      r.went && r.attrs.links == a.links && r.attrs.surfaces == a.surfaces
    decreases if dir == Rootward then 1 else 0, if dir == Rootward then hi - rank[self] else rank[self], 3, 0
  {
    var a1 := a.(styles := StyleResolved(a.styles, self, styleFor));
    var r := if dir == Rootward then RootwardPass(es, rank, hi, a1, self, inst.value, layout, styleFor)
             else var (a2, t) := LeafwardPass(es, rank, hi, a1, self, layout, styleFor); Outcome(true, a2, t);
    if r.went then r.(attrs := r.attrs.(geoms := r.attrs.geoms[self := WithBounds(r.attrs.geoms[self], es[self].outerPad)]))
    else r
  }

  /** `recalc_rootward`: lay `self` out; stop there (returning 0) if the
    * instigator's size is unchanged; otherwise recalculate the children
    * leafward, the parent rootward with `self` as instigator, and mark `self`
    * dirty. */
  function RootwardPass(es: Elems, ghost rank: Ranks, ghost hi: nat, a: Attrs, self: ElemId, inst: ElemId,
                        layout: Layout, styleFor: StyleFor): (r: Outcome)
    requires RankOrdered(es, rank, hi) && Keyed(es, a) && self in es && inst in es
    ensures Keyed(es, r.attrs) && |r.trace| >= 1 && r.trace[0] == self
    ensures r.went <==> SizeChanged(a.geoms[inst], ApplyLayout(a.geoms, self, layout)[inst])
    ensures !r.went ==> r.trace == [self] && r.attrs == a.(geoms := ApplyLayout(a.geoms, self, layout))
    decreases 1, hi - rank[self], 2, 0
  {
    var a1 := a.(geoms := ApplyLayout(a.geoms, self, layout));
    if !SizeChanged(a.geoms[inst], a1.geoms[inst]) then Outcome(false, a1, [self])
    else
      var (a2, t) := PassedOn(es, rank, hi, a1, self, layout, styleFor);
      Outcome(true, a2, t)
  }

  /** The rest of `recalc_rootward` once the instigator's size changed: the
    * children leafward, then the parent and the marking.  The trace starts
    * with `self`, whose layout already ran. */
  function PassedOn(es: Elems, ghost rank: Ranks, ghost hi: nat, a: Attrs, self: ElemId,
                    layout: Layout, styleFor: StyleFor): (r: (Attrs, seq<ElemId>))
    requires RankOrdered(es, rank, hi) && Keyed(es, a) && self in es
    ensures Keyed(es, r.0) && |r.1| >= 1 && r.1[0] == self
    decreases 1, hi - rank[self], 1, 0
  {
    ChildrenRanked(es, rank, hi, self);
    var (a2, t) := ChildrenPass(es, rank, hi, a, self, es[self].children, rank[self], layout, styleFor);
    var (a3, tp) := ParentPassed(es, rank, hi, a2, self, layout, styleFor);
    (a3, [self] + (t + tp))
  }

  /** The parent (if any) recalculated rootward with `self` as instigator,
    * then `rtb_elem_mark_dirty(self)`.  The trace is the parent's. */
  function ParentPassed(es: Elems, ghost rank: Ranks, ghost hi: nat, a: Attrs, self: ElemId,
                        layout: Layout, styleFor: StyleFor): (r: (Attrs, seq<ElemId>))
    requires RankOrdered(es, rank, hi) && Keyed(es, a) && self in es
    ensures Keyed(es, r.0)
    decreases 1, hi - rank[self], 0, 0
  {
    ChildrenRanked(es, rank, hi, self);
    var (a3, tp) :=
      if es[self].parent.Some? then
        var rp := Recalculation(es, rank, hi, a, es[self].parent.value, Some(self), Rootward, layout, styleFor);
        (rp.attrs, rp.trace)
      else (a, []);
    var (ls, ss) := MarkedDirty(es, a3.links, a3.surfaces, self);
    (a3.(links := ls, surfaces := ss), tp)
  }

  /** `recalc_leafward`: lay `self` out, then recalculate every child leafward. */
  function LeafwardPass(es: Elems, ghost rank: Ranks, ghost hi: nat, a: Attrs, self: ElemId,
                        layout: Layout, styleFor: StyleFor): (r: (Attrs, seq<ElemId>))
    requires RankOrdered(es, rank, hi) && Keyed(es, a) && self in es
    ensures Keyed(es, r.0) && r.0.links == a.links && r.0.surfaces == a.surfaces
    ensures |r.1| >= 1 && r.1[0] == self
    decreases 0, rank[self], 1, 0
  {
    ChildrenRanked(es, rank, hi, self);
    var (a2, t) := ChildrenPass(es, rank, hi, a.(geoms := ApplyLayout(a.geoms, self, layout)), self,
                                es[self].children, rank[self], layout, styleFor);
    (a2, [self] + t)
  }

  /** The `TAILQ_FOREACH` over the children of `owner` (or what is left of
    * them), each recalculated leafward with `owner` as instigator. */
  function ChildrenPass(es: Elems, ghost rank: Ranks, ghost hi: nat, a: Attrs, owner: ElemId, cs: seq<ElemId>,
                        ghost bound: nat, layout: Layout, styleFor: StyleFor): (r: (Attrs, seq<ElemId>))
    requires RankOrdered(es, rank, hi) && Keyed(es, a)
    requires forall c :: c in cs ==> c in es && c in rank && rank[c] < bound
    ensures Keyed(es, r.0) && r.0.links == a.links && r.0.surfaces == a.surfaces
    decreases 0, bound, 0, |cs|
  {
    if cs == [] then (a, [])
    else
      var r1 := Recalculation(es, rank, hi, a, cs[0], Some(owner), Leafward, layout, styleFor);
      var (a2, t2) := ChildrenPass(es, rank, hi, r1.attrs, owner, cs[1..], bound, layout, styleFor);
      (a2, r1.trace + t2)
  }

  /** A trace built up piece by piece is the pieces joined at once. */
  lemma TraceAppend(done: seq<ElemId>, t: seq<ElemId>, rest: seq<ElemId>)
    ensures done + (t + rest) == (done + t) + rest
  {
  }

  lemma ChildrenRanked(es: Elems, rank: Ranks, hi: nat, self: ElemId)
    requires RankOrdered(es, rank, hi) && self in es
    ensures forall c :: c in es[self].children ==> c in es && c in rank && rank[c] < rank[self]
    ensures es[self].parent.Some? ==> es[self].parent.value in es && rank[self] < rank[es[self].parent.value]
  {
    assert KidsOf(es)[self] == es[self].children && ParentsOf(es)[self] == es[self].parent;
  }

  // ---------------------------------------------------------------------
  // Styles
  // ---------------------------------------------------------------------

  /** The style of `e` is what resolving it would leave it at. */
  predicate StyleSettled(st: Styles, e: ElemId, styleFor: StyleFor)
    requires e in st
  {
    st[e].Some? || styleFor(e).None?
  }

  /** Exactly the elements visited had a missing style resolved; every other
    * style is as it was. */
  ghost predicate StylesResolvedOn(st: Styles, st': Styles, styleFor: StyleFor, visited: seq<ElemId>)
  {
    forall e :: e in st ==> e in st' && st'[e] == (if e in visited && st[e].None? then styleFor(e) else st[e])
  }

  lemma StylesResolvedConcat(a: Styles, b: Styles, c: Styles, styleFor: StyleFor, t1: seq<ElemId>, t2: seq<ElemId>)
    requires StylesResolvedOn(a, b, styleFor, t1) && StylesResolvedOn(b, c, styleFor, t2)
    ensures StylesResolvedOn(a, c, styleFor, t1 + t2)
  {
    forall e | e in a
      ensures e in c && c[e] == (if e in t1 + t2 && a[e].None? then styleFor(e) else a[e])
    {
      assert e in t1 + t2 <==> e in t1 || e in t2;
    }
  }

  /** Visiting an element whose style is settled resolves nothing more. */
  lemma StylesResolvedSettled(a: Styles, b: Styles, styleFor: StyleFor, self: ElemId, t: seq<ElemId>)
    requires self in a && StyleSettled(a, self, styleFor)
    requires StylesResolvedOn(a, b, styleFor, t)
    ensures StylesResolvedOn(a, b, styleFor, [self] + t)
  {
    forall e | e in a
      ensures e in b && b[e] == (if e in [self] + t && a[e].None? then styleFor(e) else a[e])
    {
      assert e in [self] + t <==> e == self || e in t;
    }
  }

  /** Resolving the style of `self` and then visiting `self` and more resolves
    * the styles of exactly the elements visited. */
  lemma StylesResolvedFirst(a: Styles, b: Styles, styleFor: StyleFor, self: ElemId, t: seq<ElemId>)
    requires self in a && |t| >= 1 && t[0] == self
    requires StylesResolvedOn(StyleResolved(a, self, styleFor), b, styleFor, t)
    ensures StylesResolvedOn(a, b, styleFor, t)
  {
    forall e | e in a
      ensures e in b && b[e] == (if e in t && a[e].None? then styleFor(e) else a[e])
    {
      if e == self {
        assert e in t;
      }
    }
  }

  /** A recalculation resolves the missing styles of exactly the elements it
    * laid out, and leaves every present style alone. */
  lemma {:induction false} RecalculationStyles(es: Elems, rank: Ranks, hi: nat, a: Attrs, self: ElemId,
                                               inst: Option<ElemId>, dir: Direction, layout: Layout, styleFor: StyleFor)
    requires RankOrdered(es, rank, hi) && Keyed(es, a) && self in es
    requires dir == Rootward ==> inst.Some? && inst.value in es
    ensures var r := Recalculation(es, rank, hi, a, self, inst, dir, layout, styleFor);
      StylesResolvedOn(a.styles, r.attrs.styles, styleFor, r.trace)
    decreases if dir == Rootward then 1 else 0, if dir == Rootward then hi - rank[self] else rank[self], 3, 0
  {
    var a1 := a.(styles := StyleResolved(a.styles, self, styleFor));
    var r := Recalculation(es, rank, hi, a, self, inst, dir, layout, styleFor);
    if dir == Rootward {
      RootwardStyles(es, rank, hi, a1, self, inst.value, layout, styleFor);
    } else {
      LeafwardStyles(es, rank, hi, a1, self, layout, styleFor);
    }
    StylesResolvedFirst(a.styles, r.attrs.styles, styleFor, self, r.trace);
  }

  lemma {:induction false} RootwardStyles(es: Elems, rank: Ranks, hi: nat, a: Attrs, self: ElemId, inst: ElemId,
                                          layout: Layout, styleFor: StyleFor)
    requires RankOrdered(es, rank, hi) && Keyed(es, a) && self in es && inst in es
    requires StyleSettled(a.styles, self, styleFor)
    ensures var r := RootwardPass(es, rank, hi, a, self, inst, layout, styleFor);
      StylesResolvedOn(a.styles, r.attrs.styles, styleFor, r.trace)
    decreases 1, hi - rank[self], 2, 0
  {
    var a1 := a.(geoms := ApplyLayout(a.geoms, self, layout));
    if SizeChanged(a.geoms[inst], a1.geoms[inst]) {
      PassedOnStyles(es, rank, hi, a1, self, layout, styleFor);
    }
  }

  lemma {:induction false} PassedOnStyles(es: Elems, rank: Ranks, hi: nat, a: Attrs, self: ElemId,
                                          layout: Layout, styleFor: StyleFor)
    requires RankOrdered(es, rank, hi) && Keyed(es, a) && self in es
    requires StyleSettled(a.styles, self, styleFor)
    ensures var r := PassedOn(es, rank, hi, a, self, layout, styleFor);
      StylesResolvedOn(a.styles, r.0.styles, styleFor, r.1)
    decreases 1, hi - rank[self], 1, 0
  {
    ChildrenRanked(es, rank, hi, self);
    var (a2, t) := ChildrenPass(es, rank, hi, a, self, es[self].children, rank[self], layout, styleFor);
    ChildrenStyles(es, rank, hi, a, self, es[self].children, rank[self], layout, styleFor);
    var (a3, tp) := ParentPassed(es, rank, hi, a2, self, layout, styleFor);
    ParentPassedStyles(es, rank, hi, a2, self, layout, styleFor);
    StylesResolvedConcat(a.styles, a2.styles, a3.styles, styleFor, t, tp);
    StylesResolvedSettled(a.styles, a3.styles, styleFor, self, t + tp);
  }

  lemma {:induction false} ParentPassedStyles(es: Elems, rank: Ranks, hi: nat, a: Attrs, self: ElemId,
                                              layout: Layout, styleFor: StyleFor)
    requires RankOrdered(es, rank, hi) && Keyed(es, a) && self in es
    ensures var r := ParentPassed(es, rank, hi, a, self, layout, styleFor);
      StylesResolvedOn(a.styles, r.0.styles, styleFor, r.1)
    decreases 1, hi - rank[self], 0, 0
  {
    ChildrenRanked(es, rank, hi, self);
    if es[self].parent.Some? {
      RecalculationStyles(es, rank, hi, a, es[self].parent.value, Some(self), Rootward, layout, styleFor);
    }
  }

  lemma LeafwardStyles(es: Elems, rank: Ranks, hi: nat, a: Attrs, self: ElemId, layout: Layout, styleFor: StyleFor)
    requires RankOrdered(es, rank, hi) && Keyed(es, a) && self in es
    requires StyleSettled(a.styles, self, styleFor)
    ensures var r := LeafwardPass(es, rank, hi, a, self, layout, styleFor);
      StylesResolvedOn(a.styles, r.0.styles, styleFor, r.1)
    decreases 0, rank[self], 1, 0
  {
    ChildrenRanked(es, rank, hi, self);
    var a1 := a.(geoms := ApplyLayout(a.geoms, self, layout));
    var (a2, t) := ChildrenPass(es, rank, hi, a1, self, es[self].children, rank[self], layout, styleFor);
    ChildrenStyles(es, rank, hi, a1, self, es[self].children, rank[self], layout, styleFor);
    StylesResolvedSettled(a.styles, a2.styles, styleFor, self, t);
  }

  lemma {:induction false} ChildrenStyles(es: Elems, rank: Ranks, hi: nat, a: Attrs, owner: ElemId, cs: seq<ElemId>,
                                          bound: nat, layout: Layout, styleFor: StyleFor)
    requires RankOrdered(es, rank, hi) && Keyed(es, a)
    requires forall c :: c in cs ==> c in es && c in rank && rank[c] < bound
    ensures var r := ChildrenPass(es, rank, hi, a, owner, cs, bound, layout, styleFor);
      StylesResolvedOn(a.styles, r.0.styles, styleFor, r.1)
    decreases 0, bound, 0, |cs|
  {
    if cs != [] {
      var r1 := Recalculation(es, rank, hi, a, cs[0], Some(owner), Leafward, layout, styleFor);
      RecalculationStyles(es, rank, hi, a, cs[0], Some(owner), Leafward, layout, styleFor);
      var (a2, t2) := ChildrenPass(es, rank, hi, r1.attrs, owner, cs[1..], bound, layout, styleFor);
      ChildrenStyles(es, rank, hi, r1.attrs, owner, cs[1..], bound, layout, styleFor);
      StylesResolvedConcat(a.styles, r1.attrs.styles, a2.styles, styleFor, r1.trace, t2);
    }
  }

  // ---------------------------------------------------------------------
  // Order of the layout calls
  // ---------------------------------------------------------------------

  /** A leafward recalculation lays out the element's whole subtree, in
    * depth-first pre-order. */
  lemma {:induction false} LeafwardTrace(es: Elems, rank: Ranks, hi: nat, a: Attrs, self: ElemId, inst: Option<ElemId>,
                                         layout: Layout, styleFor: StyleFor)
    requires RankOrdered(es, rank, hi) && Keyed(es, a) && self in es
    ensures Recalculation(es, rank, hi, a, self, inst, Leafward, layout, styleFor).trace == Preorder(KidsOf(es), rank, self)
    decreases 0, rank[self], 3, 0
  {
    ChildrenRanked(es, rank, hi, self);
    var a1 := a.(styles := StyleResolved(a.styles, self, styleFor));
    ChildrenTrace(es, rank, hi, a1.(geoms := ApplyLayout(a1.geoms, self, layout)), self,
                  es[self].children, rank[self], layout, styleFor);
    assert KidsOf(es)[self] == es[self].children;
  }

  lemma {:induction false} ChildrenTrace(es: Elems, rank: Ranks, hi: nat, a: Attrs, owner: ElemId, cs: seq<ElemId>,
                                         bound: nat, layout: Layout, styleFor: StyleFor)
    requires RankOrdered(es, rank, hi) && Keyed(es, a)
    requires forall c :: c in cs ==> c in es && c in rank && rank[c] < bound
    ensures ChildrenPass(es, rank, hi, a, owner, cs, bound, layout, styleFor).1 == PreorderSeq(KidsOf(es), rank, cs, bound)
    decreases 0, bound, 0, |cs|
  {
    if cs != [] {
      var r1 := Recalculation(es, rank, hi, a, cs[0], Some(owner), Leafward, layout, styleFor);
      LeafwardTrace(es, rank, hi, a, cs[0], Some(owner), layout, styleFor);
      ChildrenTrace(es, rank, hi, r1.attrs, owner, cs[1..], bound, layout, styleFor);
    }
  }

  /** A rootward pass that went on laid out the element's subtree first and
    * then handed over to the parent. */
  lemma RootwardPassTrace(es: Elems, rank: Ranks, hi: nat, a: Attrs, self: ElemId, inst: ElemId,
                          layout: Layout, styleFor: StyleFor)
    requires RankOrdered(es, rank, hi) && Keyed(es, a) && self in es && inst in es
    ensures var r := RootwardPass(es, rank, hi, a, self, inst, layout, styleFor);
      r.went ==> RootwardTrace(KidsOf(es), ParentsOf(es), rank, self, r.trace)
  {
    var a1 := a.(geoms := ApplyLayout(a.geoms, self, layout));
    if SizeChanged(a.geoms[inst], a1.geoms[inst]) {
      PassedOnTrace(es, rank, hi, a1, self, layout, styleFor);
    }
  }

  /** A rootward recalculation goes on exactly when the instigator's size
    * changed under `self`'s layout.  One that stops short ran that layout
    * and nothing else: no other element is laid out, nothing is marked
    * dirty, the instigator keeps its size, every element keeps its far
    * corner and inner rectangle, and an element the layout assigns no box
    * keeps its whole geometry. */
  lemma ShortCircuitKeepsBounds(es: Elems, rank: Ranks, hi: nat, a: Attrs, self: ElemId, inst: ElemId,
                                layout: Layout, styleFor: StyleFor)
    requires RankOrdered(es, rank, hi) && Keyed(es, a) && self in es && inst in es
    ensures var r := Recalculation(es, rank, hi, a, self, Some(inst), Rootward, layout, styleFor);
      && (r.went <==> SizeChanged(a.geoms[inst], ApplyLayout(a.geoms, self, layout)[inst]))
      && (!r.went ==>
            && r.trace == [self]
            && r.attrs.links == a.links && r.attrs.surfaces == a.surfaces
            && r.attrs.geoms[inst].w == a.geoms[inst].w && r.attrs.geoms[inst].h == a.geoms[inst].h
            && (forall e :: e in a.geoms ==>
                  && e in r.attrs.geoms
                  && r.attrs.geoms[e].x2 == a.geoms[e].x2 && r.attrs.geoms[e].y2 == a.geoms[e].y2
                  && r.attrs.geoms[e].inner == a.geoms[e].inner)
            && (forall e :: e in a.geoms && e !in layout(self, a.geoms) ==> r.attrs.geoms[e] == a.geoms[e]))
  {
    ApplyLayoutEffect(a.geoms, self, layout);
  }

  lemma PassedOnTrace(es: Elems, rank: Ranks, hi: nat, a: Attrs, self: ElemId, layout: Layout, styleFor: StyleFor)
    requires RankOrdered(es, rank, hi) && Keyed(es, a) && self in es
    ensures RootwardTrace(KidsOf(es), ParentsOf(es), rank, self, PassedOn(es, rank, hi, a, self, layout, styleFor).1)
  {
    ChildrenRanked(es, rank, hi, self);
    var (a2, t) := ChildrenPass(es, rank, hi, a, self, es[self].children, rank[self], layout, styleFor);
    ChildrenTrace(es, rank, hi, a, self, es[self].children, rank[self], layout, styleFor);
    var (a3, tp) := ParentPassed(es, rank, hi, a2, self, layout, styleFor);
    assert KidsOf(es)[self] == es[self].children && ParentsOf(es)[self] == es[self].parent;
    assert Preorder(KidsOf(es), rank, self) == [self] + t;
    assert ([self] + (t + tp))[..|[self] + t|] == [self] + t;
  }

  // ---------------------------------------------------------------------
  // Render queues
  // ---------------------------------------------------------------------

  /** A recalculation keeps the queues consistent with the links, only appends
    * to them, newly links only elements on the parent path from `self`, and a
    * rootward pass that went on leaves `self` queued for redraw (or without a
    * live surface to be drawn on). */
  lemma {:induction false} RecalculationQueues(es: Elems, rank: Ranks, hi: nat, a: Attrs, self: ElemId,
                                               inst: Option<ElemId>, dir: Direction, layout: Layout, styleFor: StyleFor)
    requires RankOrdered(es, rank, hi) && Keyed(es, a) && self in es
    requires dir == Rootward ==> inst.Some? && inst.value in es
    requires QueuesOk(a.links, a.surfaces)
    ensures var r := Recalculation(es, rank, hi, a, self, inst, dir, layout, styleFor);
      && QueuesOk(r.attrs.links, r.attrs.surfaces) && QueuesGrow(a.surfaces, r.attrs.surfaces)
      && DirtiedRootward(es, a.links, r.attrs.links, rank, hi, self)
      && (dir == Rootward && r.went ==> r.attrs.links[self].Some? || !LiveSurface(es, r.attrs.surfaces, self))
    decreases 1, hi - rank[self], 3, 0
  {
    if dir == Rootward {
      var a1 := a.(styles := StyleResolved(a.styles, self, styleFor));
      var a2 := a1.(geoms := ApplyLayout(a1.geoms, self, layout));
      var i: ElemId := inst.value;
      assert i in es;
      if SizeChanged(a1.geoms[inst.value], a2.geoms[inst.value]) {
        PassedOnQueues(es, rank, hi, a2, self, layout, styleFor);
      }
    }
  }

  lemma {:induction false} PassedOnQueues(es: Elems, rank: Ranks, hi: nat, a: Attrs, self: ElemId,
                                          layout: Layout, styleFor: StyleFor)
    requires RankOrdered(es, rank, hi) && Keyed(es, a) && self in es
    requires QueuesOk(a.links, a.surfaces)
    ensures var r := PassedOn(es, rank, hi, a, self, layout, styleFor);
      && QueuesOk(r.0.links, r.0.surfaces) && QueuesGrow(a.surfaces, r.0.surfaces)
      && DirtiedRootward(es, a.links, r.0.links, rank, hi, self)
      && (r.0.links[self].Some? || !LiveSurface(es, r.0.surfaces, self))
    decreases 1, hi - rank[self], 1, 0
  {
    ChildrenRanked(es, rank, hi, self);
    var (a2, t) := ChildrenPass(es, rank, hi, a, self, es[self].children, rank[self], layout, styleFor);
    ParentPassedQueues(es, rank, hi, a2, self, layout, styleFor);
  }

  lemma {:induction false} ParentPassedQueues(es: Elems, rank: Ranks, hi: nat, a: Attrs, self: ElemId,
                                              layout: Layout, styleFor: StyleFor)
    requires RankOrdered(es, rank, hi) && Keyed(es, a) && self in es
    requires QueuesOk(a.links, a.surfaces)
    ensures var r := ParentPassed(es, rank, hi, a, self, layout, styleFor);
      && QueuesOk(r.0.links, r.0.surfaces) && QueuesGrow(a.surfaces, r.0.surfaces)
      && DirtiedRootward(es, a.links, r.0.links, rank, hi, self)
      && (r.0.links[self].Some? || !LiveSurface(es, r.0.surfaces, self))
    decreases 1, hi - rank[self], 0, 0
  {
    ChildrenRanked(es, rank, hi, self);
    if es[self].parent.Some? {
      var p := es[self].parent.value;
      RecalculationQueues(es, rank, hi, a, p, Some(self), Rootward, layout, styleFor);
      var a3 := Recalculation(es, rank, hi, a, p, Some(self), Rootward, layout, styleFor).attrs;
      DirtiedUp(es, a.links, a3.links, rank, hi, self, p);
      MarkedSelfQueues(es, rank, hi, a, a3, self);
    } else {
      QueuesGrowRefl(a.surfaces);
      MarkedSelfQueues(es, rank, hi, a, a, self);
    }
  }

  /** Marking `self` dirty at the end of a rootward pass keeps what the pass
    * did to the queues so far. */
  lemma MarkedSelfQueues(es: Elems, rank: Ranks, hi: nat, a: Attrs, a3: Attrs, self: ElemId)
    requires RankOrdered(es, rank, hi) && Keyed(es, a) && Keyed(es, a3) && self in es
    requires QueuesOk(a3.links, a3.surfaces) && QueuesGrow(a.surfaces, a3.surfaces)
    requires DirtiedRootward(es, a.links, a3.links, rank, hi, self)
    ensures var (ls, ss) := MarkedDirty(es, a3.links, a3.surfaces, self);
      && QueuesOk(ls, ss) && QueuesGrow(a.surfaces, ss)
      && DirtiedRootward(es, a.links, ls, rank, hi, self)
      && (ls[self].Some? || !LiveSurface(es, ss, self))
  {
    MarkDirtyKeepsQueues(es, a3.links, a3.surfaces, self);
    var (ls, ss) := MarkedDirty(es, a3.links, a3.surfaces, self);
    QueuesGrowTransitive(a.surfaces, a3.surfaces, ss);
    assert DirtiedRootward(es, a3.links, ls, rank, hi, self);
    DirtiedRootwardTransitive(es, a.links, a3.links, ls, rank, hi, self);
  }

  lemma QueuesGrowRefl(ss: Surfaces)
    ensures QueuesGrow(ss, ss)
  {
  }

  /** What was dirtied above the parent was dirtied above the child. */
  lemma DirtiedUp(es: Elems, ls: Links, ls': Links, rank: Ranks, hi: nat, self: ElemId, p: ElemId)
    requires RankOrdered(es, rank, hi) && self in es && es[self].parent == Some(p)
    requires DirtiedRootward(es, ls, ls', rank, hi, p)
    ensures DirtiedRootward(es, ls, ls', rank, hi, self)
  {
    assert ParentsOf(es)[self] == Some(p);
  }

  lemma DirtiedRootwardTransitive(es: Elems, a: Links, b: Links, c: Links, rank: Ranks, hi: nat, self: ElemId)
    requires forall e :: e in es ==> e in b
    requires DirtiedRootward(es, a, b, rank, hi, self) && DirtiedRootward(es, b, c, rank, hi, self)
    ensures DirtiedRootward(es, a, c, rank, hi, self)
  {
  }
}
