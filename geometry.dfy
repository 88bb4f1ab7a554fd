/**
 * What one step of a recalculation does to an element's attributes: run the
 * abstract layout callback, resolve a missing style, recompute the derived
 * bounds.
 */
module Geometry {
  import opened ElementTypes

  function WithBox(g: Geom, b: Box): Geom
  {
    g.(x := b.x, y := b.y, w := b.w, h := b.h)
  }

  /** The geometry after `layout_cb(self)`: the boxes the callback assigns are
    * written over the positions and sizes of their elements. */
  function ApplyLayout(gs: Geoms, self: ElemId, layout: Layout): (r: Geoms)
    ensures forall e :: e in gs ==> e in r
  {
    var boxes := layout(self, gs);
    map e | e in gs :: if e in boxes then WithBox(gs[e], boxes[e]) else gs[e]
  }

  /** Every element the callback assigns a box to takes that position and
    * size, and keeps its derived bounds until they are recomputed; every
    * other element keeps its geometry. */
  lemma ApplyLayoutEffect(gs: Geoms, self: ElemId, layout: Layout)
    ensures ApplyLayout(gs, self, layout).Keys == gs.Keys
    ensures forall e :: e in gs && e !in layout(self, gs) ==> ApplyLayout(gs, self, layout)[e] == gs[e]
    ensures forall e :: e in gs && e in layout(self, gs) ==>
      var b, r := layout(self, gs)[e], ApplyLayout(gs, self, layout)[e];
      r.x == b.x && r.y == b.y && r.w == b.w && r.h == b.h
        && r.x2 == gs[e].x2 && r.y2 == gs[e].y2 && r.inner == gs[e].inner
  {
  }

  /** The geometry after `layout_cb` ran for each element of `order` in turn. */
  function LaidAlong(gs: Geoms, order: seq<ElemId>, layout: Layout): (r: Geoms)
    ensures r.Keys == gs.Keys
  {
    if order == [] then gs else LaidAlong(ApplyLayout(gs, order[0], layout), order[1..], layout)
  }

  /** Laying out along two runs one after the other is laying out along both. */
  lemma {:induction false} LaidAlongConcat(gs: Geoms, a: seq<ElemId>, b: seq<ElemId>, layout: Layout)
    ensures LaidAlong(gs, a + b, layout) == LaidAlong(LaidAlong(gs, a, layout), b, layout)
    decreases |a|
  {
    if a != [] {
      assert (a + b)[0] == a[0] && (a + b)[1..] == a[1..] + b;
      LaidAlongConcat(ApplyLayout(gs, a[0], layout), a[1..], b, layout);
    } else {
      assert a + b == b;
    }
  }

  /** The lazy style resolution at the start of `recalculate`: a missing style
    * is looked up, a present one is kept. */
  function StyleResolved(st: Styles, self: ElemId, styleFor: StyleFor): (r: Styles)
    requires self in st
    ensures r.Keys == st.Keys
    ensures forall e :: e in st && e != self ==> r[e] == st[e]
    ensures r[self] == if st[self].Some? then st[self] else styleFor(self)
  {
    if st[self].Some? then st else st[self := styleFor(self)]
  }

  /** The derived bounds are consistent with position, size and outer padding:
    * far corner at position plus size, inner rectangle the bounds shrunk by
    * the outer padding on each side. */
  predicate Bounded(g: Geom, pad: Point)
  {
    && g.x2 == g.x + g.w
    && g.y2 == g.y + g.h
    && g.inner == Rect(g.x + pad.x, g.y + pad.y, g.x2 - pad.x, g.y2 - pad.y)
  }

  /** The tail of `recalculate`: recompute `x2`, `y2` and `inner_rect` from the
    * position and size, which it leaves alone. */
  function WithBounds(g: Geom, pad: Point): (r: Geom)
    ensures Bounded(r, pad)
    ensures r.x == g.x && r.y == g.y && r.w == g.w && r.h == g.h
  {
    var x2, y2 := g.x + g.w, g.y + g.h;
    g.(x2 := x2, y2 := y2, inner := Rect(g.x + pad.x, g.y + pad.y, x2 - pad.x, y2 - pad.y))
  }

  /** `recalc_rootward` compares only the size, not the position. */
  predicate SizeChanged(a: Geom, b: Geom)
  {
    a.w != b.w || a.h != b.h
  }
}
