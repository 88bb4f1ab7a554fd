/**
 * The per-surface redraw queue (`render_ctx.queues.next_frame`) and
 * `mark_dirty`, which links an element into it at most once.  The
 * intrusive `render_entry` link of an element is modelled as the surface
 * whose queue it is linked into, if any (`Links`).
 */
module RenderQueue {
  import opened ElementTypes
  import opened ElementTree

  /** Every surface an element refers to exists. */
  ghost predicate SurfacesKnown(es: Elems, ss: Surfaces)
  {
    forall e :: e in es && es[e].surface.Some? ==> es[e].surface.value in ss
  }

  /** The link fields and the queues agree, and no queue holds an element twice. */
  ghost predicate QueuesOk(ls: Links, ss: Surfaces)
  {
    && (forall e :: e in ls && ls[e].Some? ==> ls[e].value in ss && e in ss[ls[e].value].nextFrame)
    && (forall s, i :: s in ss && 0 <= i < |ss[s].nextFrame| ==>
          ss[s].nextFrame[i] in ls && ls[ss[s].nextFrame[i]] == Some(s))
    && (forall s :: s in ss ==> NoDuplicates(ss[s].nextFrame))
  }

  /** The element has a surface and that surface is not RTB_SURFACE_INVALID. */
  predicate LiveSurface(es: Elems, ss: Surfaces, e: ElemId)
    requires e in es
  {
    es[e].surface.Some? && es[e].surface.value in ss && ss[es[e].surface.value].state != SurfaceInvalid
  }

  /** `mark_dirty`: nothing happens without a live surface or when the element is
    * already linked into a queue; otherwise it is appended to the tail of its
    * surface's next-frame queue. */
  function MarkedDirty(es: Elems, ls: Links, ss: Surfaces, e: ElemId): (r: (Links, Surfaces))
    requires e in es && e in ls
  {
    if !LiveSurface(es, ss, e) || ls[e].Some? then (ls, ss)
    else
      var s := es[e].surface.value;
      (ls[e := Some(s)], ss[s := ss[s].(nextFrame := ss[s].nextFrame + [e])])
  }

  /** The queues only ever grow at their tails, and surfaces keep their state. */
  ghost predicate QueuesGrow(ss: Surfaces, ss': Surfaces)
  {
    forall s :: s in ss ==> s in ss' && ss'[s].state == ss[s].state && ss[s].nextFrame <= ss'[s].nextFrame
  }

  /** Surfaces only ever come into being, so the ones named stay known. */
  lemma SurfacesKnownGrow(es: Elems, ss: Surfaces, ss': Surfaces)
    requires SurfacesKnown(es, ss) && QueuesGrow(ss, ss')
    ensures SurfacesKnown(es, ss')
  {
    forall e | e in es && es[e].surface.Some?
      ensures es[e].surface.value in ss'
    {
      var s := es[e].surface.value;
      assert s in ss && ss[s].state == ss[s].state;
    }
  }

  lemma QueuesGrowTransitive(a: Surfaces, b: Surfaces, c: Surfaces)
    requires QueuesGrow(a, b) && QueuesGrow(b, c)
    ensures QueuesGrow(a, c)
  {
    forall s | s in a
      ensures s in c && a[s].nextFrame <= c[s].nextFrame
    {
      var p, q, r := a[s].nextFrame, b[s].nextFrame, c[s].nextFrame;
      assert p == q[..|p|] && q == r[..|q|];
      assert r[..|q|][..|p|] == r[..|p|];
    }
  }

  /** Marking dirty keeps the queues consistent with the links, only appends,
    * and changes no link but that of `e`. */
  lemma MarkDirtyKeepsQueues(es: Elems, ls: Links, ss: Surfaces, e: ElemId)
    requires e in es && e in ls && QueuesOk(ls, ss)
    ensures QueuesOk(MarkedDirty(es, ls, ss, e).0, MarkedDirty(es, ls, ss, e).1)
    ensures QueuesGrow(ss, MarkedDirty(es, ls, ss, e).1)
    ensures forall x :: x in ls ==> x in MarkedDirty(es, ls, ss, e).0 && (x != e ==> MarkedDirty(es, ls, ss, e).0[x] == ls[x])
  {
    if LiveSurface(es, ss, e) && ls[e].None? {
      var s := es[e].surface.value;
      var (ls', ss') := MarkedDirty(es, ls, ss, e);
      assert e !in ss[s].nextFrame;
      forall t | t in ss'
        ensures NoDuplicates(ss'[t].nextFrame)
      {
        if t == s {
          var q := ss'[t].nextFrame;
          forall i, j | 0 <= i < |q| && 0 <= j < |q| && q[i] == q[j]
            ensures i == j
          {
            if i < |q| - 1 && j < |q| - 1 {
              assert ss[s].nextFrame[i] == ss[s].nextFrame[j];
            }
          }
        }
      }
      forall t, i | t in ss' && 0 <= i < |ss'[t].nextFrame|
        ensures ss'[t].nextFrame[i] in ls' && ls'[ss'[t].nextFrame[i]] == Some(t)
      {
        if t == s && i < |ss[s].nextFrame| {
          assert ss'[t].nextFrame[i] == ss[s].nextFrame[i];
        }
      }
    }
  }

  /** After marking, an element with a live surface or an existing link is
    * linked into exactly one queue, where it occurs exactly once; a newly
    * linked element went to the tail of its own surface's queue. */
  lemma MarkDirtyQueuesOnce(es: Elems, ls: Links, ss: Surfaces, e: ElemId)
    requires e in es && e in ls && QueuesOk(ls, ss) && SurfacesKnown(es, ss)
    requires LiveSurface(es, ss, e) || ls[e].Some?
    ensures var (ls', ss') := MarkedDirty(es, ls, ss, e);
      && ls'[e].Some?
      && ls'[e].value in ss'
      && multiset(ss'[ls'[e].value].nextFrame)[e] == 1
      && (forall t :: t in ss' && t != ls'[e].value ==> e !in ss'[t].nextFrame)
    ensures ls[e].None? ==>
      MarkedDirty(es, ls, ss, e).1[es[e].surface.value].nextFrame == ss[es[e].surface.value].nextFrame + [e]
  {
    MarkDirtyKeepsQueues(es, ls, ss, e);
    var (ls', ss') := MarkedDirty(es, ls, ss, e);
    var q := ls'[e].value;
    OccursOnce(ss'[q].nextFrame, e);
    forall t | t in ss' && t != q
      ensures e !in ss'[t].nextFrame
    {
    }
  }

  /** Marking twice is marking once: the second call finds the element linked. */
  lemma MarkDirtyIdempotent(es: Elems, ls: Links, ss: Surfaces, e: ElemId)
    requires e in es && e in ls
    ensures e in MarkedDirty(es, ls, ss, e).0
    ensures MarkedDirty(es, MarkedDirty(es, ls, ss, e).0, MarkedDirty(es, ls, ss, e).1, e) == MarkedDirty(es, ls, ss, e)
  {
  }

  lemma {:induction false} OccursOnce(q: seq<ElemId>, e: ElemId)
    requires NoDuplicates(q) && e in q
    ensures multiset(q)[e] == 1
    decreases |q|
  {
    NoDuplicatesTail(q);
    assert q == [q[0]] + q[1..];
    if q[0] != e {
      OccursOnce(q[1..], e);
    } else {
      assert multiset(q[1..])[e] == 0;
    }
  }
}
