/**
 * Event delivery and draw dispatch decisions of the element core: the base
 * `on_event` callback, which events make `rtb_elem_deliver_event` mark an
 * element dirty, how the snoop flag orders the element's own callback and the
 * built-in handler `rtb_handle`, how `rtb_elem_draw` resolves a NORMAL request,
 * and the sequence of `draw_cb` calls that the base `draw` produces over a
 * subtree.
 */
module Dispatch {
  import opened ElementTypes
  import opened ElementTree

  // ---------------------------------------------------------------------
  // Events
  // ---------------------------------------------------------------------

  predicate IsCrossing(kind: EventKind)
  {
    kind == MouseEnter || kind == MouseLeave
  }

  predicate IsButtonEvent(kind: EventKind)
  {
    kind == MouseDown || kind == MouseUp || kind == DragDrop
  }

  /** The base `on_event`: it eats enter/leave and drag-enter/leave, which the
    * mouse dispatcher already walks up and down the tree, and nothing else. */
  function OnEvent(kind: EventKind): (eaten: bool)
  {
    match kind
    case MouseEnter => true
    case MouseLeave => true
    case DragEnter => true
    case DragLeave => true
    case _ => false
  }

  /** Whether delivering `kind` marks the element dirty: crossings when the style
    * has a HOVER appearance, presses, releases and drops when it has FOCUS. */
  predicate DirtiesOn(style: Style, kind: EventKind)
  {
    || (IsCrossing(kind) && DrawHover in style.available)
    || (IsButtonEvent(kind) && DrawFocus in style.available)
  }

  /** The answer of `rtb_elem_deliver_event` after the element's own callback
    * answered `own` and the built-in handler would answer `builtin`, and
    * whether the built-in handler ran at all.  In snoop mode it always runs;
    * otherwise `||` skips it once the callback consumed the event. */
  function DeliverResult(snoop: bool, own: bool, builtin: bool): (r: (bool, bool))
  {
    if snoop then (builtin || own, true)
    else (own || builtin, !own)
  }

  /** Both orders give the same answer, the OR of the two handlers; they differ
    * only in whether the built-in handler runs: always when snooping, and
    * otherwise exactly when the element's own callback did not consume the event. */
  lemma DeliverResultOrders(snoop: bool, own: bool, builtin: bool)
    ensures DeliverResult(snoop, own, builtin).0 == (own || builtin)
    ensures DeliverResult(snoop, own, builtin).1 <==> snoop || !own
    ensures DeliverResult(true, own, builtin).0 == DeliverResult(false, own, builtin).0
  {
  }

  /** With the base callback, crossings are always consumed whatever the
    * built-in handler says, and without snoop the built-in handler never sees
    * them; every other event is consumed exactly when the built-in handler says so. */
  lemma BaseCallbackConsumesCrossings(snoop: bool, kind: EventKind, builtin: bool)
    ensures (kind == MouseEnter || kind == MouseLeave || kind == DragEnter || kind == DragLeave) ==>
      DeliverResult(snoop, OnEvent(kind), builtin).0 && (DeliverResult(snoop, OnEvent(kind), builtin).1 <==> snoop)
    ensures !(kind == MouseEnter || kind == MouseLeave || kind == DragEnter || kind == DragLeave) ==>
      DeliverResult(snoop, OnEvent(kind), builtin) == (builtin, true)
  {
  }

  // ---------------------------------------------------------------------
  // Drawing
  // ---------------------------------------------------------------------

  /** The window state `rtb_elem_draw` consults: the focused element and the
    * mask of pressed buttons. */
  datatype DrawContext = DrawContext(focus: Option<ElemId>, buttonsDown: bv8)

  predicate Button1Down(buttonsDown: bv8)
  {
    buttonsDown & ButtonMask(Button1) != 0
  }

  /** A NORMAL request becomes FOCUS for the focused element, else HOVER under the
    * pointer while button 1 is up; other requests are drawn as asked. */
  function ResolveDrawState(requested: DrawState, focused: bool, mouseIn: bool, buttonsDown: bv8): (s: DrawState)
  {
    if requested != DrawNormal then requested
    else if focused then DrawFocus
    else if mouseIn && !Button1Down(buttonsDown) then DrawHover
    else DrawNormal
  }

  lemma ResolveDrawStateCases(requested: DrawState, focused: bool, mouseIn: bool, buttonsDown: bv8)
    ensures requested != DrawNormal ==> ResolveDrawState(requested, focused, mouseIn, buttonsDown) == requested
    ensures requested == DrawNormal ==>
      && (ResolveDrawState(requested, focused, mouseIn, buttonsDown) == DrawFocus <==> focused)
      && (ResolveDrawState(requested, focused, mouseIn, buttonsDown) == DrawHover <==>
            !focused && mouseIn && buttonsDown & 1 == 0)
      && (ResolveDrawState(requested, focused, mouseIn, buttonsDown) == DrawNormal <==>
            !focused && (!mouseIn || buttonsDown & 1 != 0))
  {
  }

  /** The base `draw` passes its own state down when its style defines it, else NORMAL. */
  function ChildDrawState(style: Style, s: DrawState): DrawState
  {
    if s in style.available then s else DrawNormal
  }

  /** The state `e` is drawn in when asked for `state`. */
  function Resolved(es: Elems, ctx: DrawContext, e: ElemId, state: DrawState): DrawState
    requires e in es
  {
    ResolveDrawState(state, ctx.focus == Some(e), es[e].mouseIn, ctx.buttonsDown)
  }

  /** Drawing `e` in `state` dereferences nothing null: every element reached that
    * is not fully obscured has a style, and a window when asked for NORMAL. */
  ghost predicate Drawable(es: Elems, st: Styles, rank: Ranks, ctx: DrawContext, e: ElemId, state: DrawState)
    requires ChildRanked(KidsOf(es), rank) && e in es
    decreases rank[e], 1
  {
    || es[e].visibility == FullyObscured
    || (&& (state == DrawNormal ==> es[e].hasWindow)
        && StyleOf(st, e).Some?
        && DrawableSeq(es, st, rank, ctx, KidsOf(es)[e], ChildDrawState(StyleOf(st, e).value, Resolved(es, ctx, e, state)), rank[e]))
  }

  ghost predicate DrawableSeq(es: Elems, st: Styles, rank: Ranks, ctx: DrawContext, cs: seq<ElemId>, state: DrawState, bound: nat)
    requires ChildRanked(KidsOf(es), rank)
    requires forall j :: 0 <= j < |cs| ==> cs[j] in es && cs[j] in rank && rank[cs[j]] < bound
    decreases bound, 0, |cs|
  {
    cs == [] || (Drawable(es, st, rank, ctx, cs[0], state) && DrawableSeq(es, st, rank, ctx, cs[1..], state, bound))
  }

  /** The `draw_cb` calls, in order, made by `rtb_elem_draw(e, state)` when every
    * element uses the base `draw`: none for a fully obscured element; otherwise
    * `e` in its resolved state, then each child's subtree in list order. */
  ghost function DrawTrace(es: Elems, st: Styles, rank: Ranks, ctx: DrawContext, e: ElemId, state: DrawState): (t: seq<(ElemId, DrawState)>)
    requires ChildRanked(KidsOf(es), rank) && e in es
    requires Drawable(es, st, rank, ctx, e, state)
    decreases rank[e], 1
  {
    if es[e].visibility == FullyObscured then []
    else
      var s := Resolved(es, ctx, e, state);
      [(e, s)] + DrawSeq(es, st, rank, ctx, KidsOf(es)[e], ChildDrawState(StyleOf(st, e).value, s), rank[e])
  }

  ghost function DrawSeq(es: Elems, st: Styles, rank: Ranks, ctx: DrawContext, cs: seq<ElemId>, state: DrawState, bound: nat): (t: seq<(ElemId, DrawState)>)
    requires ChildRanked(KidsOf(es), rank)
    requires forall j :: 0 <= j < |cs| ==> cs[j] in es && cs[j] in rank && rank[cs[j]] < bound
    requires DrawableSeq(es, st, rank, ctx, cs, state, bound)
    decreases bound, 0, |cs|
  {
    if cs == [] then [] else DrawTrace(es, st, rank, ctx, cs[0], state) + DrawSeq(es, st, rank, ctx, cs[1..], state, bound)
  }

  /** One step of the children loop of the base `draw`: after the calls
    * `done`, drawing the children from position `i` on is drawing child `i`
    * and then the children after it. */
  lemma DrawSeqStep(es: Elems, st: Styles, rank: Ranks, ctx: DrawContext, cs: seq<ElemId>, i: nat, state: DrawState, bound: nat,
                    done: seq<(ElemId, DrawState)>)
    requires ChildRanked(KidsOf(es), rank) && i < |cs|
    requires forall j :: 0 <= j < |cs| ==> cs[j] in es && cs[j] in rank && rank[cs[j]] < bound
    requires DrawableSeq(es, st, rank, ctx, cs[i..], state, bound)
    ensures cs[i] in es && Drawable(es, st, rank, ctx, cs[i], state)
    ensures DrawableSeq(es, st, rank, ctx, cs[i + 1..], state, bound)
    ensures done + DrawSeq(es, st, rank, ctx, cs[i..], state, bound)
         == (done + DrawTrace(es, st, rank, ctx, cs[i], state)) + DrawSeq(es, st, rank, ctx, cs[i + 1..], state, bound)
  {
    assert cs[i..][0] == cs[i] && cs[i..][1..] == cs[i + 1..];
  }

  /** Every call in the trace draws a not fully obscured element of `e`'s subtree. */
  lemma {:induction false} DrawTraceInSubtree(es: Elems, st: Styles, rank: Ranks, ctx: DrawContext, e: ElemId, state: DrawState)
    requires ChildRanked(KidsOf(es), rank) && e in es
    requires Drawable(es, st, rank, ctx, e, state)
    ensures forall k :: 0 <= k < |DrawTrace(es, st, rank, ctx, e, state)| ==>
      && DrawTrace(es, st, rank, ctx, e, state)[k].0 in Preorder(KidsOf(es), rank, e)
      && es[DrawTrace(es, st, rank, ctx, e, state)[k].0].visibility != FullyObscured
    decreases rank[e], 1
  {
    if es[e].visibility != FullyObscured {
      var k := KidsOf(es);
      var s := ChildDrawState(StyleOf(st, e).value, Resolved(es, ctx, e, state));
      DrawSeqInSubtree(es, st, rank, ctx, k[e], s, rank[e]);
      forall j | 0 <= j < |DrawSeq(es, st, rank, ctx, k[e], s, rank[e])|
        ensures DrawSeq(es, st, rank, ctx, k[e], s, rank[e])[j].0 in Preorder(k, rank, e)
      {
        var x := DrawSeq(es, st, rank, ctx, k[e], s, rank[e])[j].0;
        PreorderSeqMember(k, rank, k[e], rank[e], x);
      }
    }
  }

  lemma {:induction false} DrawSeqInSubtree(es: Elems, st: Styles, rank: Ranks, ctx: DrawContext, cs: seq<ElemId>, state: DrawState, bound: nat)
    requires ChildRanked(KidsOf(es), rank)
    requires forall j :: 0 <= j < |cs| ==> cs[j] in es && cs[j] in rank && rank[cs[j]] < bound
    requires DrawableSeq(es, st, rank, ctx, cs, state, bound)
    ensures forall k :: 0 <= k < |DrawSeq(es, st, rank, ctx, cs, state, bound)| ==>
      && DrawSeq(es, st, rank, ctx, cs, state, bound)[k].0 in PreorderSeq(KidsOf(es), rank, cs, bound)
      && es[DrawSeq(es, st, rank, ctx, cs, state, bound)[k].0].visibility != FullyObscured
    decreases bound, 0, |cs|
  {
    if cs != [] {
      DrawTraceInSubtree(es, st, rank, ctx, cs[0], state);
      DrawSeqInSubtree(es, st, rank, ctx, cs[1..], state, bound);
    }
  }

  /** The elements drawn, in order. */
  function Drawn(t: seq<(ElemId, DrawState)>): (r: seq<ElemId>)
    ensures |r| == |t| && forall k :: 0 <= k < |t| ==> r[k] == t[k].0
  {
    if t == [] then [] else [t[0].0] + Drawn(t[1..])
  }

  lemma DrawnAppend(a: seq<(ElemId, DrawState)>, b: seq<(ElemId, DrawState)>)
    ensures Drawn(a + b) == Drawn(a) + Drawn(b)
  {
  }

  /** No element of the subtree is fully obscured. */
  ghost predicate Unobscured(es: Elems, rank: Ranks, e: ElemId)
    requires ChildRanked(KidsOf(es), rank) && e in es
  {
    forall x :: x in Preorder(KidsOf(es), rank, e) ==> es[x].visibility != FullyObscured
  }

  /** When nothing in the subtree is fully obscured, the base `draw` visits the
    * whole subtree exactly in depth-first order. */
  lemma {:induction false} DrawTraceIsPreorder(es: Elems, st: Styles, rank: Ranks, ctx: DrawContext, e: ElemId, state: DrawState)
    requires ChildRanked(KidsOf(es), rank) && e in es
    requires Drawable(es, st, rank, ctx, e, state) && Unobscured(es, rank, e)
    ensures Drawn(DrawTrace(es, st, rank, ctx, e, state)) == Preorder(KidsOf(es), rank, e)
    decreases rank[e], 1
  {
    var k := KidsOf(es);
    assert e in Preorder(k, rank, e);
    var s := ChildDrawState(StyleOf(st, e).value, Resolved(es, ctx, e, state));
    forall x | x in PreorderSeq(k, rank, k[e], rank[e])
      ensures x in Preorder(k, rank, e)
    {
    }
    DrawSeqIsPreorder(es, st, rank, ctx, k[e], s, rank[e], e);
    DrawnAppend([(e, Resolved(es, ctx, e, state))], DrawSeq(es, st, rank, ctx, k[e], s, rank[e]));
  }

  lemma {:induction false} DrawSeqIsPreorder(es: Elems, st: Styles, rank: Ranks, ctx: DrawContext, cs: seq<ElemId>, state: DrawState, bound: nat, root: ElemId)
    requires ChildRanked(KidsOf(es), rank) && root in es
    requires forall j :: 0 <= j < |cs| ==> cs[j] in es && cs[j] in rank && rank[cs[j]] < bound
    requires DrawableSeq(es, st, rank, ctx, cs, state, bound)
    requires forall x :: x in PreorderSeq(KidsOf(es), rank, cs, bound) ==> x in Preorder(KidsOf(es), rank, root)
    requires Unobscured(es, rank, root)
    ensures Drawn(DrawSeq(es, st, rank, ctx, cs, state, bound)) == PreorderSeq(KidsOf(es), rank, cs, bound)
    decreases bound, 0, |cs|
  {
    if cs != [] {
      var k := KidsOf(es);
      forall x | x in Preorder(k, rank, cs[0])
        ensures es[x].visibility != FullyObscured
      {
        assert x in PreorderSeq(k, rank, cs, bound);
      }
      DrawTraceIsPreorder(es, st, rank, ctx, cs[0], state);
      DrawSeqIsPreorder(es, st, rank, ctx, cs[1..], state, bound, root);
      DrawnAppend(DrawTrace(es, st, rank, ctx, cs[0], state), DrawSeq(es, st, rank, ctx, cs[1..], state, bound));
    }
  }
}
