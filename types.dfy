/**
 * The values the element tree is made of: elements, their geometry and
 * style, render surfaces with their next-frame queues, and the window's
 * mouse-button table.  Element identity is a handle into the window's
 * element arena (`ElemId`), standing in for the pointer identity of
 * `struct rtb_element`.
 */
module ElementTypes {

  type ElemId = int
  type SurfaceId = int

  datatype Option<+T> = None | Some(value: T)

  /** Lifecycle state (`RTB_STATE_UNATTACHED`, `RTB_STATE_ATTACHED`). */
  datatype AttachState = Unattached | Attached

  datatype Visibility = Unobscured | PartiallyObscured | FullyObscured

  /** Draw states; a style's `available_styles` mask has one bit per state. */
  datatype DrawState = DrawNormal | DrawFocus | DrawHover

  /** A resolved style, reduced to the draw states it defines
    * (the set of bits of `available_styles`). */
  datatype Style = Style(available: set<DrawState>)

  /** The event kinds the core distinguishes; every other kind
    * (key presses, window close, ...) is `OtherEvent`. */
  datatype EventKind =
    | MouseEnter | MouseLeave | DragEnter | DragLeave
    | MouseDown | MouseUp | DragDrop
    | OtherEvent

  datatype Direction = Rootward | Leafward

  datatype AddLocation = AddHead | AddTail

  datatype Point = Point(x: int, y: int)

  datatype Rect = Rect(x: int, y: int, x2: int, y2: int)

  /** What a layout callback decides for one element: position and size. */
  datatype Box = Box(x: int, y: int, w: int, h: int)

  /** Position, size, derived far corner and inner content rectangle. */
  datatype Geom = Geom(x: int, y: int, w: int, h: int, x2: int, y2: int, inner: Rect)

  /** Which slots of the element's behaviour table are filled in. */
  datatype Impl = Impl(
    draw: bool, event: bool, attached: bool, detached: bool,
    layout: bool, size: bool, recalc: bool,
    childAttached: bool, markDirty: bool)

  /** The tree links and the flags of a `struct rtb_element`.  Its geometry,
    * its style and its render-queue link are kept in maps of their own
    * (`Geoms`, `Styles`, `Links`), indexed by the same handle. */
  datatype Element = Element(
    parent: Option<ElemId>,
    children: seq<ElemId>,
    hasWindow: bool,                 // `window != NULL`
    surface: Option<SurfaceId>,
    state: AttachState,
    visibility: Visibility,
    mouseIn: bool,
    snoop: bool,                     // RTB_ELEM_FLAG_EVENT_SNOOP
    outerPad: Point,
    innerPad: Point,
    impl: Impl)

  datatype SurfaceState = SurfaceValid | SurfaceInvalid

  /** A render surface: its lifecycle state and the queue of elements to
    * redraw on the next frame. */
  datatype Surface = Surface(state: SurfaceState, nextFrame: seq<ElemId>)

  datatype ButtonState = ButtonUp | ButtonDown | ButtonDrag

  /** One slot of the mouse table: its state and its captured target. */
  datatype Button = Button(state: ButtonState, target: Option<ElemId>)

  /** RTB_MOUSE_BUTTON_MAX is RTB_MOUSE_BUTTON3, which is 2. */
  const ButtonMax: nat := 2
  const ButtonCount: nat := ButtonMax + 1
  const Button1: nat := 0

  /** `1 << button`, the button's bit in the `buttons_down` mask. */
  function ButtonMask(b: nat): (m: bv8)
    requires b <= ButtonMax
    ensures m != 0 && m & (m - 1) == 0
  {
    (1 as bv8) << b
  }

  /** Every slot a child must have before it may be added to a parent. */
  predicate Complete(i: Impl)
  {
    i.draw && i.event && i.attached && i.detached && i.layout && i.size && i.recalc
  }

  /** The base implementation table (`base_impl`): every slot filled. */
  const BaseImpl: Impl := Impl(true, true, true, true, true, true, true, true, true)

  type Elems = map<ElemId, Element>
  type Geoms = map<ElemId, Geom>
  type Styles = map<ElemId, Option<Style>>
  /** The next-frame queue each element's `render_entry` is linked into, if any. */
  type Links = map<ElemId, Option<SurfaceId>>
  type Surfaces = map<SurfaceId, Surface>

  /** The style of `e`; an element without an entry has none. */
  function StyleOf(st: Styles, e: ElemId): Option<Style>
  {
    if e in st then st[e] else None
  }

  /** The abstract layout callback: given the element being laid out and the
    * current geometry, the boxes it assigns (to itself or to others).  What
    * else a layout reads (children lists, paddings, size callbacks) does not
    * change during one pass and is part of the function. */
  type Layout = (ElemId, Geoms) -> map<ElemId, Box>

  /** The abstract style resolver `rtb_style_for_element`. */
  type StyleFor = ElemId -> Option<Style>
}
