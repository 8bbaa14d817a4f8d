/** The window shell (src/components/Window.tsx): one per window identifier. It turns
    pointer and touch input into registry commands and keeps dragged windows inside the
    viewport. Everything the browser measures (the element's bounding box and offset size,
    the viewport) is a parameter; an element that is not mounted is `None`. */
module WindowShell {
  import opened Wrappers
  import opened WindowRegistry

  datatype Viewport = Viewport(width: int, height: int)

  /** What `getBoundingClientRect` reports for the window's element. */
  datatype Rect = Rect(left: int, top: int, width: int, height: int)

  function Max(a: int, b: int): int { if a >= b then a else b }

  function Min(a: int, b: int): int { if a <= b then a else b }

  function Abs(a: int): nat { if a >= 0 then a else -a }

  /** The drag clamp on one axis: `max(0, min(candidate, viewport - extent))`. */
  function DragAxis(candidate: int, viewport: int, extent: int): (r: int)
    ensures r >= 0
    ensures extent <= viewport ==> r + extent <= viewport
    ensures 0 <= candidate <= viewport - extent ==> r == candidate
    ensures extent > viewport ==> r == 0
    ensures r == candidate || r == 0 || r == viewport - extent
  {
    Max(0, Min(candidate, viewport - extent))
  }

  /** When the window fits, the drag clamp picks the allowed position nearest the candidate. */
  lemma DragAxisIsNearest(candidate: int, viewport: int, extent: int, y: int)
    requires extent <= viewport
    requires 0 <= y <= viewport - extent
    ensures Abs(DragAxis(candidate, viewport, extent) - candidate) <= Abs(y - candidate)
  {
  }

  /** The position a move event asks for: the pointer less the recorded offset, each axis
      clamped on its own. */
  function DragTarget(pointer: Position, offset: Position, viewport: Viewport, size: Size): (p: Position)
    ensures p.x == DragAxis(pointer.x - offset.x, viewport.width, size.width)
    ensures p.y == DragAxis(pointer.y - offset.y, viewport.height, size.height)
    ensures 0 <= p.x && 0 <= p.y
    ensures size.width <= viewport.width ==> p.x + size.width <= viewport.width
    ensures size.height <= viewport.height ==> p.y + size.height <= viewport.height
  {
    Position(DragAxis(pointer.x - offset.x, viewport.width, size.width),
             DragAxis(pointer.y - offset.y, viewport.height, size.height))
  }

  /** A candidate already inside the allowed box is passed through unchanged. */
  lemma DragTargetKeepsInsideCandidate(pointer: Position, offset: Position, viewport: Viewport, size: Size)
    requires 0 <= pointer.x - offset.x <= viewport.width - size.width
    requires 0 <= pointer.y - offset.y <= viewport.height - size.height
    ensures DragTarget(pointer, offset, viewport, size) == Position(pointer.x - offset.x, pointer.y - offset.y)
  {
  }

  /** `element?.offsetWidth || stored`: a missing element and a zero measurement both fall
      back to the size kept in the registry. */
  function MeasuredOr(measured: nat, stored: int): (r: int)
    ensures measured != 0 ==> r == measured
    ensures measured == 0 ==> r == stored
  {
    if measured != 0 then measured else stored
  }

  /** The resize clamp on one axis: only an axis that runs past the viewport is pulled back,
      to `max(0, viewport - extent)`. */
  function ResizeAxis(position: int, extent: int, viewport: int): (r: int)
    ensures r != position ==> position + extent > viewport
    ensures position + extent > viewport ==> r >= 0
    ensures position + extent > viewport && extent <= viewport ==> r + extent == viewport
    ensures position + extent > viewport && extent > viewport ==> r == 0
  {
    if position + extent > viewport then Max(0, viewport - extent) else position
  }

  /** For a position that is not negative, the resize clamp and the drag clamp agree. */
  lemma ResizeAgreesWithDrag(position: int, extent: int, viewport: int)
    requires position >= 0
    ensures ResizeAxis(position, extent, viewport) == DragAxis(position, viewport, extent)
  {
  }

  /** A negative position that fits is kept by the resize clamp, while a drag would pull it
      to 0: the two clamps are different formulas. */
  lemma ResizeKeepsNegativePosition(position: int, extent: int, viewport: int)
    requires position < 0 && position + extent <= viewport
    ensures ResizeAxis(position, extent, viewport) == position
    ensures DragAxis(position, viewport, extent) == 0 != position
  {
  }

  /** Re-running the resize clamp on its own result changes nothing. */
  lemma ResizeAxisIdempotent(position: int, extent: int, viewport: int)
    ensures ResizeAxis(ResizeAxis(position, extent, viewport), extent, viewport) == ResizeAxis(position, extent, viewport)
  {
  }

  function ResizeTarget(position: Position, rect: Rect, viewport: Viewport): (p: Position)
    ensures p.x == ResizeAxis(position.x, rect.width, viewport.width)
    ensures p.y == ResizeAxis(position.y, rect.height, viewport.height)
  {
    Position(ResizeAxis(position.x, rect.width, viewport.width),
             ResizeAxis(position.y, rect.height, viewport.height))
  }

  /** What is painted for one window: nothing when it is closed. */
  datatype Frame = Frame(title: string, left: int, top: int, width: int, height: int, zIndex: int)

  function Render(r: Registry, id: WindowId): (f: Option<Frame>)
    requires id in r.windows
    ensures f.None? <==> !r.windows[id].isOpen
    ensures f.Some? ==> var w := r.windows[id];
      f.value == Frame(w.title, w.position.x, w.position.y, w.size.width, w.size.height, w.zIndex)
  {
    var w := r.windows[id];
    if !w.isOpen then None
    else Some(Frame(w.title, w.position.x, w.position.y, w.size.width, w.size.height, w.zIndex))
  }

  /** One mounted `Window` component: its drag flag and drag offset, and the store it sends
      commands to. */
  class Window {
    const id: WindowId
    const store: WindowStore
    var isDragging: bool
    var dragOffset: Position

    constructor (id: WindowId, store: WindowStore)
      ensures this.id == id && this.store == store
      ensures !isDragging && dragOffset == Position(0, 0)
    {
      this.id := id;
      this.store := store;
      isDragging := false;
      dragOffset := Position(0, 0);
    }

    /** `handleResize`: pulls back each axis that runs past the viewport and writes the
        position only if it changed; `wrote` says whether `updateWindowPosition` was issued. */
    method HandleResize(element: Option<Rect>, viewport: Viewport) returns (wrote: bool)
      requires store.Valid()
      modifies store
      ensures store.Valid()
      ensures element.None? ==> !wrote && store.State() == old(store.State())
      ensures element.Some? ==>
        var p := old(store.State()).windows[id].position;
        var q := ResizeTarget(p, element.value, viewport);
        && wrote == (q != p)
        && store.State() == if wrote then old(store.State()).UpdateWindowPosition(id, q) else old(store.State())
    {
      if element.None? {
        return false;
      }
      var rect := element.value;
      var position := store.windows[id].position;
      var newX := position.x;
      var newY := position.y;
      if newX + rect.width > viewport.width {
        newX := Max(0, viewport.width - rect.width);
      }
      if newY + rect.height > viewport.height {
        newY := Max(0, viewport.height - rect.height);
      }
      assert Position(newX, newY) == ResizeTarget(position, rect, viewport);
      wrote := newX != position.x || newY != position.y;
      if wrote {
        store.UpdateWindowPosition(id, Position(newX, newY));
      }
    }

    /** `handleMouseDown` on the title bar: focus, record where in the window the pointer
        grabbed it, start dragging. */
    method HandleMouseDown(pointer: Position, element: Option<Rect>)
      requires store.Valid()
      modifies this, store
      ensures store.Valid()
      ensures element.None? ==>
        store.State() == old(store.State()) && isDragging == old(isDragging) && dragOffset == old(dragOffset)
      ensures element.Some? ==>
        && store.State() == old(store.State()).FocusWindow(id)
        && dragOffset == Position(pointer.x - element.value.left, pointer.y - element.value.top)
        && isDragging
    {
      if element.None? {
        return;
      }
      store.FocusWindow(id);
      var rect := element.value;
      dragOffset := Position(pointer.x - rect.left, pointer.y - rect.top);
      isDragging := true;
    }

    /** `handleTouchStart`: the same as a mouse press, at the first touch point. */
    method HandleTouchStart(touch: Position, element: Option<Rect>)
      requires store.Valid()
      modifies this, store
      ensures store.Valid()
      ensures element.None? ==>
        store.State() == old(store.State()) && isDragging == old(isDragging) && dragOffset == old(dragOffset)
      ensures element.Some? ==>
        && store.State() == old(store.State()).FocusWindow(id)
        && dragOffset == Position(touch.x - element.value.left, touch.y - element.value.top)
        && isDragging
    {
      if element.None? {
        return;
      }
      store.FocusWindow(id);
      var rect := element.value;
      dragOffset := Position(touch.x - rect.left, touch.y - rect.top);
      isDragging := true;
    }

    /** `handleMouseMove`: ignored unless dragging; otherwise writes the clamped position.
        `measured` is the element's offset size (0 when there is no element). */
    method HandleMouseMove(pointer: Position, viewport: Viewport, measured: Size) returns (wrote: bool)
      requires store.Valid()
      requires measured.width >= 0 && measured.height >= 0
      modifies store
      ensures store.Valid()
      ensures wrote == isDragging
      ensures !isDragging ==> store.State() == old(store.State())
      ensures isDragging ==>
        var stored := old(store.State()).windows[id].size;
        var size := Size(MeasuredOr(measured.width, stored.width), MeasuredOr(measured.height, stored.height));
        store.State() == old(store.State()).UpdateWindowPosition(id, DragTarget(pointer, dragOffset, viewport, size))
    {
      if !isDragging {
        return false;
      }
      var newX := pointer.x - dragOffset.x;
      var newY := pointer.y - dragOffset.y;
      var windowWidth := MeasuredOr(measured.width, store.windows[id].size.width);
      var windowHeight := MeasuredOr(measured.height, store.windows[id].size.height);
      newX := Max(0, Min(newX, viewport.width - windowWidth));
      newY := Max(0, Min(newY, viewport.height - windowHeight));
      assert Position(newX, newY) == DragTarget(pointer, dragOffset, viewport, Size(windowWidth, windowHeight));
      store.UpdateWindowPosition(id, Position(newX, newY));
      wrote := true;
    }

    /** `handleTouchMove`: the same clamp as a mouse move, at the first touch point. */
    method HandleTouchMove(touch: Position, viewport: Viewport, measured: Size) returns (wrote: bool)
      requires store.Valid()
      requires measured.width >= 0 && measured.height >= 0
      modifies store
      ensures store.Valid()
      ensures wrote == isDragging
      ensures !isDragging ==> store.State() == old(store.State())
      ensures isDragging ==>
        var stored := old(store.State()).windows[id].size;
        var size := Size(MeasuredOr(measured.width, stored.width), MeasuredOr(measured.height, stored.height));
        store.State() == old(store.State()).UpdateWindowPosition(id, DragTarget(touch, dragOffset, viewport, size))
    {
      if !isDragging {
        return false;
      }
      var newX := touch.x - dragOffset.x;
      var newY := touch.y - dragOffset.y;
      var windowWidth := MeasuredOr(measured.width, store.windows[id].size.width);
      var windowHeight := MeasuredOr(measured.height, store.windows[id].size.height);
      newX := Max(0, Min(newX, viewport.width - windowWidth));
      newY := Max(0, Min(newY, viewport.height - windowHeight));
      assert Position(newX, newY) == DragTarget(touch, dragOffset, viewport, Size(windowWidth, windowHeight));
      store.UpdateWindowPosition(id, Position(newX, newY));
      wrote := true;
    }

    /** `handleMouseUp`: the drag ends; nothing is sent to the store. */
    method HandleMouseUp()
      modifies this
      ensures !isDragging && dragOffset == old(dragOffset)
    {
      isDragging := false;
    }

    /** `handleTouchEnd`: the same as a mouse release. */
    method HandleTouchEnd()
      modifies this
      ensures !isDragging && dragOffset == old(dragOffset)
    {
      isDragging := false;
    }

    /** `handleWindowClick`: a click on the body focuses the window only if it is not focused
        already; `focused` says whether `focusWindow` was issued. */
    method HandleWindowClick() returns (focused: bool)
      requires store.Valid()
      modifies store
      ensures store.Valid()
      ensures focused == !old(store.State()).windows[id].isFocused
      ensures store.State() == if focused then old(store.State()).FocusWindow(id) else old(store.State())
    {
      focused := !store.windows[id].isFocused;
      if focused {
        store.FocusWindow(id);
      }
    }

    /** The close control: `closeWindow(id)`. */
    method HandleCloseClick()
      requires store.Valid()
      modifies store
      ensures store.Valid()
      ensures store.State() == old(store.State()).CloseWindow(id)
    {
      store.CloseWindow(id);
    }
  }

  /** The drag example: the radio window at its start-up size (350 by 220), dragged
      towards (1200, 600) in a 1280 by 720 viewport, ends at (930, 500). */
  lemma DragExample()
    ensures InitialRegistry().windows[Radio].size == Size(350, 220)
    ensures DragTarget(Position(1200, 600), Position(0, 0), Viewport(1280, 720),
                       InitialRegistry().windows[Radio].size) == Position(930, 500)
  {
  }

  /** The resize example: a 300 by 200 window at (1000, 50) when the viewport shrinks to
      1100 by 800 moves to (800, 50). */
  lemma ResizeExample()
    ensures ResizeTarget(Position(1000, 50), Rect(1000, 50, 300, 200), Viewport(1100, 800)) == Position(800, 50)
  {
  }
}
