/** The window registry of the retro desktop (src/utils/windowUtils.ts): one record per
    window of a fixed set of six, plus the running counter that hands out stacking orders.
    Each store command of the source is a pure rebuild of the state inside zustand's
    `set`; here each rebuild is a member function of `Registry`, and `WindowStore` is the
    mutable store whose methods replace its two fields by that rebuild. */
module WindowRegistry {

  /** The closed set of window identifiers. */
  datatype WindowId = Scoreboard | BaseballCard | Radio | Guestbook | Jumbotron | StadiumMap

  /** Top-left corner of a window, in viewport pixels. */
  datatype Position = Position(x: int, y: int)

  datatype Size = Size(width: int, height: int)

  /** One window's record. `zIndex` is its stacking order: higher paints on top. */
  datatype WindowState = WindowState(
    id: WindowId,
    title: string,
    isOpen: bool,
    isFocused: bool,
    zIndex: int,
    position: Position,
    size: Size)

  /** The record of a window as it is created at start-up: closed, unfocused, at the bottom. */
  function ClosedWindow(id: WindowId, title: string, x: int, y: int, width: int, height: int): (w: WindowState)
    ensures w.id == id && w.title == title && !w.isOpen && !w.isFocused && w.zIndex == 0
    ensures w.position == Position(x, y) && w.size == Size(width, height)
  {
    WindowState(id, title, false, false, 0, Position(x, y), Size(width, height))
  }

  /** The registry state: the record of every window, and the highest stacking order
      handed out so far. */
  datatype Registry = Registry(windows: map<WindowId, WindowState>, highestZIndex: int) {

    /** The invariant every command keeps:
        - every identifier has a record, and the record carries its own identifier;
        - no stacking order is negative or above `highestZIndex`;
        - two different windows never share a positive stacking order. */
    ghost predicate Valid() {
      && (forall id: WindowId :: id in windows)
      && (forall id :: id in windows ==> windows[id].id == id)
      && (forall id :: id in windows ==> 0 <= windows[id].zIndex <= highestZIndex)
      && (forall a, b :: a in windows && b in windows && a != b && windows[a].zIndex > 0 ==>
            windows[a].zIndex != windows[b].zIndex)
    }

    /** `openWindow`: opens and focuses `id` and puts it on top with a fresh stacking order. */
    function OpenWindow(id: WindowId): (r: Registry)
      requires id in windows
      ensures r.windows.Keys == windows.Keys
      ensures Valid() ==> r.Valid()
      ensures r.highestZIndex == highestZIndex + 1
      ensures r.windows[id].isOpen && r.windows[id].isFocused
      ensures r.windows[id].zIndex == r.highestZIndex
      ensures SameFrame(r.windows[id], windows[id])
      ensures OthersUnchanged(windows, r.windows, id)
    {
      var newZIndex := highestZIndex + 1;
      var w := windows[id].(isOpen := true, isFocused := true, zIndex := newZIndex);
      assert Valid() ==> Registry(windows[id := w], newZIndex).Valid() by {
        if Valid() { RaiseKeepsValid(this, id, w); }
      }
      Registry(windows[id := w], newZIndex)
    }

    /** `closeWindow`: hides `id` and drops its focus; its stacking order and geometry stay,
        so that reopening restores where it was. */
    function CloseWindow(id: WindowId): (r: Registry)
      requires id in windows
      ensures r.windows.Keys == windows.Keys
      ensures Valid() ==> r.Valid()
      ensures r.highestZIndex == highestZIndex
      ensures !r.windows[id].isOpen && !r.windows[id].isFocused
      ensures r.windows[id].zIndex == windows[id].zIndex
      ensures SameFrame(r.windows[id], windows[id])
      ensures OthersUnchanged(windows, r.windows, id)
    {
      var w := windows[id].(isOpen := false, isFocused := false);
      assert Valid() ==> Registry(windows[id := w], highestZIndex).Valid() by {
        if Valid() { KeepOrderKeepsValid(this, id, w); }
      }
      Registry(windows[id := w], highestZIndex)
    }

    /** `focusWindow`: marks `id` focused. A window already at the highest stacking order
        keeps it; any other window is raised to a fresh one. The focus of the other windows
        is not cleared. */
    function FocusWindow(id: WindowId): (r: Registry)
      requires id in windows
      ensures r.windows.Keys == windows.Keys
      ensures Valid() ==> r.Valid()
      ensures r.windows[id].isFocused
      ensures r.windows[id].isOpen == windows[id].isOpen
      ensures r.windows[id].zIndex == r.highestZIndex
      ensures windows[id].zIndex == highestZIndex ==>
                r.highestZIndex == highestZIndex && r.windows[id].zIndex == windows[id].zIndex
      ensures windows[id].zIndex != highestZIndex ==> r.highestZIndex == highestZIndex + 1
      ensures SameFrame(r.windows[id], windows[id])
      ensures OthersUnchanged(windows, r.windows, id)
    {
      if windows[id].zIndex == highestZIndex then
        var w := windows[id].(isFocused := true);
        assert Valid() ==> Registry(windows[id := w], highestZIndex).Valid() by {
          if Valid() { KeepOrderKeepsValid(this, id, w); }
        }
        Registry(windows[id := w], highestZIndex)
      else
        var newZIndex := highestZIndex + 1;
        var w := windows[id].(isFocused := true, zIndex := newZIndex);
        assert Valid() ==> Registry(windows[id := w], newZIndex).Valid() by {
          if Valid() { RaiseKeepsValid(this, id, w); }
        }
        Registry(windows[id := w], newZIndex)
    }

    /** `updateWindowPosition`: overwrites the position of `id`, without any bounds check. */
    function UpdateWindowPosition(id: WindowId, position: Position): (r: Registry)
      requires id in windows
      ensures r.windows.Keys == windows.Keys
      ensures Valid() ==> r.Valid()
      ensures r.highestZIndex == highestZIndex
      ensures r.windows[id].position == position
      ensures SameStatus(r.windows[id], windows[id]) && r.windows[id].size == windows[id].size
      ensures OthersUnchanged(windows, r.windows, id)
    {
      var w := windows[id].(position := position);
      assert Valid() ==> Registry(windows[id := w], highestZIndex).Valid() by {
        if Valid() { KeepOrderKeepsValid(this, id, w); }
      }
      Registry(windows[id := w], highestZIndex)
    }

    /** `updateWindowSize`: overwrites the size of `id`. */
    function UpdateWindowSize(id: WindowId, size: Size): (r: Registry)
      requires id in windows
      ensures r.windows.Keys == windows.Keys
      ensures Valid() ==> r.Valid()
      ensures r.highestZIndex == highestZIndex
      ensures r.windows[id].size == size
      ensures SameStatus(r.windows[id], windows[id]) && r.windows[id].position == windows[id].position
      ensures OthersUnchanged(windows, r.windows, id)
    {
      var w := windows[id].(size := size);
      assert Valid() ==> Registry(windows[id := w], highestZIndex).Valid() by {
        if Valid() { KeepOrderKeepsValid(this, id, w); }
      }
      Registry(windows[id := w], highestZIndex)
    }
  }

  /** Replacing a record by one with the same identifier and stacking order keeps the
      invariant. */
  lemma KeepOrderKeepsValid(reg: Registry, id: WindowId, w: WindowState)
    requires reg.Valid() && id in reg.windows
    requires w.id == id && w.zIndex == reg.windows[id].zIndex
    ensures Registry(reg.windows[id := w], reg.highestZIndex).Valid()
  {
  }

  /** Giving a window the next stacking order and making that the highest keeps the
      invariant: the new order is above every order already handed out. */
  lemma RaiseKeepsValid(reg: Registry, id: WindowId, w: WindowState)
    requires reg.Valid() && id in reg.windows
    requires w.id == id && w.zIndex == reg.highestZIndex + 1
    ensures Registry(reg.windows[id := w], reg.highestZIndex + 1).Valid()
  {
  }

  /** Same identity, title, position and size. */
  ghost predicate SameFrame(a: WindowState, b: WindowState) {
    a.id == b.id && a.title == b.title && a.position == b.position && a.size == b.size
  }

  /** Same identity, title, open and focus flags and stacking order. */
  ghost predicate SameStatus(a: WindowState, b: WindowState) {
    a.id == b.id && a.title == b.title && a.isOpen == b.isOpen && a.isFocused == b.isFocused &&
    a.zIndex == b.zIndex
  }

  /** The two maps have the same identifiers and agree on every one except `id`. */
  ghost predicate OthersUnchanged(m: map<WindowId, WindowState>, m': map<WindowId, WindowState>, id: WindowId) {
    m'.Keys == m.Keys && forall w :: w in m && w != id ==> m'[w] == m[w]
  }

  /** The six windows of the desktop. */
  function AllWindowIds(): set<WindowId> {
    {Scoreboard, BaseballCard, Radio, Guestbook, Jumbotron, StadiumMap}
  }

  /** The six constructors are all the identifiers there are. */
  lemma EveryIdentifierIsListed()
    ensures forall id: WindowId :: id in AllWindowIds()
  {
    forall id: WindowId ensures id in AllWindowIds() {
      match id
      case Scoreboard =>
      case BaseballCard =>
      case Radio =>
      case Guestbook =>
      case Jumbotron =>
      case StadiumMap =>
    }
  }

  /** `initialWindows`: the six windows with their titles and default geometry. */
  function InitialWindows(): (m: map<WindowId, WindowState>)
    ensures forall id: WindowId :: id in m
    ensures forall id :: id in m ==> m[id].id == id && !m[id].isOpen && !m[id].isFocused && m[id].zIndex == 0
  {
    var m := map[
      Scoreboard   := ClosedWindow(Scoreboard, "Scoreboard.exe", 100, 100, 500, 400),
      BaseballCard := ClosedWindow(BaseballCard, "BaseballCard.exe", 650, 150, 400, 500),
      Radio        := ClosedWindow(Radio, "Scully Radio.exe", 1150, 300, 350, 220),
      Guestbook    := ClosedWindow(Guestbook, "Stadium Guestbook.exe", 550, 80, 450, 300),
      Jumbotron    := ClosedWindow(Jumbotron, "Jumbotron.exe", 900, 200, 500, 500),
      StadiumMap   := ClosedWindow(StadiumMap, "StadiumMap.exe", 50, 50, 622, 600)
    ];
    assert m.Keys == AllWindowIds();
    assert forall id: WindowId :: id in m by { EveryIdentifierIsListed(); }
    m
  }

  /** The store as it starts: every window closed, the counter at 0. */
  function InitialRegistry(): (r: Registry)
    ensures r.Valid()
    ensures r.highestZIndex == 0
    ensures forall id :: id in r.windows ==> !r.windows[id].isOpen && !r.windows[id].isFocused
  {
    Registry(InitialWindows(), 0)
  }

  /** One call of a store command, as a value, so that sequences of commands can be stated. */
  datatype Command =
    | Open(id: WindowId)
    | Close(id: WindowId)
    | Focus(id: WindowId)
    | Move(id: WindowId, position: Position)
    | Resize(id: WindowId, size: Size)

  function Apply(r: Registry, c: Command): Registry
    requires r.Valid()
  {
    match c
    case Open(id) => r.OpenWindow(id)
    case Close(id) => r.CloseWindow(id)
    case Focus(id) => r.FocusWindow(id)
    case Move(id, p) => r.UpdateWindowPosition(id, p)
    case Resize(id, s) => r.UpdateWindowSize(id, s)
  }

  /** The commands applied in order, the first one first. */
  function Run(r: Registry, cs: seq<Command>): (r': Registry)
    requires r.Valid()
    ensures r'.Valid()
    decreases |cs|
  {
    if cs == [] then r else Run(Apply(r, cs[0]), cs[1..])
  }

  /** The invariant holds after any sequence of commands, and the counter never goes down.
      The last clause, that no window lies above the counter, is the invariant's own bound,
      restated for the final state. */
  lemma {:induction false} RunKeepsInvariant(r: Registry, cs: seq<Command>)
    requires r.Valid()
    ensures Run(r, cs).Valid()
    ensures Run(r, cs).highestZIndex >= r.highestZIndex
    ensures forall id :: id in Run(r, cs).windows ==> Run(r, cs).windows[id].zIndex <= Run(r, cs).highestZIndex
    decreases |cs|
  {
    if cs != [] {
      RunKeepsInvariant(Apply(r, cs[0]), cs[1..]);
    }
  }

  /** Every state the store can reach from its initial state satisfies the invariant; in
      particular (as the invariant already implies) the counter is never negative. */
  lemma ReachableStatesAreValid(cs: seq<Command>)
    ensures Run(InitialRegistry(), cs).Valid()
    ensures Run(InitialRegistry(), cs).highestZIndex >= 0
  {
    RunKeepsInvariant(InitialRegistry(), cs);
  }

  /** After `openWindow(id)` or `focusWindow(id)`, `id` is on top: once any order has been
      handed out, every other window lies strictly below it. */
  lemma FocusedWindowIsOnTop(r: Registry, id: WindowId)
    requires r.Valid()
    ensures var f := r.FocusWindow(id);
      f.highestZIndex > 0 ==> forall w :: w in f.windows && w != id ==> f.windows[w].zIndex < f.windows[id].zIndex
    ensures var o := r.OpenWindow(id);
      forall w :: w in o.windows && w != id ==> o.windows[w].zIndex < o.windows[id].zIndex
  {
    var f := r.FocusWindow(id);
    if f.highestZIndex > 0 {
      forall w | w in f.windows && w != id
        ensures f.windows[w].zIndex < f.windows[id].zIndex
      {
        assert f.windows[w] == r.windows[w];
      }
    }
  }

  /** Focusing twice is the same as focusing once. */
  lemma FocusIdempotent(r: Registry, id: WindowId)
    requires id in r.windows
    ensures r.FocusWindow(id).FocusWindow(id) == r.FocusWindow(id)
  {
    var f := r.FocusWindow(id);
    assert f.windows[id := f.windows[id].(isFocused := true)] == f.windows;
  }

  /** Closing and reopening a window puts it back on top, open and focused, with exactly the
      position and size it had before it was closed. */
  lemma CloseThenOpen(r: Registry, id: WindowId)
    requires r.Valid()
    ensures var o := r.CloseWindow(id).OpenWindow(id);
      && o.windows[id].isOpen && o.windows[id].isFocused
      && o.windows[id].zIndex == o.highestZIndex == r.highestZIndex + 1
      && o.windows[id].position == r.windows[id].position
      && o.windows[id].size == r.windows[id].size
      && (forall w :: w in r.windows && w != id ==> o.windows[w] == r.windows[w])
  {
  }

  /** Two position updates of the same window: the second one wins. */
  lemma UpdatePositionLastWins(r: Registry, id: WindowId, p: Position, q: Position)
    requires id in r.windows
    ensures r.UpdateWindowPosition(id, p).UpdateWindowPosition(id, q) == r.UpdateWindowPosition(id, q)
  {
    var once := r.UpdateWindowPosition(id, p);
    var w := r.windows[id].(position := q);
    assert once.windows[id].(position := q) == w;
    assert once.windows[id := w] == r.windows[id := w];
  }

  /** Issuing the same position update twice is the same as issuing it once. */
  lemma UpdatePositionIdempotent(r: Registry, id: WindowId, p: Position)
    requires id in r.windows
    ensures r.UpdateWindowPosition(id, p).UpdateWindowPosition(id, p) == r.UpdateWindowPosition(id, p)
  {
    UpdatePositionLastWins(r, id, p, p);
  }

  /** Focus is not exclusive: opening one window and then another leaves both focused. */
  lemma SeveralWindowsCanBeFocused()
    ensures var r := InitialRegistry().OpenWindow(Scoreboard).OpenWindow(Radio);
      r.windows[Scoreboard].isFocused && r.windows[Radio].isFocused
  {
  }

  /** The store itself (`useWindowStore`): the two fields that zustand's `set` replaces. */
  class WindowStore {
    var windows: map<WindowId, WindowState>
    var highestZIndex: int

    function State(): Registry
      reads this
    {
      Registry(windows, highestZIndex)
    }

    ghost predicate Valid()
      reads this
    {
      State().Valid()
    }

    constructor ()
      ensures State() == InitialRegistry()
      ensures Valid()
    {
      windows := InitialWindows();
      highestZIndex := 0;
    }

    method OpenWindow(id: WindowId)
      requires Valid()
      modifies this
      ensures State() == old(State()).OpenWindow(id)
      ensures Valid()
    {
      var newZIndex := highestZIndex + 1;
      windows := windows[id := windows[id].(isOpen := true, isFocused := true, zIndex := newZIndex)];
      highestZIndex := newZIndex;
    }

    method CloseWindow(id: WindowId)
      requires Valid()
      modifies this
      ensures State() == old(State()).CloseWindow(id)
      ensures Valid()
    {
      windows := windows[id := windows[id].(isOpen := false, isFocused := false)];
    }

    method FocusWindow(id: WindowId)
      requires Valid()
      modifies this
      ensures State() == old(State()).FocusWindow(id)
      ensures Valid()
    {
      if windows[id].zIndex == highestZIndex {
        windows := windows[id := windows[id].(isFocused := true)];
        return;
      }
      var newZIndex := highestZIndex + 1;
      windows := windows[id := windows[id].(isFocused := true, zIndex := newZIndex)];
      highestZIndex := newZIndex;
    }

    method UpdateWindowPosition(id: WindowId, position: Position)
      requires Valid()
      modifies this
      ensures State() == old(State()).UpdateWindowPosition(id, position)
      ensures Valid()
    {
      windows := windows[id := windows[id].(position := position)];
    }

    method UpdateWindowSize(id: WindowId, size: Size)
      requires Valid()
      modifies this
      ensures State() == old(State()).UpdateWindowSize(id, size)
      ensures Valid()
    {
      windows := windows[id := windows[id].(size := size)];
    }
  }
}
