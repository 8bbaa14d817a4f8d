# Window manager of the retro baseball desktop, in Dafny

This project models the window manager of a Windows-95-style desktop site, plus the pure
helpers of its radio widget. The window manager has two parts.

- **The window registry** (`useWindowStore`). It holds one record for each of six fixed
  windows: open flag, focus flag, stacking order (`zIndex`), position and size. It also
  holds the counter `highestZIndex`, which hands out new stacking orders. Five commands
  rewrite this state.
- **The window shell** (`Window`). One shell is mounted per window. It turns presses,
  moves and releases (mouse or touch), body clicks and close clicks into registry
  commands. It also clamps dragged windows into the viewport. A resize handler pulls a
  window back when the viewport shrinks, but the component only installs it once the
  window is mounted and its position has changed (see "## Left out").

From the radio widget the project takes four helpers:

- the `mm:ss` clock display;
- the split of a video title into track and artist;
- the playlist index used when a skip did not take;
- the guards that decide whether a button press reaches the player.

Files:

- `wrappers.dfy`: `Option`.
- `window_registry.dfy`, module `WindowRegistry`:
  - `Registry` is the state as a value. Each command is a member function that rebuilds it, as the source's `set` callbacks do.
  - `Registry.Valid` is the invariant every command keeps.
  - `Run` applies a sequence of commands.
  - `WindowStore` is the mutable store. Each of its methods replaces the two store fields in place, and its `ensures` says the new state is the matching rebuild of the old one.
- `window_shell.dfy`, module `WindowShell`:
  - the drag and resize clamps as functions, with their properties;
  - `Render`;
  - the `Window` class. Its `isDragging` and `dragOffset` fields are updated by the handler methods. The handlers send their commands to a `WindowStore`.
- `radio.dfy`, module `RadioWidget`:
  - `formatTime`, with the parts it relies on: `toString` and `padStart`. The minutes and seconds are counted out sixty seconds at a time (`ToClockTime`), and `ToClockTimeIsDivision` shows this is the floor division and remainder of the source;
  - `split`, `trim` and the title rule;
  - the index fallback and the control guards.

Everything the browser supplies is a parameter of the handler that reads it. This covers
the element's bounding box, its offset size and the viewport size. In the resize and
press handlers, a missing element (`windowRef.current` is `null`) is `None`. The move
handlers read only the element's offset size, and there a missing element is an offset
size of `0`. Either way an offset size of `0` falls back to the size stored in the
registry, as JavaScript's `||` does.

Two consequences of the code are worth stating, since a reader might expect otherwise:

- **Focus is not exclusive.** `focusWindow` and `openWindow` never clear the focus of
  other windows, so there is no single-focus invariant. `SeveralWindowsCanBeFocused`
  shows two windows focused at once.
- **The resize clamp is not the drag clamp.** The resize handler pulls back only an axis
  that runs past the viewport. `ResizeAgreesWithDrag` shows the two clamps agree for
  positions that are not negative. `ResizeKeepsNegativePosition` shows they differ for
  negative ones.

## Model

| member | source | states |
|---|---|---|
| WindowRegistry.InitialWindows | src/utils/windowUtils.ts:26-81 | every one of the six identifiers has a record, carrying its own identifier, closed, unfocused, at stacking order 0 |
| WindowRegistry.InitialRegistry | src/utils/windowUtils.ts:83-85 | the start state satisfies the registry invariant, with the counter at 0 and every window closed and unfocused |
| WindowRegistry.EveryIdentifierIsListed | src/utils/windowUtils.ts:4 | the six identifiers are all the identifiers there are |
| WindowRegistry.Registry.OpenWindow | src/utils/windowUtils.ts:86-102 | `id` becomes open, focused and on top with stacking order old counter + 1; the counter becomes that value; title and geometry stay; every other record is unchanged; the invariant is kept |
| WindowRegistry.Registry.CloseWindow | src/utils/windowUtils.ts:103-114 | `id` becomes closed and unfocused; its stacking order, title, position and size are kept; the counter and every other record are unchanged; the invariant is kept |
| WindowRegistry.Registry.FocusWindow | src/utils/windowUtils.ts:115-142 | `id` becomes focused and keeps its open flag. If it already holds the counter's value, no stacking order and not the counter change; otherwise the counter goes up by exactly 1 and `id` gets the new value. Every other record, including its focus flag, is unchanged; the invariant is kept |
| WindowRegistry.Registry.UpdateWindowPosition | src/utils/windowUtils.ts:143-153 | only the position of `id` changes, to the given one, with no bounds check; the invariant is kept |
| WindowRegistry.Registry.UpdateWindowSize | src/utils/windowUtils.ts:154-164 | only the size of `id` changes, to the given one; the invariant is kept |
| WindowRegistry.KeepOrderKeepsValid | src/utils/windowUtils.ts:103-114 | replacing one record by one with the same identifier and stacking order keeps the invariant |
| WindowRegistry.RaiseKeepsValid | src/utils/windowUtils.ts:86-102 | giving one window the next stacking order and making that the counter keeps the invariant, since it is above every order handed out |
| WindowRegistry.Run | src/utils/windowUtils.ts:83-164 | any sequence of commands applied to a valid state gives a valid state |
| WindowRegistry.RunKeepsInvariant | src/utils/windowUtils.ts:86-142 | after any sequence of commands the invariant holds, the counter has not gone down, and it is at least every window's stacking order |
| WindowRegistry.ReachableStatesAreValid | src/utils/windowUtils.ts:26-164 | every state reachable from the start state satisfies the invariant (every record present, stacking orders between 0 and the counter, distinct positive orders for distinct windows) |
| WindowRegistry.FocusedWindowIsOnTop | src/utils/windowUtils.ts:86-142 | after `openWindow(id)`, and after `focusWindow(id)` once any order has been handed out, every other window has a strictly lower stacking order than `id` |
| WindowRegistry.FocusIdempotent | src/utils/windowUtils.ts:115-142 | focusing a window twice gives the same state as focusing it once |
| WindowRegistry.CloseThenOpen | src/utils/windowUtils.ts:86-114 | closing and reopening a window makes it open, focused and on top with the next order, with the position and size it had before; other windows are unchanged |
| WindowRegistry.UpdatePositionLastWins | src/utils/windowUtils.ts:143-153 | of two position updates to one window, the second one decides the state |
| WindowRegistry.UpdatePositionIdempotent | src/utils/windowUtils.ts:143-153 | the same position update twice gives the same state as once |
| WindowRegistry.SeveralWindowsCanBeFocused | src/utils/windowUtils.ts:86-101 | opening Scoreboard and then Radio leaves both focused: focus is not exclusive |
| WindowRegistry.WindowStore.constructor | src/utils/windowUtils.ts:83-85 | the store starts in the initial registry state |
| WindowRegistry.WindowStore.OpenWindow | src/utils/windowUtils.ts:86-102 | the store's new fields are those of `Registry.OpenWindow` on the old ones, and the invariant is kept |
| WindowRegistry.WindowStore.CloseWindow | src/utils/windowUtils.ts:103-114 | the store's new fields are those of `Registry.CloseWindow` on the old ones, and the invariant is kept |
| WindowRegistry.WindowStore.FocusWindow | src/utils/windowUtils.ts:115-142 | the store's new fields are those of `Registry.FocusWindow` on the old ones (both branches), and the invariant is kept |
| WindowRegistry.WindowStore.UpdateWindowPosition | src/utils/windowUtils.ts:143-153 | the store's new fields are those of `Registry.UpdateWindowPosition` on the old ones |
| WindowRegistry.WindowStore.UpdateWindowSize | src/utils/windowUtils.ts:154-164 | the store's new fields are those of `Registry.UpdateWindowSize` on the old ones |
| WindowShell.DragAxis | src/components/Window.tsx:88-89 | the clamped coordinate is never negative; when the window fits, it stays inside the viewport; a candidate already in range passes through; a window wider than the viewport goes to 0 |
| WindowShell.DragAxisIsNearest | src/components/Window.tsx:88-89 | when the window fits, no allowed coordinate is closer to the candidate than the clamped one |
| WindowShell.DragTarget | src/components/Window.tsx:80-89 | each axis is the pointer less the grab offset, clamped on its own; the result is never negative and inside the viewport on every axis where the window fits |
| WindowShell.DragTargetKeepsInsideCandidate | src/components/Window.tsx:88-89 | a candidate inside `[0, viewport - size]` on both axes is the result unchanged |
| WindowShell.MeasuredOr | src/components/Window.tsx:85-86 | a non-zero measured size is used, a zero one falls back to the stored size |
| WindowShell.ResizeAxis | src/components/Window.tsx:43-49 | an axis changes only if it runs past the viewport, and then the window ends flush with the viewport's edge, or at 0 when it is larger than the viewport |
| WindowShell.ResizeAgreesWithDrag | src/components/Window.tsx:40-49 | for a coordinate that is not negative, the resize clamp gives what the drag clamp gives |
| WindowShell.ResizeKeepsNegativePosition | src/components/Window.tsx:40-49 | a negative coordinate that fits is kept by the resize clamp, while the drag clamp would move it to 0 |
| WindowShell.ResizeAxisIdempotent | src/components/Window.tsx:40-49 | clamping an already clamped coordinate again changes nothing |
| WindowShell.ResizeTarget | src/components/Window.tsx:40-49 | the two axes are clamped independently by the resize clamp |
| WindowShell.Render | src/components/Window.tsx:164-177 | a closed window paints nothing; an open one paints its title, position, size and stacking order |
| WindowShell.Window.constructor | src/components/Window.tsx:21-26 | a new shell is not dragging and has offset (0, 0) |
| WindowShell.Window.HandleResize | src/components/Window.tsx:33-54 | with no element nothing happens; otherwise `updateWindowPosition` is issued exactly when the resize clamp moves the window, and the new state is that update |
| WindowShell.Window.HandleMouseDown | src/components/Window.tsx:62-75 | with no element nothing changes; otherwise the window is focused, the offset is the pointer less the element's top-left corner, and dragging starts |
| WindowShell.Window.HandleTouchStart | src/components/Window.tsx:107-121 | the same as a mouse press, at the touch point |
| WindowShell.Window.HandleMouseMove | src/components/Window.tsx:77-95 | ignored unless dragging; while dragging, the registry gets the drag-clamped position for the measured size, or the stored size when the measurement is 0 |
| WindowShell.Window.HandleTouchMove | src/components/Window.tsx:123-142 | the same state change as a mouse move, with the same clamp, at the touch point |
| WindowShell.Window.HandleMouseUp | src/components/Window.tsx:97-99 | dragging stops; the offset and the registry are untouched |
| WindowShell.Window.HandleTouchEnd | src/components/Window.tsx:144-146 | dragging stops; the offset and the registry are untouched |
| WindowShell.Window.HandleWindowClick | src/components/Window.tsx:101-105 | `focusWindow` is issued exactly when the window is not focused; otherwise nothing changes |
| WindowShell.Window.HandleCloseClick | src/components/Window.tsx:187-190 | the close button's click closes the window |
| WindowShell.DragExample | src/components/Window.tsx:88-89 | the radio window at its start-up size, 350 by 220, dragged towards (1200, 600) in a 1280 by 720 viewport stops at (930, 500) |
| WindowShell.ResizeExample | src/components/Window.tsx:43-49 | a 300 by 200 window at (1000, 50) in a viewport shrunk to 1100 by 800 moves to (800, 50) |
| RadioWidget.Decimal | src/components/windows/Radio.tsx:195 | `toString()` of a whole number is a non-empty digit string with no leading zero, one digit exactly below 10, at most two exactly below 100 |
| RadioWidget.ValueOfDecimal | src/components/windows/Radio.tsx:195 | the digits `toString()` writes denote the number |
| RadioWidget.ValueIgnoresLeadingZeros | src/components/windows/Radio.tsx:195 | zeros in front of a numeral do not change its value |
| RadioWidget.PadStart | src/components/windows/Radio.tsx:195 | `padStart(width, '0')` gives a string of length `width`, or the string's own length when it is already longer |
| RadioWidget.PadStartShape | src/components/windows/Radio.tsx:195 | the padded string ends with the original string, and everything in front of it is the digit zero |
| RadioWidget.ValueOfPadStart | src/components/windows/Radio.tsx:195 | padding a numeral with zeros keeps it a numeral with the same value |
| RadioWidget.TwoDigits | src/components/windows/Radio.tsx:195 | a clock field is a digit string of at least two digits denoting the number, exactly two below 100 |
| RadioWidget.ToClockTime | src/components/windows/Radio.tsx:193-194 | the minutes and seconds of a time: minutes times 60 plus seconds is the time, and the seconds are below 60 |
| RadioWidget.ToClockTimeIsDivision | src/components/windows/Radio.tsx:193-194 | those minutes and seconds are exactly `Math.floor(t / 60)` and `t % 60` |
| RadioWidget.Clock | src/components/windows/Radio.tsx:195 | the display of a minute and a second count is at least five characters with a colon third from the end; the field before the colon reads back as the minutes, the two digits after it as the seconds; it is five characters long exactly when the minutes are below 100 |
| RadioWidget.FormatTimeShape | src/components/windows/Radio.tsx:192-196 | the display is a digit field, a colon, and a two-digit field; it is five characters long exactly when the time is below 100 minutes |
| RadioWidget.FormatTimeFields | src/components/windows/Radio.tsx:193-195 | the seconds field of the display is below 60, and the minutes field times 60 plus the seconds field is the time |
| RadioWidget.FormatTime | src/components/windows/Radio.tsx:192-196 | reading the display back (digits, colon, two digits below 60) gives the number of seconds it was made from |
| RadioWidget.ParsedFields | src/components/windows/Radio.tsx:195 | a string that reads back as a time has a colon third from the end, a seconds field below 60, and minutes times 60 plus seconds equal to the time |
| RadioWidget.ClockRoundTrip | src/components/windows/Radio.tsx:195 | a display built from a minute count and a second count below 60 reads back as minutes times 60 plus seconds |
| RadioWidget.FormatTimeShortForm | src/components/windows/Radio.tsx:193-195 | below 100 minutes the display is five characters with the colon at index 2, and minutes times 60 plus seconds gives the time back |
| RadioWidget.FindFrom | src/components/windows/Radio.tsx:176 | the result is the first occurrence at or after the start, or none when there is none |
| RadioWidget.IndexOf | src/components/windows/Radio.tsx:176 | the result is the leftmost occurrence of the separator, and none exactly when the title does not contain it |
| RadioWidget.Split | src/components/windows/Radio.tsx:176-177 | `split` always gives at least one piece, and more than one exactly when the title contains the separator |
| RadioWidget.SplitJoin | src/components/windows/Radio.tsx:176 | joining the pieces with the separator gives the title back |
| RadioWidget.SplitAtFirst | src/components/windows/Radio.tsx:176 | at the first separator the title is the text before it, the separator and the text after it, and the split is the text before it followed by the split of the rest |
| RadioWidget.SplitPiecesHaveNoSeparator | src/components/windows/Radio.tsx:176 | no piece of the split contains the separator |
| RadioWidget.SkipLeading | src/components/windows/Radio.tsx:178-181 | the end of the run of white space starting at an offset: everything skipped is white space, and the character there, if any, is not |
| RadioWidget.SkipTrailing | src/components/windows/Radio.tsx:178-181 | the start of the run of white space ending at an offset: everything skipped is white space, and the character before it, down to the lower bound, is not |
| RadioWidget.Trim | src/components/windows/Radio.tsx:178-181 | `trim()` gives the middle of the string, with only white space cut away at both ends and no white space left at either end |
| RadioWidget.TrimIdempotent | src/components/windows/Radio.tsx:178-181 | trimming twice gives the same as trimming once |
| RadioWidget.TrackInfoFromTitle | src/components/windows/Radio.tsx:175-183 | the display is left as it was exactly for an empty title; a title with the separator shows the trimmed second piece as track and the trimmed first piece as artist; one without shows the trimmed title by "Vin Scully the GOAT" |
| RadioWidget.TrackInfoFromTitleMeaning | src/components/windows/Radio.tsx:175-183 | an empty title changes nothing; a title without `" - "` is all track (trimmed), by "Vin Scully the GOAT"; otherwise the artist is the trimmed text before the first separator, and the track is the trimmed text between it and the next one |
| RadioWidget.JsRemainder | src/components/windows/Radio.tsx:269 | JavaScript's `%`: the remainder has the sign of the dividend and is below the divisor in size, and dividend = quotient times divisor + remainder |
| RadioWidget.NextIndex | src/components/windows/Radio.tsx:269 | `(i + 1) % 20` is in `[0, 20)` for every index from -1 up, and equals `i + 1` modulo 20 |
| RadioWidget.PreviousIndex | src/components/windows/Radio.tsx:271 | `i === 0 ? 19 : i - 1` is in `[0, 20)` for an index in `[0, 20)`, and equals `i - 1` modulo 20 |
| RadioWidget.NextPreviousInverse | src/components/windows/Radio.tsx:269-271 | on `[0, 20)` the next and the previous index undo each other |
| RadioWidget.TogglePlay | src/components/windows/Radio.tsx:234-246 | no command without a player or while loading; otherwise pause exactly when playing, and play exactly when not |
| RadioWidget.SkipTrack | src/components/windows/Radio.tsx:248-260 | no command without a player or while loading; otherwise the next or the previous video, by direction |
| RadioWidget.SkipFallback | src/components/windows/Radio.tsx:262-273 | a jump is issued exactly when the player and the widget are still there and the index has not moved; it goes to the next or previous index, inside the playlist for an index inside it |

## Left out

- The YouTube player lifecycle of the radio widget is not modelled: loading the script, building the player, its callbacks, and the polling with `setInterval` and `setTimeout`. It is a foreign API driven by timers. The half-second delay before the skip fallback is not modelled either; `SkipFallback` takes the two indices the player reports as parameters.
- Attaching and detaching DOM listeners, and `preventDefault`, are not modelled: they are browser I/O. Each handler is a method called directly. The viewport and the element's measurements are parameters.
- The `catch` in `updateTrackInfo` that shows "Error loading track info" is not modelled: it handles exceptions thrown by the player API, which is not modelled.
- React closures that read an earlier render's state are not modelled. Each handler reads the store as it is when the handler runs.
- The store's change notification to its subscribers is not modelled, and neither is `Window`'s re-rendering. `Render` only relates the registry state to what is painted.
- Numbers are unbounded integers, not JavaScript's double-precision numbers: pixel values, the `highestZIndex` counter, the playlist index, and the seconds and minutes of the clock. JavaScript represents whole numbers exactly only up to 2^53, and the model does not capture what happens beyond that.
- RadioWidget.Decimal: writes every whole number as plain digits. `Number.prototype.toString` switches to exponent form from 1e21 up (`"1e+21"`), and the model does not capture that form.
- RadioWidget.FormatTime: takes whole seconds that are not negative (`nat`). The `Math.floor` of fractional seconds, and negative or non-finite times, are not modelled.
- RadioWidget.Split: only a non-empty separator is modelled. The title rule only splits on `" - "`.
- RadioWidget.Trim: works on Dafny characters, which are Unicode scalar values, not UTF-16 code units. A character outside the Basic Multilingual Plane is one character here but two code units in JavaScript, and a lone surrogate cannot be represented. White space is the ECMAScript white-space and line-terminator set, listed by code point; none of it lies outside the Basic Multilingual Plane, so trimming is unaffected.
- RadioWidget.SkipFallback: for an index that is not in the playlist (the player reports -1), the previous-index jump goes to -2. The model computes this value as the code does, but proves the `[0, 20)` range only for indices inside the playlist.
- WindowShell.Window.HandleResize: the model treats it as run on every viewport resize. The component adds the listener in an effect that returns early while `windowRef.current` is `null`. Every window is mounted closed, so the effect first runs with no element. The effect re-runs only when the window's position object changes, and `openWindow` keeps that object. So a window that has been opened but not yet moved is neither clamped nor pulled back when the viewport shrinks.
- WindowShell.Window.HandleMouseMove: requires the measured offset size to be non-negative, as a DOM offset size always is.
- WindowShell.Window.HandleTouchMove: requires the measured offset size to be non-negative, as a DOM offset size always is.
- The other windows' contents and the rest of the site are not part of this model: the scoreboard, baseball card, guestbook, stadium map and jumbotron, the loading screen, the desktop clock and routing.
