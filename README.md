# Wayland compositor core: surface table, focus and input routing

This project models the bookkeeping and input routing of `Wayland::Compositor`
in the Qt-based Wayland compositor (`src/qt-compositor/private/wlcompositor.cpp`).
The compositor keeps a table of live surfaces in creation order, two focus slots
of its input device (keyboard and pointer), and translates host input calls into
protocol events posted to clients.  It also notifies the embedding host
application of surface creation, mapping, damage and destruction.

The model is one class, `Wayland.Compositor`, with the state the source changes:

- `surfaces`: the live-surface list (`m_surfaces`), a `seq` of `Surface` objects;
- `kbdFocus`, `ptrFocus`: the two focus slots of `m_input`, null for "no focus";
- `events`: every event posted with `wl_client_post_event`, as
  `(target client, message)` records in posting order;
- `hostLog`: every notification sent to the host, in order.

`Surface` is a class because the source compares surfaces by pointer
(`removeOne`) and stores pointers in the focus slots.  A surface's id is fixed
when it is created; it comes from the surface's own code, so `CreateSurface`
takes it as a separate argument `surfaceId` rather than assuming it equals the
requested `id` (only the latter is passed to the host's `surfaceCreated`).

Modules:

- `Wire` (`wire.dfy`): the button mapping, the key-code offset with 32-bit
  unsigned wrap-around, and the millisecond arithmetic of `currentTimeMsecs`.
- `Lists` (`lists.dfy`): the first-occurrence search and `removeOne` of the
  surface list.
- `Wayland` (`compositor.dfy`): the entities, the first-match id lookup and
  the `Compositor` class.
- `Scenarios` (`scenarios.dfy`): short host call sequences, proved from the
  contracts alone.
- `Wrappers` (`wrappers.dfy`): `Option`.

The clock is a parameter: each call of `currentTimeMsecs` in the source is one
`Clock` argument (`Failed` or a `Reading` of seconds and microseconds).  The mouse
press and release handlers read the clock twice, once for the button event and
once inside `sendMouseMoveEvent`, so they take two readings.

Behaviour of the code worth noting:

- this file never clears the focus slots when a surface is destroyed
  (`SurfaceDestroyed` keeps both slots; `Scenarios.KeyAfterFocusedSurfaceDestroyed`
  shows a key event still being posted afterwards, with no client);
- `createSurface` does not reject a duplicate id; surfaces with equal ids may
  coexist, and lookups return the first in table order;
- `surfaceResized` notifies the host on every call, also for an empty size;
- `surfaceDestroyed` notifies the host on every call, also when the surface
  was already removed.

## Model

| member | source | states |
|---|---|---|
| `Wire.ToWaylandButton` | src/qt-compositor/private/wlcompositor.cpp:310-320 | total: left gives BTN_LEFT and only left does, right gives BTN_RIGHT and only right does, every other button gives BTN_MIDDLE |
| `Wire.WireKeyCode` | src/qt-compositor/private/wlcompositor.cpp:355-373 | the key code sent is `code - 8` in unsigned 32-bit arithmetic: adding 8 back modulo 2^32 recovers the host code; no wrap for codes of at least 8, and codes below 8 wrap to the top of the range |
| `Wire.WireKeyCodeInjective` | src/qt-compositor/private/wlcompositor.cpp:361 | two different host key codes never produce the same wire code |
| `Wire.CurrentTimeMsecs` | src/qt-compositor/private/wlcompositor.cpp:265-273 | 0 when the clock read fails; otherwise congruent to `sec*1000 + usec/1000` (C division) modulo 2^32, and equal to it when that value fits in 32 bits |
| `Wire.OneSecondLater` | src/qt-compositor/private/wlcompositor.cpp:271 | a reading one second later gives a timestamp 1000 higher, modulo 2^32 |
| `Wire.OneMillisecondLater` | src/qt-compositor/private/wlcompositor.cpp:271 | a reading 1000 microseconds later gives the next timestamp, modulo 2^32 |
| `Lists.FirstIndexOf` | src/qt-compositor/private/wlcompositor.cpp:289 | the position `removeOne` acts on: an occurrence of the element with none before it |
| `Lists.RemoveFirst` | src/qt-compositor/private/wlcompositor.cpp:289 | `removeOne` leaves a list without the element unchanged and otherwise shortens it by exactly one |
| `Lists.RemoveFirstMultiset` | src/qt-compositor/private/wlcompositor.cpp:289 | `removeOne` takes exactly one copy of the element out of the list's contents and nothing else |
| `Lists.RemoveFirstKeepsOrder` | src/qt-compositor/private/wlcompositor.cpp:289 | elements before the removed one stay in place, later ones move up by one: relative order is kept |
| `Lists.RemoveFirstDistinct` | src/qt-compositor/private/wlcompositor.cpp:287-291 | in a list without repetitions the removed surface is gone entirely and the list stays repetition-free |
| `Lists.AppendDistinct` | src/qt-compositor/private/wlcompositor.cpp:231 | appending a new surface keeps the list repetition-free |
| `Wayland.IndexOfId` | src/qt-compositor/private/wlcompositor.cpp:243-251 | the first position whose surface has the id, with no earlier match; none exactly when no surface has it |
| `Wayland.Resolve` | src/qt-compositor/private/wlcompositor.cpp:243-251 | the surface found is live and has the id; null exactly when no live surface has the id |
| `Wayland.ResolveAfterAppend` | src/qt-compositor/private/wlcompositor.cpp:221-251 | after a surface is appended, an id resolves as before if it resolved; otherwise to the new surface exactly when it has that id |
| `Wayland.ResolveAfterRemove` | src/qt-compositor/private/wlcompositor.cpp:243-291 | after `removeOne` of a surface, no id resolves to it, and every id that resolved to another surface still resolves to that surface |
| `Wayland.Compositor.constructor` | src/qt-compositor/private/wlcompositor.cpp:185 | a new compositor has no surfaces, both focus slots empty, and nothing posted or notified |
| `Wayland.Compositor.CreateSurface` | src/qt-compositor/private/wlcompositor.cpp:221-232 | a fresh surface of the client is appended at the end, earlier entries unchanged; exactly one `surfaceCreated(id)` note; focus and events untouched; every id that resolved still resolves to the same surface, and the new surface's id resolves to it unless an earlier surface has that id |
| `Wayland.Compositor.GetSurfaceFromWinId` | src/qt-compositor/private/wlcompositor.cpp:243-251 | returns the first surface in table order with the id, or null when there is none |
| `Wayland.Compositor.GetClientFromWinId` | src/qt-compositor/private/wlcompositor.cpp:234-241 | the client of that surface; none exactly when the surface lookup misses |
| `Wayland.Compositor.Image` | src/qt-compositor/private/wlcompositor.cpp:253-263 | the image of the first surface with the id, the empty image when none has it; reads only |
| `Wayland.Compositor.SurfaceResized` | src/qt-compositor/private/wlcompositor.cpp:282-285 | one `surfaceMapped` note with the rectangle at the origin of the new size; nothing else changes |
| `Wayland.Compositor.SurfaceDamaged` | src/qt-compositor/private/wlcompositor.cpp:305-308 | one `surfaceDamaged` note carrying the rectangle unchanged; nothing else changes |
| `Wayland.Compositor.SurfaceDestroyed` | src/qt-compositor/private/wlcompositor.cpp:287-291 | only the first occurrence is removed, order kept, surface gone afterwards so no id resolves to it, every other lookup unchanged; one `surfaceDestroyed` note on every call; this file never clears the focus slots |
| `Wayland.Compositor.SetInputFocus` | src/qt-compositor/private/wlcompositor.cpp:293-303 | both focus slots take the same value: the resolved surface, or none for an unknown id |
| `Wayland.Compositor.SendMouseMoveEvent` | src/qt-compositor/private/wlcompositor.cpp:342-353 | when the id resolves: pointer focus becomes that surface and one motion event at (x, y) is posted to its client; otherwise nothing changes |
| `Wayland.Compositor.SendMouseButton` | src/qt-compositor/private/wlcompositor.cpp:322-340 | when the id resolves: a button event with the mapped code, then a motion event, both to the same client, and pointer focus on the surface; otherwise nothing |
| `Wayland.Compositor.SendMousePressEvent` | src/qt-compositor/private/wlcompositor.cpp:322-331 | the button-then-motion pair with pressed state 1 |
| `Wayland.Compositor.SendMouseReleaseEvent` | src/qt-compositor/private/wlcompositor.cpp:333-340 | the button-then-motion pair with pressed state 0 |
| `Wayland.Compositor.SendKey` | src/qt-compositor/private/wlcompositor.cpp:355-373 | exactly one key event with the offset code when any keyboard focus is set, addressed to the resolved client or to none; nothing when keyboard focus is empty |
| `Wayland.Compositor.SendKeyPressEvent` | src/qt-compositor/private/wlcompositor.cpp:355-363 | the key event with pressed state 1, gated on keyboard focus only |
| `Wayland.Compositor.SendKeyReleaseEvent` | src/qt-compositor/private/wlcompositor.cpp:365-373 | the key event with pressed state 0, gated on keyboard focus only |
| `Scenarios.SurfaceLifecycle` | src/qt-compositor/private/wlcompositor.cpp:221-291 | create, resize, damage, destroy notify the host in exactly that order, and the id no longer resolves |
| `Scenarios.KeyAfterFocusMiss` | src/qt-compositor/private/wlcompositor.cpp:293-363 | focus set to an unknown id leaves a later key press without effect |
| `Scenarios.KeyAfterFocusedSurfaceDestroyed` | src/qt-compositor/private/wlcompositor.cpp:287-363 | this file never clears keyboard focus, so after the focused surface is destroyed a key press is still posted, with no client |
| `Scenarios.LeftPress` | src/qt-compositor/private/wlcompositor.cpp:310-353 | a left press at (10, 20) posts BTN_LEFT pressed, then a motion at (10, 20), to the surface's client |

## Left out

- Construction plumbing: `wl_compositor_init`, the global-object registration, the server socket and the fatal `exit` paths, the event-loop file descriptor and its notifier (lines 169-209); these are calls into libwayland and Qt.
- `frameFinished` and `processWaylandEvents`: each is a single call into libwayland (`wl_display_post_frame`, `wl_event_loop_dispatch`); only the timestamp arithmetic of the former is modelled, in `Wire.CurrentTimeMsecs`.
- `addClientResource` in `createSurface`: registering the protocol object is foreign; any rejection of a duplicate id happens there and is not modelled.
- The enter and leave events that `wl_input_device_set_keyboard_focus` and `wl_input_device_set_pointer_focus` send: only the focus-slot assignment is modelled, so `SetInputFocus` takes no clock.
- Any focus clearing the input-device library does when a focused surface is destroyed is not modelled; in this file the slots change only at lines 301-302 and 348-349.
- The shell request handlers and `input_device_attach`: they only print debug output.
- `gettimeofday`: the clock is a parameter. Where `time_t` is a 32-bit `long`, `tv_sec*1000` can overflow a signed type, which C leaves undefined; the model takes the usual two's-complement wrap, which reduces to the same value modulo 2^32.
- The internals of `Surface` (`wlsurface.cpp` is not part of this model): how its id is chosen, how its image changes, and its destruction; `topLevelWidget` and the graphics hardware integration.
- The console output (`printf`) of `createSurface` and `image`.
- `CreateSurface`: the requested id arrives as `uint32_t`, is held as `int` and handed to the host; the model keeps it as the unsigned value, assuming the host converts it back.
- Window ids, key codes and button codes are 32-bit unsigned; coordinates are unbounded integers, since they are only passed through.
