/**
 * Host-side call sequences, proved from the compositor's contracts alone:
 * what the host and the clients observe after a few calls on a fresh
 * compositor.
 */
module Scenarios {
  import opened Wrappers
  import opened Wire
  import opened Wayland

  /**
   * Create, resize, damage and destroy one surface: the host hears of it in
   * exactly that order, and the destroyed surface is no longer found.  The
   * created note carries the requested id and the other three carry the
   * surface's own id; all four are `id` here only because the surface is
   * created with its own id equal to the requested one.
   */
  method SurfaceLifecycle(client: Client, id: UInt32, size: Size, damage: Rect)
    returns (log: seq<HostNote>, found: Surface?)
    ensures log == [SurfaceCreatedNote(id),
                    SurfaceMappedNote(id, Rect(0, 0, size.width, size.height)),
                    SurfaceDamagedNote(id, damage),
                    SurfaceDestroyedNote(id)]
    ensures found == null
  {
    var c := new Compositor();
    var s := c.CreateSurface(client, id, id);
    c.SurfaceResized(s, size);
    c.SurfaceDamaged(s, damage);
    c.SurfaceDestroyed(s);
    found := c.GetSurfaceFromWinId(id);
    log := c.hostLog;
  }

  /**
   * After focus is set to an id no surface has, a key press posts nothing,
   * whichever id it names.
   */
  method KeyAfterFocusMiss(client: Client, id: UInt32, other: UInt32, code: UInt32, clock: Clock)
    returns (posted: seq<Event>)
    requires other != id
    ensures posted == []
  {
    var c := new Compositor();
    var s := c.CreateSurface(client, id, id);
    c.SetInputFocus(other);
    c.SendKeyPressEvent(id, code, clock);
    posted := c.events;
  }

  /**
   * This file never clears the focus slots, so after the focused surface is
   * destroyed a later key press is still posted, with no client to receive
   * it (any clearing done by the input-device library is not modelled).
   */
  method KeyAfterFocusedSurfaceDestroyed(client: Client, id: UInt32, code: UInt32, clock: Clock)
    returns (posted: seq<Event>)
    ensures posted == [Event(None, Key(CurrentTimeMsecs(clock), WireKeyCode(code), 1))]
  {
    var c := new Compositor();
    var s := c.CreateSurface(client, id, id);
    c.SetInputFocus(id);
    c.SurfaceDestroyed(s);
    c.SendKeyPressEvent(id, code, clock);
    posted := c.events;
  }

  /** A left-button press at (10, 20) posts the button event first, then the motion. */
  method LeftPress(client: Client, id: UInt32, buttonClock: Clock, moveClock: Clock)
    returns (posted: seq<Event>)
    ensures posted == [Event(Some(client), Button(CurrentTimeMsecs(buttonClock), BTN_LEFT, 1)),
                       Event(Some(client), Motion(CurrentTimeMsecs(moveClock), 10, 20, 10, 20))]
  {
    var c := new Compositor();
    var s := c.CreateSurface(client, id, id);
    c.SendMousePressEvent(id, 10, 20, LeftButton, buttonClock, moveClock);
    posted := c.events;
  }
}
