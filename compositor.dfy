/**
 * The bookkeeping and input routing of the `Wayland::Compositor` class: the
 * live-surface table, the keyboard and pointer focus slots, the log of
 * protocol events posted to clients and the log of notifications sent to the
 * embedding host application.
 */
module Wayland {
  import opened Wrappers
  import opened Lists
  import opened Wire

  /** A connected client; the compositor only refers to it. */
  datatype Client = Client(handle: nat)

  /** The picture the host reads back for a surface; `NullImage` is an empty `QImage`. */
  datatype SurfaceImage = NullImage | Picture(handle: nat)

  datatype Size = Size(width: int, height: int)
  datatype Rect = Rect(x: int, y: int, width: int, height: int)

  /** The input-device events the compositor posts, with their arguments. */
  datatype Message =
    | Button(time: UInt32, button: UInt32, state: UInt32)
    | Motion(time: UInt32, x: int, y: int, sx: int, sy: int)
    | Key(time: UInt32, key: UInt32, state: UInt32)

  /**
   * One posted event.  The target is optional because a key event is posted
   * to whatever `getClientFromWinId` returned, which may be no client.
   */
  datatype Event = Event(target: Option<Client>, msg: Message)

  /** Notifications to the host application, in the order they are sent. */
  datatype HostNote =
    | SurfaceCreatedNote(id: UInt32)
    | SurfaceMappedNote(id: UInt32, rect: Rect)
    | SurfaceDamagedNote(id: UInt32, rect: Rect)
    | SurfaceDestroyedNote(id: UInt32)

  /**
   * A surface object.  Its id is fixed when it is created and its client is
   * the one that created it; its image is changed only by the surface's own
   * code.
   */
  class Surface {
    const id: UInt32
    const client: Client
    var image: SurfaceImage

    constructor (id: UInt32, client: Client)
      ensures this.id == id && this.client == client && image == NullImage
    {
      this.id := id;
      this.client := client;
      image := NullImage;
    }
  }

  /** Position of the first surface, in table order, whose id is `winId`. */
  function IndexOfId(surfaces: seq<Surface>, winId: UInt32): (r: Option<nat>)
    ensures r.Some? ==> r.value < |surfaces| && surfaces[r.value].id == winId
    ensures r.Some? ==> forall j :: 0 <= j < r.value ==> surfaces[j].id != winId
    ensures r.None? <==> forall j :: 0 <= j < |surfaces| ==> surfaces[j].id != winId
  {
    if surfaces == [] then None
    else if surfaces[0].id == winId then Some(0)
    else match IndexOfId(surfaces[1..], winId)
      case None => None
      case Some(i) => Some(i + 1)
  }

  /** The surface a window id stands for, or null when none has that id. */
  function Resolve(surfaces: seq<Surface>, winId: UInt32): (s: Surface?)
    ensures s != null ==> s in surfaces && s.id == winId
    ensures s == null <==> forall t :: t in surfaces ==> t.id != winId
  {
    match IndexOfId(surfaces, winId)
    case None => null
    case Some(i) => surfaces[i]
  }

  /**
   * A new surface at the end of the table is found by its id exactly when no
   * earlier surface has that id; every other lookup is unchanged.
   */
  lemma {:induction false} ResolveAfterAppend(surfaces: seq<Surface>, s: Surface, winId: UInt32)
    ensures Resolve(surfaces + [s], winId)
         == if Resolve(surfaces, winId) != null then Resolve(surfaces, winId)
            else if s.id == winId then s
            else null
  {
    var i := IndexOfId(surfaces, winId);
    var j := IndexOfId(surfaces + [s], winId);
    if i.Some? {
      assert (surfaces + [s])[i.value] == surfaces[i.value];
      assert j == i by {
        if j.None? || j.value != i.value {
          assert false;
        }
      }
    } else {
      assert (surfaces + [s])[|surfaces|] == s;
    }
  }

  /**
   * In a table without repetitions, a removed surface is never found again,
   * and a lookup that found another surface still finds that surface.
   */
  lemma ResolveAfterRemove(surfaces: seq<Surface>, s: Surface, winId: UInt32)
    requires Distinct(surfaces)
    ensures Resolve(RemoveFirst(surfaces, s), winId) != s
    ensures Resolve(surfaces, winId) != s ==>
              Resolve(RemoveFirst(surfaces, s), winId) == Resolve(surfaces, winId)
  {
    RemoveFirstDistinct(surfaces, s);
    var r := RemoveFirst(surfaces, s);
    var t := Resolve(surfaces, winId);
    if s in surfaces && t != s {
      var k := FirstIndexOf(surfaces, s);
      if t == null {
        forall u | u in r ensures u.id != winId {
          var a :| 0 <= a < |r| && r[a] == u;
          RemoveFirstKeepsOrder(surfaces, s, a);
        }
      } else {
        var i := IndexOfId(surfaces, winId).value;
        var i' := if i < k then i else i - 1;
        RemoveFirstKeepsOrder(surfaces, s, i');
        forall a | 0 <= a < i' ensures r[a].id != winId {
          RemoveFirstKeepsOrder(surfaces, s, a);
        }
        assert IndexOfId(r, winId) == Some(i');
      }
    }
  }

  class Compositor {
    /** `m_surfaces`: the live surfaces, in creation order. */
    var surfaces: seq<Surface>
    /** The keyboard and pointer focus slots of `m_input`; null is "no focus". */
    var kbdFocus: Surface?
    var ptrFocus: Surface?
    /** Every event posted to a client, oldest first. */
    var events: seq<Event>
    /** Every notification sent to the host, oldest first. */
    var hostLog: seq<HostNote>

    /** The table never holds the same surface object twice. */
    ghost predicate Valid()
      reads this
    {
      Distinct(surfaces)
    }

    /** The state right after construction: the input device is zeroed and nothing exists yet. */
    constructor ()
      ensures Valid()
      ensures surfaces == [] && kbdFocus == null && ptrFocus == null
      ensures events == [] && hostLog == []
    {
      surfaces := [];
      kbdFocus, ptrFocus := null, null;
      events, hostLog := [], [];
    }

    /**
     * `createSurface`: a new surface of `client`, whose own id is `surfaceId`,
     * is appended to the table; the host is told about the requested `id`.
     */
    method CreateSurface(client: Client, id: UInt32, surfaceId: UInt32) returns (s: Surface)
      requires Valid()
      modifies this
      ensures Valid()
      ensures fresh(s) && s.id == surfaceId && s.client == client && s.image == NullImage
      ensures surfaces == old(surfaces) + [s]
      ensures hostLog == old(hostLog) + [SurfaceCreatedNote(id)]
      ensures events == old(events) && kbdFocus == old(kbdFocus) && ptrFocus == old(ptrFocus)
      ensures forall winId: UInt32 :: Resolve(old(surfaces), winId) != null ==>
                Resolve(surfaces, winId) == Resolve(old(surfaces), winId)
      ensures Resolve(old(surfaces), surfaceId) == null ==> Resolve(surfaces, surfaceId) == s
    {
      s := new Surface(surfaceId, client);
      hostLog := hostLog + [SurfaceCreatedNote(id)];
      AppendDistinct(surfaces, s);
      forall winId: UInt32 ensures Resolve(surfaces + [s], winId)
          == if Resolve(surfaces, winId) != null then Resolve(surfaces, winId)
             else if s.id == winId then s else null {
        ResolveAfterAppend(surfaces, s, winId);
      }
      surfaces := surfaces + [s];
    }

    /** `getSurfaceFromWinId`: the first surface in the table with id `winId`, or null. */
    method GetSurfaceFromWinId(winId: UInt32) returns (s: Surface?)
      ensures s == Resolve(surfaces, winId)
    {
      var i := 0;
      while i < |surfaces|
        invariant 0 <= i <= |surfaces|
        invariant forall j :: 0 <= j < i ==> surfaces[j].id != winId
      {
        if surfaces[i].id == winId {
          return surfaces[i];
        }
        i := i + 1;
      }
      return null;
    }

    /** `getClientFromWinId`: the client of the surface `winId` resolves to; none exactly when the lookup misses. */
    method GetClientFromWinId(winId: UInt32) returns (c: Option<Client>)
      ensures c.None? <==> Resolve(surfaces, winId) == null
      ensures c.Some? ==> c.value == Resolve(surfaces, winId).client
    {
      var s := GetSurfaceFromWinId(winId);
      if s != null {
        return Some(s.client);
      }
      return None;
    }

    /** `image`: the image of the first surface with id `winId`, or the empty image when there is none. */
    method Image(winId: UInt32) returns (img: SurfaceImage)
      ensures IndexOfId(surfaces, winId).None? ==> img == NullImage
      ensures IndexOfId(surfaces, winId).Some? ==>
                img == surfaces[IndexOfId(surfaces, winId).value].image
    {
      var i := 0;
      while i < |surfaces|
        invariant 0 <= i <= |surfaces|
        invariant forall j :: 0 <= j < i ==> surfaces[j].id != winId
      {
        if surfaces[i].id == winId {
          return surfaces[i].image;
        }
        i := i + 1;
      }
      return NullImage;
    }

    /** `surfaceResized`: the host learns that the surface is mapped at the origin with the new size. */
    method SurfaceResized(s: Surface, size: Size)
      modifies this
      ensures hostLog == old(hostLog) + [SurfaceMappedNote(s.id, Rect(0, 0, size.width, size.height))]
      ensures surfaces == old(surfaces) && events == old(events)
      ensures kbdFocus == old(kbdFocus) && ptrFocus == old(ptrFocus)
    {
      hostLog := hostLog + [SurfaceMappedNote(s.id, Rect(0, 0, size.width, size.height))];
    }

    /** `surfaceDamaged`: the damaged rectangle is forwarded to the host unchanged. */
    method SurfaceDamaged(s: Surface, rect: Rect)
      modifies this
      ensures hostLog == old(hostLog) + [SurfaceDamagedNote(s.id, rect)]
      ensures surfaces == old(surfaces) && events == old(events)
      ensures kbdFocus == old(kbdFocus) && ptrFocus == old(ptrFocus)
    {
      hostLog := hostLog + [SurfaceDamagedNote(s.id, rect)];
    }

    /**
     * `surfaceDestroyed`: the first occurrence of `s` leaves the table, the
     * rest keep their order, and the host is told on every call.  This
     * file never clears the focus slots, even when they hold `s`.
     */
    method SurfaceDestroyed(s: Surface)
      requires Valid()
      modifies this
      ensures Valid()
      ensures surfaces == RemoveFirst(old(surfaces), s)
      ensures s !in surfaces
      ensures multiset(surfaces) == multiset(old(surfaces)) - multiset{s}
      ensures hostLog == old(hostLog) + [SurfaceDestroyedNote(s.id)]
      ensures events == old(events) && kbdFocus == old(kbdFocus) && ptrFocus == old(ptrFocus)
      ensures forall winId: UInt32 :: Resolve(surfaces, winId) != s
      ensures forall winId: UInt32 :: Resolve(old(surfaces), winId) != s ==>
                Resolve(surfaces, winId) == Resolve(old(surfaces), winId)
    {
      RemoveFirstDistinct(surfaces, s);
      RemoveFirstMultiset(surfaces, s);
      forall winId: UInt32 ensures Resolve(RemoveFirst(surfaces, s), winId) != s
        ensures Resolve(surfaces, winId) != s ==>
                  Resolve(RemoveFirst(surfaces, s), winId) == Resolve(surfaces, winId) {
        ResolveAfterRemove(surfaces, s, winId);
      }
      surfaces := RemoveFirst(surfaces, s);
      hostLog := hostLog + [SurfaceDestroyedNote(s.id)];
    }

    /** `setInputFocus`: both slots take the surface `winId` resolves to, or become empty. */
    method SetInputFocus(winId: UInt32)
      modifies this
      ensures kbdFocus == ptrFocus == Resolve(surfaces, winId)
      ensures surfaces == old(surfaces) && events == old(events) && hostLog == old(hostLog)
    {
      var s := GetSurfaceFromWinId(winId);
      kbdFocus := s;
      ptrFocus := s;
    }

    /**
     * `sendMouseMoveEvent`: when `winId` resolves, pointer focus is set to
     * that surface and one motion event at `(x, y)` is posted to its client;
     * otherwise nothing happens.
     */
    method SendMouseMoveEvent(winId: UInt32, x: int, y: int, clock: Clock)
      modifies this
      ensures var s := Resolve(surfaces, winId);
              if s != null then
                && ptrFocus == s
                && events == old(events) + [Event(Some(s.client), Motion(CurrentTimeMsecs(clock), x, y, x, y))]
              else
                ptrFocus == old(ptrFocus) && events == old(events)
      ensures surfaces == old(surfaces) && kbdFocus == old(kbdFocus) && hostLog == old(hostLog)
    {
      var client := GetClientFromWinId(winId);
      if client.Some? {
        var time := CurrentTimeMsecs(clock);
        var s := GetSurfaceFromWinId(winId);
        ptrFocus := s;
        events := events + [Event(client, Motion(time, x, y, x, y))];
      }
    }

    /**
     * Shared body of `sendMousePressEvent` and `sendMouseReleaseEvent`: a
     * button event with the mapped code, then the motion of
     * `sendMouseMoveEvent`, both to the client `winId` resolves to.
     */
    method SendMouseButton(winId: UInt32, x: int, y: int, button: int, state: UInt32,
                           buttonClock: Clock, moveClock: Clock)
      modifies this
      ensures var s := Resolve(surfaces, winId);
              if s != null then
                && ptrFocus == s
                && events == old(events) + [
                     Event(Some(s.client), Button(CurrentTimeMsecs(buttonClock), ToWaylandButton(button), state)),
                     Event(Some(s.client), Motion(CurrentTimeMsecs(moveClock), x, y, x, y))]
              else
                ptrFocus == old(ptrFocus) && events == old(events)
      ensures surfaces == old(surfaces) && kbdFocus == old(kbdFocus) && hostLog == old(hostLog)
    {
      var client := GetClientFromWinId(winId);
      if client.Some? {
        var time := CurrentTimeMsecs(buttonClock);
        events := events + [Event(client, Button(time, ToWaylandButton(button), state))];
      }
      SendMouseMoveEvent(winId, x, y, moveClock);
    }

    /** `sendMousePressEvent`: button state 1, then the motion. */
    method SendMousePressEvent(winId: UInt32, x: int, y: int, button: int, buttonClock: Clock, moveClock: Clock)
      modifies this
      ensures var s := Resolve(surfaces, winId);
              if s != null then
                && ptrFocus == s
                && events == old(events) + [
                     Event(Some(s.client), Button(CurrentTimeMsecs(buttonClock), ToWaylandButton(button), 1)),
                     Event(Some(s.client), Motion(CurrentTimeMsecs(moveClock), x, y, x, y))]
              else
                ptrFocus == old(ptrFocus) && events == old(events)
      ensures surfaces == old(surfaces) && kbdFocus == old(kbdFocus) && hostLog == old(hostLog)
    {
      SendMouseButton(winId, x, y, button, 1, buttonClock, moveClock);
    }

    /** `sendMouseReleaseEvent`: button state 0, then the motion. */
    method SendMouseReleaseEvent(winId: UInt32, x: int, y: int, button: int, buttonClock: Clock, moveClock: Clock)
      modifies this
      ensures var s := Resolve(surfaces, winId);
              if s != null then
                && ptrFocus == s
                && events == old(events) + [
                     Event(Some(s.client), Button(CurrentTimeMsecs(buttonClock), ToWaylandButton(button), 0)),
                     Event(Some(s.client), Motion(CurrentTimeMsecs(moveClock), x, y, x, y))]
              else
                ptrFocus == old(ptrFocus) && events == old(events)
      ensures surfaces == old(surfaces) && kbdFocus == old(kbdFocus) && hostLog == old(hostLog)
    {
      SendMouseButton(winId, x, y, button, 0, buttonClock, moveClock);
    }

    /**
     * Shared body of `sendKeyPressEvent` and `sendKeyReleaseEvent`: one key
     * event exactly when some surface has keyboard focus, whichever surface
     * `winId` names, addressed to the client `winId` resolves to (possibly
     * none).
     */
    method SendKey(winId: UInt32, code: UInt32, state: UInt32, clock: Clock)
      modifies this
      ensures kbdFocus != null ==>
                var s := Resolve(surfaces, winId);
                events == old(events) + [Event(if s == null then None else Some(s.client),
                                               Key(CurrentTimeMsecs(clock), WireKeyCode(code), state))]
      ensures kbdFocus == null ==> events == old(events)
      ensures surfaces == old(surfaces) && kbdFocus == old(kbdFocus) && ptrFocus == old(ptrFocus)
      ensures hostLog == old(hostLog)
    {
      var client := GetClientFromWinId(winId);
      if kbdFocus != null {
        var time := CurrentTimeMsecs(clock);
        events := events + [Event(client, Key(time, WireKeyCode(code), state))];
      }
    }

    /** `sendKeyPressEvent`: key state 1. */
    method SendKeyPressEvent(winId: UInt32, code: UInt32, clock: Clock)
      modifies this
      ensures kbdFocus != null ==>
                var s := Resolve(surfaces, winId);
                events == old(events) + [Event(if s == null then None else Some(s.client),
                                               Key(CurrentTimeMsecs(clock), WireKeyCode(code), 1))]
      ensures kbdFocus == null ==> events == old(events)
      ensures surfaces == old(surfaces) && kbdFocus == old(kbdFocus) && ptrFocus == old(ptrFocus)
      ensures hostLog == old(hostLog)
    {
      SendKey(winId, code, 1, clock);
    }

    /** `sendKeyReleaseEvent`: key state 0. */
    method SendKeyReleaseEvent(winId: UInt32, code: UInt32, clock: Clock)
      modifies this
      ensures kbdFocus != null ==>
                var s := Resolve(surfaces, winId);
                events == old(events) + [Event(if s == null then None else Some(s.client),
                                               Key(CurrentTimeMsecs(clock), WireKeyCode(code), 0))]
      ensures kbdFocus == null ==> events == old(events)
      ensures surfaces == old(surfaces) && kbdFocus == old(kbdFocus) && ptrFocus == old(ptrFocus)
      ensures hostLog == old(hostLog)
    {
      SendKey(winId, code, 0, clock);
    }
  }
}
