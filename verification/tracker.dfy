/**
 * The window tracker: the set of top-level client windows, each with the
 * screen area it asks desktop icons to keep clear of. The list is refreshed
 * from the root window's client list; a change in the reserved areas is
 * reported through a coalesced idle notification.
 */
module Tracker {
  import opened Common

  /** A CARDINAL property item: an unsigned 32-bit value. */
  newtype u32 = v: int | 0 <= v < 0x1_0000_0000

  /** An X window id. */
  type Xid = int

  /** guint32 to gint: values from 2^31 up wrap to negative numbers. */
  function ToGint(v: u32): (i: int)
    ensures -0x8000_0000 <= i < 0x8000_0000
    ensures i % 0x1_0000_0000 == v as int % 0x1_0000_0000
  {
    if v as int >= 0x8000_0000 then v as int - 0x1_0000_0000 else v as int
  }

  /** window_t without its GDK handle: id, reserved rectangle, reservation flag, mark. */
  datatype Window = Window(xid: Xid, rect: Rect, reserving: bool, used: bool)

  /** What a read of the reservation property yields. */
  datatype Status = Status(rect: Rect, reserving: bool)

  /**
   * The reservation property: exactly four items (x, y, width, height)
   * reserve that rectangle; anything else (absent, or another count) means no
   * reservation and a zero rectangle.
   */
  function DecodeStatus(prop: Option<seq<u32>>): (s: Status)
    ensures s.reserving <==> prop.Some? && |prop.value| == 4
    ensures !s.reserving ==> s.rect == EmptyRect
    ensures s.reserving ==> s.rect.x == ToGint(prop.value[0]) && s.rect.y == ToGint(prop.value[1])
    ensures s.reserving ==> s.rect.width == ToGint(prop.value[2]) && s.rect.height == ToGint(prop.value[3])
  {
    if prop.Some? && |prop.value| == 4 then
      var d := prop.value;
      Status(Rect(ToGint(d[0]), ToGint(d[1]), ToGint(d[2]), ToGint(d[3])), true)
    else Status(EmptyRect, false)
  }

  /** Store a freshly read status into a window record. */
  function Apply(w: Window, s: Status): Window
  {
    w.(rect := s.rect, reserving := s.reserving)
  }

  /** Whether storing s changes the window's reservation (the intended comparison). */
  predicate Changed(w: Window, s: Status)
  {
    !(w.rect == s.rect && w.reserving == s.reserving)
  }

  /** A change is reported exactly when the record changes, and a second identical read reports none. */
  lemma ChangedIffRecordChanges(w: Window, s: Status)
    ensures Changed(w, s) <==> Apply(w, s) != w
    ensures !Changed(Apply(w, s), s)
  {
    if !Changed(w, s) {
      assert Apply(w, s) == w;
    }
  }

  /* ------------------------------------------------------------------ */
  /* The comparison as written                                           */

  /**
   * The reservation flag is a one-bit `gboolean` bit-field; a plain `int`
   * bit-field is signed with GCC and Clang, so storing TRUE leaves -1 in it.
   */
  function StoredBit(b: bool): int { if b then -1 else 0 }
  function GBoolean(b: bool): int { if b then 1 else 0 }

  /** The no-change test as written: the stored field is compared with TRUE (1). */
  predicate ChangedAsWritten(w: Window, s: Status)
  {
    !(w.rect == s.rect && StoredBit(w.reserving) == GBoolean(s.reserving))
  }

  /**
   * As written, every read of a reserving window reports a change, even when
   * the property holds exactly what was stored before; for non-reserving
   * windows the two tests agree.
   */
  lemma AsWrittenAlwaysChangedWhenReserving(w: Window, s: Status)
    ensures s.reserving ==> ChangedAsWritten(w, s)
    ensures !s.reserving ==> (ChangedAsWritten(w, s) <==> Changed(w, s))
  {
  }

  /** The concrete case: a window reserving (0, 0, 100, 30) re-reads the same property. */
  lemma SpuriousChangeExample()
    ensures var prop := Some([0 as u32, 0, 100, 30]);
      var w := Apply(Window(7, EmptyRect, false, true), DecodeStatus(prop));
      ChangedAsWritten(w, DecodeStatus(prop)) && !Changed(w, DecodeStatus(prop))
  {
  }

  /* ------------------------------------------------------------------ */
  /* Specification functions over the window list                        */

  /** The index of the first window with id x, if any. */
  function FindXid(ws: seq<Window>, x: Xid): (r: Option<nat>)
    ensures r.Some? ==> r.value < |ws| && ws[r.value].xid == x
    ensures r.Some? ==> forall k :: 0 <= k < r.value ==> ws[k].xid != x
    ensures r.None? <==> forall k :: 0 <= k < |ws| ==> ws[k].xid != x
  {
    if |ws| == 0 then None
    else if ws[0].xid == x then Some(0)
    else match FindXid(ws[1..], x)
      case None => None
      case Some(i) => Some(i + 1)
  }

  predicate DistinctXids(ws: seq<Window>)
  {
    forall a, b :: 0 <= a < b < |ws| ==> ws[a].xid != ws[b].xid
  }

  function XidsOf(ws: seq<Window>): set<Xid>
  {
    set k | 0 <= k < |ws| :: ws[k].xid
  }

  /** The windows that survive delete_unused_windows, in list order. */
  function KeepUsed(ws: seq<Window>): (r: seq<Window>)
    ensures |r| <= |ws|
    ensures forall w :: w in r <==> w in ws && w.used
  {
    if |ws| == 0 then []
    else KeepUsed(ws[..|ws| - 1]) + (if ws[|ws| - 1].used then [ws[|ws| - 1]] else [])
  }

  /** Whether an unused window that is removed was reserving space. */
  predicate DropsReserving(ws: seq<Window>)
  {
    exists k :: 0 <= k < |ws| && !ws[k].used && ws[k].reserving
  }

  /** Some used window reserves an area that meets r. */
  predicate Overlaps(ws: seq<Window>, r: Rect)
  {
    exists k :: 0 <= k < |ws| && ws[k].used && ws[k].reserving && Intersects(r, ws[k].rect)
  }

  /** A freshly created record for x, with its property read once. */
  function NewWindow(x: Xid, prop: Option<seq<u32>>): Window
  {
    Apply(Window(x, EmptyRect, false, true), DecodeStatus(prop))
  }

  /** The reservation property of x, as the server reports it: absent if x has none. */
  function PropOf(props: map<Xid, seq<u32>>, x: Xid): Option<seq<u32>>
  {
    if x in props then Some(props[x]) else None
  }

  /**
   * What a refresh keeps for a client x: the existing record (now marked) if
   * x was tracked, else a new record read from x's property.
   */
  function Refreshed(old_ws: seq<Window>, props: map<Xid, seq<u32>>, x: Xid): Window
  {
    match FindXid(old_ws, x)
    case Some(i) => old_ws[i].(used := true)
    case None => NewWindow(x, PropOf(props, x))
  }

  datatype Atom = NetClientList | DontOverlapDesktopIcons | OtherAtom
  datatype XEvent = PropertyNotify(window: Xid, atom: Atom) | OtherEvent

  predicate IsClientListChange(ev: XEvent, root: Xid)
  {
    ev.PropertyNotify? && ev.window == root && ev.atom == NetClientList
  }

  predicate IsReservationChange(ev: XEvent, root: Xid)
  {
    ev.PropertyNotify? && ev.window != root && ev.atom == DontOverlapDesktopIcons
  }

  /** The list after window x (if tracked) is marked and given status s. */
  function UpdateStatus(ws: seq<Window>, x: Xid, s: Status): (r: seq<Window>)
    ensures |r| == |ws|
    ensures forall k :: 0 <= k < |ws| ==> r[k].xid == ws[k].xid
  {
    match FindXid(ws, x)
    case None => ws
    case Some(i) => ws[i := Apply(ws[i].(used := true), s)]
  }

  /** Whether giving window x (if tracked) status s changes its reservation. */
  predicate StatusChanges(ws: seq<Window>, x: Xid, s: Status)
  {
    match FindXid(ws, x)
    case None => false
    case Some(i) => Changed(ws[i].(used := true), s)
  }

  class WindowTracker {
    /** window_list, head first. */
    var windows: seq<Window>
    /** An "overlap_state" notification is scheduled on the idle loop. */
    var emitPending: bool
    /** How many "overlap_state" notifications have been delivered. */
    var emitted: nat

    /**
     * Outside a refresh every tracked window is marked used and ids are
     * distinct.
     */
    predicate Valid()
      reads this
    {
      DistinctXids(windows) && forall k :: 0 <= k < |windows| ==> windows[k].used
    }

    constructor ()
      ensures Valid() && windows == [] && !emitPending && emitted == 0
    {
      windows := [];
      emitPending := false;
      emitted := 0;
    }

    /** emit_signal: schedule one notification, coalescing with a pending one. */
    method EmitSignal()
      modifies this`emitPending
      ensures emitPending
    {
      if !emitPending {
        emitPending := true;
      }
    }

    /** The idle loop runs emit_signal_real if it is scheduled. */
    method DispatchIdle()
      modifies this`emitPending, this`emitted
      ensures !emitPending
      ensures emitted == old(emitted) + (if old(emitPending) then 1 else 0)
    {
      if emitPending {
        emitted := emitted + 1;
        emitPending := false;
      }
    }

    /** window_from_xid: find the first window with id x and mark it used. */
    method WindowFromXid(x: Xid) returns (r: Option<nat>)
      modifies this`windows
      ensures r == FindXid(old(windows), x)
      ensures r.None? ==> windows == old(windows)
      ensures r.Some? ==> windows == old(windows)[r.value := old(windows)[r.value].(used := true)]
    {
      var k := 0;
      while k < |windows|
        invariant 0 <= k <= |windows|
        invariant forall j :: 0 <= j < k ==> windows[j].xid != x
      {
        if windows[k].xid == x {
          FindXidFirst(windows, x, k);
          windows := windows[k := windows[k].(used := true)];
          return Some(k);
        }
        k := k + 1;
      }
      return None;
    }

    /** mark_all_window_as_unused. */
    method MarkAllUnused()
      modifies this`windows
      ensures |windows| == |old(windows)|
      ensures forall k :: 0 <= k < |windows| ==> windows[k] == old(windows)[k].(used := false)
    {
      var k := 0;
      while k < |windows|
        invariant 0 <= k <= |windows| == |old(windows)|
        invariant forall j :: 0 <= j < k ==> windows[j] == old(windows)[j].(used := false)
        invariant forall j :: k <= j < |windows| ==> windows[j] == old(windows)[j]
      {
        windows := windows[k := windows[k].(used := false)];
        k := k + 1;
      }
    }

    /** delete_unused_windows: unlink every unmarked window; removing a reserving one notifies. */
    method DeleteUnused()
      modifies this`windows, this`emitPending
      ensures windows == KeepUsed(old(windows))
      ensures emitPending == (old(emitPending) || DropsReserving(old(windows)))
    {
      var kept: seq<Window> := [];
      var k := 0;
      while k < |windows|
        invariant 0 <= k <= |windows|
        invariant windows == old(windows)
        invariant kept == KeepUsed(windows[..k])
        invariant emitPending == (old(emitPending) || DropsReserving(windows[..k]))
      {
        assert windows[..k + 1][..k] == windows[..k];
        if !windows[k].used && windows[k].reserving {
          assert windows[..k + 1][k] == windows[k];
          EmitSignal();
        }
        if windows[k].used {
          kept := kept + [windows[k]];
        }
        k := k + 1;
      }
      assert windows[..k] == windows;
      windows := kept;
    }

    /**
     * read_window_overlap_status on the window at `idx` (None for a window
     * that is not tracked), with the comparison corrected to booleans.
     */
    method ReadOverlapStatus(idx: Option<nat>, prop: Option<seq<u32>>) returns (changed: bool)
      requires idx.Some? ==> idx.value < |windows|
      modifies this`windows
      ensures idx.None? ==> !changed && windows == old(windows)
      ensures idx.Some? ==> changed == Changed(old(windows)[idx.value], DecodeStatus(prop))
      ensures idx.Some? && !DecodeStatus(prop).reserving ==>
        changed == ChangedAsWritten(old(windows)[idx.value], DecodeStatus(prop))
      ensures idx.Some? ==> windows == old(windows)[idx.value := Apply(old(windows)[idx.value], DecodeStatus(prop))]
    {
      if idx.None? {
        return false;
      }
      var i := idx.value;
      var s := DecodeStatus(prop);
      if windows[i].rect == s.rect && windows[i].reserving == s.reserving {
        assert Apply(windows[i], s) == windows[i];
        return false;
      }
      windows := windows[i := Apply(windows[i], s)];
      return true;
    }

    /** create_window_for_xid: prepend a marked record, read its property, notify if it reserves. */
    method CreateWindowForXid(x: Xid, prop: Option<seq<u32>>)
      modifies this`windows, this`emitPending
      ensures windows == [NewWindow(x, prop)] + old(windows)
      ensures emitPending == (old(emitPending) || DecodeStatus(prop).reserving)
    {
      windows := [Window(x, EmptyRect, false, true)] + windows;
      var changed := ReadOverlapStatus(Some(0), prop);
      if changed {
        EmitSignal();
      }
    }

    /**
     * on_net_client_list: with no client list nothing happens; otherwise
     * afterwards exactly the listed clients are tracked, each once, with
     * known windows kept as they were and new ones read from their property,
     * and a notification is scheduled iff a new window reserves space or a
     * reserving window went away.
     */
    method OnNetClientList(clients: Option<seq<Xid>>, props: map<Xid, seq<u32>>)
      requires Valid()
      modifies this`windows, this`emitPending
      ensures Valid()
      ensures clients.None? ==> windows == old(windows) && emitPending == old(emitPending)
      ensures clients.Some? ==> XidsOf(windows) == set x | x in clients.value
      ensures clients.Some? ==> forall k :: 0 <= k < |windows| ==>
        windows[k] == Refreshed(old(windows), props, windows[k].xid)
      ensures clients.Some? ==> (emitPending <==>
        || old(emitPending)
        || NewReserving(old(windows), props, clients.value)
        || GoneReserving(old(windows), clients.value))
    {
      if clients.None? {
        return;
      }
      var cs := clients.value;
      ghost var w0 := windows;
      ghost var p0 := emitPending;
      MarkAllUnused();
      RefreshStart(w0, props, cs, windows, emitPending);
      var i := 0;
      while i < |cs|
        invariant 0 <= i <= |cs|
        invariant RefreshInv(w0, props, cs, i, windows, emitPending, p0)
      {
        var c := cs[i];
        ghost var ws := windows;
        ghost var pending := emitPending;
        var found := WindowFromXid(c);
        if found.None? {
          CreateWindowForXid(c, PropOf(props, c));
          RefreshCreated(w0, props, cs, i, ws, pending, p0);
        } else {
          RefreshFound(w0, props, cs, i, ws, found.value, pending, p0);
        }
        i := i + 1;
      }
      ghost var wsEnd, pendingEnd := windows, emitPending;
      DeleteUnused();
      RefreshEnd(w0, props, cs, wsEnd, pendingEnd, p0);
    }

    /**
     * _event_filter: a client-list change on the root window refreshes the
     * list; a reservation-property change on another window re-reads that
     * window's status (if it is tracked) and notifies on a change; anything
     * else is ignored. `clients` and `props` are what the X server reports.
     */
    method EventFilter(ev: XEvent, root: Xid, clients: Option<seq<Xid>>, props: map<Xid, seq<u32>>)
      requires Valid()
      modifies this`windows, this`emitPending
      ensures Valid()
      ensures !IsClientListChange(ev, root) && !IsReservationChange(ev, root) ==>
        windows == old(windows) && emitPending == old(emitPending)
      ensures IsClientListChange(ev, root) && clients.Some? ==>
        XidsOf(windows) == (set x | x in clients.value) &&
        forall k :: 0 <= k < |windows| ==> windows[k] == Refreshed(old(windows), props, windows[k].xid)
      ensures IsClientListChange(ev, root) && clients.Some? ==> (emitPending <==>
        || old(emitPending)
        || NewReserving(old(windows), props, clients.value)
        || GoneReserving(old(windows), clients.value))
      ensures IsClientListChange(ev, root) && clients.None? ==>
        windows == old(windows) && emitPending == old(emitPending)
      ensures IsReservationChange(ev, root) ==>
        windows == UpdateStatus(old(windows), ev.window, DecodeStatus(PropOf(props, ev.window))) &&
        (emitPending <==> old(emitPending) || StatusChanges(old(windows), ev.window, DecodeStatus(PropOf(props, ev.window))))
    {
      if !ev.PropertyNotify? {
        return;
      }
      if ev.window == root {
        if ev.atom == NetClientList {
          OnNetClientList(clients, props);
        }
      } else if ev.atom == DontOverlapDesktopIcons {
        var idx := WindowFromXid(ev.window);
        var changed := ReadOverlapStatus(idx, PropOf(props, ev.window));
        if changed {
          EmitSignal();
        }
      }
    }

    /** fm_window_tracker_test_overlap: does a marked, reserving window's area meet r? */
    method TestOverlap(r: Rect) returns (b: bool)
      ensures b == Overlaps(windows, r)
    {
      var k := 0;
      while k < |windows|
        invariant 0 <= k <= |windows|
        invariant forall j :: 0 <= j < k ==> !(windows[j].used && windows[j].reserving && Intersects(r, windows[j].rect))
      {
        if windows[k].used && windows[k].reserving && Intersects(r, windows[k].rect) {
          return true;
        }
        k := k + 1;
      }
      return false;
    }
  }

  /** Some client in xs that was not tracked before reserves space. */
  ghost predicate NewReserving(w0: seq<Window>, props: map<Xid, seq<u32>>, xs: seq<Xid>)
  {
    exists x :: x in xs && x !in XidsOf(w0) && DecodeStatus(PropOf(props, x)).reserving
  }

  /** Some window that was tracked before and is not in cs reserved space. */
  ghost predicate GoneReserving(w0: seq<Window>, cs: seq<Xid>)
  {
    exists k :: 0 <= k < |w0| && w0[k].xid !in cs && w0[k].reserving
  }

  /* The invariant of the refresh loop, in four parts. `done` is the prefix of
     the client list looked up so far. */

  /** Ids stay distinct; no tracked id is lost; every looked-up client is tracked. */
  ghost predicate InvIds(w0: seq<Window>, done: seq<Xid>, ws: seq<Window>)
  {
    && DistinctXids(ws)
    && XidsOf(w0) <= XidsOf(ws)
    && (forall x :: x in done ==> x in XidsOf(ws))
  }

  /** Exactly the looked-up clients are marked, and every new record is one of them. */
  ghost predicate InvMarks(w0: seq<Window>, done: seq<Xid>, ws: seq<Window>)
  {
    && (forall k :: 0 <= k < |ws| ==> (ws[k].used <==> ws[k].xid in done))
    && (forall k :: 0 <= k < |ws| && ws[k].xid !in XidsOf(w0) ==> ws[k].used)
  }

  /** Each record, its mark aside, is what the refresh promises for its id. */
  ghost predicate InvRecords(w0: seq<Window>, props: map<Xid, seq<u32>>, ws: seq<Window>)
  {
    forall k :: 0 <= k < |ws| ==> ws[k] == Refreshed(w0, props, ws[k].xid).(used := ws[k].used)
  }

  ghost predicate RefreshInv(w0: seq<Window>, props: map<Xid, seq<u32>>, cs: seq<Xid>, i: nat,
                             ws: seq<Window>, pending: bool, p0: bool)
    requires i <= |cs|
  {
    && InvIds(w0, cs[..i], ws)
    && InvMarks(w0, cs[..i], ws)
    && InvRecords(w0, props, ws)
    && (pending <==> p0 || NewReserving(w0, props, cs[..i]))
  }

  lemma XidsOfIndex(ws: seq<Window>, x: Xid)
    requires x in XidsOf(ws)
    ensures FindXid(ws, x).Some?
  {
    var k :| 0 <= k < |ws| && ws[k].xid == x;
    assert ws[k].xid == x;
  }

  lemma AbsentNotFound(ws: seq<Window>, x: Xid)
    requires x !in XidsOf(ws)
    ensures FindXid(ws, x).None?
  {
    forall k | 0 <= k < |ws| ensures ws[k].xid != x {
      assert ws[k].xid in XidsOf(ws);
    }
  }

  lemma FindXidDistinct(ws: seq<Window>, k: nat)
    requires DistinctXids(ws) && k < |ws|
    ensures FindXid(ws, ws[k].xid) == Some(k)
  {
    FindXidFirst(ws, ws[k].xid, k);
  }

  /** Two lists with the same ids, index by index, have the same id set. */
  lemma SameXids(ws: seq<Window>, ws': seq<Window>)
    requires |ws| == |ws'| && forall j :: 0 <= j < |ws| ==> ws'[j].xid == ws[j].xid
    ensures XidsOf(ws) == XidsOf(ws')
  {
    forall x ensures x in XidsOf(ws') <==> x in XidsOf(ws) {
      if x in XidsOf(ws) {
        var j :| 0 <= j < |ws| && ws[j].xid == x;
        assert ws'[j].xid == x;
      }
      if x in XidsOf(ws') {
        var j :| 0 <= j < |ws'| && ws'[j].xid == x;
        assert ws[j].xid == x;
      }
    }
  }

  /** Prepending a record adds its id to the id set. */
  lemma ConsXids(w: Window, ws: seq<Window>)
    ensures XidsOf([w] + ws) == XidsOf(ws) + {w.xid}
  {
    var ws' := [w] + ws;
    forall x ensures x in XidsOf(ws') <==> x in XidsOf(ws) + {w.xid} {
      if x in XidsOf(ws) {
        var j :| 0 <= j < |ws| && ws[j].xid == x;
        assert ws'[j + 1].xid == x;
      }
      if x in XidsOf(ws') {
        var j :| 0 <= j < |ws'| && ws'[j].xid == x;
        if j > 0 {
          assert ws[j - 1].xid == x;
        }
      }
      if x == w.xid {
        assert ws'[0].xid == x;
      }
    }
  }

  lemma RefreshStart(w0: seq<Window>, props: map<Xid, seq<u32>>, cs: seq<Xid>, ws: seq<Window>, pending: bool)
    requires DistinctXids(w0) && |ws| == |w0|
    requires forall k :: 0 <= k < |ws| ==> ws[k] == w0[k].(used := false)
    ensures RefreshInv(w0, props, cs, 0, ws, pending, pending)
  {
    SameXids(w0, ws);
    forall k | 0 <= k < |ws|
      ensures ws[k] == Refreshed(w0, props, ws[k].xid).(used := ws[k].used)
    {
      FindXidDistinct(w0, k);
    }
    forall k | 0 <= k < |ws| ensures ws[k].xid in XidsOf(w0) {
      assert ws[k].xid == w0[k].xid;
    }
  }

  /* One step of the loop, client already tracked: its record gets marked. */

  lemma FoundIds(w0: seq<Window>, done: seq<Xid>, ws: seq<Window>, k: nat)
    requires InvIds(w0, done, ws) && k < |ws|
    ensures InvIds(w0, done + [ws[k].xid], ws[k := ws[k].(used := true)])
  {
    var ws' := ws[k := ws[k].(used := true)];
    SameXids(ws, ws');
    assert ws[k].xid in XidsOf(ws);
  }

  lemma FoundMarks(w0: seq<Window>, done: seq<Xid>, ws: seq<Window>, k: nat)
    requires DistinctXids(ws) && InvMarks(w0, done, ws) && k < |ws|
    ensures InvMarks(w0, done + [ws[k].xid], ws[k := ws[k].(used := true)])
  {
  }

  lemma FoundPending(w0: seq<Window>, props: map<Xid, seq<u32>>, done: seq<Xid>, ws: seq<Window>, k: nat)
    requires InvMarks(w0, done, ws) && k < |ws|
    ensures NewReserving(w0, props, done + [ws[k].xid]) <==> NewReserving(w0, props, done)
  {
    var c := ws[k].xid;
    if NewReserving(w0, props, done + [c]) {
      var x :| x in done + [c] && x !in XidsOf(w0) && DecodeStatus(PropOf(props, x)).reserving;
      if x == c {
        assert c in done;
      }
    }
  }

  lemma RefreshFound(w0: seq<Window>, props: map<Xid, seq<u32>>, cs: seq<Xid>, i: nat,
                     ws: seq<Window>, k: nat, pending: bool, p0: bool)
    requires i < |cs| && RefreshInv(w0, props, cs, i, ws, pending, p0)
    requires FindXid(ws, cs[i]) == Some(k)
    ensures RefreshInv(w0, props, cs, i + 1, ws[k := ws[k].(used := true)], pending, p0)
  {
    assert cs[..i + 1] == cs[..i] + [ws[k].xid];
    FoundIds(w0, cs[..i], ws, k);
    FoundMarks(w0, cs[..i], ws, k);
    FoundPending(w0, props, cs[..i], ws, k);
  }

  /* One step of the loop, client not tracked: a new record is prepended. */

  lemma CreatedIds(w0: seq<Window>, done: seq<Xid>, ws: seq<Window>, w: Window)
    requires InvIds(w0, done, ws) && w.xid !in XidsOf(ws)
    ensures InvIds(w0, done + [w.xid], [w] + ws)
  {
    ConsXids(w, ws);
    var ws' := [w] + ws;
    forall a, b | 0 <= a < b < |ws'| ensures ws'[a].xid != ws'[b].xid {
      if a == 0 {
        assert ws[b - 1].xid in XidsOf(ws);
      } else {
        assert ws'[a] == ws[a - 1] && ws'[b] == ws[b - 1];
      }
    }
  }

  lemma CreatedMarks(w0: seq<Window>, done: seq<Xid>, ws: seq<Window>, w: Window)
    requires InvIds(w0, done, ws) && InvMarks(w0, done, ws) && w.used
    requires w.xid !in XidsOf(ws)
    ensures InvMarks(w0, done + [w.xid], [w] + ws)
  {
    var ws' := [w] + ws;
    forall k | 0 <= k < |ws'| ensures ws'[k].used <==> ws'[k].xid in done + [w.xid] {
      if k > 0 {
        assert ws'[k] == ws[k - 1];
        assert ws[k - 1].xid in XidsOf(ws);
      }
    }
  }

  lemma CreatedRecords(w0: seq<Window>, props: map<Xid, seq<u32>>, ws: seq<Window>, x: Xid)
    requires InvRecords(w0, props, ws) && x !in XidsOf(w0)
    ensures InvRecords(w0, props, [NewWindow(x, PropOf(props, x))] + ws)
  {
    AbsentNotFound(w0, x);
  }

  lemma CreatedPending(w0: seq<Window>, props: map<Xid, seq<u32>>, done: seq<Xid>, x: Xid)
    requires x !in XidsOf(w0)
    ensures NewReserving(w0, props, done + [x]) <==>
            NewReserving(w0, props, done) || DecodeStatus(PropOf(props, x)).reserving
  {
    if NewReserving(w0, props, done) {
      var y :| y in done && y !in XidsOf(w0) && DecodeStatus(PropOf(props, y)).reserving;
      assert y in done + [x];
    }
    if DecodeStatus(PropOf(props, x)).reserving {
      assert x in done + [x];
    }
  }

  lemma RefreshCreated(w0: seq<Window>, props: map<Xid, seq<u32>>, cs: seq<Xid>, i: nat,
                       ws: seq<Window>, pending: bool, p0: bool)
    requires i < |cs| && RefreshInv(w0, props, cs, i, ws, pending, p0)
    requires FindXid(ws, cs[i]).None?
    ensures RefreshInv(w0, props, cs, i + 1, [NewWindow(cs[i], PropOf(props, cs[i]))] + ws,
                       pending || DecodeStatus(PropOf(props, cs[i])).reserving, p0)
  {
    var c := cs[i];
    var w := NewWindow(c, PropOf(props, c));
    assert cs[..i + 1] == cs[..i] + [c];
    assert c !in XidsOf(ws) by {
      if c in XidsOf(ws) {
        XidsOfIndex(ws, c);
      }
    }
    CreatedIds(w0, cs[..i], ws, w);
    CreatedMarks(w0, cs[..i], ws, w);
    CreatedRecords(w0, props, ws, c);
    CreatedPending(w0, props, cs[..i], c);
  }

  /** Dropping windows keeps ids distinct. */
  lemma {:induction false} KeepUsedDistinct(ws: seq<Window>)
    requires DistinctXids(ws)
    ensures DistinctXids(KeepUsed(ws))
  {
    if |ws| > 0 {
      var init := ws[..|ws| - 1];
      assert DistinctXids(init);
      KeepUsedDistinct(init);
      var last := ws[|ws| - 1];
      forall w | w in KeepUsed(init) ensures w.xid != last.xid {
        var j :| 0 <= j < |init| && init[j] == w;
        assert ws[j] == w;
      }
    }
  }

  /** After the loop: the kept records are the clients, each once, as refreshed. */
  lemma EndRecords(w0: seq<Window>, props: map<Xid, seq<u32>>, cs: seq<Xid>, ws: seq<Window>)
    requires InvIds(w0, cs, ws) && InvMarks(w0, cs, ws) && InvRecords(w0, props, ws)
    ensures DistinctXids(KeepUsed(ws))
    ensures forall k :: 0 <= k < |KeepUsed(ws)| ==> KeepUsed(ws)[k].used
    ensures XidsOf(KeepUsed(ws)) == set x | x in cs
    ensures forall k :: 0 <= k < |KeepUsed(ws)| ==> KeepUsed(ws)[k] == Refreshed(w0, props, KeepUsed(ws)[k].xid)
  {
    var r := KeepUsed(ws);
    KeepUsedDistinct(ws);
    forall k | 0 <= k < |r| ensures r[k].used && r[k] == Refreshed(w0, props, r[k].xid) {
      assert r[k] in ws;
    }
    forall x ensures x in XidsOf(r) <==> x in cs {
      if x in cs {
        assert x in XidsOf(ws);
        var j :| 0 <= j < |ws| && ws[j].xid == x;
        assert ws[j] in r;
        var m :| 0 <= m < |r| && r[m] == ws[j];
        assert r[m].xid == x;
      }
      if x in XidsOf(r) {
        var m :| 0 <= m < |r| && r[m].xid == x;
        assert r[m] in ws;
        var j :| 0 <= j < |ws| && ws[j] == r[m];
      }
    }
  }

  /** After the loop: the windows deleted for reserving space are the vanished reserving ones. */
  lemma EndDropped(w0: seq<Window>, props: map<Xid, seq<u32>>, cs: seq<Xid>, ws: seq<Window>)
    requires DistinctXids(w0)
    requires InvIds(w0, cs, ws) && InvMarks(w0, cs, ws) && InvRecords(w0, props, ws)
    ensures DropsReserving(ws) <==> GoneReserving(w0, cs)
  {
    if DropsReserving(ws) {
      var k :| 0 <= k < |ws| && !ws[k].used && ws[k].reserving;
      assert ws[k].xid in XidsOf(w0);
      XidsOfIndex(w0, ws[k].xid);
      var i := FindXid(w0, ws[k].xid).value;
      assert w0[i].xid !in cs && w0[i].reserving;
    }
    if GoneReserving(w0, cs) {
      var i :| 0 <= i < |w0| && w0[i].xid !in cs && w0[i].reserving;
      assert w0[i].xid in XidsOf(w0);
      var k :| 0 <= k < |ws| && ws[k].xid == w0[i].xid;
      FindXidDistinct(w0, i);
      assert !ws[k].used && ws[k].reserving;
    }
  }

  /**
   * After all clients are looked up, deleting the unmarked windows leaves
   * exactly the clients, each with its refreshed record, and the scheduled
   * notification accounts for new and for vanished reservations.
   */
  lemma RefreshEnd(w0: seq<Window>, props: map<Xid, seq<u32>>, cs: seq<Xid>, ws: seq<Window>,
                   pending: bool, p0: bool)
    requires DistinctXids(w0) && RefreshInv(w0, props, cs, |cs|, ws, pending, p0)
    ensures DistinctXids(KeepUsed(ws))
    ensures forall k :: 0 <= k < |KeepUsed(ws)| ==> KeepUsed(ws)[k].used
    ensures XidsOf(KeepUsed(ws)) == set x | x in cs
    ensures forall k :: 0 <= k < |KeepUsed(ws)| ==> KeepUsed(ws)[k] == Refreshed(w0, props, KeepUsed(ws)[k].xid)
    ensures (pending || DropsReserving(ws)) <==> p0 || NewReserving(w0, props, cs) || GoneReserving(w0, cs)
  {
    assert cs[..|cs|] == cs;
    EndRecords(w0, props, cs, ws);
    EndDropped(w0, props, cs, ws);
  }

  /** Outside a refresh the `used` test of the overlap query never excludes a window. */
  lemma OverlapsIgnoresMarks(ws: seq<Window>, r: Rect)
    requires forall k :: 0 <= k < |ws| ==> ws[k].used
    ensures Overlaps(ws, r) <==> exists k :: 0 <= k < |ws| && ws[k].reserving && Intersects(r, ws[k].rect)
  {
  }

  /** Only reserving windows matter: a window list with no reservation overlaps nothing. */
  lemma NoReservationNoOverlap(ws: seq<Window>, r: Rect)
    requires forall k :: 0 <= k < |ws| ==> !ws[k].reserving
    ensures !Overlaps(ws, r)
  {
  }

  /** A window with id x at index k, preceded by none, is what FindXid returns. */
  lemma FindXidFirst(ws: seq<Window>, x: Xid, k: nat)
    requires k < |ws| && ws[k].xid == x
    requires forall j :: 0 <= j < k ==> ws[j].xid != x
    ensures FindXid(ws, x) == Some(k)
  {
  }
}
