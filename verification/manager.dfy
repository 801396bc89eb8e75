/**
 * The desktop manager: one desktop window per monitor of every screen, kept
 * in one array in screen-then-monitor order. A desktop on a screen the
 * program was not asked to manage gets a negative monitor number: -1 for the
 * screen's first monitor, -2 for the others. Such desktops are never shown.
 */
module Manager {
  import opened Common
  import opened AppConfig
  import opened Wallpaper

  /** A desktop window: its screen and its monitor number. */
  datatype Desk = Desk(screen: nat, monitor: int)

  /**
   * The monitor number a desktop is created with. With no screen requested,
   * or on the requested screen, it is the monitor's index.
   */
  function MonInit(onScreen: int, scr: nat, mon: nat): (r: int)
    ensures onScreen < 0 || onScreen == scr ==> r == mon
    ensures r >= 0 <==> onScreen < 0 || onScreen == scr
    ensures (r == 0 || r == -1) <==> mon == 0
  {
    if onScreen < 0 || onScreen == scr then mon else if mon != 0 then -2 else -1
  }

  /** The desktops of one screen with n monitors. */
  function Row(onScreen: int, scr: nat, n: nat): (r: seq<Desk>)
    ensures |r| == n
    ensures forall m :: 0 <= m < n ==> r[m] == Desk(scr, MonInit(onScreen, scr, m))
  {
    seq(n, m requires 0 <= m < n => Desk(scr, MonInit(onScreen, scr, m)))
  }

  /** The desktops of the first k screens, given each screen's monitor count. */
  function Fill(counts: seq<nat>, onScreen: int, k: nat): (r: seq<Desk>)
    requires k <= |counts|
    ensures forall i :: 0 <= i < |r| ==> r[i].screen < k
  {
    if k == 0 then [] else Fill(counts, onScreen, k - 1) + Row(onScreen, k - 1, counts[k - 1])
  }

  /** The number of monitors on the first k screens. */
  function Total(counts: seq<nat>, k: nat): nat
    requires k <= |counts|
  {
    if k == 0 then 0 else Total(counts, k - 1) + counts[k - 1]
  }

  lemma {:induction false} FillLength(counts: seq<nat>, onScreen: int, k: nat)
    requires k <= |counts|
    ensures |Fill(counts, onScreen, k)| == Total(counts, k)
  {
    if k > 0 {
      FillLength(counts, onScreen, k - 1);
    }
  }

  /**
   * The screen number a search reaches at index i: it starts at 0 and goes up
   * at every later desktop whose monitor number is 0 or -1.
   */
  function ScreenOf(ds: seq<Desk>, i: nat): nat
    requires i < |ds|
  {
    if i == 0 then 0
    else ScreenOf(ds, i - 1) + (if ds[i].monitor == 0 || ds[i].monitor == -1 then 1 else 0)
  }

  lemma {:induction false} ScreenOfMonotone(ds: seq<Desk>, i: nat, j: nat)
    requires i <= j < |ds|
    ensures ScreenOf(ds, i) <= ScreenOf(ds, j)
    decreases j
  {
    if i < j {
      ScreenOfMonotone(ds, i, j - 1);
    }
  }

  lemma {:induction false} ScreenOfPrefix(a: seq<Desk>, b: seq<Desk>, i: nat)
    requires i < |a|
    ensures ScreenOf(a + b, i) == ScreenOf(a, i)
  {
    if i > 0 {
      ScreenOfPrefix(a, b, i - 1);
    }
  }

  /** Whether the desktop at index i is the one a search for (screen, monitor) stops at. */
  predicate Matches(ds: seq<Desk>, i: nat, screen: nat, monitor: int)
    requires i < |ds|
  {
    ScreenOf(ds, i) == screen && ds[i].monitor == monitor
  }

  /** The `(gint)` cast of a `guint` monitor number: two's complement on 32 bits. */
  function GuintToGint(monitor: nat): (m: int)
    requires monitor < 0x1_0000_0000
    ensures -0x8000_0000 <= m < 0x8000_0000
    ensures m % 0x1_0000_0000 == monitor % 0x1_0000_0000
    ensures monitor < 0x8000_0000 ==> m == monitor
  {
    if monitor >= 0x8000_0000 then monitor - 0x1_0000_0000 else monitor
  }

  /**
   * Through the cast, a request for monitor 2^32 - 1 matches a desktop whose
   * monitor number is -1, the first monitor of a screen that is not managed.
   */
  lemma LargestMonitorFindsHidden(ds: seq<Desk>, i: nat, screen: nat)
    requires i < |ds|
    ensures Matches(ds, i, screen, GuintToGint(0xFFFF_FFFF)) <==> ScreenOf(ds, i) == screen && ds[i].monitor == -1
  {
    assert GuintToGint(0xFFFF_FFFF) == -1;
  }

  /**
   * When every screen has a monitor, the screen number the search counts at
   * each desktop is the desktop's own screen.
   */
  lemma {:induction false} ScreenOfFill(counts: seq<nat>, onScreen: int, k: nat, i: nat)
    requires k <= |counts| && forall s :: 0 <= s < |counts| ==> counts[s] > 0
    requires i < |Fill(counts, onScreen, k)|
    ensures ScreenOf(Fill(counts, onScreen, k), i) == Fill(counts, onScreen, k)[i].screen
    decreases k, i
  {
    var a := Fill(counts, onScreen, k - 1);
    var row := Row(onScreen, k - 1, counts[k - 1]);
    var ds := a + row;
    if i < |a| {
      ScreenOfPrefix(a, row, i);
      ScreenOfFill(counts, onScreen, k - 1, i);
    } else if i == |a| {
      if i > 0 {
        ScreenOfPrefix(a, row, i - 1);
        ScreenOfFill(counts, onScreen, k - 1, i - 1);
        FillLength(counts, onScreen, k - 1);
        LastOfFill(counts, onScreen, k - 1);
      } else {
        FillEmpty(counts, onScreen, k - 1);
      }
    } else {
      ScreenOfFill(counts, onScreen, k, i - 1);
    }
  }

  /** The last desktop of a non-empty fill belongs to the last screen filled. */
  lemma LastOfFill(counts: seq<nat>, onScreen: int, k: nat)
    requires k <= |counts| && forall s :: 0 <= s < |counts| ==> counts[s] > 0
    requires |Fill(counts, onScreen, k)| > 0
    ensures Fill(counts, onScreen, k)[|Fill(counts, onScreen, k)| - 1].screen == k - 1
  {
  }

  /** With every screen holding a monitor, the fill is empty only before the first screen. */
  lemma FillEmpty(counts: seq<nat>, onScreen: int, k: nat)
    requires k <= |counts| && forall s :: 0 <= s < |counts| ==> counts[s] > 0
    requires |Fill(counts, onScreen, k)| == 0
    ensures k == 0
  {
  }

  /**
   * After filling, when every screen has a monitor, a search for (screen,
   * monitor) stops exactly at the desktop created for that screen and
   * monitor, and there is one such desktop exactly when the monitor exists
   * on a screen being managed.
   */
  lemma FillLookup(counts: seq<nat>, onScreen: int, screen: nat, monitor: nat)
    requires forall s :: 0 <= s < |counts| ==> counts[s] > 0
    ensures forall i :: 0 <= i < |Fill(counts, onScreen, |counts|)| ==>
      (Matches(Fill(counts, onScreen, |counts|), i, screen, monitor) <==>
       Fill(counts, onScreen, |counts|)[i] == Desk(screen, monitor))
    ensures (exists i :: 0 <= i < |Fill(counts, onScreen, |counts|)| && Fill(counts, onScreen, |counts|)[i] == Desk(screen, monitor)) <==>
      screen < |counts| && monitor < counts[screen] && (onScreen < 0 || onScreen == screen)
  {
    var ds := Fill(counts, onScreen, |counts|);
    forall i | 0 <= i < |ds|
      ensures Matches(ds, i, screen, monitor) <==> ds[i] == Desk(screen, monitor)
    {
      ScreenOfFill(counts, onScreen, |counts|, i);
    }
    if screen < |counts| && monitor < counts[screen] && (onScreen < 0 || onScreen == screen) {
      FillContains(counts, onScreen, |counts|, screen, monitor);
    }
    forall i | 0 <= i < |ds| && ds[i] == Desk(screen, monitor)
      ensures screen < |counts| && monitor < counts[screen] && (onScreen < 0 || onScreen == screen)
    {
      FillMember(counts, onScreen, |counts|, i);
    }
  }

  /** Every managed monitor has its desktop in the fill. */
  lemma {:induction false} FillContains(counts: seq<nat>, onScreen: int, k: nat, screen: nat, monitor: nat)
    requires k <= |counts| && screen < k && monitor < counts[screen]
    ensures Desk(screen, MonInit(onScreen, screen, monitor)) in Fill(counts, onScreen, k)
  {
    if screen == k - 1 {
      assert Row(onScreen, k - 1, counts[k - 1])[monitor] == Desk(screen, MonInit(onScreen, screen, monitor));
    } else {
      FillContains(counts, onScreen, k - 1, screen, monitor);
    }
  }

  /** Every desktop in the fill is one created for a monitor of a filled screen. */
  lemma {:induction false} FillMember(counts: seq<nat>, onScreen: int, k: nat, i: nat)
    requires k <= |counts| && i < |Fill(counts, onScreen, k)|
    ensures Fill(counts, onScreen, k)[i].screen < k
    ensures exists m ::
      (0 <= m < counts[Fill(counts, onScreen, k)[i].screen] &&
       Fill(counts, onScreen, k)[i].monitor == MonInit(onScreen, Fill(counts, onScreen, k)[i].screen, m))
  {
    var a := Fill(counts, onScreen, k - 1);
    if i < |a| {
      FillMember(counts, onScreen, k - 1, i);
      assert Fill(counts, onScreen, k)[i] == a[i];
    } else {
      var m := i - |a|;
      assert Fill(counts, onScreen, k)[i] == Row(onScreen, k - 1, counts[k - 1])[m];
    }
  }

  /** The desktops the manager owns. */
  class DesktopManager {
    var desktops: array<Desk>

    /**
     * Create one desktop per monitor, screen by screen; counts gives each
     * screen's monitor count and onScreen the requested screen (negative for
     * all).
     */
    constructor Init(counts: seq<nat>, onScreen: int)
      ensures desktops[..] == Fill(counts, onScreen, |counts|)
      ensures fresh(desktops)
    {
      var n := 0;
      var i := 0;
      while i < |counts|
        invariant i <= |counts| && n == Total(counts, i)
      {
        n := n + counts[i];
        i := i + 1;
      }
      FillLength(counts, onScreen, |counts|);
      var ds := new Desk[n];
      var scr := 0;
      i := 0;
      while scr < |counts|
        invariant scr <= |counts|
        invariant i == Total(counts, scr) <= n
        invariant ds[..i] == Fill(counts, onScreen, scr)
      {
        TotalMonotone(counts, scr + 1, |counts|);
        var mon := 0;
        while mon < counts[scr]
          invariant mon <= counts[scr] && i == Total(counts, scr) + mon
          invariant ds[..i] == Fill(counts, onScreen, scr) + Row(onScreen, scr, counts[scr])[..mon]
        {
          ds[i] := Desk(scr, MonInit(onScreen, scr, mon));
          assert Row(onScreen, scr, counts[scr])[..mon + 1] == Row(onScreen, scr, counts[scr])[..mon] + [Desk(scr, MonInit(onScreen, scr, mon))];
          assert ds[..i + 1] == ds[..i] + [ds[i]];
          i := i + 1;
          mon := mon + 1;
        }
        assert Row(onScreen, scr, counts[scr])[..mon] == Row(onScreen, scr, counts[scr]);
        scr := scr + 1;
      }
      assert ds[..] == ds[..i];
      desktops := ds;
    }

    /**
     * The desktop for a screen and monitor: walking the array, the screen
     * number goes up at each first monitor of a screen, and the walk stops
     * at the first desktop of the wanted screen with the wanted monitor, or
     * once it is past that screen.
     */
    method Get(screen: nat, monitor: nat) returns (r: Option<nat>)
      requires monitor < 0x1_0000_0000
      ensures r.Some? ==> r.value < desktops.Length && Matches(desktops[..], r.value, screen, GuintToGint(monitor))
      ensures r.Some? ==> forall j :: 0 <= j < r.value ==> !Matches(desktops[..], j, screen, GuintToGint(monitor))
      ensures r.None? ==> forall j :: 0 <= j < desktops.Length ==> !Matches(desktops[..], j, screen, GuintToGint(monitor))
    {
      ghost var ds := desktops[..];
      var m := GuintToGint(monitor);
      var i, n := 0, 0;
      while i < desktops.Length && n <= screen
        invariant 0 <= i <= desktops.Length
        invariant i < desktops.Length ==> n == ScreenOf(ds, i)
        invariant forall j :: 0 <= j < i ==> !Matches(ds, j, screen, m)
      {
        if n == screen && desktops[i].monitor == m {
          return Some(i);
        }
        i := i + 1;
        if i < desktops.Length && (desktops[i].monitor == 0 || desktops[i].monitor == -1) {
          n := n + 1;
        }
      }
      if i < desktops.Length {
        forall j | i <= j < desktops.Length
          ensures !Matches(ds, j, screen, m)
        {
          ScreenOfMonotone(ds, i, j);
        }
      }
      return None;
    }

    /** The indices, in order, of the desktops that are shown: those with a monitor number of at least 0. */
    method ShownDesktops() returns (idx: seq<nat>)
      ensures idx == Shown(desktops[..])
    {
      idx := [];
      var i := 0;
      while i < desktops.Length
        invariant i <= desktops.Length
        invariant idx == Shown(desktops[..i])
      {
        ShownAppend(desktops[..i], desktops[i]);
        assert desktops[..i + 1] == desktops[..i] + [desktops[i]];
        if desktops[i].monitor >= 0 {
          idx := idx + [i];
        }
        i := i + 1;
      }
      assert desktops[..i] == desktops[..];
    }

    /**
     * The configuration's wallpaper changed: every shown desktop updates its
     * background, told by its index that this is a change. cur and sizes give
     * each desktop's current virtual desktop and size.
     */
    method OnWallpaperChanged(cache: WallpaperCache, cfg: Config, cur: seq<nat>, sizes: seq<(int, int)>)
      returns (updated: seq<nat>)
      requires cache.Valid() && cfg.Valid()
      requires |cur| == desktops.Length && |sizes| == desktops.Length
      modifies cache`entries, cfg
      ensures cache.Valid() && cfg.Valid()
      ensures updated == Shown(desktops[..])
    {
      updated := [];
      var i := 0;
      while i < desktops.Length
        invariant i <= desktops.Length
        invariant cache.Valid() && cfg.Valid()
        invariant updated == Shown(desktops[..i])
      {
        ShownAppend(desktops[..i], desktops[i]);
        assert desktops[..i + 1] == desktops[..i] + [desktops[i]];
        if desktops[i].monitor >= 0 {
          var rendered := cache.UpdateBackground(cfg, cur[i], ChangedFlag(i), sizes[i].0, sizes[i].1);
          updated := updated + [i];
        }
        i := i + 1;
      }
      assert desktops[..i] == desktops[..];
    }
  }

  /** The indices of the shown desktops in ds, in order. */
  function Shown(ds: seq<Desk>): (r: seq<nat>)
    ensures forall k :: 0 <= k < |r| ==> r[k] < |ds| && ds[r[k]].monitor >= 0
    ensures forall i :: 0 <= i < |ds| && ds[i].monitor >= 0 ==> i in r
  {
    if |ds| == 0 then []
    else Shown(ds[..|ds| - 1]) + if ds[|ds| - 1].monitor >= 0 then [|ds| - 1] else []
  }

  lemma ShownAppend(ds: seq<Desk>, d: Desk)
    ensures Shown(ds + [d]) == Shown(ds) + if d.monitor >= 0 then [|ds|] else []
  {
    assert (ds + [d])[..|ds|] == ds;
  }

  /**
   * After filling, the shown desktops are exactly those of the managed
   * screens: every one of them when no screen was requested.
   */
  lemma ShownAfterFill(counts: seq<nat>, onScreen: int, i: nat)
    requires i < |Fill(counts, onScreen, |counts|)|
    ensures Fill(counts, onScreen, |counts|)[i].monitor >= 0 <==>
      onScreen < 0 || onScreen == Fill(counts, onScreen, |counts|)[i].screen
  {
    FillMember(counts, onScreen, |counts|, i);
  }

  lemma {:induction false} TotalMonotone(counts: seq<nat>, i: nat, j: nat)
    requires i <= j <= |counts|
    ensures Total(counts, i) <= Total(counts, j)
    decreases j
  {
    if i < j {
      TotalMonotone(counts, i, j - 1);
    }
  }
}
