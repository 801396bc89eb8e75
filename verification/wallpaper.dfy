/**
 * The wallpaper manager's bookkeeping: the parameters a cached background
 * image was made for, the per-desktop cache list, the per-desktop wallpaper
 * slots kept in the application configuration, and the decision whether a
 * cached image can be reused.
 *
 * Drawing the image and setting the root window pixmap are not modelled; a
 * cache entry only records whether it holds an image.
 */
module Wallpaper {
  import opened Common
  import opened AppConfig

  // ------------------------------------------------------------ parameters

  /** What a cached background was rendered from. */
  datatype Params = Params(filename: Option<string>, mode: int, destW: int, destH: int, bg: Color)

  /** The parameters of a freshly allocated, zero-filled cache entry. */
  const NO_PARAMS := Params(None, FM_WP_COLOR, 0, 0, Color(0, 0, 0))

  /**
   * Whether an image made for a can be shown for b: mode and background
   * colour always matter, the file matters unless the mode is a plain colour,
   * and the size matters only for the scaled modes.
   */
  function ParamsEqual(a: Params, b: Params): (r: bool)
    ensures r ==> a.mode == b.mode && a.bg == b.bg
    ensures a == b ==> r
    ensures a.mode == b.mode && a.mode != FM_WP_COLOR && a.mode != FM_WP_TILE ==> (r <==> a == b)
    ensures a.mode == FM_WP_TILE ==> (r <==> a.(destW := b.destW, destH := b.destH) == b)
    ensures a.mode == FM_WP_COLOR ==> (r <==> a.(filename := b.filename, destW := b.destW, destH := b.destH) == b)
  {
    if a.mode != b.mode then false
    else if a.bg != b.bg then false
    else if a.mode == FM_WP_COLOR then true
    else if a.mode == FM_WP_TILE then a.filename == b.filename
    else a.destW == b.destW && a.destH == b.destH && a.filename == b.filename
  }

  /** The reuse test is an equivalence: symmetric and transitive (reflexive by its contract). */
  lemma ParamsEqualEquivalence(a: Params, b: Params, c: Params)
    ensures ParamsEqual(a, b) == ParamsEqual(b, a)
    ensures ParamsEqual(a, b) && ParamsEqual(b, c) ==> ParamsEqual(a, c)
  {
  }

  // ----------------------------------------------------------------- cache

  /** One cached background: the desktop number it serves, its parameters, and whether it holds an image. */
  datatype CacheEntry = CacheEntry(desktopNr: int, params: Params, hasImage: bool)

  ghost predicate DistinctDesktops(cs: seq<CacheEntry>)
  {
    forall i, j :: 0 <= i < j < |cs| ==> cs[i].desktopNr != cs[j].desktopNr
  }

  /** The first entry for a desktop number, as a walk down the list finds it. */
  function EntryFor(cs: seq<CacheEntry>, nr: int): (r: Option<CacheEntry>)
    ensures r.Some? ==> r.value.desktopNr == nr && r.value in cs
    ensures r.None? <==> forall k :: 0 <= k < |cs| ==> cs[k].desktopNr != nr
  {
    if |cs| == 0 then None
    else if cs[0].desktopNr == nr then Some(cs[0])
    else EntryFor(cs[1..], nr)
  }

  /** With distinct desktop numbers, the entry at index i is the one found for its number. */
  lemma {:induction false} EntryForIndex(cs: seq<CacheEntry>, i: nat)
    requires DistinctDesktops(cs) && i < |cs|
    ensures EntryFor(cs, cs[i].desktopNr) == Some(cs[i])
  {
    if i > 0 {
      assert cs[0].desktopNr != cs[i].desktopNr;
      EntryForIndex(cs[1..], i - 1);
    }
  }

  /** Replacing the entry at i by one for the same desktop leaves every other desktop's entry as it was. */
  lemma {:induction false} EntryForUpdate(cs: seq<CacheEntry>, i: nat, e: CacheEntry, nr: int)
    requires i < |cs| && e.desktopNr == cs[i].desktopNr && nr != e.desktopNr
    ensures EntryFor(cs[i := e], nr) == EntryFor(cs, nr)
  {
    if i > 0 && cs[0].desktopNr != nr {
      assert cs[i := e][1..] == cs[1..][i - 1 := e];
      EntryForUpdate(cs[1..], i - 1, e, nr);
    }
  }

  /** The cached backgrounds, most recently created first. */
  class WallpaperCache {
    var entries: seq<CacheEntry>

    ghost predicate Valid()
      reads this
    {
      DistinctDesktops(entries)
    }

    constructor()
      ensures entries == []
      ensures Valid()
    {
      entries := [];
    }

    /**
     * The index of the entry for a desktop number. An existing entry is
     * returned and nothing changes; otherwise one zero-filled entry is put at
     * the head of the list.
     */
    method LookupCache(nr: int) returns (idx: nat)
      requires Valid()
      modifies this`entries
      ensures Valid()
      ensures idx < |entries| && entries[idx].desktopNr == nr
      ensures EntryFor(old(entries), nr).Some? ==> entries == old(entries) && Some(entries[idx]) == EntryFor(old(entries), nr)
      ensures EntryFor(old(entries), nr).None? ==> entries == [CacheEntry(nr, NO_PARAMS, false)] + old(entries) && idx == 0
    {
      var i := 0;
      while i < |entries| && entries[i].desktopNr != nr
        invariant 0 <= i <= |entries|
        invariant forall k :: 0 <= k < i ==> entries[k].desktopNr != nr
      {
        i := i + 1;
      }
      if i == |entries| {
        entries := [CacheEntry(nr, NO_PARAMS, false)] + entries;
        idx := 0;
      } else {
        EntryForIndex(entries, i);
        idx := i;
      }
    }

    /**
     * Show the background of a desktop showing virtual desktop curDesktop at
     * size destW × destH. A plain colour needs no image and touches neither
     * the cache nor the configuration. Otherwise the wallpaper path is
     * chosen, the cached parameters are replaced and the image dropped when
     * they do not match, and an image is rendered when none is held;
     * rendered says whether that happened.
     */
    method UpdateBackground(cfg: Config, curDesktop: nat, changed: bool, destW: int, destH: int)
      returns (rendered: bool)
      requires Valid() && cfg.Valid()
      modifies this`entries, cfg
      ensures Valid() && cfg.Valid()
      ensures old(cfg.wallpaperMode) == FM_WP_COLOR ==>
        entries == old(entries) && cfg.State() == old(cfg.State()) && !rendered
      ensures old(cfg.wallpaperMode) != FM_WP_COLOR ==>
        cfg.State() == PathStep(old(cfg.State()), curDesktop, changed).0
      ensures old(cfg.wallpaperMode) != FM_WP_COLOR ==>
        var p := Params(PathStep(old(cfg.State()), curDesktop, changed).1, old(cfg.wallpaperMode), destW, destH, old(cfg.desktopBg));
        var before := EntryFor(old(entries), curDesktop);
        var keep := before.Some? && ParamsEqual(before.value.params, p);
        EntryFor(entries, curDesktop) == Some(CacheEntry(curDesktop, if keep then before.value.params else p, true)) &&
        (rendered <==> !(keep && before.value.hasImage))
      ensures forall nr :: nr != curDesktop ==> EntryFor(entries, nr) == EntryFor(old(entries), nr)
    {
      if cfg.wallpaperMode == FM_WP_COLOR {
        return false;
      }
      var idx := LookupCache(curDesktop);
      var path := GetWallpaperPath(cfg, curDesktop, changed);
      var params := Params(path, cfg.wallpaperMode, destW, destH, cfg.desktopBg);
      ghost var mid := entries;
      var entry := entries[idx];
      if !ParamsEqual(entry.params, params) {
        entry := entry.(params := params, hasImage := false);
      }
      rendered := !entry.hasImage;
      if rendered {
        entry := entry.(hasImage := true);
      }
      entries := entries[idx := entry];
      EntryForIndex(entries, idx);
      forall nr | nr != curDesktop
        ensures EntryFor(entries, nr) == EntryFor(old(entries), nr)
      {
        EntryForUpdate(mid, idx, entry, nr);
      }
    }
  }

  // ------------------------------------------------------- wallpaper slots

  function Nones(n: nat): (r: seq<Option<string>>)
    ensures |r| == n && forall k :: 0 <= k < n ==> r[k].None?
  {
    seq(n, _ => None)
  }

  /**
   * The configuration after choosing the wallpaper of virtual desktop cur, and
   * the wallpaper chosen. A shared wallpaper is returned as it is. On a
   * change, the current wallpaper is stored in slot cur, the slots first
   * growing to cur + 1 with empty ones; on a refresh, slot cur (or nothing
   * past the configured count) becomes the current wallpaper.
   */
  function PathStep(s: ConfigState, cur: nat, changed: bool): (r: (ConfigState, Option<string>))
    requires SlotsAgree(s)
    ensures SlotsAgree(r.0)
  {
    if s.wallpaperCommon then (s, s.wallpaper)
    else if changed then
      var grown := if cur >= s.wallpapersConfigured then s.wallpapers + Nones(cur + 1 - |s.wallpapers|) else s.wallpapers;
      var n := if cur >= s.wallpapersConfigured then cur + 1 else s.wallpapersConfigured;
      (s.(wallpapers := grown[cur := s.wallpaper], wallpapersConfigured := n), s.wallpaper)
    else
      var p := if cur < s.wallpapersConfigured then s.wallpapers[cur] else None;
      (s.(wallpaper := p), p)
  }

  /** With a shared wallpaper nothing changes and the shared one is returned. */
  lemma PathStepCommon(s: ConfigState, cur: nat, changed: bool)
    requires SlotsAgree(s) && s.wallpaperCommon
    ensures PathStep(s, cur, changed) == (s, s.wallpaper)
  {
  }

  /**
   * On a change the slots cover desktop cur, slot cur holds the current
   * wallpaper, earlier slots keep their values, slots added on the way are
   * empty, and nothing but the slots and their count changes.
   */
  lemma PathStepStore(s: ConfigState, cur: nat)
    requires SlotsAgree(s) && !s.wallpaperCommon
    ensures PathStep(s, cur, true).1 == s.wallpaper
    ensures PathStep(s, cur, true).0.wallpapersConfigured == Max(s.wallpapersConfigured, cur + 1)
    ensures PathStep(s, cur, true).0.wallpapers[cur] == s.wallpaper
    ensures forall k :: 0 <= k < |PathStep(s, cur, true).0.wallpapers| && k != cur ==>
      PathStep(s, cur, true).0.wallpapers[k] == if k < |s.wallpapers| then s.wallpapers[k] else None
    ensures PathStep(s, cur, true).0.(wallpapers := s.wallpapers, wallpapersConfigured := s.wallpapersConfigured) == s
  {
  }

  /** A refresh right after storing on the same desktop gives back what was stored and changes nothing. */
  lemma StoreThenRefresh(s: ConfigState, cur: nat)
    requires SlotsAgree(s) && !s.wallpaperCommon
    ensures PathStep(PathStep(s, cur, true).0, cur, false) == (PathStep(s, cur, true).0, s.wallpaper)
  {
    PathStepStore(s, cur);
  }

  /** Storing on one desktop does not change what a refresh on another desktop returns. */
  lemma StoreKeepsOtherDesktops(s: ConfigState, cur: nat, other: nat)
    requires SlotsAgree(s) && !s.wallpaperCommon && other != cur
    ensures PathStep(PathStep(s, cur, true).0, other, false).1 == PathStep(s, other, false).1
  {
    PathStepStore(s, cur);
  }

  /** A refresh repeated on the same desktop changes nothing more. */
  lemma RefreshIdempotent(s: ConfigState, cur: nat)
    requires SlotsAgree(s)
    ensures PathStep(PathStep(s, cur, false).0, cur, false) == PathStep(s, cur, false)
  {
  }

  /** Choose the wallpaper path of virtual desktop cur, updating the configuration in place. */
  method GetWallpaperPath(cfg: Config, cur: nat, changed: bool) returns (path: Option<string>)
    requires cfg.Valid()
    modifies cfg
    ensures cfg.Valid()
    ensures (cfg.State(), path) == PathStep(old(cfg.State()), cur, changed)
  {
    if cfg.wallpaperCommon {
      return cfg.wallpaper;
    }
    if changed {
      if cur >= cfg.wallpapersConfigured {
        var ws := cfg.wallpapers;
        var i := Max(cfg.wallpapersConfigured, 0);
        while i <= cur
          invariant |cfg.wallpapers| <= i <= cur + 1
          invariant ws == cfg.wallpapers + Nones(i - |cfg.wallpapers|)
        {
          assert Nones(i + 1 - |cfg.wallpapers|) == Nones(i - |cfg.wallpapers|) + [None];
          ws := ws + [None];
          i := i + 1;
        }
        cfg.wallpapers := ws;
        cfg.wallpapersConfigured := cur + 1;
      }
      path := cfg.wallpaper;
      cfg.wallpapers := cfg.wallpapers[cur := path];
    } else {
      path := if cur < cfg.wallpapersConfigured then cfg.wallpapers[cur] else None;
      cfg.wallpaper := path;
    }
  }

  // ------------------------------------------------- the change flag

  /**
   * How the background update reads its `on_wallpaper_changed` argument: as
   * a C truth value. Its callers pass the monitor's index on a wallpaper
   * change and -1 on a desktop switch, resize or realize.
   */
  function ChangedFlagAsWritten(arg: int): bool
  {
    arg != 0
  }

  /** The reading the callers rely on: an index means a change, -1 a refresh. */
  function ChangedFlag(arg: int): bool
  {
    arg >= 0
  }

  /** A configuration with per-desktop wallpapers for two desktops, showing the first. */
  function TwoDesktops(): (s: ConfigState)
    ensures SlotsAgree(s)
  {
    Defaults(0).(wallpaperCommon := false, wallpaper := Some("a.png"),
                 wallpapers := [Some("a.png"), Some("b.png")], wallpapersConfigured := 2)
  }

  /**
   * As written, both kinds of call do the wrong thing. Choosing c.png on the
   * first monitor (argument 0) is taken as a refresh: the new choice is
   * dropped and slot 0's a.png comes back. Switching to desktop 1
   * (argument -1) is taken as a change: a.png overwrites desktop 1's b.png.
   */
  lemma ChangedFlagAsWrittenMisreads()
    ensures !ChangedFlagAsWritten(0) && ChangedFlagAsWritten(-1)
    ensures PathStep(TwoDesktops().(wallpaper := Some("c.png")), 0, ChangedFlagAsWritten(0)).1 == Some("a.png")
    ensures PathStep(TwoDesktops(), 1, ChangedFlagAsWritten(-1)).1 == Some("a.png")
    ensures PathStep(TwoDesktops(), 1, ChangedFlagAsWritten(-1)).0.wallpapers[1] == Some("a.png")
  {
  }

  /**
   * Read as intended, a change on any monitor stores the new wallpaper for
   * the current desktop, and a switch returns that desktop's own slot.
   */
  lemma ChangedFlagIntended(s: ConfigState, cur: nat, monitor: nat)
    requires SlotsAgree(s) && !s.wallpaperCommon
    ensures PathStep(s, cur, ChangedFlag(monitor)).0.wallpapers[cur] == s.wallpaper
    ensures PathStep(s, cur, ChangedFlag(-1)).1 == if cur < s.wallpapersConfigured then s.wallpapers[cur] else None
    ensures PathStep(TwoDesktops(), 1, ChangedFlag(-1)).1 == Some("b.png")
  {
    PathStepStore(s, cur);
  }
}
