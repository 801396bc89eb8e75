/**
 * The application's command handling: the one-shot option flags a running
 * instance acts on, the wallpaper mode names, the reference count that
 * decides when the program quits, and the coalesced saving of the
 * configuration.
 *
 * Opening the preferences dialog, starting and stopping the desktop manager,
 * emitting the configuration's change signal and writing the profile are
 * reported as effects rather than performed.
 */
module App {
  import opened Common
  import opened AppConfig

  /** The accepted `--wallpaper-mode` names, at the indices of the wallpaper mode enumeration. */
  const VALID_MODES: seq<string> := ["color", "stretch", "fit", "center", "tile"]

  /** The index of the first mode name equal to name. */
  function ModeIndex(name: string): (r: Option<nat>)
    ensures r.Some? ==> r.value < |VALID_MODES| && VALID_MODES[r.value] == name
    ensures r.None? <==> name !in VALID_MODES
  {
    if name == "color" then Some(0)
    else if name == "stretch" then Some(1)
    else if name == "fit" then Some(2)
    else if name == "center" then Some(3)
    else if name == "tile" then Some(4)
    else None
  }

  /** Each name maps to the enumeration value of the same mode. */
  lemma ModeIndexMatchesEnum()
    ensures ModeIndex("color") == Some(FM_WP_COLOR)
    ensures ModeIndex("stretch") == Some(FM_WP_STRETCH)
    ensures ModeIndex("fit") == Some(FM_WP_FIT)
    ensures ModeIndex("center") == Some(FM_WP_CENTER)
    ensures ModeIndex("tile") == Some(FM_WP_TILE)
  {
  }

  /** The search through the mode names, stopping at the first match. */
  method FindMode(name: string) returns (r: Option<nat>)
    ensures r == ModeIndex(name)
  {
    var i := 0;
    while i < |VALID_MODES|
      invariant 0 <= i <= |VALID_MODES|
      invariant forall k :: 0 <= k < i ==> VALID_MODES[k] != name
    {
      if VALID_MODES[i] == name {
        return Some(i);
      }
      i := i + 1;
    }
    return None;
  }

  // --------------------------------------------------------- dispatch

  /** The option flags of one request. */
  datatype Options = Options(
    checkRunning: bool,
    preferences: bool,
    showDesktop: bool,
    desktopOff: bool,
    setWallpaper: Option<string>,
    wallpaperMode: Option<string>)

  /** What a request makes the program do besides updating its flags. */
  datatype Effect =
    | NoEffect
    | OpenPreferences
    | StartDesktop
    | StopDesktop
    | WallpaperChanged

  /** The state after a request: flags, desktop status, wallpaper settings, return value, effect. */
  datatype RunResult = RunResult(
    opts: Options,
    running: bool,
    mode: int,
    wallpaper: Option<string>,
    ret: bool,
    effect: Effect)

  /**
   * One request. isImage says whether the file given to `--set-wallpaper` is
   * an image the loader recognises.
   */
  function RunStep(o: Options, running: bool, mode: int, wallpaper: Option<string>, isImage: bool): (r: RunResult)
    ensures r.effect == StartDesktop ==> !running && r.running
    ensures r.effect == StopDesktop ==> running && !r.running
    ensures r.running != running ==> r.effect == StartDesktop || r.effect == StopDesktop
    ensures r.mode != mode || r.wallpaper != wallpaper ==> r.effect == WallpaperChanged
    ensures !r.ret ==> o.desktopOff || o.setWallpaper.Some? || o.wallpaperMode.Some?
  {
    if o.checkRunning then
      RunResult(o.(checkRunning := false), running, mode, wallpaper, true, NoEffect)
    else if o.preferences then
      RunResult(o.(preferences := false), running, mode, wallpaper, true, OpenPreferences)
    else if o.showDesktop then
      RunResult(o.(showDesktop := false), true, mode, wallpaper, true, if running then NoEffect else StartDesktop)
    else if o.desktopOff then
      RunResult(o.(desktopOff := false), false, mode, wallpaper, false, if running then StopDesktop else NoEffect)
    else
      var needToExit := o.setWallpaper.Some? || o.wallpaperMode.Some?;
      var accepted := o.setWallpaper.Some? && isImage;
      var wallpaper1 := if accepted then o.setWallpaper else wallpaper;
      var mode1 := if accepted && o.wallpaperMode.None? && mode == FM_WP_COLOR then FM_WP_FIT else mode;
      var found := if o.wallpaperMode.Some? then ModeIndex(o.wallpaperMode.value) else None;
      var modeChanged := found.Some? && found.value != mode1;
      var mode2 := if modeChanged then found.value else mode1;
      RunResult(o.(setWallpaper := None, wallpaperMode := None), running, mode2, wallpaper1,
                !needToExit, if accepted || modeChanged then WallpaperChanged else NoEffect)
  }

  /** `--check-running` comes first: it is cleared and nothing else happens. */
  lemma CheckRunningFirst(o: Options, running: bool, mode: int, wallpaper: Option<string>, isImage: bool)
    requires o.checkRunning
    ensures RunStep(o, running, mode, wallpaper, isImage) ==
      RunResult(o.(checkRunning := false), running, mode, wallpaper, true, NoEffect)
  {
  }

  /**
   * Showing the desktop leaves it running, starting the manager only when it
   * was not running; turning it off leaves it stopped, stopping the manager
   * only when it was running. Either way the flag is cleared.
   */
  lemma DesktopOnOff(o: Options, running: bool, mode: int, wallpaper: Option<string>, isImage: bool)
    requires !o.checkRunning && !o.preferences
    ensures o.showDesktop ==>
      var r := RunStep(o, running, mode, wallpaper, isImage);
      r.running && r.ret && !r.opts.showDesktop && (r.effect == StartDesktop <==> !running)
    ensures !o.showDesktop && o.desktopOff ==>
      var r := RunStep(o, running, mode, wallpaper, isImage);
      !r.running && !r.ret && !r.opts.desktopOff && (r.effect == StopDesktop <==> running)
  {
  }

  /**
   * In the wallpaper branch both wallpaper options are cleared; the request
   * returns false exactly when one of them was given; a known mode name sets
   * the mode and an unknown one leaves the mode as the wallpaper step left
   * it; and the change is signalled exactly when the wallpaper was accepted
   * or the mode actually changed.
   */
  lemma WallpaperBranch(o: Options, running: bool, mode: int, wallpaper: Option<string>, isImage: bool)
    requires !o.checkRunning && !o.preferences && !o.showDesktop && !o.desktopOff
    ensures RunStep(o, running, mode, wallpaper, isImage).opts.setWallpaper.None?
    ensures RunStep(o, running, mode, wallpaper, isImage).opts.wallpaperMode.None?
    ensures !RunStep(o, running, mode, wallpaper, isImage).ret <==> o.setWallpaper.Some? || o.wallpaperMode.Some?
    ensures RunStep(o, running, mode, wallpaper, isImage).running == running
    ensures o.wallpaperMode.Some? && ModeIndex(o.wallpaperMode.value).Some? ==>
      RunStep(o, running, mode, wallpaper, isImage).mode == ModeIndex(o.wallpaperMode.value).value
    ensures o.wallpaperMode.Some? && ModeIndex(o.wallpaperMode.value).None? ==>
      RunStep(o, running, mode, wallpaper, isImage).mode == mode
    ensures o.setWallpaper.Some? && isImage && o.wallpaperMode.None? ==>
      RunStep(o, running, mode, wallpaper, isImage).wallpaper == o.setWallpaper &&
      RunStep(o, running, mode, wallpaper, isImage).mode == (if mode == FM_WP_COLOR then FM_WP_FIT else mode)
    ensures (RunStep(o, running, mode, wallpaper, isImage).effect == WallpaperChanged) <==>
      (o.setWallpaper.Some? && isImage) || RunStep(o, running, mode, wallpaper, isImage).mode != mode
  {
  }

  // ------------------------------------------------------- the process

  /** The program's static state. */
  class Pcmanfm {
    var opts: Options
    var desktopRunning: bool
    var refCount: int
    var quitRequested: bool
    var saveConfigIdle: bool
    var profileSaves: nat

    constructor(o: Options)
      ensures opts == o && !desktopRunning && refCount == 0 && !quitRequested
      ensures !saveConfigIdle && profileSaves == 0
    {
      opts := o;
      desktopRunning := false;
      refCount := 0;
      quitRequested := false;
      saveConfigIdle := false;
      profileSaves := 0;
    }

    /** Taken by every window or tool when it opens. */
    method Ref()
      modifies this`refCount
      ensures refCount == old(refCount) + 1
    {
      refCount := refCount + 1;
    }

    /** Released when it closes; the last release quits unless the desktop is running. */
    method Unref()
      modifies this`refCount, this`quitRequested
      ensures refCount == old(refCount) - 1
      ensures quitRequested == (old(quitRequested) || (refCount == 0 && !desktopRunning))
    {
      refCount := refCount - 1;
      if refCount == 0 && !desktopRunning {
        quitRequested := true;
      }
    }

    /**
     * Handle the current request against the configuration. Starting the
     * desktop manager takes a reference and stopping it releases one; a
     * wallpaper change saves the profile.
     */
    method Run(cfg: Config, isImage: bool) returns (ret: bool, effect: Effect)
      modifies this, cfg`wallpaperMode, cfg`wallpaper
      ensures RunResult(opts, desktopRunning, cfg.wallpaperMode, cfg.wallpaper, ret, effect) ==
        RunStep(old(opts), old(desktopRunning), old(cfg.wallpaperMode), old(cfg.wallpaper), isImage)
      ensures refCount == old(refCount) + (if effect == StartDesktop then 1 else if effect == StopDesktop then -1 else 0)
      ensures quitRequested == (old(quitRequested) || (effect == StopDesktop && refCount == 0))
      ensures profileSaves == old(profileSaves) + (if effect == WallpaperChanged then 1 else 0)
      ensures saveConfigIdle == old(saveConfigIdle)
    {
      ret, effect := true, NoEffect;
      if opts.checkRunning {
        opts := opts.(checkRunning := false);
        return;
      }
      if opts.preferences {
        effect := OpenPreferences;
        opts := opts.(preferences := false);
        return;
      }
      if opts.showDesktop {
        if !desktopRunning {
          Ref();
          desktopRunning := true;
          effect := StartDesktop;
        }
        opts := opts.(showDesktop := false);
        return;
      } else if opts.desktopOff {
        if desktopRunning {
          desktopRunning := false;
          Unref();
          effect := StopDesktop;
        }
        opts := opts.(desktopOff := false);
        return false, effect;
      }
      var needToExit := opts.setWallpaper.Some? || opts.wallpaperMode.Some?;
      var changed := false;
      if opts.setWallpaper.Some? {
        if isImage {
          cfg.wallpaper := opts.setWallpaper;
          if opts.wallpaperMode.None? && cfg.wallpaperMode == FM_WP_COLOR {
            cfg.wallpaperMode := FM_WP_FIT;
          }
          changed := true;
        }
        opts := opts.(setWallpaper := None);
      }
      if opts.wallpaperMode.Some? {
        var i := FindMode(opts.wallpaperMode.value);
        if i.Some? && i.value != cfg.wallpaperMode {
          cfg.wallpaperMode := i.value;
          changed := true;
        }
        opts := opts.(wallpaperMode := None);
      }
      if changed {
        effect := WallpaperChanged;
        profileSaves := profileSaves + 1;
      }
      if needToExit {
        return false, effect;
      }
    }

    /** Save now, or make sure one idle save is pending. */
    method SaveConfig(immediate: bool)
      modifies this`saveConfigIdle, this`profileSaves
      ensures profileSaves == old(profileSaves) + (if immediate then 1 else 0)
      ensures saveConfigIdle == (old(saveConfigIdle) || !immediate)
    {
      if immediate {
        profileSaves := profileSaves + 1;
      } else if !saveConfigIdle {
        saveConfigIdle := true;
      }
    }

    /** The idle save: one save, and the pending mark is cleared. */
    method OnSaveConfigIdle()
      requires saveConfigIdle
      modifies this`saveConfigIdle, this`profileSaves
      ensures profileSaves == old(profileSaves) + 1
      ensures !saveConfigIdle
    {
      SaveConfig(true);
      saveConfigIdle := false;
    }
  }

  /**
   * Any number of deferred save requests before the idle save runs write the
   * profile exactly once.
   */
  method CoalescedSaves(p: Pcmanfm, requests: nat) returns (saves: nat)
    requires requests > 0 && !p.saveConfigIdle
    modifies p
    ensures saves == 1
  {
    var before := p.profileSaves;
    var k := 0;
    while k < requests
      invariant k <= requests
      invariant p.profileSaves == before
      invariant p.saveConfigIdle == (k > 0)
    {
      p.SaveConfig(false);
      k := k + 1;
    }
    p.OnSaveConfigIdle();
    saves := p.profileSaves - before;
  }

  /**
   * Showing the desktop and then turning it off, with no other reference
   * held, quits: the manager's reference was the last one.
   */
  method ShowThenOff(p: Pcmanfm, cfg: Config) returns (quits: bool)
    requires p.refCount == 0 && !p.desktopRunning
    modifies p, cfg`wallpaperMode, cfg`wallpaper
    ensures quits && p.refCount == 0 && !p.desktopRunning
  {
    p.opts := Options(false, false, true, false, None, None);
    var ret, effect := p.Run(cfg, false);
    p.opts := p.opts.(desktopOff := true);
    ret, effect := p.Run(cfg, false);
    quits := p.quitRequested;
  }
}
