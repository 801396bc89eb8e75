/**
 * The desktop part of the application configuration: defaults, loading from
 * the `[desktop]` group of a key file, profile-name defaulting, and the text
 * the profile is saved as.
 *
 * The key file is the map from key to raw value of that one group. The
 * libfm helpers read an integer with `atoi` and a boolean as "the value
 * starts with `1` or `t`". Colours are saved as `#rrggbb`, each channel the
 * 16-bit value divided by 257, and read back by scaling each byte by 257.
 */
module AppConfig {
  import opened Common
  import opened Decimal

  // FmWallpaperMode, in declaration order.
  const FM_WP_COLOR := 0
  const FM_WP_STRETCH := 1
  const FM_WP_FIT := 2
  const FM_WP_CENTER := 3
  const FM_WP_TILE := 4

  // GtkSortType.
  const SORT_ASCENDING := 0
  const SORT_DESCENDING := 1

  const DEFAULT_FONT := "Sans 12"

  /** A 16-bit colour channel. */
  type Channel = c: int | 0 <= c < 0x1_0000

  datatype Color = Color(red: Channel, green: Channel, blue: Channel)

  const WHITE := Color(65535, 65535, 65535)
  const BLACK := Color(0, 0, 0)
  /** `#3A6EA5` as a 16-bit colour. */
  const DEFAULT_BG := Color(0x3A3A, 0x6E6E, 0xA5A5)

  function OrElse<T>(o: Option<T>, d: T): T
  {
    if o.Some? then o.value else d
  }

  // ---------------------------------------------------------------- colours

  function HexDigit(d: nat): char
    requires d < 16
  {
    if d < 10 then (('0' as int) + d) as char else (('a' as int) + d - 10) as char
  }

  /** The value of one hexadecimal digit, either case. */
  function HexValue(c: char): (r: Option<nat>)
    ensures r.Some? ==> r.value < 16
  {
    if '0' <= c <= '9' then Some((c as int) - ('0' as int))
    else if 'a' <= c <= 'f' then Some((c as int) - ('a' as int) + 10)
    else if 'A' <= c <= 'F' then Some((c as int) - ('A' as int) + 10)
    else None
  }

  /** `%02x`. */
  function Hex2(v: nat): (r: string)
    requires v < 256
    ensures |r| == 2
  {
    [HexDigit(v / 16), HexDigit(v % 16)]
  }

  /** `#%02x%02x%02x` of the channels divided by 257. */
  function FormatColor(c: Color): (r: string)
    ensures |r| == 7 && r[0] == '#'
  {
    "#" + Hex2(c.red / 257) + Hex2(c.green / 257) + Hex2(c.blue / 257)
  }

  /** Two hexadecimal digits at s[i], s[i+1]. */
  function ParseByte(s: string, i: nat): (r: Option<nat>)
    requires i + 1 < |s|
    ensures r.Some? ==> r.value < 256
  {
    match (HexValue(s[i]), HexValue(s[i + 1]))
    case (Some(h), Some(l)) => Some(h * 16 + l)
    case _ => None
  }

  /** `#rrggbb`, each byte scaled to 16 bits by 257; None for any other text. */
  function ParseColor(t: string): Option<Color>
  {
    if |t| == 7 && t[0] == '#' then
      match (ParseByte(t, 1), ParseByte(t, 3), ParseByte(t, 5))
      case (Some(r), Some(g), Some(b)) => Some(Color(r * 257, g * 257, b * 257))
      case _ => None
    else None
  }

  /** What a colour becomes after being saved and read back. */
  function Quantize(c: Color): Color
  {
    Color(c.red / 257 * 257, c.green / 257 * 257, c.blue / 257 * 257)
  }

  lemma HexValueDigit(d: nat)
    requires d < 16
    ensures HexValue(HexDigit(d)) == Some(d)
  {
  }

  /** Two digits written by `%02x` read back as the byte. */
  lemma ParseByteAt(s: string, i: nat, v: nat)
    requires v < 256 && i + 1 < |s|
    requires s[i] == HexDigit(v / 16) && s[i + 1] == HexDigit(v % 16)
    ensures ParseByte(s, i) == Some(v)
  {
    HexValueDigit(v / 16);
    HexValueDigit(v % 16);
  }

  lemma Hex2RoundTrip(v: nat)
    requires v < 256
    ensures ParseByte(Hex2(v), 0) == Some(v)
  {
    ParseByteAt(Hex2(v), 0, v);
  }

  /** A saved colour reads back as its quantized value. */
  lemma ColorRoundTrip(c: Color)
    ensures ParseColor(FormatColor(c)) == Some(Quantize(c))
  {
    var t := FormatColor(c);
    var r, g, b := c.red / 257, c.green / 257, c.blue / 257;
    assert t == "#" + Hex2(r) + Hex2(g) + Hex2(b);
    ParseByteAt(t, 1, r);
    ParseByteAt(t, 3, g);
    ParseByteAt(t, 5, b);
  }

  /** Saving loses nothing exactly when every channel is a multiple of 257. */
  lemma QuantizeExact(c: Color)
    ensures Quantize(c) == c <==> c.red % 257 == 0 && c.green % 257 == 0 && c.blue % 257 == 0
  {
  }

  /** A colour that went through one save and load is stable under the next. */
  lemma QuantizeStable(c: Color)
    ensures Quantize(Quantize(c)) == Quantize(c)
    ensures FormatColor(Quantize(c)) == FormatColor(c)
  {
  }

  /** The built-in colours: `#3A6EA5` reads as the default background, and both defaults save exactly. */
  lemma DefaultColors()
    ensures ParseColor("#3A6EA5") == Some(DEFAULT_BG)
    ensures FormatColor(DEFAULT_BG) == "#3a6ea5" && FormatColor(WHITE) == "#ffffff"
    ensures Quantize(DEFAULT_BG) == DEFAULT_BG && Quantize(WHITE) == WHITE
  {
    assert HexValue('3') == Some(3) && HexValue('A') == Some(10);
    assert HexValue('6') == Some(6) && HexValue('E') == Some(14);
    assert HexValue('5') == Some(5);
  }

  // ------------------------------------------------------------- key file

  /** The keys of the `[desktop]` group this configuration reads and writes. */
  datatype Key =
    | WallpaperMode | WallpaperCommon | WallpapersConfigured | WallpaperSlot(desktop: nat)
    | Wallpaper | DesktopBg | DesktopFg | DesktopShadow | DesktopFont
    | ShowWmMenu | SortType | SortBy | ArrangeIconsRtl

  /** The text of a key; a slot key is `wallpaper` followed by the desktop number. */
  function KeyName(k: Key): string
  {
    match k
    case WallpaperMode => "wallpaper_mode"
    case WallpaperCommon => "wallpaper_common"
    case WallpapersConfigured => "wallpapers_configured"
    case WallpaperSlot(i) => "wallpaper" + IntToDec(i)
    case Wallpaper => "wallpaper"
    case DesktopBg => "desktop_bg"
    case DesktopFg => "desktop_fg"
    case DesktopShadow => "desktop_shadow"
    case DesktopFont => "desktop_font"
    case ShowWmMenu => "show_wm_menu"
    case SortType => "sort_type"
    case SortBy => "sort_by"
    case ArrangeIconsRtl => "arrange_icons_rtl"
  }

  /** The `[desktop]` group of a key file: each known key present, with its raw value. */
  type KeyFile = map<Key, string>

  function GetString(kf: KeyFile, key: Key): Option<string>
  {
    if key in kf then Some(kf[key]) else None
  }

  /** libfm's integer reader: `atoi` of the value when the key is present. */
  function GetInt(kf: KeyFile, key: Key): Option<int>
  {
    if key in kf then Some(AtoI(kf[key])) else None
  }

  /** libfm's boolean reader: the value starts with `1` or `t`. */
  function GetBool(kf: KeyFile, key: Key): Option<bool>
  {
    if key in kf then Some(ReadBool(kf[key])) else None
  }

  predicate ReadBool(v: string)
  {
    |v| > 0 && (v[0] == '1' || v[0] == 't')
  }

  /** `%d` of a gboolean. */
  function BoolDec(b: bool): string
  {
    if b then "1" else "0"
  }

  /** The sort column test, applied to the value cast to an unsigned 32-bit integer. */
  predicate ColumnValid(v: int, columns: set<int>)
  {
    v % 0x1_0000_0000 in columns
  }

  // ---------------------------------------------------------------- state

  /** The desktop settings of the application configuration object. */
  datatype ConfigState = ConfigState(
    wallpaperMode: int,
    wallpaper: Option<string>,
    wallpapers: seq<Option<string>>,
    wallpapersConfigured: int,
    wallpaperCommon: bool,
    desktopBg: Color,
    desktopFg: Color,
    desktopShadow: Color,
    desktopFont: Option<string>,
    arrangeIconsRtl: bool,
    showWmMenu: bool,
    sortType: int,
    sortBy: int)

  /** The slot array has one entry per configured desktop, and none when the count is not positive. */
  predicate SlotsAgree(s: ConfigState)
  {
    |s.wallpapers| == if s.wallpapersConfigured > 0 then s.wallpapersConfigured else 0
  }

  /** The object as initialised: everything zero except the listed defaults. */
  function Defaults(mtimeColumn: int): ConfigState
  {
    ConfigState(FM_WP_COLOR, None, [], 0, true, DEFAULT_BG, WHITE, BLACK, None,
                false, false, SORT_ASCENDING, mtimeColumn)
  }

  /** The wallpaper slots read from the key file: slot i is the value of `wallpaper<i>`, if any. */
  function SlotValues(kf: KeyFile, n: nat): (r: seq<Option<string>>)
    ensures |r| == n
  {
    seq(n, i requires 0 <= i < n => GetString(kf, WallpaperSlot(i)))
  }

  /** A colour key: replaced only when present and parseable. */
  function ReadColor(kf: KeyFile, key: Key, c: Color): (r: Color)
    ensures r != c ==> key in kf && ParseColor(kf[key]) == Some(r)
    ensures key in kf && ParseColor(kf[key]).Some? ==> r == ParseColor(kf[key]).value
  {
    match GetString(kf, key)
    case Some(t) => OrElse(ParseColor(t), c)
    case None => c
  }

  /** The settings after reading one key file over s. */
  function LoadState(s: ConfigState, kf: KeyFile, columns: set<int>): (r: ConfigState)
    ensures SlotsAgree(r)
  {
    var n := OrElse(GetInt(kf, WallpapersConfigured), s.wallpapersConfigured);
    var common := OrElse(GetBool(kf, WallpaperCommon), s.wallpaperCommon);
    ConfigState(
      wallpaperMode := OrElse(GetInt(kf, WallpaperMode), s.wallpaperMode),
      wallpaper := if common then GetString(kf, Wallpaper) else None,
      wallpapers := if n > 0 then SlotValues(kf, n) else [],
      wallpapersConfigured := n,
      wallpaperCommon := common,
      desktopBg := ReadColor(kf, DesktopBg, s.desktopBg),
      desktopFg := ReadColor(kf, DesktopFg, s.desktopFg),
      desktopShadow := ReadColor(kf, DesktopShadow, s.desktopShadow),
      desktopFont := GetString(kf, DesktopFont),
      arrangeIconsRtl := OrElse(GetBool(kf, ArrangeIconsRtl), s.arrangeIconsRtl),
      showWmMenu := OrElse(GetBool(kf, ShowWmMenu), s.showWmMenu),
      sortType := if GetInt(kf, SortType) == Some(SORT_DESCENDING) then SORT_DESCENDING else SORT_ASCENDING,
      sortBy := match GetInt(kf, SortBy)
                case Some(v) => if ColumnValid(v, columns) then v else s.sortBy
                case None => s.sortBy)
  }

  /** A missing or empty profile name means `default`. */
  function ProfileName(name: Option<string>): string
  {
    if name.None? || name.value == "" then "default" else name.value
  }

  /** The files of a profile read in order, later ones overriding, then the font default. */
  function ProfileState(s: ConfigState, found: seq<KeyFile>, columns: set<int>): (r: ConfigState)
    ensures r.desktopFont.Some?
    ensures r.(desktopFont := LoadAll(s, found, columns).desktopFont) == LoadAll(s, found, columns)
    ensures LoadAll(s, found, columns).desktopFont.Some? ==> r == LoadAll(s, found, columns)
    ensures LoadAll(s, found, columns).desktopFont.None? ==> r.desktopFont == Some(DEFAULT_FONT)
  {
    var r := LoadAll(s, found, columns);
    if r.desktopFont.None? then r.(desktopFont := Some(DEFAULT_FONT)) else r
  }

  function LoadAll(s: ConfigState, found: seq<KeyFile>, columns: set<int>): ConfigState
    decreases |found|
  {
    if |found| == 0 then s else LoadAll(LoadState(s, found[0], columns), found[1..], columns)
  }

  // ----------------------------------------------------------------- save

  /** One `key=value` line of the saved group. */
  type Line = (Key, string)

  function Render(ls: seq<Line>): string
  {
    if |ls| == 0 then "" else Render(ls[..|ls| - 1]) + LineText(ls[|ls| - 1].0, ls[|ls| - 1].1)
  }

  /** `key=value` and a line feed. */
  function LineText(key: Key, value: string): string
  {
    KeyName(key) + "=" + value + "\n"
  }

  /** The key file a list of lines denotes: a later line for the same key wins. */
  function ToMap(ls: seq<Line>): KeyFile
  {
    if |ls| == 0 then map[] else ToMap(ls[..|ls| - 1])[ls[|ls| - 1].0 := ls[|ls| - 1].1]
  }

  function Put(ls: seq<Line>, key: Key, value: string): seq<Line>
  {
    ls + [(key, value)]
  }

  function PutIf(ls: seq<Line>, c: bool, key: Key, value: string): seq<Line>
  {
    if c then ls + [(key, value)] else ls
  }

  /** The lines for the slots before n that hold a wallpaper, in slot order. */
  function SlotLines(ls: seq<Line>, ws: seq<Option<string>>, n: nat): (r: seq<Line>)
    requires n <= |ws|
    ensures |ls| <= |r| <= |ls| + n && r[..|ls|] == ls
  {
    if n == 0 then ls else PutIf(SlotLines(ls, ws, n - 1), ws[n - 1].Some?, WallpaperSlot(n - 1), OrElse(ws[n - 1], ""))
  }

  /** The first lines of the saved group: mode, common flag, then the slot count and slots if any. */
  function SaveHead(s: ConfigState): (r: seq<Line>)
    requires SlotsAgree(s)
    ensures |r| >= 2 && r[0].0 == WallpaperMode && r[1].0 == WallpaperCommon
    ensures s.wallpapersConfigured > 0 <==> |r| > 2
    ensures |r| > 2 ==> r[2].0 == WallpapersConfigured && |r| <= 3 + |s.wallpapers|
  {
    var head := Put(Put([], WallpaperMode, IntToDec(s.wallpaperMode)), WallpaperCommon, BoolDec(s.wallpaperCommon));
    if s.wallpapersConfigured > 0 then
      SlotLines(Put(head, WallpapersConfigured, IntToDec(s.wallpapersConfigured)), s.wallpapers, |s.wallpapers|)
    else head
  }

  /** The wallpaper, colour and font lines, appended to ls. */
  function SaveLooks(ls: seq<Line>, s: ConfigState): (r: seq<Line>)
    ensures |ls| + 3 <= |r| <= |ls| + 5 && r[..|ls|] == ls
  {
    var font := s.desktopFont.Some? && s.desktopFont.value != "";
    PutIf(
      Put(Put(Put(
        PutIf(ls, s.wallpaperCommon, Wallpaper, OrElse(s.wallpaper, "")),
        DesktopBg, FormatColor(s.desktopBg)),
        DesktopFg, FormatColor(s.desktopFg)),
        DesktopShadow, FormatColor(s.desktopShadow)),
      font, DesktopFont, OrElse(s.desktopFont, ""))
  }

  /** The menu, sort and arrangement lines, appended to ls. */
  function SaveFlags(ls: seq<Line>, s: ConfigState): (r: seq<Line>)
    ensures |r| == |ls| + 4 && r[..|ls|] == ls && r[|r| - 1].0 == ArrangeIconsRtl
  {
    Put(Put(Put(Put(ls,
      ShowWmMenu, BoolDec(s.showWmMenu)),
      SortType, IntToDec(s.sortType)),
      SortBy, IntToDec(s.sortBy)),
      ArrangeIconsRtl, BoolDec(s.arrangeIconsRtl))
  }

  /** The remaining lines, appended to ls. */
  function SaveTail(ls: seq<Line>, s: ConfigState): seq<Line>
  {
    SaveFlags(SaveLooks(ls, s), s)
  }

  /** The lines of the saved `[desktop]` group, in the order they are written. */
  function SaveLines(s: ConfigState): seq<Line>
    requires SlotsAgree(s)
  {
    SaveTail(SaveHead(s), s)
  }

  /** The start of the saved profile text: a blank line and the group header. */
  const HEADER := "\n[desktop]\n"

  /** The saved profile text. */
  function SaveText(s: ConfigState): (r: string)
    requires SlotsAgree(s)
    ensures |r| > |HEADER| && r[..|HEADER|] == HEADER && r[|r| - 1] == '\n'
  {
    HEADER + Render(SaveLines(s))
  }

  lemma ToMapPut(ls: seq<Line>, key: Key, value: string)
    ensures ToMap(Put(ls, key, value)) == ToMap(ls)[key := value]
  {
    assert Put(ls, key, value)[..|ls|] == ls;
  }

  lemma RenderPut(ls: seq<Line>, key: Key, value: string)
    ensures Render(Put(ls, key, value)) == Render(ls) + LineText(key, value)
  {
    assert Put(ls, key, value)[..|ls|] == ls;
  }

  lemma ToMapPutIf(ls: seq<Line>, c: bool, key: Key, value: string)
    ensures ToMap(PutIf(ls, c, key, value)) == if c then ToMap(ls)[key := value] else ToMap(ls)
  {
    if c {
      ToMapPut(ls, key, value);
    }
  }

  /** The slot lines leave every other key as it was. */
  lemma {:induction false} SlotLinesOther(ls: seq<Line>, ws: seq<Option<string>>, n: nat, k: Key)
    requires n <= |ws| && !k.WallpaperSlot?
    ensures GetString(ToMap(SlotLines(ls, ws, n)), k) == GetString(ToMap(ls), k)
  {
    if n > 0 {
      SlotLinesOther(ls, ws, n - 1, k);
      ToMapPutIf(SlotLines(ls, ws, n - 1), ws[n - 1].Some?, WallpaperSlot(n - 1), OrElse(ws[n - 1], ""));
    }
  }

  /** The slot lines give slot i its wallpaper, when it has one. */
  lemma {:induction false} SlotLinesSlot(ls: seq<Line>, ws: seq<Option<string>>, n: nat, i: nat)
    requires n <= |ws|
    ensures GetString(ToMap(SlotLines(ls, ws, n)), WallpaperSlot(i)) ==
      if i < n && ws[i].Some? then ws[i] else GetString(ToMap(ls), WallpaperSlot(i))
  {
    if n > 0 {
      SlotLinesSlot(ls, ws, n - 1, i);
      ToMapPutIf(SlotLines(ls, ws, n - 1), ws[n - 1].Some?, WallpaperSlot(n - 1), OrElse(ws[n - 1], ""));
    }
  }

  /** The head lines: mode, common flag, and the count when there are slots; no wallpaper or font. */
  lemma HeadKeys(s: ConfigState)
    requires SlotsAgree(s)
    ensures GetString(ToMap(SaveHead(s)), WallpaperMode) == Some(IntToDec(s.wallpaperMode))
    ensures GetString(ToMap(SaveHead(s)), WallpaperCommon) == Some(BoolDec(s.wallpaperCommon))
    ensures GetString(ToMap(SaveHead(s)), WallpapersConfigured) ==
      if s.wallpapersConfigured > 0 then Some(IntToDec(s.wallpapersConfigured)) else None
    ensures Wallpaper !in ToMap(SaveHead(s)) && DesktopFont !in ToMap(SaveHead(s))
  {
    var h1 := Put([], WallpaperMode, IntToDec(s.wallpaperMode));
    var head := Put(h1, WallpaperCommon, BoolDec(s.wallpaperCommon));
    var h3 := Put(head, WallpapersConfigured, IntToDec(s.wallpapersConfigured));
    ToMapPut([], WallpaperMode, IntToDec(s.wallpaperMode));
    ToMapPut(h1, WallpaperCommon, BoolDec(s.wallpaperCommon));
    ToMapPut(head, WallpapersConfigured, IntToDec(s.wallpapersConfigured));
    if s.wallpapersConfigured > 0 {
      SlotLinesOther(h3, s.wallpapers, |s.wallpapers|, WallpaperMode);
      SlotLinesOther(h3, s.wallpapers, |s.wallpapers|, WallpaperCommon);
      SlotLinesOther(h3, s.wallpapers, |s.wallpapers|, WallpapersConfigured);
      SlotLinesOther(h3, s.wallpapers, |s.wallpapers|, Wallpaper);
      SlotLinesOther(h3, s.wallpapers, |s.wallpapers|, DesktopFont);
    }
    assert GetString(ToMap(SaveHead(s)), Wallpaper) == None;
    assert GetString(ToMap(SaveHead(s)), DesktopFont) == None;
  }

  /** The head lines give each slot its wallpaper. */
  lemma HeadSlots(s: ConfigState)
    requires SlotsAgree(s)
    ensures forall i: nat ::
      GetString(ToMap(SaveHead(s)), WallpaperSlot(i)) == (if i < |s.wallpapers| then s.wallpapers[i] else None)
  {
    var h1 := Put([], WallpaperMode, IntToDec(s.wallpaperMode));
    var head := Put(h1, WallpaperCommon, BoolDec(s.wallpaperCommon));
    var h3 := Put(head, WallpapersConfigured, IntToDec(s.wallpapersConfigured));
    ToMapPut([], WallpaperMode, IntToDec(s.wallpaperMode));
    ToMapPut(h1, WallpaperCommon, BoolDec(s.wallpaperCommon));
    ToMapPut(head, WallpapersConfigured, IntToDec(s.wallpapersConfigured));
    forall i: nat
      ensures GetString(ToMap(SaveHead(s)), WallpaperSlot(i)) == if i < |s.wallpapers| then s.wallpapers[i] else None
    {
      if s.wallpapersConfigured > 0 {
        SlotLinesSlot(h3, s.wallpapers, |s.wallpapers|, i);
      }
    }
  }

  /** The wallpaper, colour and font lines set their keys. */
  lemma LooksKeys(ls: seq<Line>, s: ConfigState)
    ensures GetString(ToMap(SaveLooks(ls, s)), Wallpaper) ==
      if s.wallpaperCommon then Some(OrElse(s.wallpaper, "")) else GetString(ToMap(ls), Wallpaper)
    ensures GetString(ToMap(SaveLooks(ls, s)), DesktopBg) == Some(FormatColor(s.desktopBg))
    ensures GetString(ToMap(SaveLooks(ls, s)), DesktopFg) == Some(FormatColor(s.desktopFg))
    ensures GetString(ToMap(SaveLooks(ls, s)), DesktopShadow) == Some(FormatColor(s.desktopShadow))
    ensures GetString(ToMap(SaveLooks(ls, s)), DesktopFont) ==
      if s.desktopFont.Some? && s.desktopFont.value != "" then s.desktopFont else GetString(ToMap(ls), DesktopFont)
  {
    var font := s.desktopFont.Some? && s.desktopFont.value != "";
    var l1 := PutIf(ls, s.wallpaperCommon, Wallpaper, OrElse(s.wallpaper, ""));
    var l2 := Put(l1, DesktopBg, FormatColor(s.desktopBg));
    var l3 := Put(l2, DesktopFg, FormatColor(s.desktopFg));
    var l4 := Put(l3, DesktopShadow, FormatColor(s.desktopShadow));
    ToMapPutIf(ls, s.wallpaperCommon, Wallpaper, OrElse(s.wallpaper, ""));
    ToMapPut(l1, DesktopBg, FormatColor(s.desktopBg));
    ToMapPut(l2, DesktopFg, FormatColor(s.desktopFg));
    ToMapPut(l3, DesktopShadow, FormatColor(s.desktopShadow));
    ToMapPutIf(l4, font, DesktopFont, OrElse(s.desktopFont, ""));
  }

  /** A key that is not among the wallpaper, colour and font keys is kept by those lines. */
  lemma LooksFrame(ls: seq<Line>, s: ConfigState, k: Key)
    requires !(k.Wallpaper? || k.DesktopBg? || k.DesktopFg? || k.DesktopShadow? || k.DesktopFont?)
    ensures GetString(ToMap(SaveLooks(ls, s)), k) == GetString(ToMap(ls), k)
  {
    var font := s.desktopFont.Some? && s.desktopFont.value != "";
    var l1 := PutIf(ls, s.wallpaperCommon, Wallpaper, OrElse(s.wallpaper, ""));
    var l2 := Put(l1, DesktopBg, FormatColor(s.desktopBg));
    var l3 := Put(l2, DesktopFg, FormatColor(s.desktopFg));
    var l4 := Put(l3, DesktopShadow, FormatColor(s.desktopShadow));
    ToMapPutIf(ls, s.wallpaperCommon, Wallpaper, OrElse(s.wallpaper, ""));
    ToMapPut(l1, DesktopBg, FormatColor(s.desktopBg));
    ToMapPut(l2, DesktopFg, FormatColor(s.desktopFg));
    ToMapPut(l3, DesktopShadow, FormatColor(s.desktopShadow));
    ToMapPutIf(l4, font, DesktopFont, OrElse(s.desktopFont, ""));
  }

  /** The menu, sort and arrangement lines set their keys. */
  lemma FlagsKeys(ls: seq<Line>, s: ConfigState)
    ensures GetString(ToMap(SaveFlags(ls, s)), ShowWmMenu) == Some(BoolDec(s.showWmMenu))
    ensures GetString(ToMap(SaveFlags(ls, s)), SortType) == Some(IntToDec(s.sortType))
    ensures GetString(ToMap(SaveFlags(ls, s)), SortBy) == Some(IntToDec(s.sortBy))
    ensures GetString(ToMap(SaveFlags(ls, s)), ArrangeIconsRtl) == Some(BoolDec(s.arrangeIconsRtl))
  {
    var l1 := Put(ls, ShowWmMenu, BoolDec(s.showWmMenu));
    var l2 := Put(l1, SortType, IntToDec(s.sortType));
    var l3 := Put(l2, SortBy, IntToDec(s.sortBy));
    ToMapPut(ls, ShowWmMenu, BoolDec(s.showWmMenu));
    ToMapPut(l1, SortType, IntToDec(s.sortType));
    ToMapPut(l2, SortBy, IntToDec(s.sortBy));
    ToMapPut(l3, ArrangeIconsRtl, BoolDec(s.arrangeIconsRtl));
  }

  /** A key that is not among the flag keys is kept by those lines. */
  lemma FlagsFrame(ls: seq<Line>, s: ConfigState, k: Key)
    requires !(k.ShowWmMenu? || k.SortType? || k.SortBy? || k.ArrangeIconsRtl?)
    ensures GetString(ToMap(SaveFlags(ls, s)), k) == GetString(ToMap(ls), k)
  {
    var l1 := Put(ls, ShowWmMenu, BoolDec(s.showWmMenu));
    var l2 := Put(l1, SortType, IntToDec(s.sortType));
    var l3 := Put(l2, SortBy, IntToDec(s.sortBy));
    ToMapPut(ls, ShowWmMenu, BoolDec(s.showWmMenu));
    ToMapPut(l1, SortType, IntToDec(s.sortType));
    ToMapPut(l2, SortBy, IntToDec(s.sortBy));
    ToMapPut(l3, ArrangeIconsRtl, BoolDec(s.arrangeIconsRtl));
  }

  /** What the saved group holds for the mode, the common flag and the slot count. */
  lemma SavedModeKeys(s: ConfigState)
    requires SlotsAgree(s)
    ensures GetString(ToMap(SaveLines(s)), WallpaperMode) == Some(IntToDec(s.wallpaperMode))
    ensures GetString(ToMap(SaveLines(s)), WallpaperCommon) == Some(BoolDec(s.wallpaperCommon))
    ensures GetString(ToMap(SaveLines(s)), WallpapersConfigured) ==
      if s.wallpapersConfigured > 0 then Some(IntToDec(s.wallpapersConfigured)) else None
  {
    var h := SaveHead(s);
    HeadKeys(s);
    var lk := SaveLooks(h, s);
    LooksFrame(h, s, WallpaperMode);
    LooksFrame(h, s, WallpaperCommon);
    LooksFrame(h, s, WallpapersConfigured);
    FlagsFrame(lk, s, WallpaperMode);
    FlagsFrame(lk, s, WallpaperCommon);
    FlagsFrame(lk, s, WallpapersConfigured);
  }

  /** What the saved group holds for each desktop's wallpaper. */
  lemma SavedSlotKeys(s: ConfigState)
    requires SlotsAgree(s)
    ensures forall i: nat ::
      GetString(ToMap(SaveLines(s)), WallpaperSlot(i)) == (if i < |s.wallpapers| then s.wallpapers[i] else None)
  {
    var h := SaveHead(s);
    HeadSlots(s);
    forall i: nat
      ensures GetString(ToMap(SaveLines(s)), WallpaperSlot(i)) == GetString(ToMap(h), WallpaperSlot(i))
    {
      LooksFrame(h, s, WallpaperSlot(i));
      FlagsFrame(SaveLooks(h, s), s, WallpaperSlot(i));
    }
  }

  /** What the saved group holds for the wallpaper, the colours and the font. */
  lemma SavedLookKeys(s: ConfigState)
    requires SlotsAgree(s)
    ensures GetString(ToMap(SaveLines(s)), Wallpaper) == if s.wallpaperCommon then Some(OrElse(s.wallpaper, "")) else None
    ensures GetString(ToMap(SaveLines(s)), DesktopBg) == Some(FormatColor(s.desktopBg))
    ensures GetString(ToMap(SaveLines(s)), DesktopFg) == Some(FormatColor(s.desktopFg))
    ensures GetString(ToMap(SaveLines(s)), DesktopShadow) == Some(FormatColor(s.desktopShadow))
    ensures GetString(ToMap(SaveLines(s)), DesktopFont) ==
      if s.desktopFont.Some? && s.desktopFont.value != "" then s.desktopFont else None
  {
    var h := SaveHead(s);
    var lk := SaveLooks(h, s);
    HeadKeys(s);
    LooksKeys(h, s);
    FlagsFrame(lk, s, Wallpaper);
    FlagsFrame(lk, s, DesktopBg);
    FlagsFrame(lk, s, DesktopFg);
    FlagsFrame(lk, s, DesktopShadow);
    FlagsFrame(lk, s, DesktopFont);
  }

  /** What the saved group holds for the menu, sort and arrangement flags. */
  lemma SavedFlagKeys(s: ConfigState)
    requires SlotsAgree(s)
    ensures GetString(ToMap(SaveLines(s)), ShowWmMenu) == Some(BoolDec(s.showWmMenu))
    ensures GetString(ToMap(SaveLines(s)), SortType) == Some(IntToDec(s.sortType))
    ensures GetString(ToMap(SaveLines(s)), SortBy) == Some(IntToDec(s.sortBy))
    ensures GetString(ToMap(SaveLines(s)), ArrangeIconsRtl) == Some(BoolDec(s.arrangeIconsRtl))
  {
    FlagsKeys(SaveLooks(SaveHead(s), s), s);
  }

  lemma ReadBoolDec(b: bool)
    ensures ReadBool(BoolDec(b)) == b
  {
  }

  /**
   * Saving then loading restores the integer and boolean settings. The sort
   * order comes back as descending exactly when it was descending, and the
   * sort column when the column test accepts it.
   */
  lemma SaveLoadFlags(s: ConfigState, t: ConfigState, columns: set<int>)
    requires SlotsAgree(s)
    ensures LoadState(t, ToMap(SaveLines(s)), columns).wallpaperMode == s.wallpaperMode
    ensures LoadState(t, ToMap(SaveLines(s)), columns).wallpaperCommon == s.wallpaperCommon
    ensures LoadState(t, ToMap(SaveLines(s)), columns).showWmMenu == s.showWmMenu
    ensures LoadState(t, ToMap(SaveLines(s)), columns).arrangeIconsRtl == s.arrangeIconsRtl
    ensures LoadState(t, ToMap(SaveLines(s)), columns).sortType ==
      if s.sortType == SORT_DESCENDING then SORT_DESCENDING else SORT_ASCENDING
    ensures LoadState(t, ToMap(SaveLines(s)), columns).sortBy ==
      if ColumnValid(s.sortBy, columns) then s.sortBy else t.sortBy
  {
    SavedModeKeys(s);
    SavedFlagKeys(s);
    AtoIRoundTrip(s.wallpaperMode);
    AtoIRoundTrip(s.sortType);
    AtoIRoundTrip(s.sortBy);
    ReadBoolDec(s.wallpaperCommon);
    ReadBoolDec(s.showWmMenu);
    ReadBoolDec(s.arrangeIconsRtl);
  }

  /**
   * Saving then loading restores the slot count and every slot when there are
   * slots; with none saved the count stays as it was and every slot is empty.
   */
  lemma SaveLoadSlots(s: ConfigState, t: ConfigState, columns: set<int>)
    requires SlotsAgree(s)
    ensures LoadState(t, ToMap(SaveLines(s)), columns).wallpapersConfigured ==
      if s.wallpapersConfigured > 0 then s.wallpapersConfigured else t.wallpapersConfigured
    ensures s.wallpapersConfigured > 0 ==> LoadState(t, ToMap(SaveLines(s)), columns).wallpapers == s.wallpapers
    ensures s.wallpapersConfigured <= 0 ==>
      forall i :: 0 <= i < |LoadState(t, ToMap(SaveLines(s)), columns).wallpapers| ==>
        LoadState(t, ToMap(SaveLines(s)), columns).wallpapers[i].None?
  {
    SavedModeKeys(s);
    SavedSlotKeys(s);
    AtoIRoundTrip(s.wallpapersConfigured);
  }

  /**
   * Saving then loading gives the shared wallpaper back (an unset one as the
   * empty name), the colours quantized to 8 bits per channel, and the font
   * when it was set and not empty.
   */
  lemma SaveLoadLooks(s: ConfigState, t: ConfigState, columns: set<int>)
    requires SlotsAgree(s)
    ensures LoadState(t, ToMap(SaveLines(s)), columns).wallpaper ==
      if s.wallpaperCommon then Some(OrElse(s.wallpaper, "")) else None
    ensures LoadState(t, ToMap(SaveLines(s)), columns).desktopBg == Quantize(s.desktopBg)
    ensures LoadState(t, ToMap(SaveLines(s)), columns).desktopFg == Quantize(s.desktopFg)
    ensures LoadState(t, ToMap(SaveLines(s)), columns).desktopShadow == Quantize(s.desktopShadow)
    ensures LoadState(t, ToMap(SaveLines(s)), columns).desktopFont ==
      if s.desktopFont.Some? && s.desktopFont.value != "" then s.desktopFont else None
  {
    SavedModeKeys(s);
    SavedLookKeys(s);
    ReadBoolDec(s.wallpaperCommon);
    ColorRoundTrip(s.desktopBg);
    ColorRoundTrip(s.desktopFg);
    ColorRoundTrip(s.desktopShadow);
  }

  // ------------------------------------------------------------ profiles

  /** Reading a list of files is reading all but the last, then the last over the result. */
  lemma {:induction false} LoadAllLast(s: ConfigState, found: seq<KeyFile>, columns: set<int>)
    requires |found| > 0
    decreases |found|
    ensures LoadAll(s, found, columns) ==
      LoadState(LoadAll(s, found[..|found| - 1], columns), found[|found| - 1], columns)
  {
    if |found| > 1 {
      LoadAllLast(LoadState(s, found[0], columns), found[1..], columns);
      assert found[1..][..|found[1..]| - 1] == found[..|found| - 1][1..];
    }
  }

  /**
   * After a profile load the font is always set. Because each file replaces the
   * font outright, it is the last file's font, or the default when that file
   * has none, whatever the earlier files said.
   */
  lemma ProfileFont(s: ConfigState, found: seq<KeyFile>, columns: set<int>)
    ensures ProfileState(s, found, columns).desktopFont.Some?
    ensures |found| > 0 ==>
      ProfileState(s, found, columns).desktopFont ==
        Some(OrElse(GetString(found[|found| - 1], DesktopFont), DEFAULT_FONT))
  {
    if |found| > 0 {
      LoadAllLast(s, found, columns);
    }
  }

  /** With no file found the object keeps its settings, apart from the font default. */
  lemma ProfileNoFiles(s: ConfigState, columns: set<int>)
    ensures ProfileState(s, [], columns).(desktopFont := s.desktopFont) == s
    ensures ProfileState(Defaults(0), [], columns).desktopFont == Some(DEFAULT_FONT)
  {
  }

  /** Append one `key=value` line to the text being saved. */
  method AppendLine(buf: string, ghost ls: seq<Line>, key: Key, value: string) returns (r: string)
    requires buf == HEADER + Render(ls)
    ensures r == buf + LineText(key, value)
    ensures r == HEADER + Render(Put(ls, key, value))
  {
    r := buf + LineText(key, value);
    RenderPut(ls, key, value);
    ConcatAssoc(HEADER, Render(ls), LineText(key, value));
  }

  lemma ConcatAssoc(a: string, b: string, c: string)
    ensures a + b + c == a + (b + c)
  {
  }

  /** The slot array read from a key file, one slot at a time. */
  method ReadSlots(kf: KeyFile, n: nat) returns (ws: seq<Option<string>>)
    ensures |ws| == n
    ensures forall i :: 0 <= i < n ==> ws[i] == GetString(kf, WallpaperSlot(i))
  {
    ws := [];
    while |ws| < n
      invariant |ws| <= n
      invariant forall i :: 0 <= i < |ws| ==> ws[i] == GetString(kf, WallpaperSlot(i))
    {
      ws := ws + [GetString(kf, WallpaperSlot(|ws|))];
    }
  }

  // --------------------------------------------------------------- object

  /** The application configuration object's desktop settings, updated in place. */
  class Config {
    var wallpaperMode: int
    var wallpaper: Option<string>
    var wallpapers: seq<Option<string>>
    var wallpapersConfigured: int
    var wallpaperCommon: bool
    var desktopBg: Color
    var desktopFg: Color
    var desktopShadow: Color
    var desktopFont: Option<string>
    var arrangeIconsRtl: bool
    var showWmMenu: bool
    var sortType: int
    var sortBy: int

    /** The settings as a value. */
    function State(): ConfigState
      reads this
    {
      ConfigState(wallpaperMode, wallpaper, wallpapers, wallpapersConfigured, wallpaperCommon,
                  desktopBg, desktopFg, desktopShadow, desktopFont,
                  arrangeIconsRtl, showWmMenu, sortType, sortBy)
    }

    ghost predicate Valid()
      reads this
    {
      SlotsAgree(State())
    }

    /** The object as initialised; mtimeColumn is the model's modification-time column. */
    constructor(mtimeColumn: int)
      ensures State() == Defaults(mtimeColumn)
      ensures Valid()
    {
      wallpaperMode := FM_WP_COLOR;
      wallpaper := None;
      wallpapers := [];
      wallpapersConfigured := 0;
      wallpaperCommon := true;
      desktopBg := DEFAULT_BG;
      desktopFg := WHITE;
      desktopShadow := BLACK;
      desktopFont := None;
      arrangeIconsRtl := false;
      showWmMenu := false;
      sortType := SORT_ASCENDING;
      sortBy := mtimeColumn;
    }

    /** Read one key file's `[desktop]` group over the current settings. */
    method LoadFromKeyFile(kf: KeyFile, columns: set<int>)
      modifies this
      ensures State() == LoadState(old(State()), kf, columns)
      ensures Valid()
    {
      LoadWallpaperKeys(kf);
      LoadLookKeys(kf);
      LoadFlagKeys(kf, columns);
    }

    /** The mode, the slot array and its count, the common flag and the shared wallpaper. */
    method LoadWallpaperKeys(kf: KeyFile)
      modifies this`wallpaperMode, this`wallpapers, this`wallpaper, this`wallpapersConfigured, this`wallpaperCommon
      ensures wallpaperMode == OrElse(GetInt(kf, WallpaperMode), old(wallpaperMode))
      ensures wallpapersConfigured == OrElse(GetInt(kf, WallpapersConfigured), old(wallpapersConfigured))
      ensures wallpapers == if wallpapersConfigured > 0 then SlotValues(kf, wallpapersConfigured) else []
      ensures wallpaperCommon == OrElse(GetBool(kf, WallpaperCommon), old(wallpaperCommon))
      ensures wallpaper == if wallpaperCommon then GetString(kf, Wallpaper) else None
    {
      if WallpaperMode in kf {
        wallpaperMode := AtoI(kf[WallpaperMode]);
      }
      wallpapers := [];
      wallpaper := None;
      if WallpapersConfigured in kf {
        wallpapersConfigured := AtoI(kf[WallpapersConfigured]);
      }
      if wallpapersConfigured > 0 {
        wallpapers := ReadSlots(kf, wallpapersConfigured);
        assert wallpapers == SlotValues(kf, wallpapersConfigured);
      }
      if WallpaperCommon in kf {
        wallpaperCommon := ReadBool(kf[WallpaperCommon]);
      }
      if wallpaperCommon {
        wallpaper := GetString(kf, Wallpaper);
      }
    }

    /** The three colours and the font. */
    method LoadLookKeys(kf: KeyFile)
      modifies this`desktopBg, this`desktopFg, this`desktopShadow, this`desktopFont
      ensures desktopBg == ReadColor(kf, DesktopBg, old(desktopBg))
      ensures desktopFg == ReadColor(kf, DesktopFg, old(desktopFg))
      ensures desktopShadow == ReadColor(kf, DesktopShadow, old(desktopShadow))
      ensures desktopFont == GetString(kf, DesktopFont)
    {
      desktopBg := ReadColor(kf, DesktopBg, desktopBg);
      desktopFg := ReadColor(kf, DesktopFg, desktopFg);
      desktopShadow := ReadColor(kf, DesktopShadow, desktopShadow);
      desktopFont := GetString(kf, DesktopFont);
    }

    /** The menu flag, the sort order and column, and the arrangement direction. */
    method LoadFlagKeys(kf: KeyFile, columns: set<int>)
      modifies this`showWmMenu, this`sortType, this`sortBy, this`arrangeIconsRtl
      ensures showWmMenu == OrElse(GetBool(kf, ShowWmMenu), old(showWmMenu))
      ensures sortType == if GetInt(kf, SortType) == Some(SORT_DESCENDING) then SORT_DESCENDING else SORT_ASCENDING
      ensures sortBy == match GetInt(kf, SortBy)
                        case Some(v) => if ColumnValid(v, columns) then v else old(sortBy)
                        case None => old(sortBy)
      ensures arrangeIconsRtl == OrElse(GetBool(kf, ArrangeIconsRtl), old(arrangeIconsRtl))
    {
      if ShowWmMenu in kf {
        showWmMenu := ReadBool(kf[ShowWmMenu]);
      }
      if SortType in kf && AtoI(kf[SortType]) == SORT_DESCENDING {
        sortType := SORT_DESCENDING;
      } else {
        sortType := SORT_ASCENDING;
      }
      if SortBy in kf && ColumnValid(AtoI(kf[SortBy]), columns) {
        sortBy := AtoI(kf[SortBy]);
      }
      if ArrangeIconsRtl in kf {
        arrangeIconsRtl := ReadBool(kf[ArrangeIconsRtl]);
      }
    }

    /**
     * Load a profile. store gives, per profile name, the key files found for it
     * in the system directories and then the user directory, in reading order.
     */
    method LoadFromProfile(name: Option<string>, store: map<string, seq<KeyFile>>, columns: set<int>)
      returns (profile: string)
      requires Valid()
      modifies this
      ensures profile == ProfileName(name)
      ensures State() == ProfileState(old(State()), if profile in store then store[profile] else [], columns)
      ensures Valid()
    {
      profile := if name.None? || name.value == "" then "default" else name.value;
      var found := if profile in store then store[profile] else [];
      ghost var s0 := State();
      var i := 0;
      while i < |found|
        invariant 0 <= i <= |found|
        invariant Valid()
        invariant LoadAll(State(), found[i..], columns) == LoadAll(s0, found, columns)
      {
        assert found[i..][1..] == found[i + 1..];
        LoadFromKeyFile(found[i], columns);
        i := i + 1;
      }
      assert found[i..] == [];
      if desktopFont.None? {
        desktopFont := Some(DEFAULT_FONT);
      }
    }

    /**
     * Save the settings under a profile. dirCreated says whether the profile
     * directory exists or could be created; written is the text stored then.
     */
    method SaveProfile(name: Option<string>, dirCreated: bool) returns (profile: string, written: Option<string>)
      requires Valid()
      ensures profile == ProfileName(name)
      ensures written == if dirCreated then Some(SaveText(State())) else None
    {
      profile := if name.None? || name.value == "" then "default" else name.value;
      if !dirCreated {
        return profile, None;
      }
      var buf := SaveHeadText();
      ghost var ls := SaveHead(State());
      buf := SaveLooksText(buf, ls);
      ls := SaveLooks(ls, State());
      buf := SaveFlagsText(buf, ls);
      ls := SaveFlags(ls, State());
      written := Some(buf);
    }

    /** The header and the mode, common-flag and slot lines. */
    method SaveHeadText() returns (r: string)
      requires Valid()
      ensures r == HEADER + Render(SaveHead(State()))
    {
      r := HEADER;
      ghost var ls: seq<Line> := [];
      r := AppendLine(r, ls, WallpaperMode, IntToDec(wallpaperMode));
      ls := Put(ls, WallpaperMode, IntToDec(wallpaperMode));
      r := AppendLine(r, ls, WallpaperCommon, BoolDec(wallpaperCommon));
      ls := Put(ls, WallpaperCommon, BoolDec(wallpaperCommon));
      if |wallpapers| > 0 && wallpapersConfigured > 0 {
        r := AppendLine(r, ls, WallpapersConfigured, IntToDec(wallpapersConfigured));
        ls := Put(ls, WallpapersConfigured, IntToDec(wallpapersConfigured));
        ghost var base := ls;
        var i := 0;
        while i < wallpapersConfigured
          invariant 0 <= i <= wallpapersConfigured
          invariant ls == SlotLines(base, wallpapers, i)
          invariant r == HEADER + Render(ls)
        {
          if wallpapers[i].Some? {
            r := AppendLine(r, ls, WallpaperSlot(i), wallpapers[i].value);
          }
          ls := PutIf(ls, wallpapers[i].Some?, WallpaperSlot(i), OrElse(wallpapers[i], ""));
          i := i + 1;
        }
      }
      assert ls == SaveHead(State());
    }

    /** Append the wallpaper, colour and font lines. */
    method SaveLooksText(buf: string, ghost ls: seq<Line>) returns (r: string)
      requires buf == HEADER + Render(ls)
      ensures r == HEADER + Render(SaveLooks(ls, State()))
    {
      r := buf;
      ghost var l := ls;
      if wallpaperCommon {
        r := AppendLine(r, l, Wallpaper, OrElse(wallpaper, ""));
        l := Put(l, Wallpaper, OrElse(wallpaper, ""));
      }
      r := AppendLine(r, l, DesktopBg, FormatColor(desktopBg));
      l := Put(l, DesktopBg, FormatColor(desktopBg));
      r := AppendLine(r, l, DesktopFg, FormatColor(desktopFg));
      l := Put(l, DesktopFg, FormatColor(desktopFg));
      r := AppendLine(r, l, DesktopShadow, FormatColor(desktopShadow));
      l := Put(l, DesktopShadow, FormatColor(desktopShadow));
      if desktopFont.Some? && desktopFont.value != "" {
        r := AppendLine(r, l, DesktopFont, desktopFont.value);
      }
    }

    /** Append the menu, sort and arrangement lines. */
    method SaveFlagsText(buf: string, ghost ls: seq<Line>) returns (r: string)
      requires buf == HEADER + Render(ls)
      ensures r == HEADER + Render(SaveFlags(ls, State()))
    {
      r := AppendLine(buf, ls, ShowWmMenu, BoolDec(showWmMenu));
      ghost var l := Put(ls, ShowWmMenu, BoolDec(showWmMenu));
      r := AppendLine(r, l, SortType, IntToDec(sortType));
      l := Put(l, SortType, IntToDec(sortType));
      r := AppendLine(r, l, SortBy, IntToDec(sortBy));
      l := Put(l, SortBy, IntToDec(sortBy));
      r := AppendLine(r, l, ArrangeIconsRtl, BoolDec(arrangeIconsRtl));
    }
  }
}
