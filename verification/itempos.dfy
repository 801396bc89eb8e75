/**
 * The desktop's item position file: one key-file group per pinned item,
 * named after the item's file basename, holding its x and y.
 *
 * The writer escapes carriage return, line feed and backslash in the name,
 * then writes `[name]`, `x=<x>`, `y=<y>` and a blank line. ParsePositions
 * is GKeyFile's reading of a file in that layout: a group header is kept as
 * it stands (GKeyFile undoes no escapes in group names) and the values are
 * text; a header GKeyFile refuses as a group name makes the whole file fail
 * to load. The loader looks a group up by the item's name and reads x and y
 * with GKeyFile's integer parse.
 */
module ItemPos {
  import opened Common
  import opened Decimal

  /** A pinned item as saved: its basename and its position. */
  datatype Entry = Entry(name: string, x: int, y: int)

  /** A group of the key file as GKeyFile holds it: the header text, and the x and y values as text. */
  datatype Group = Group(header: string, x: string, y: string)

  /** The escape for one character of a group name. */
  function EscapeChar(c: char): (r: string)
    ensures 1 <= |r| <= 2
    ensures '\n' !in r && '\r' !in r
  {
    if c == '\r' then "\\r"
    else if c == '\n' then "\\n"
    else if c == '\\' then "\\\\"
    else [c]
  }

  /** The escaped group name: no line break survives. */
  function Escape(s: string): (r: string)
    ensures |s| <= |r| <= 2 * |s|
    ensures '\n' !in r && '\r' !in r
  {
    if |s| == 0 then "" else EscapeChar(s[0]) + Escape(s[1..])
  }

  /** Escaping a name one character longer appends that character's escape. */
  lemma {:induction false} EscapeAppend(s: string, c: char)
    ensures Escape(s + [c]) == Escape(s) + EscapeChar(c)
  {
    if |s| > 0 {
      assert (s + [c])[1..] == s[1..] + [c];
      EscapeAppend(s[1..], c);
    } else {
      assert Escape([c]) == EscapeChar(c) + Escape([]);
    }
  }

  /** Undo Escape; None for a backslash that does not start a known escape. */
  function Unescape(s: string): Option<string>
  {
    if |s| == 0 then Some("")
    else if s[0] == '\\' then
      if |s| >= 2 && s[1] in "rn\\" then
        var c := if s[1] == 'r' then '\r' else if s[1] == 'n' then '\n' else '\\';
        match Unescape(s[2..])
        case None => None
        case Some(t) => Some([c] + t)
      else None
    else
      match Unescape(s[1..])
      case None => None
      case Some(t) => Some([s[0]] + t)
  }

  /** Unescaping an escaped name gives the name back. */
  lemma {:induction false} UnescapeEscape(s: string)
    ensures Unescape(Escape(s)) == Some(s)
  {
    if |s| > 0 {
      UnescapeEscape(s[1..]);
      var e := Escape(s);
      assert e == EscapeChar(s[0]) + Escape(s[1..]);
      if s[0] == '\r' || s[0] == '\n' || s[0] == '\\' {
        assert e[0] == '\\' && e[1] in "rn\\";
        assert e[2..] == Escape(s[1..]);
      } else {
        assert e[0] == s[0];
        assert e[1..] == Escape(s[1..]);
      }
      assert [s[0]] + s[1..] == s;
    }
  }

  /** The text written for one entry. */
  function Block(e: Entry): string
  {
    "[" + Escape(e.name) + "]\n" + "x=" + IntToDec(e.x) + "\n" + "y=" + IntToDec(e.y) + "\n\n"
  }

  /** The whole file: the blocks in list order. */
  function Serialize(es: seq<Entry>): (r: string)
    ensures |r| == 0 <==> |es| == 0
  {
    if |es| == 0 then "" else Block(es[0]) + Serialize(es[1..])
  }

  /** The text before the first line feed and the text after it; None without one. */
  function SplitLine(s: string): (r: Option<(string, string)>)
    ensures r.Some? ==> '\n' !in r.value.0 && s == r.value.0 + "\n" + r.value.1
    ensures r.None? ==> '\n' !in s
  {
    if |s| == 0 then None
    else if s[0] == '\n' then Some(("", s[1..]))
    else match SplitLine(s[1..])
      case None => None
      case Some(p) => Some(([s[0]] + p.0, p.1))
  }

  /** A line followed by a line feed splits back into the line and the rest. */
  lemma {:induction false} SplitLineAppend(line: string, rest: string)
    requires '\n' !in line
    ensures SplitLine(line + "\n" + rest) == Some((line, rest))
  {
    var s := line + "\n" + rest;
    if |line| == 0 {
      assert s[1..] == rest;
    } else {
      assert line[0] in line;
      assert s[1..] == line[1..] + "\n" + rest;
      SplitLineAppend(line[1..], rest);
      assert [line[0]] + line[1..] == line;
    }
  }

  /** The value of a `key=value` line for the given key. */
  function ParseKey(key: char, line: string): Option<string>
  {
    if |line| >= 2 && line[0] == key && line[1] == '=' then Some(line[2..]) else None
  }

  /** A character GKeyFile accepts in a group name: no bracket and no ASCII control character. */
  predicate GroupNameChar(c: char)
  {
    c != '[' && c != ']' && 0x20 <= c as int && c as int != 0x7F
  }

  /** A group name GKeyFile accepts: not empty and made of accepted characters. */
  predicate ValidGroupName(h: string)
  {
    |h| > 0 && forall k :: 0 <= k < |h| ==> GroupNameChar(h[k])
  }

  /**
   * A `[header]` line. The header text is kept as it stands; a header that
   * is not a valid group name (an inner `]` included) is refused.
   */
  function ParseGroup(line: string): (r: Option<string>)
    ensures r.Some? ==> line == "[" + r.value + "]" && ValidGroupName(r.value)
    ensures forall h :: ValidGroupName(h) && line == "[" + h + "]" ==> r == Some(h)
  {
    if |line| >= 2 && line[0] == '[' && line[|line| - 1] == ']' && ValidGroupName(line[1..|line| - 1]) then
      Some(line[1..|line| - 1])
    else None
  }

  /** One block: group line, x line, y line, blank line; then the rest of the text. */
  function ParseBlock(s: string): (r: Option<(Group, string)>)
    ensures r.Some? ==> |r.value.1| < |s| && ValidGroupName(r.value.0.header)
  {
    match SplitLine(s)
    case None => None
    case Some((l1, s1)) =>
      match SplitLine(s1)
      case None => None
      case Some((l2, s2)) =>
        match SplitLine(s2)
        case None => None
        case Some((l3, s3)) =>
          match SplitLine(s3)
          case None => None
          case Some((l4, s4)) =>
            match (ParseGroup(l1), ParseKey('x', l2), ParseKey('y', l3))
            case (Some(h), Some(x), Some(y)) =>
              if l4 == "" then Some((Group(h, x, y), s4)) else None
            case _ => None
  }

  /** The groups of a position file in this layout, or None if GKeyFile does not load it. */
  function ParsePositions(s: string): (r: Option<seq<Group>>)
    ensures r.Some? ==> forall k :: 0 <= k < |r.value| ==> ValidGroupName(r.value[k].header)
    decreases |s|
  {
    if |s| == 0 then Some([])
    else match ParseBlock(s)
      case None => None
      case Some((g, rest)) =>
        match ParsePositions(rest)
        case None => None
        case Some(gs) => Some([g] + gs)
  }

  /** The group written for one entry: the escaped name and the `%d` texts. */
  function GroupOf(e: Entry): Group
  {
    Group(Escape(e.name), IntToDec(e.x), IntToDec(e.y))
  }

  /** The groups written for a list of entries, in order. */
  function Groups(es: seq<Entry>): (r: seq<Group>)
    ensures |r| == |es| && forall k :: 0 <= k < |es| ==> r[k] == GroupOf(es[k])
  {
    if |es| == 0 then [] else [GroupOf(es[0])] + Groups(es[1..])
  }

  lemma DecimalHasNoLineFeed(i: int)
    ensures '\n' !in IntToDec(i)
  {
    var s := IntToDec(i);
    forall k | 0 <= k < |s| ensures s[k] != '\n' {
      if k == 0 && i >= 0 {
        assert IsDigit(NatToDec(i)[0]);
      }
    }
  }

  /** A name whose escaped form GKeyFile accepts as a group name. */
  predicate ReadableName(n: string)
  {
    ValidGroupName(Escape(n))
  }

  /** Every saved name is one GKeyFile accepts. */
  predicate ReadableNames(es: seq<Entry>)
  {
    forall k :: 0 <= k < |es| ==> ReadableName(es[k].name)
  }

  /**
   * Reading one written block gives its group and leaves the following text
   * when the escaped name is a valid group name, and fails otherwise.
   */
  lemma ParseBlockOfBlock(e: Entry, rest: string)
    ensures ReadableName(e.name) ==> ParseBlock(Block(e) + rest) == Some((GroupOf(e), rest))
    ensures !ReadableName(e.name) ==> ParseBlock(Block(e) + rest) == None
  {
    var g := "[" + Escape(e.name) + "]";
    var lx := "x=" + IntToDec(e.x);
    var ly := "y=" + IntToDec(e.y);
    DecimalHasNoLineFeed(e.x);
    DecimalHasNoLineFeed(e.y);
    assert '\n' !in g;
    assert '\n' !in lx;
    assert '\n' !in ly;
    var s3 := "" + "\n" + rest;
    var s2 := ly + "\n" + s3;
    var s1 := lx + "\n" + s2;
    assert Block(e) + rest == g + "\n" + s1;
    SplitLineAppend(g, s1);
    SplitLineAppend(lx, s2);
    SplitLineAppend(ly, s3);
    SplitLineAppend("", rest);
    assert g[1..|g| - 1] == Escape(e.name);
    assert lx[2..] == IntToDec(e.x);
    assert ly[2..] == IntToDec(e.y);
  }

  /** Reading a written file of readable names gives exactly one group per entry, in order. */
  lemma {:induction false} ParseSerialize(es: seq<Entry>)
    requires ReadableNames(es)
    ensures ParsePositions(Serialize(es)) == Some(Groups(es))
  {
    if |es| > 0 {
      ParseBlockOfBlock(es[0], Serialize(es[1..]));
      ParseSerialize(es[1..]);
    }
  }

  /** The file for a list of entries is the files of its parts, one after the other. */
  lemma {:induction false} SerializeAppend(a: seq<Entry>, b: seq<Entry>)
    ensures Serialize(a + b) == Serialize(a) + Serialize(b)
  {
    if |a| > 0 {
      assert (a + b)[1..] == a[1..] + b;
      SerializeAppend(a[1..], b);
    } else {
      assert a + b == b;
    }
  }

  /* ------------------------------------------------------------------ */
  /* Loading                                                             */

  /** g_key_file_get_integer on a value: the integer, or 0 when the value is not one. */
  function GetInteger(v: string): (r: int)
    ensures IsGint(r)
    ensures KeyFileInteger(v).None? ==> r == 0
  {
    match KeyFileInteger(v)
    case Some(i) => i
    case None => 0
  }

  /** The index of the first group with the given header. */
  function FindGroup(gs: seq<Group>, header: string): (r: Option<nat>)
    ensures r.Some? ==> r.value < |gs| && gs[r.value].header == header
    ensures r.Some? ==> forall k :: 0 <= k < r.value ==> gs[k].header != header
    ensures r.None? <==> forall k :: 0 <= k < |gs| ==> gs[k].header != header
  {
    if |gs| == 0 then None
    else if gs[0].header == header then Some(0)
    else match FindGroup(gs[1..], header)
      case None => None
      case Some(i) => Some(i + 1)
  }

  /**
   * load_items for one item: when the file reads as a key file and has a
   * group headed by the item's name, the x and y read from that group.
   */
  function LoadPosition(text: string, name: string): (r: Option<(int, int)>)
    ensures r.Some? ==> IsGint(r.value.0) && IsGint(r.value.1)
    ensures r.None? <==> ParsePositions(text).None? || FindGroup(ParsePositions(text).value, name).None?
  {
    match ParsePositions(text)
    case None => None
    case Some(gs) =>
      match FindGroup(gs, name)
      case None => None
      case Some(k) => Some((GetInteger(gs[k].x), GetInteger(gs[k].y)))
  }

  /** The lookup the writer's escaping calls for: under the escaped name, the header that was written. */
  function LoadPositionEscaped(text: string, name: string): Option<(int, int)>
  {
    LoadPosition(text, Escape(name))
  }

  /** Names with no backslash and no line break. */
  predicate PlainName(n: string)
  {
    '\\' !in n && '\r' !in n && '\n' !in n
  }

  predicate DistinctNames(es: seq<Entry>)
  {
    forall i, j :: 0 <= i < j < |es| ==> es[i].name != es[j].name
  }

  predicate GintPositions(es: seq<Entry>)
  {
    forall k :: 0 <= k < |es| ==> IsGint(es[k].x) && IsGint(es[k].y)
  }

  /** Different names have different escapes. */
  lemma EscapeDistinct(a: string, b: string)
    requires a != b
    ensures Escape(a) != Escape(b)
  {
    UnescapeEscape(a);
    UnescapeEscape(b);
  }

  /** Escaping leaves a name alone exactly when it is plain. */
  lemma {:induction false} EscapePlain(n: string)
    ensures PlainName(n) <==> Escape(n) == n
    ensures !PlainName(n) ==> |Escape(n)| > |n|
  {
    if |n| > 0 {
      EscapePlain(n[1..]);
      assert n == [n[0]] + n[1..];
      assert PlainName(n) <==> PlainName(n[1..]) && n[0] != '\\' && n[0] != '\r' && n[0] != '\n' by {
        forall c ensures c in n <==> c == n[0] || c in n[1..] {
          assert c in n ==> c == n[0] || c in n[1..] by {
            if c in n {
              var k :| 0 <= k < |n| && n[k] == c;
              if k > 0 { assert n[1..][k - 1] == c; }
            }
          }
        }
      }
    }
  }

  /**
   * Looked up by its escaped name, every saved item finds its own position
   * again (names in one folder are distinct, coordinates are gint values),
   * provided GKeyFile accepts every saved name as a group name.
   */
  lemma SaveLoadEscaped(es: seq<Entry>, k: nat)
    requires DistinctNames(es) && GintPositions(es) && ReadableNames(es) && k < |es|
    ensures LoadPositionEscaped(Serialize(es), es[k].name) == Some((es[k].x, es[k].y))
  {
    var e := es[k];
    KeyFileIntegerRoundTrip(e.x);
    KeyFileIntegerRoundTrip(e.y);
    ParseSerialize(es);
    var gs := Groups(es);
    var h := Escape(e.name);
    forall j | 0 <= j < k
      ensures gs[j].header != h
    {
      EscapeDistinct(es[j].name, e.name);
    }
    FindGroupAt(gs, h, k);
    LoadFromGroup(Serialize(es), gs, h, k);
  }

  lemma LoadFromGroup(text: string, gs: seq<Group>, h: string, k: nat)
    requires ParsePositions(text) == Some(gs) && FindGroup(gs, h) == Some(k)
    ensures k < |gs| && LoadPosition(text, h) == Some((GetInteger(gs[k].x), GetInteger(gs[k].y)))
  {
  }

  lemma FindGroupAt(gs: seq<Group>, h: string, k: nat)
    requires k < |gs| && gs[k].header == h
    requires forall j :: 0 <= j < k ==> gs[j].header != h
    ensures FindGroup(gs, h) == Some(k)
  {
  }

  /** In a readable file, a header that no saved name escapes to is not found. */
  lemma NotAHeader(es: seq<Entry>, h: string)
    requires ReadableNames(es)
    requires forall k :: 0 <= k < |es| ==> Escape(es[k].name) != h
    ensures LoadPosition(Serialize(es), h) == None
  {
    ParseSerialize(es);
    assert forall k :: 0 <= k < |es| ==> GroupOf(es[k]).header != h;
  }

  /**
   * One saved name that GKeyFile refuses as a group name makes the whole
   * file fail to load: no name, saved or not, is found.
   */
  lemma {:induction false} UnreadableFileFails(es: seq<Entry>, k: nat)
    requires k < |es| && !ReadableName(es[k].name)
    ensures ParsePositions(Serialize(es)) == None
    ensures forall n :: LoadPosition(Serialize(es), n) == None
  {
    var text := Serialize(es);
    assert text == Block(es[0]) + Serialize(es[1..]);
    assert |text| > 0;
    ParseBlockOfBlock(es[0], Serialize(es[1..]));
    if k > 0 && ReadableName(es[0].name) {
      UnreadableFileFails(es[1..], k - 1);
    }
  }

  /** A name that was not saved is not found under its escaped name. */
  lemma LoadEscapedAbsent(es: seq<Entry>, name: string)
    requires forall k :: 0 <= k < |es| ==> es[k].name != name
    ensures LoadPositionEscaped(Serialize(es), name) == None
  {
    if ReadableNames(es) {
      forall k | 0 <= k < |es|
        ensures Escape(es[k].name) != Escape(name)
      {
        EscapeDistinct(es[k].name, name);
      }
      NotAHeader(es, Escape(name));
    } else {
      var k :| 0 <= k < |es| && !ReadableName(es[k].name);
      UnreadableFileFails(es, k);
    }
  }

  /**
   * The lookup by the raw name finds a plain name's own position, provided
   * GKeyFile accepts every saved name as a group name.
   */
  lemma SaveLoadPlain(es: seq<Entry>, k: nat)
    requires DistinctNames(es) && GintPositions(es) && ReadableNames(es) && k < |es| && PlainName(es[k].name)
    ensures LoadPosition(Serialize(es), es[k].name) == Some((es[k].x, es[k].y))
  {
    EscapePlain(es[k].name);
    SaveLoadEscaped(es, k);
  }

  /** The lookup by the raw name never finds a name that holds a line break. */
  lemma LineBreakNameLost(es: seq<Entry>, name: string)
    requires '\n' in name || '\r' in name
    ensures LoadPosition(Serialize(es), name) == None
  {
    if ReadableNames(es) {
      NotAHeader(es, name);
    } else {
      var k :| 0 <= k < |es| && !ReadableName(es[k].name);
      UnreadableFileFails(es, k);
    }
  }

  /**
   * An item `a\b` pinned at (1, 2) is saved under the header `a\\b`: the
   * lookup by its raw name finds nothing, the lookup by its escaped name
   * finds (1, 2).
   */
  lemma BackslashNameLost()
    ensures var text := Serialize([Entry("a\\b", 1, 2)]);
      LoadPosition(text, "a\\b") == None && LoadPositionEscaped(text, "a\\b") == Some((1, 2))
  {
    var es := [Entry("a\\b", 1, 2)];
    assert Escape("a\\b") == "a\\\\b" by {
      assert "a\\b"[1..] == "\\b" && "\\b"[1..] == "b" && "b"[1..] == "";
    }
    assert ReadableNames(es);
    ParseSerialize(es);
    assert Groups(es)[0].header != "a\\b";
    SaveLoadEscaped(es, 0);
  }

  /** Characters a name may hold and still be saved as a readable group name. */
  predicate SavableChar(c: char)
  {
    GroupNameChar(c) || c == '\r' || c == '\n'
  }

  /** One escaped character is made of group-name characters exactly when the character is savable. */
  lemma EscapeCharGroupChars(c: char)
    ensures (forall k :: 0 <= k < |EscapeChar(c)| ==> GroupNameChar(EscapeChar(c)[k])) <==> SavableChar(c)
  {
    var a := EscapeChar(c);
    if c == '\r' {
      assert a == ['\\', 'r'];
    } else if c == '\n' {
      assert a == ['\\', 'n'];
    } else if c == '\\' {
      assert a == ['\\', '\\'];
    } else {
      assert a == [c];
      assert (forall k :: 0 <= k < |a| ==> GroupNameChar(a[k])) <==> GroupNameChar(a[0]);
    }
  }

  /** Escaping yields only group-name characters exactly when every character is savable. */
  lemma {:induction false} EscapeGroupChars(n: string)
    ensures (forall k :: 0 <= k < |Escape(n)| ==> GroupNameChar(Escape(n)[k])) <==>
            (forall k :: 0 <= k < |n| ==> SavableChar(n[k]))
  {
    if |n| > 0 {
      EscapeGroupChars(n[1..]);
      var a := EscapeChar(n[0]);
      var b := Escape(n[1..]);
      assert Escape(n) == a + b;
      EscapeCharGroupChars(n[0]);
      if forall k :: 0 <= k < |a + b| ==> GroupNameChar((a + b)[k]) {
        forall k | 0 <= k < |b| ensures GroupNameChar(b[k]) {
          assert (a + b)[|a| + k] == b[k];
        }
        assert GroupNameChar((a + b)[0]);
      }
      if forall k :: 0 <= k < |n| ==> SavableChar(n[k]) {
        forall k | 0 <= k < |n[1..]| ensures SavableChar(n[1..][k]) {
          assert n[1..][k] == n[k + 1];
        }
      }
      if SavableChar(n[0]) && forall k :: 0 <= k < |n[1..]| ==> SavableChar(n[1..][k]) {
        forall k | 0 <= k < |n| ensures SavableChar(n[k]) {
          if k > 0 { assert n[k] == n[1..][k - 1]; }
        }
      }
    }
  }

  /**
   * A name is readable exactly when it is not empty and every character is
   * savable: `[`, `]` and control characters other than CR and LF make the
   * file unreadable.
   */
  lemma ReadableNameChars(n: string)
    ensures ReadableName(n) <==> |n| > 0 && forall k :: 0 <= k < |n| ==> SavableChar(n[k])
  {
    EscapeGroupChars(n);
    var e := Escape(n);
    assert |e| > 0 <==> |n| > 0;
    assert ValidGroupName(e) <==> |e| > 0 && forall k :: 0 <= k < |e| ==> GroupNameChar(e[k]);
  }

  /**
   * A saved name holding a bracket, such as `photo [1].jpg`, makes the file
   * unreadable: no item is found, under its raw or its escaped name.
   */
  lemma BracketNameLosesAll(es: seq<Entry>, k: nat)
    requires k < |es| && ('[' in es[k].name || ']' in es[k].name)
    ensures forall n :: LoadPosition(Serialize(es), n) == None
  {
    var name := es[k].name;
    ReadableNameChars(name);
    var i :| 0 <= i < |name| && (name[i] == '[' || name[i] == ']');
    assert !SavableChar(name[i]);
    UnreadableFileFails(es, k);
  }

  /** The entries GKeyFile can hold as groups, in order: the rest are not written. */
  function Readable(es: seq<Entry>): (r: seq<Entry>)
    ensures ReadableNames(r) && |r| <= |es|
    ensures forall e :: e in r ==> e in es
    ensures forall e :: e in es && ReadableName(e.name) ==> e in r
  {
    if |es| == 0 then []
    else
      assert es == [es[0]] + es[1..];
      (if ReadableName(es[0].name) then [es[0]] else []) + Readable(es[1..])
  }

  /** The readable entries keep their coordinates in range. */
  lemma ReadableGint(es: seq<Entry>)
    requires GintPositions(es)
    ensures GintPositions(Readable(es))
  {
    var r := Readable(es);
    forall k | 0 <= k < |r| ensures IsGint(r[k].x) && IsGint(r[k].y) {
      assert r[k] in r;
      var m :| 0 <= m < |es| && es[m] == r[k];
    }
  }

  /** Dropping the first entry keeps the names distinct, and none of the rest has its name. */
  lemma TailDistinct(es: seq<Entry>)
    requires DistinctNames(es) && |es| > 0
    ensures DistinctNames(es[1..])
    ensures forall e :: e in es[1..] ==> e.name != es[0].name
  {
    var t := es[1..];
    forall i, j | 0 <= i < j < |t| ensures t[i].name != t[j].name {
      assert t[i] == es[i + 1] && t[j] == es[j + 1];
    }
    forall e | e in t ensures e.name != es[0].name {
      var m :| 0 <= m < |t| && t[m] == e;
      assert t[m] == es[m + 1];
    }
  }

  /** Putting an entry in front of distinct names that differ from its own keeps them distinct. */
  lemma ConsDistinct(e: Entry, rt: seq<Entry>)
    requires DistinctNames(rt) && forall x :: x in rt ==> x.name != e.name
    ensures DistinctNames([e] + rt)
  {
    var r := [e] + rt;
    forall i, j | 0 <= i < j < |r| ensures r[i].name != r[j].name {
      assert r[j] == rt[j - 1];
      if i == 0 {
        assert rt[j - 1] in rt;
      } else {
        assert r[i] == rt[i - 1];
      }
    }
  }

  /** Keeping only the readable entries keeps the names distinct. */
  lemma {:induction false} ReadableDistinct(es: seq<Entry>)
    requires DistinctNames(es)
    ensures DistinctNames(Readable(es))
  {
    if |es| > 0 {
      TailDistinct(es);
      ReadableDistinct(es[1..]);
      var rt := Readable(es[1..]);
      if ReadableName(es[0].name) {
        assert Readable(es) == [es[0]] + rt;
        ConsDistinct(es[0], rt);
      } else {
        assert Readable(es) == rt;
      }
    }
  }

  /**
   * Writing only the names GKeyFile accepts, every readable saved item is
   * found again under its escaped name, whatever the other names are.
   */
  lemma SaveReadableLoads(es: seq<Entry>, k: nat)
    requires DistinctNames(es) && GintPositions(es) && k < |es| && ReadableName(es[k].name)
    ensures ParsePositions(Serialize(Readable(es))).Some?
    ensures LoadPositionEscaped(Serialize(Readable(es)), es[k].name) == Some((es[k].x, es[k].y))
  {
    var r := Readable(es);
    ReadableDistinct(es);
    ReadableGint(es);
    ParseSerialize(r);
    assert es[k] in es;
    var j :| 0 <= j < |r| && r[j] == es[k];
    SaveLoadEscaped(r, j);
  }
}
