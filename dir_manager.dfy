/** `dir_manager.rs`: the directories the application keeps its files in, and
    the search for the Left 4 Dead 2 `addons` directory through Steam's own
    files. The filesystem is two inputs: `present(p)` says whether path `p`
    present, and `read(p)` is the text of file `p` or the error reading it. */
module DirManager {
  import opened Wrappers
  import opened Text
  import opened Paths

  // ---------------------------------------------------------------------
  // with_nmd_data_dir and the manager's fields

  /** The three directories derived from the data directory. */
  datatype Dirs = Dirs(bin: string, downloads: string, maps: string)

  /** `DirManager::with_nmd_data_dir`: creates the data directory, `bin`
      inside it, `cache` inside `bin` and `maps` inside the data directory,
      in that order; the first creation that fails ends it with its message.
      `createDirAll(p)` is the error `create_dir_all(p)` reports, if any. */
  function WithNmdDataDir(data: string, createDirAll: string -> Option<string>): (r: Result<Dirs, string>)
    ensures createDirAll(data).Some? ==> r == Err(CreateFailed("nmd_data", createDirAll(data).value))
    ensures var d := Layout(data);
            createDirAll(data).None? && createDirAll(d.bin).Some? ==> r == Err(CreateFailed("bin", createDirAll(d.bin).value))
    ensures var d := Layout(data);
            createDirAll(data).None? && createDirAll(d.bin).None? && createDirAll(d.downloads).Some? ==>
              r == Err(CreateFailed("bin/cache", createDirAll(d.downloads).value))
    ensures var d := Layout(data);
            (createDirAll(data).None? && createDirAll(d.bin).None? && createDirAll(d.downloads).None?
             && createDirAll(d.maps).Some?) ==> r == Err(CreateFailed("maps", createDirAll(d.maps).value))
    ensures var d := Layout(data);
            r.Ok? <==> createDirAll(data).None? && createDirAll(d.bin).None?
                       && createDirAll(d.downloads).None? && createDirAll(d.maps).None?
    ensures r.Ok? ==> r.value == Layout(data)
  {
    var d := Layout(data);
    if createDirAll(data).Some? then Err(CreateFailed("nmd_data", createDirAll(data).value))
    else if createDirAll(d.bin).Some? then Err(CreateFailed("bin", createDirAll(d.bin).value))
    else if createDirAll(d.downloads).Some? then Err(CreateFailed("bin/cache", createDirAll(d.downloads).value))
    else if createDirAll(d.maps).Some? then Err(CreateFailed("maps", createDirAll(d.maps).value))
    else Ok(d)
  }

  /** `bin`, `bin/cache` and `maps` under the data directory. */
  function Layout(data: string): Dirs {
    var bin := Join(data, "bin");
    Dirs(bin, Join(bin, "cache"), Join(data, "maps"))
  }

  /** The message `with_nmd_data_dir` gives when it cannot create directory `what`. */
  function CreateFailed(what: string, e: string): string {
    "无法创建 " + what + " 目录: " + e
  }

  /** The layout: `bin` and `maps` sit directly in the data directory and
      `cache` directly in `bin`. */
  lemma DataDirLayout(data: string)
    requires data != [] && !IsSeparator(data[|data| - 1])
    ensures var d := Layout(data);
            Parent(d.bin) == Some(data) && FileName(d.bin) == Some("bin")
            && Parent(d.downloads) == Some(d.bin) && FileName(d.downloads) == Some("cache")
            && Parent(d.maps) == Some(data) && FileName(d.maps) == Some("maps")
  {
    JoinName(data, "bin");
    JoinName(data, "maps");
    BinIsPlain(data);
    JoinName(Join(data, "bin"), "cache");
  }

  /** The `bin` directory does not end in a separator. */
  lemma BinIsPlain(data: string)
    ensures var bin := Join(data, "bin");
            bin != [] && bin[|bin| - 1] == 'n'
  {
    var bin := Join(data, "bin");
    assert bin[|bin| - 3..] == "bin";
  }

  lemma JoinName(base: string, name: string)
    requires base != [] && !IsSeparator(base[|base| - 1])
    requires name == "bin" || name == "cache" || name == "maps"
    ensures FileName(Join(base, name)) == Some(name) && Parent(Join(base, name)) == Some(base)
  {
    assert NoSeparator(name);
    JoinThenSplit(base, name);
  }

  /** `DirManager`: the accessors `bin_dir`, `downloads_dir`, `maps_dir` and
      `addons_dir` read these fields. */
  class DirManager {
    var addonsDir: Option<string>
    var downloadsDir: string
    var binDir: string
    var mapsDir: string

    /** `DirManager::new`: every path empty and no addons directory. */
    constructor ()
      ensures addonsDir == None && downloadsDir == [] && binDir == [] && mapsDir == []
    {
      addonsDir := None;
      downloadsDir := [];
      binDir := [];
      mapsDir := [];
    }

    /** The instance `with_nmd_data_dir` returns once its directories exist. */
    constructor FromDirs(d: Dirs)
      ensures addonsDir == None && binDir == d.bin && downloadsDir == d.downloads && mapsDir == d.maps
    {
      addonsDir := None;
      downloadsDir := d.downloads;
      binDir := d.bin;
      mapsDir := d.maps;
    }

    /** `set_addons_dir` */
    method SetAddonsDir(dir: string)
      modifies this`addonsDir
      ensures addonsDir == Some(dir)
    {
      addonsDir := Some(dir);
    }
  }

  // ---------------------------------------------------------------------
  // parse_library_folders

  /** The message for a Steam file `name` that is not at `path`. */
  function MissingFile(name: string, path: string): string {
    name + " 文件不存在:\n" + path
  }

  /** The message for a Steam file `name` that could not be read. */
  function UnreadableFile(name: string, e: string): string {
    "无法读取 " + name + " 文件:\n" + e
  }

  const PathKey: string := "\"path\""

  predicate NoQuote(s: string) {
    forall k :: 0 <= k < |s| ==> s[k] != '"'
  }

  /** The text between the first two `"` of `s`, if it has two. */
  function FirstQuoted(s: string): (r: Option<string>)
    ensures r.Some? ==> NoQuote(r.value)
  {
    match PositionOf(s, '"')
    case None => None
    case Some(a) =>
      match PositionOf(s[a + 1..], '"')
      case None => None
      case Some(b) => Some(s[a + 1..][..b])
  }

  /** Whatever stands before the first quote, the first quoted text is found. */
  lemma FirstQuotedOfQuoted(pre: string, v: string)
    requires NoQuote(pre) && NoQuote(v)
    ensures FirstQuoted(pre + ("\"" + (v + "\""))) == Some(v)
  {
    var s := pre + ("\"" + (v + "\""));
    assert s == pre + ['"'] + (v + "\"");
    PositionOfAfter(pre, '"', v + "\"");
    assert s[|pre| + 1..] == v + ['"'] + [];
    PositionOfAfter(v, '"', []);
  }

  /** `"\\\\"` collapsed to `"\\"`, as line 218 does to each value. */
  function CollapseBackslashes(s: string): string {
    ReplaceAll(s, "\\\\", "\\")
  }

  /** The escaping the vdf format applies to a path: every `\` doubled. */
  function EscapeBackslashes(s: string): (r: string)
    ensures NoQuote(s) ==> NoQuote(r)
  {
    if s == [] then []
    else (if s[0] == '\\' then "\\\\" else [s[0]]) + EscapeBackslashes(s[1..])
  }

  /** Collapsing undoes the vdf escaping: the path Steam wrote comes back. */
  lemma {:induction false} CollapseEscaped(s: string)
    ensures CollapseBackslashes(EscapeBackslashes(s)) == s
    decreases |s|
  {
    if s != [] {
      var e := EscapeBackslashes(s);
      var rest := EscapeBackslashes(s[1..]);
      CollapseEscaped(s[1..]);
      if s[0] == '\\' {
        assert e == "\\\\" + rest;
        assert e[..2] == "\\\\" && e[2..] == rest;
        assert s == "\\" + s[1..];
      } else {
        assert e == [s[0]] + rest;
        assert e[1..] == rest;
        if |e| >= 2 {
          assert e[..2][0] == s[0];
        }
        assert s == [s[0]] + s[1..];
      }
    }
  }

  /** What one line of `libraryfolders.vdf` contributes: for a trimmed line
      that starts with `"` and contains `"path"`, the text between the first
      two quotes after that key, with doubled backslashes collapsed. */
  function LibraryPathOfLine(line: string): Option<string> {
    var t := Trim(line);
    if StartsWith(t, "\"") && Contains(t, PathKey) then
      var start := IndexOf(t, PathKey).value;
      match FirstQuoted(t[start + 6..])
      case None => None
      case Some(v) => Some(CollapseBackslashes(v))
    else None
  }

  /** The vdf line `<indent>"path"<gap>"<escaped path>"`. */
  function VdfPathLine(indent: string, gap: string, path: string): string {
    indent + (PathKey + (gap + ("\"" + (EscapeBackslashes(path) + "\""))))
  }

  /** A vdf path line gives the path back. */
  lemma LibraryPathOfVdfLine(indent: string, gap: string, path: string)
    requires AllWhiteSpace(indent) && NoQuote(gap) && NoQuote(path)
    ensures LibraryPathOfLine(VdfPathLine(indent, gap, path)) == Some(path)
  {
    var e := EscapeBackslashes(path);
    var rest := gap + ("\"" + (e + "\""));
    TrimOfKeyLine(indent, rest);
    PathAfterKey(VdfPathLine(indent, gap, path), rest);
    FirstQuotedOfQuoted(gap, e);
    CollapseEscaped(path);
  }

  /** Indentation in front of the key is trimmed away. */
  lemma TrimOfKeyLine(indent: string, rest: string)
    requires AllWhiteSpace(indent) && rest != [] && rest[|rest| - 1] == '"'
    ensures Trim(indent + (PathKey + rest)) == PathKey + rest
  {
    var core := PathKey + rest;
    assert core[0] == '"' && core[|core| - 1] == '"';
    TrimOfPadded(indent, core);
  }

  /** A line that trims to the key and a rest reads the first quoted text
      of the rest. */
  lemma PathAfterKey(line: string, rest: string)
    requires Trim(line) == PathKey + rest
    ensures LibraryPathOfLine(line) == match FirstQuoted(rest)
                                       case None => None
                                       case Some(v) => Some(CollapseBackslashes(v))
  {
    var core := PathKey + rest;
    assert StartsWith(core, "\"");
    IndexOfAtFront(PathKey, rest);
    assert core[6..] == rest;
  }

  /** The present values, in order. */
  function Somes<T>(vals: seq<Option<T>>): seq<T> {
    if vals == [] then []
    else
      var init := Somes(vals[..|vals| - 1]);
      match vals[|vals| - 1]
      case None => init
      case Some(v) => init + [v]
  }

  /** At most one value per entry, and each value is some entry's. */
  lemma {:induction false} SomesFrom<T>(vals: seq<Option<T>>)
    ensures var r := Somes(vals);
            |r| <= |vals| && forall k :: 0 <= k < |r| ==> exists j :: 0 <= j < |vals| && vals[j] == Some(r[k])
    decreases |vals|
  {
    if vals != [] {
      var init := vals[..|vals| - 1];
      SomesFrom(init);
      assert forall j :: 0 <= j < |init| ==> init[j] == vals[j];
    }
  }

  /** Two stretches contribute in the same order. */
  lemma {:induction false} SomesAppend<T>(a: seq<Option<T>>, b: seq<Option<T>>)
    ensures Somes(a + b) == Somes(a) + Somes(b)
    decreases |b|
  {
    if b == [] {
      assert a + b == a;
    } else {
      var b' := b[..|b| - 1];
      assert (a + b)[..|a + b| - 1] == a + b';
      assert (a + b)[|a + b| - 1] == b[|b| - 1];
      SomesAppend(a, b');
    }
  }

  /** One more entry adds its value, if it has one. */
  lemma SomesStep<T>(vals: seq<Option<T>>, i: nat)
    requires i < |vals|
    ensures Somes(vals[..i + 1]) == Somes(vals[..i]) + (if vals[i].Some? then [vals[i].value] else [])
  {
    assert vals[..i + 1][..i] == vals[..i];
  }

  /** What a parser makes of each item, in order. */
  function OptionsOf<T>(parse: string -> Option<T>, items: seq<string>): (r: seq<Option<T>>)
    ensures |r| == |items| && forall i :: 0 <= i < |items| ==> r[i] == parse(items[i])
  {
    if items == [] then [] else [parse(items[0])] + OptionsOf(parse, items[1..])
  }

  /** The paths a sequence of lines of `libraryfolders.vdf` contributes, in
      line order. */
  function LibraryPaths(lines: seq<string>): seq<string> {
    Somes(OptionsOf(LibraryPathOfLine, lines))
  }

  /** At most one path per line, and each path is what some line gives. */
  lemma LibraryPathsFromLines(lines: seq<string>)
    ensures var r := LibraryPaths(lines);
            |r| <= |lines|
            && forall k :: 0 <= k < |r| ==> exists j :: 0 <= j < |lines| && LibraryPathOfLine(lines[j]) == Some(r[k])
  {
    SomesFrom(OptionsOf(LibraryPathOfLine, lines));
  }

  /** The contributions of two stretches of lines come in the same order. */
  lemma LibraryPathsAppend(a: seq<string>, b: seq<string>)
    ensures LibraryPaths(a + b) == LibraryPaths(a) + LibraryPaths(b)
  {
    assert OptionsOf(LibraryPathOfLine, a + b) == OptionsOf(LibraryPathOfLine, a) + OptionsOf(LibraryPathOfLine, b);
    SomesAppend(OptionsOf(LibraryPathOfLine, a), OptionsOf(LibraryPathOfLine, b));
  }

  function VdfPath(steamPath: string): string {
    Join(Join(steamPath, "steamapps"), "libraryfolders.vdf")
  }

  /** `parse_library_folders`: the Steam directory itself, then every path the
      lines of `steamapps/libraryfolders.vdf` contribute. */
  method ParseLibraryFolders(steamPath: string, present: string -> bool, read: string -> Result<string, string>)
    returns (r: Result<seq<string>, string>)
    ensures !present(VdfPath(steamPath)) ==> r == Err(MissingFile("libraryfolders.vdf", VdfPath(steamPath)))
    ensures present(VdfPath(steamPath)) && read(VdfPath(steamPath)).Err? ==>
              r == Err(UnreadableFile("libraryfolders.vdf", read(VdfPath(steamPath)).error))
    ensures present(VdfPath(steamPath)) && read(VdfPath(steamPath)).Ok? ==>
              r == Ok([steamPath] + LibraryPaths(Lines(read(VdfPath(steamPath)).value)))
  {
    var vdf := VdfPath(steamPath);
    if !present(vdf) {
      return Err(MissingFile("libraryfolders.vdf", vdf));
    }
    var content := read(vdf);
    if content.Err? {
      return Err(UnreadableFile("libraryfolders.vdf", content.error));
    }
    var paths := CollectLibraryPaths(steamPath, Lines(content.value));
    return Ok(paths);
  }

  /** The loop of `parse_library_folders` over the lines of the file. */
  method CollectLibraryPaths(steamPath: string, lines: seq<string>) returns (paths: seq<string>)
    ensures paths == [steamPath] + LibraryPaths(lines)
  {
    paths := CollectSomes([steamPath], lines, LibraryPathOfLine);
  }

  /** The loop itself: starting from `init`, push every value `parse` finds
      in a line, in line order. */
  method CollectSomes<T>(init: seq<T>, lines: seq<string>, parse: string -> Option<T>) returns (r: seq<T>)
    ensures r == init + Somes(OptionsOf(parse, lines))
  {
    ghost var vals := OptionsOf(parse, lines);
    r := init;
    for i := 0 to |lines|
      invariant r == init + Somes(vals[..i])
    {
      var p := parse(lines[i]);
      SomesStep(vals, i);
      if p.Some? {
        r := r + [p.value];
      }
    }
    assert vals[..|lines|] == vals;
  }

  // ---------------------------------------------------------------------
  // parse_appmanifest

  const InstallDirKey: string := "installdir\""

  /** `installdir"\s+"([^"]+)` matches at `k`: the key, a non-empty run of
      white space, a quote and a character other than a quote. */
  predicate InstallDirAt(s: string, k: nat) {
    OccursAt(s, InstallDirKey, k)
    && var j := k + |InstallDirKey|;
       var w := LeadingWhiteSpace(s[j..]);
       w >= 1 && j + w + 1 < |s| && s[j + w] == '"' && s[j + w + 1] != '"'
  }

  /** Length of the run of characters other than `"` at the front of `s`. */
  function QuoteFreeRun(s: string): (n: nat)
    ensures n <= |s| && NoQuote(s[..n])
    ensures n < |s| ==> s[n] == '"'
  {
    match PositionOf(s, '"')
    case None => |s|
    case Some(i) => i
  }

  /** The capture of the match at `k`: the whole run of non-quotes. */
  function InstallDirCaptureAt(s: string, k: nat): (r: string)
    requires InstallDirAt(s, k)
    ensures r != [] && NoQuote(r)
  {
    var j := k + |InstallDirKey|;
    var v := j + LeadingWhiteSpace(s[j..]) + 1;
    s[v..v + QuoteFreeRun(s[v..])]
  }

  /** The leftmost match at or after `from`, and its capture. */
  function InstallDirFrom(s: string, from: nat): (r: Option<string>)
    ensures r.None? <==> forall k :: from <= k ==> !InstallDirAt(s, k)
    ensures r.Some? ==> exists k :: from <= k && InstallDirAt(s, k) && r.value == InstallDirCaptureAt(s, k)
                                     && forall k' :: from <= k' < k ==> !InstallDirAt(s, k')
    decreases |s| - from
  {
    if from + |InstallDirKey| > |s| then None
    else if InstallDirAt(s, from) then Some(InstallDirCaptureAt(s, from))
    else InstallDirFrom(s, from + 1)
  }

  /** The fallback's reading of one line: a line whose lower-cased text
      contains `installdir` gives its `'"'`-separated field `field`, trimmed,
      when that field exists and is not blank. */
  function FieldValue(line: string, field: nat): Option<string> {
    if Contains(ToLowerAscii(line), "installdir") then
      var parts := Split(line, '"');
      if |parts| > field && Trim(parts[field]) != [] then Some(Trim(parts[field])) else None
    else None
  }

  /** A line yields a value exactly when its lower-cased text contains
      `installdir` and its field `field` exists and is not blank; the value
      is that field, trimmed. */
  lemma FieldValueSpec(line: string, field: nat)
    ensures FieldValue(line, field).Some? <==>
              Contains(ToLowerAscii(line), "installdir") && |Split(line, '"')| > field
              && Trim(Split(line, '"')[field]) != []
    ensures FieldValue(line, field).Some? ==> FieldValue(line, field).value == Trim(Split(line, '"')[field])
  {
  }

  /** The index of the first present value at or after `from`. */
  function FirstSomeFrom<T>(vals: seq<Option<T>>, from: nat): (r: Option<nat>)
    ensures r.Some? ==> from <= r.value < |vals| && vals[r.value].Some?
    ensures r.Some? ==> forall j :: from <= j < r.value ==> vals[j].None?
    ensures r.None? ==> forall j :: from <= j < |vals| ==> vals[j].None?
    decreases |vals| - from
  {
    if from >= |vals| then None
    else if vals[from].Some? then Some(from)
    else FirstSomeFrom(vals, from + 1)
  }

  /** What each line yields to the fallback. */
  function FieldValues(lines: seq<string>, field: nat): (r: seq<Option<string>>)
    ensures |r| == |lines| && forall i :: 0 <= i < |lines| ==> r[i] == FieldValue(lines[i], field)
  {
    OptionsOf(line => FieldValue(line, field), lines)
  }

  /** The fallback: the value of the first line that yields one. */
  function FirstFieldValue(lines: seq<string>, field: nat): Option<string> {
    var vals := FieldValues(lines, field);
    match FirstSomeFrom(vals, 0)
    case None => None
    case Some(i) => vals[i]
  }

  const AsWrittenField: nat := 2
  const ValueField: nat := 3

  const InstallDirNotFound: string := "在 appmanifest 文件中未找到 installdir 值"

  /** `parse_appmanifest` reading field `field` in its fallback: the leftmost
      regular-expression match wins; then the fallback; else an error. */
  function Appmanifest(path: string, present: string -> bool, read: string -> Result<string, string>, field: nat)
    : (r: Result<string, string>)
    ensures !present(path) ==> r == Err(MissingFile("appmanifest", path))
    ensures present(path) && read(path).Err? ==> r == Err(UnreadableFile("appmanifest", read(path).error))
    ensures r.Ok? ==> present(path) && read(path).Ok? && r.value != []
    ensures present(path) && read(path).Ok? && InstallDirFrom(read(path).value, 0).Some? ==>
              r == Ok(InstallDirFrom(read(path).value, 0).value)
    ensures present(path) && read(path).Ok? && InstallDirFrom(read(path).value, 0).None? ==>
              r == (match FirstFieldValue(Lines(read(path).value), field)
                    case Some(v) => Ok(v)
                    case None => Err(InstallDirNotFound))
  {
    if !present(path) then Err(MissingFile("appmanifest", path))
    else match read(path)
      case Err(e) => Err(UnreadableFile("appmanifest", e))
      case Ok(content) =>
        match InstallDirFrom(content, 0)
        case Some(v) => Ok(v)
        case None =>
          match FirstFieldValue(Lines(content), field)
          case Some(v) => Ok(v)
          case None => Err(InstallDirNotFound)
  }

  /** `parse_appmanifest` as written: the fallback reads field 2, the gap
      between the key's closing quote and the value's opening quote. */
  function AppmanifestAsWritten(path: string, present: string -> bool, read: string -> Result<string, string>)
    : (r: Result<string, string>)
    ensures present(path) && read(path).Ok? && InstallDirFrom(read(path).value, 0).None? ==>
              r == (match FirstFieldValue(Lines(read(path).value), AsWrittenField)
                    case Some(gap) => Ok(gap)
                    case None => Err(InstallDirNotFound))
    ensures !(present(path) && read(path).Ok? && InstallDirFrom(read(path).value, 0).None?) ==>
              r == Appmanifest(path, present, read, ValueField)
  {
    Appmanifest(path, present, read, AsWrittenField)
  }

  /** The line `"<key>"<gap>"<value>"`. */
  function KeyValueLine(key: string, gap: string, value: string): string {
    "\"" + (key + ("\"" + (gap + ("\"" + (value + "\"")))))
  }

  lemma SplitAtQuote(a: string, rest: string, parts: seq<string>)
    requires NoQuote(a) && Split(rest, '"') == parts
    ensures Split(a + ("\"" + rest), '"') == [a] + parts
  {
    assert a + ("\"" + rest) == a + "\"" + rest;
    SplitAfter(a, '"', rest);
  }

  lemma SplitLeadingQuote(rest: string, parts: seq<string>)
    requires Split(rest, '"') == parts
    ensures Split("\"" + rest, '"') == [""] + parts
  {
    assert "\"" + rest == [] + "\"" + rest;
    SplitAfter([], '"', rest);
  }

  lemma SplitTrailingQuote(value: string)
    requires NoQuote(value)
    ensures Split(value + "\"", '"') == [value, ""]
  {
    assert value + "\"" == value + "\"" + [];
    SplitAfter(value, '"', []);
  }

  /** A key-value line splits at its four quotes: field 2 is the gap between
      key and value, field 3 the value. */
  lemma SplitKeyValueLine(key: string, gap: string, value: string)
    requires NoQuote(key) && NoQuote(gap) && NoQuote(value)
    ensures var parts := Split(KeyValueLine(key, gap, value), '"');
            |parts| == 5 && parts[2] == gap && parts[3] == value
  {
    var parts := [""] + ([key] + ([gap] + [value, ""]));
    assert Split(KeyValueLine(key, gap, value), '"') == parts by {
      SplitAfterKey(key, gap, value);
      SplitLeadingQuote(key + ("\"" + (gap + ("\"" + (value + "\"")))), [key] + ([gap] + [value, ""]));
    }
    assert |parts| == 5 && parts[2] == gap && parts[3] == value;
  }

  /** The line without its opening quote: key, gap, value, and nothing
      after the closing quote. */
  lemma SplitAfterKey(key: string, gap: string, value: string)
    requires NoQuote(key) && NoQuote(gap) && NoQuote(value)
    ensures Split(key + ("\"" + (gap + ("\"" + (value + "\"")))), '"') == [key] + ([gap] + [value, ""])
  {
    SplitGapAndValue(gap, value);
    SplitAtQuote(key, gap + ("\"" + (value + "\"")), [gap] + [value, ""]);
  }

  /** The part after the key: the gap, the value, and nothing after the
      closing quote. */
  lemma SplitGapAndValue(gap: string, value: string)
    requires NoQuote(gap) && NoQuote(value)
    ensures Split(gap + ("\"" + (value + "\"")), '"') == [gap] + [value, ""]
  {
    SplitTrailingQuote(value);
    SplitAtQuote(gap, value + "\"", [value, ""]);
  }

  /** A key spelt in any case with a blank gap before its value: the
      fallback as written skips the line, while field 3 gives the value. */
  lemma FallbackReadsGap(key: string, gap: string, value: string)
    requires ToLowerAscii(key) == "installdir" && NoQuote(key)
    requires AllWhiteSpace(gap) && NoQuote(gap) && NoQuote(value) && Trim(value) != []
    ensures FieldValue(KeyValueLine(key, gap, value), AsWrittenField) == None
    ensures FieldValue(KeyValueLine(key, gap, value), ValueField) == Some(Trim(value))
  {
    SplitKeyValueLine(key, gap, value);
    KeyLineMentionsKey(key, gap, value);
    assert TrimStart(gap) == [] by {
      assert LeadingWhiteSpace(gap) == |gap|;
    }
  }

  /** A key that lower-cases to `installdir` puts `installdir` in the
      lower-cased line. */
  lemma KeyLineMentionsKey(key: string, gap: string, value: string)
    requires ToLowerAscii(key) == "installdir"
    ensures Contains(ToLowerAscii(KeyValueLine(key, gap, value)), "installdir")
  {
    var line := KeyValueLine(key, gap, value);
    var lower := ToLowerAscii(line);
    assert forall k :: 0 <= k < |key| ==> line[1 + k] == key[k];
    assert lower[1..11] == ToLowerAscii(key);
    assert OccursAt(lower, "installdir", 1);
    assert IndexOf(lower, "installdir").Some?;
  }

  /** A character that none of the three parts holds is not in the line. */
  lemma KeyValueLineLacks(c: char, key: string, gap: string, value: string)
    requires c != '"'
    requires forall k :: 0 <= k < |key| ==> key[k] != c
    requires forall k :: 0 <= k < |gap| ==> gap[k] != c
    requires forall k :: 0 <= k < |value| ==> value[k] != c
    ensures var line := KeyValueLine(key, gap, value);
            forall k :: 0 <= k < |line| ==> line[k] != c
  {
  }

  /** Without a lower-case `i` there is no match. */
  lemma NoMatchWithoutI(s: string)
    requires forall k :: 0 <= k < |s| ==> s[k] != 'i'
    ensures InstallDirFrom(s, 0) == None
  {
    forall k | 0 <= k ensures !InstallDirAt(s, k) {
      if k + |InstallDirKey| <= |s| {
        assert s[k..k + |InstallDirKey|][0] == s[k] != InstallDirKey[0];
      }
    }
  }

  lemma LowerOfCapitalKey()
    ensures ToLowerAscii("INSTALLDIR") == "installdir"
  {
    ToLowerAsciiOfEach("INSTALLDIR", "installdir");
  }

  /** The manifest `"INSTALLDIR" "L4D2"` is one line without a lower-case `i`. */
  lemma CapitalKeyNoMatch()
    ensures var line := KeyValueLine("INSTALLDIR", " ", "L4D2");
            InstallDirFrom(line, 0) == None && Lines(line) == [line]
  {
    var line := KeyValueLine("INSTALLDIR", " ", "L4D2");
    assert InstallDirFrom(line, 0) == None by {
      CapitalKeyLineLacks('i');
      NoMatchWithoutI(line);
    }
    assert Lines(line) == [line] by {
      CapitalKeyLineLacks('\n');
      LinesOfOneLine(line);
    }
  }

  /** Neither a lower-case `i` nor a line break occurs in `"INSTALLDIR" "L4D2"`. */
  lemma CapitalKeyLineLacks(c: char)
    requires c == 'i' || c == '\n'
    ensures var line := KeyValueLine("INSTALLDIR", " ", "L4D2");
            forall k :: 0 <= k < |line| ==> line[k] != c
  {
    KeyValueLineLacks(c, "INSTALLDIR", " ", "L4D2");
  }

  /** The fallback on the line `"INSTALLDIR" "L4D2"`, field by field. */
  lemma CapitalKeyFields()
    ensures var line := KeyValueLine("INSTALLDIR", " ", "L4D2");
            FieldValue(line, AsWrittenField) == None && FieldValue(line, ValueField) == Some("L4D2")
  {
    LowerOfCapitalKey();
    PartsOfCapitalKeyLine();
    FallbackReadsGap("INSTALLDIR", " ", "L4D2");
  }

  /** The three parts of the line `"INSTALLDIR" "L4D2"` meet the
      requirements of `FallbackReadsGap`. */
  lemma PartsOfCapitalKeyLine()
    ensures NoQuote("INSTALLDIR") && NoQuote(" ") && NoQuote("L4D2")
    ensures AllWhiteSpace(" ") && Trim("L4D2") == "L4D2"
  {
    TrimUntouched("L4D2");
  }

  /** The manifest `"INSTALLDIR" "L4D2"`: the regular expression is case
      sensitive and finds nothing, and the fallback as written reads the
      single space between the quotes and gives up; field 3 gives `L4D2`. */
  lemma AsWrittenMissesCapitalisedKey(path: string, present: string -> bool, read: string -> Result<string, string>)
    requires present(path) && read(path) == Ok(KeyValueLine("INSTALLDIR", " ", "L4D2"))
    ensures AppmanifestAsWritten(path, present, read) == Err(InstallDirNotFound)
    ensures Appmanifest(path, present, read, ValueField) == Ok("L4D2")
  {
    CapitalKeyNoMatch();
    CapitalKeyFields();
  }

  /** `parse_appmanifest` with the fallback reading the value field: the
      leftmost match of the regular expression, else the first line the
      fallback accepts, else an error. */
  method ParseAppmanifest(path: string, present: string -> bool, read: string -> Result<string, string>)
    returns (r: Result<string, string>)
    ensures r == Appmanifest(path, present, read, ValueField)
  {
    if !present(path) {
      return Err(MissingFile("appmanifest", path));
    }
    var content := read(path);
    if content.Err? {
      return Err(UnreadableFile("appmanifest", content.error));
    }
    var captured := InstallDirFrom(content.value, 0);
    if captured.Some? {
      return Ok(captured.value);
    }
    var lines := Lines(content.value);
    ghost var vals := FieldValues(lines, ValueField);
    for i := 0 to |lines|
      invariant FirstSomeFrom(vals, 0) == FirstSomeFrom(vals, i)
    {
      var v := FieldValue(lines[i], ValueField);
      if v.Some? {
        return Ok(v.value);
      }
    }
    return Err(InstallDirNotFound);
  }

  // ---------------------------------------------------------------------
  // get_l4d2_addons_dir

  /** Steam's id for Left 4 Dead 2. */
  const L4d2AppId: string := "550"

  function ManifestPath(library: string): string {
    Join(Join(library, "steamapps"), "appmanifest_" + L4d2AppId + ".acf")
  }

  function AddonsPath(library: string, installDir: string): string {
    Join(Join(Join(Join(Join(library, "steamapps"), "common"), installDir), "left4dead2"), "addons")
  }

  /** What one library yields: its addons directory, when the manifest
      exists and parses and the directory exists. */
  function Candidate(library: string, present: string -> bool, read: string -> Result<string, string>)
    : Option<string>
  {
    var manifest := ManifestPath(library);
    if present(manifest) then
      match Appmanifest(manifest, present, read, ValueField)
      case Ok(dir) => if present(AddonsPath(library, dir)) then Some(AddonsPath(library, dir)) else None
      case Err(_) => None
    else None
  }

  /** A library yields a directory exactly when its manifest exists and
      parses and the addons directory under the install directory exists. */
  lemma CandidateSpec(library: string, present: string -> bool, read: string -> Result<string, string>)
    ensures var m := Appmanifest(ManifestPath(library), present, read, ValueField);
            Candidate(library, present, read).Some? <==>
              present(ManifestPath(library)) && m.Ok? && present(AddonsPath(library, m.value))
    ensures var m := Appmanifest(ManifestPath(library), present, read, ValueField);
            Candidate(library, present, read).Some? ==> Candidate(library, present, read).value == AddonsPath(library, m.value)
  {
  }

  /** What each library yields. */
  function Candidates(libraries: seq<string>, present: string -> bool, read: string -> Result<string, string>)
    : (r: seq<Option<string>>)
    ensures |r| == |libraries| && forall i :: 0 <= i < |libraries| ==> r[i] == Candidate(libraries[i], present, read)
  {
    OptionsOf(library => Candidate(library, present, read), libraries)
  }

  /** The directory of the first library, in order, that yields one. */
  function FirstCandidate(libraries: seq<string>, present: string -> bool, read: string -> Result<string, string>)
    : Option<string>
  {
    var vals := Candidates(libraries, present, read);
    match FirstSomeFrom(vals, 0)
    case None => None
    case Some(i) => vals[i]
  }

  const AddonsNotFound: string :=
    "未找到 Left 4 Dead 2 游戏目录，请确认你已经在 Steam 中安装了 Left 4 Dead 2 游戏"

  /** One pass of the search loop of `get_l4d2_addons_dir`: the manifest,
      its install directory, and the addons directory under it. */
  method TryLibrary(library: string, present: string -> bool, read: string -> Result<string, string>)
    returns (r: Option<string>)
    ensures r == Candidate(library, present, read)
  {
    var manifest := ManifestPath(library);
    if !present(manifest) {
      return None;
    }
    var installDir := ParseAppmanifest(manifest, present, read);
    if installDir.Err? {
      return None;
    }
    var addons := AddonsPath(library, installDir.value);
    if !present(addons) {
      return None;
    }
    return Some(addons);
  }

  /** The search loop of `get_l4d2_addons_dir`: libraries in order; a
      library whose manifest is missing or does not parse, or whose addons
      directory is missing, is passed over. */
  method FindAddonsDir(libraries: seq<string>, present: string -> bool, read: string -> Result<string, string>)
    returns (r: Result<string, string>)
    ensures r.Ok? <==> FirstCandidate(libraries, present, read).Some?
    ensures r.Ok? ==> Some(r.value) == FirstCandidate(libraries, present, read)
    ensures r.Err? ==> r.error == AddonsNotFound
  {
    ghost var vals := Candidates(libraries, present, read);
    for i := 0 to |libraries|
      invariant FirstSomeFrom(vals, 0) == FirstSomeFrom(vals, i)
    {
      var candidate := TryLibrary(libraries[i], present, read);
      if candidate.Some? {
        return Ok(candidate.value);
      }
    }
    return Err(AddonsNotFound);
  }

  /** `get_l4d2_addons_dir`: the Steam directory from the registry (an
      input), its library list, then the search; the main Steam library is
      tried first. */
  method GetL4d2AddonsDir(steamPath: Result<string, string>, present: string -> bool,
                          read: string -> Result<string, string>)
    returns (r: Result<string, string>)
    ensures steamPath.Err? ==> r == steamPath
    ensures steamPath.Ok? && !present(VdfPath(steamPath.value)) ==>
              r == Err(MissingFile("libraryfolders.vdf", VdfPath(steamPath.value)))
    ensures steamPath.Ok? && present(VdfPath(steamPath.value)) && read(VdfPath(steamPath.value)).Err? ==>
              r == Err(UnreadableFile("libraryfolders.vdf", read(VdfPath(steamPath.value)).error))
    ensures steamPath.Ok? && present(VdfPath(steamPath.value)) && read(VdfPath(steamPath.value)).Ok? ==>
              var found := FirstCandidate([steamPath.value] + LibraryPaths(Lines(read(VdfPath(steamPath.value)).value)), present, read);
              r == if found.Some? then Ok(found.value) else Err(AddonsNotFound)
    ensures steamPath.Ok? && Candidate(steamPath.value, present, read).Some?
            && present(VdfPath(steamPath.value)) && read(VdfPath(steamPath.value)).Ok? ==>
              r == Ok(Candidate(steamPath.value, present, read).value)
  {
    if steamPath.Err? {
      return steamPath;
    }
    var libraries := ParseLibraryFolders(steamPath.value, present, read);
    if libraries.Err? {
      return Err(libraries.error);
    }
    r := FindAddonsDir(libraries.value, present, read);
  }
}
