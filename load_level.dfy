/**
 * Loading a level by name: a builtin is returned at once; any other name
 * is turned into a file path under the data directory, which is logged,
 * and the load fails without reading the file.
 */
module LoadLevels {
  import opened Base
  import BuiltinLevels

  /** A path as its sequence of components, without separators. */
  type Path = seq<string>

  /** The error `load_level` reports for a name that is not a builtin. */
  datatype LoadError = UnknownLevel(name: string)

  /** The index of the last `.` in a text, if there is one. */
  function LastDot(s: string): (r: Option<nat>)
    ensures r.Some? ==> r.value < |s| && s[r.value] == '.'
    ensures r.Some? ==> forall j :: r.value < j < |s| ==> s[j] != '.'
    ensures r.None? <==> forall j :: 0 <= j < |s| ==> s[j] != '.'
  {
    if |s| == 0 then None
    else if s[|s| - 1] == '.' then Some(|s| - 1)
    else
      var r := LastDot(s[..|s| - 1]);
      assert forall j :: 0 <= j < |s| - 1 ==> s[..|s| - 1][j] == s[j];
      r
  }

  /**
   * `Path::file_stem`: the file name up to its last dot, unless that dot
   * opens the name (a hidden file), in which case the whole name.
   */
  function FileStem(name: string): string {
    match LastDot(name)
    case Some(i) => if i > 0 then name[..i] else name
    case None => name
  }

  /** `PathBuf::push` of a relative component; pushing the empty text only adds a trailing separator. */
  function Push(path: Path, component: string): (r: Path)
    ensures component == "" ==> r == path
    ensures component != "" ==> r == path + [component]
  {
    if component == "" then path else path + [component]
  }

  /** Every component after index `i` is `.`. */
  predicate OnlyCurrentDirAfter(path: Path, i: nat) {
    forall j :: i < j < |path| ==> path[j] == "."
  }

  /**
   * `Path::file_name`, as the index of its component.  `components()` skips
   * every `.` that is not the first component, so the name is the last other
   * component, unless that is `..` or there is none.
   */
  function FileName(path: Path): (r: Option<nat>)
    ensures r.Some? ==> r.value < |path| && path[r.value] != "." && path[r.value] != ".."
    ensures r.Some? ==> OnlyCurrentDirAfter(path, r.value)
    ensures r.None? ==> forall j :: 0 <= j < |path| && OnlyCurrentDirAfter(path, j) ==> path[j] == "." || path[j] == ".."
  {
    if |path| == 0 then None
    else if path[|path| - 1] == "." then
      var r := FileName(path[..|path| - 1]);
      assert forall j :: 0 <= j < |path| - 1 ==> path[..|path| - 1][j] == path[j];
      r
    else if path[|path| - 1] == ".." then None
    else Some(|path| - 1)
  }

  /**
   * `PathBuf::set_extension`: the path is cut just after the stem of its file
   * name, so trailing `.` components go too, and `.` and the extension are
   * appended.  A path with no file name (empty, only `.`, or ending in `..`)
   * is left as it is.
   */
  function SetExtension(path: Path, extension: string): (r: Path)
    ensures FileName(path).None? ==> r == path
    ensures FileName(path).Some? ==> |r| == FileName(path).value + 1
    ensures |r| <= |path|
    ensures |r| > 0 ==> r[..|r| - 1] == path[..|r| - 1]
    ensures FileName(path).Some? ==> r[|r| - 1] == FileStem(path[|r| - 1]) + "." + extension
  {
    match FileName(path)
    case None => path
    case Some(i) => path[..i] + [FileStem(path[i]) + "." + extension]
  }

  /** The file a non-builtin level would be read from: `base/level/name`, extension `toml`. */
  function LevelPath(baseDir: Path, name: string): Path {
    SetExtension(Push(Push(baseDir, "level"), name), "toml")
  }

  /**
   * `App::load_level`.  `logged` is the path written to the error stream, if
   * any.  The path is built one step at a time as in the source.
   */
  method LoadLevel(baseDir: Path, name: string) returns (r: Result<BuiltinLevels.Level, LoadError>, logged: Option<Path>)
    ensures r.Ok? <==> name in BuiltinLevels.NAMES
    ensures r.Ok? ==> BuiltinLevels.LoadBuiltin(name) == Some(r.value)
    ensures r.Err? ==> r.error == UnknownLevel(name)
    ensures logged.Some? <==> r.Err?
    ensures logged.Some? ==> logged.value == LevelPath(baseDir, name)
  {
    var builtin := BuiltinLevels.LoadBuiltin(name);
    if builtin.Some? {
      return Ok(builtin.value), None;
    }
    var path := baseDir;
    path := Push(path, "level");
    path := Push(path, name);
    path := SetExtension(path, "toml");
    return Err(UnknownLevel(name)), Some(path);
  }

  /** A plain name, with no dot, becomes `base/level/name.toml`. */
  lemma LevelPathOfPlainName(baseDir: Path, name: string)
    requires name != "" && '.' !in name
    ensures LevelPath(baseDir, name) == baseDir + ["level", name + ".toml"]
  {
    var p := Push(Push(baseDir, "level"), name);
    assert p == baseDir + ["level", name];
    assert p[..|p| - 1] == baseDir + ["level"];
    assert forall j :: 0 <= j < |name| ==> name[j] != '.' by {
      forall j | 0 <= j < |name| ensures name[j] != '.' {
        assert name[j] in name;
      }
    }
    assert name != ".." by {
      assert ".."[0] == '.';
    }
    assert LevelPath(baseDir, name) == p[..|p| - 1] + [FileStem(name) + "." + "toml"];
    assert FileStem(name) + "." + "toml" == name + ".toml";
  }

  /**
   * A name with a dot loses what follows its last dot: "a.b" is looked for
   * in `a.toml`.  (The name ".." has no file name and keeps no extension.)
   */
  lemma LevelPathOfDottedName(baseDir: Path, stem: string, suffix: string)
    requires stem != "" && '.' !in suffix && stem + "." + suffix != ".."
    ensures LevelPath(baseDir, stem + "." + suffix) == baseDir + ["level", stem + ".toml"]
  {
    var name := stem + "." + suffix;
    var p := Push(Push(baseDir, "level"), name);
    assert p == baseDir + ["level", name];
    assert p[..|p| - 1] == baseDir + ["level"];
    var i := |stem|;
    assert name[i] == '.';
    forall j | i < j < |name|
      ensures name[j] != '.'
    {
      assert name[j] == suffix[j - i - 1];
      assert suffix[j - i - 1] in suffix;
    }
    assert LastDot(name) == Some(i);
    assert FileStem(name) == stem by {
      assert name[..i] == stem;
    }
    assert LevelPath(baseDir, name) == p[..|p| - 1] + [FileStem(name) + "." + "toml"];
    assert stem + "." + "toml" == stem + ".toml";
  }

  /** The empty name gives `base/level.toml`: the extension lands on the directory name. */
  lemma LevelPathOfEmptyName(baseDir: Path)
    ensures LevelPath(baseDir, "") == baseDir + ["level.toml"]
  {
    var p := baseDir + ["level"];
    assert Push(Push(baseDir, "level"), "") == p;
    assert p[..|p| - 1] == baseDir;
    assert forall j :: 0 <= j < |"level"| ==> "level"[j] != '.';
    assert "level" != "..";
    assert FileStem("level") == "level";
    assert LevelPath(baseDir, "") == p[..|p| - 1] + [FileStem("level") + "." + "toml"];
    assert "level" + "." + "toml" == "level.toml";
  }

  /**
   * The name `.` adds nothing that `set_extension` sees: the extension lands
   * on `level`, as for the empty name.
   */
  lemma LevelPathOfCurrentDirName(baseDir: Path)
    ensures LevelPath(baseDir, ".") == baseDir + ["level.toml"]
  {
    var p := baseDir + ["level"];
    var q := Push(p, ".");
    assert q == p + ["."];
    assert q[..|q| - 1] == p;
    assert FileName(q) == FileName(p);
    assert p[..|p| - 1] == baseDir;
    assert forall j :: 0 <= j < |"level"| ==> "level"[j] != '.';
    assert "level" != "." && "level" != "..";
    assert FileName(p) == Some(|baseDir|);
    assert FileStem("level") == "level";
    assert "level" + "." + "toml" == "level.toml";
  }

  /**
   * The name `..` leaves no file name, so no extension is set and the path
   * `base/level/..` names the base directory itself.
   */
  lemma LevelPathOfParentDirName(baseDir: Path)
    ensures LevelPath(baseDir, "..") == baseDir + ["level", ".."]
  {
    var q := Push(Push(baseDir, "level"), "..");
    assert q == baseDir + ["level", ".."];
    assert FileName(q).None?;
  }

  /** The base directory is a proper component prefix of the path. */
  lemma LevelPathUnderBase(baseDir: Path, name: string)
    ensures |LevelPath(baseDir, name)| > |baseDir|
    ensures LevelPath(baseDir, name)[..|baseDir|] == baseDir
  {
    var p := Push(Push(baseDir, "level"), name);
    assert p[..|baseDir|] == baseDir;
    assert "level" != "." && "level" != "..";
    assert p[|baseDir|] == "level";
    assert OnlyCurrentDirAfter(p, |baseDir|) ==> FileName(p).Some?;
    assert FileName(p).Some? ==> FileName(p).value >= |baseDir|;
    assert LevelPath(baseDir, name)[..|baseDir|] == p[..|baseDir|];
  }
}
