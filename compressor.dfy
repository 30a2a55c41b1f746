/**
 * File-name and variable-list handling of the compression front end: GRIB names become netCDF
 * names, unwanted variables are dropped while coordinates stay, destination paths are built in
 * the output folder, and the arguments of a transfer are checked before any file is touched.
 */
module Compressor {
  import opened Wrappers

  // ---------------------------------------------------------------------------------------------
  // fix_filename

  /** `pattern` occurs in `s` starting at index `i`. */
  predicate OccursAt(s: string, pattern: string, i: nat)
  {
    i + |pattern| <= |s| && s[i..i + |pattern|] == pattern
  }

  predicate Contains(s: string, pattern: string)
  {
    exists i: nat | i <= |s| :: OccursAt(s, pattern, i)
  }

  /** `s.replace(old, new)`: every non-overlapping occurrence, scanning left to right. */
  function Replace(s: string, target: string, replacement: string): string
    requires |target| > 0
    decreases |s|
  {
    if |s| == 0 then s
    else if OccursAt(s, target, 0) then replacement + Replace(s[|target|..], target, replacement)
    else [s[0]] + Replace(s[1..], target, replacement)
  }

  /** An occurrence in a suffix of `s` is an occurrence in `s`, shifted. */
  lemma OccursAtDrop(s: string, k: nat, pattern: string, i: nat)
    requires k <= |s|
    ensures OccursAt(s[k..], pattern, i) <==> OccursAt(s, pattern, i + k)
  {
    var t := s[k..];
    if i + |pattern| <= |t| {
      assert t[i..i + |pattern|] == s[i + k..i + k + |pattern|];
    }
  }

  /** A string without the pattern is returned unchanged. */
  lemma {:induction false} ReplaceAbsent(s: string, target: string, replacement: string)
    requires |target| > 0 && !Contains(s, target)
    ensures Replace(s, target, replacement) == s
    decreases |s|
  {
    if |s| > 0 {
      assert !OccursAt(s, target, 0);
      forall i: nat | i <= |s[1..]| ensures !OccursAt(s[1..], target, i) {
        OccursAtDrop(s, 1, target, i);
      }
      ReplaceAbsent(s[1..], target, replacement);
    }
  }

  /** The suffixes `fix_filename` rewrites, in the order it rewrites them. */
  const Cases: seq<string> := [".grib2", ".grb"]

  const NetCDFSuffix: string := ".nc"

  /**
   * A pattern of `.` followed by characters other than `.`, not starting `.n`: the shape of
   * both cases, which `.nc` can neither contain nor start.
   */
  predicate DotPattern(q: string)
  {
    |q| >= 2 && q[0] == '.' && q[1] != 'n' && forall j :: 1 <= j < |q| ==> q[j] != '.'
  }

  /** Where the pattern starts the input, the result starts with a dot. */
  lemma ReplaceHead(s: string, target: string)
    requires DotPattern(target)
    ensures OccursAt(s, target, 0) ==> Replace(s, target, NetCDFSuffix)[0] == '.'
  {
  }

  /** A prefix without a dot in the result comes from the same prefix of the input. */
  lemma {:induction false} ReplacePrefix(s: string, target: string, p: string)
    requires DotPattern(target)
    requires forall j :: 0 <= j < |p| ==> p[j] != '.'
    requires |p| <= |Replace(s, target, NetCDFSuffix)| && Replace(s, target, NetCDFSuffix)[..|p|] == p
    ensures |p| <= |s| && s[..|p|] == p
    decreases |p|
  {
    if |p| > 0 {
      var r := Replace(s, target, NetCDFSuffix);
      ReplaceHead(s, target);
      assert r[..|p|][0] == r[0];
      assert !OccursAt(s, target, 0);
      var rest := Replace(s[1..], target, NetCDFSuffix);
      assert r == [s[0]] + rest;
      assert rest[..|p| - 1] == p[1..];
      ReplacePrefix(s[1..], target, p[1..]);
      assert s[..|p|] == [s[0]] + s[1..][..|p| - 1];
    }
  }

  /**
   * A dot pattern that does not start like `.nc` can only be found in the result of replacing
   * another dot pattern with `.nc` where it was already found in the input.
   */
  lemma {:induction false} ReplaceKeepsAbsence(s: string, target: string, q: string, i: nat)
    requires DotPattern(target) && DotPattern(q)
    requires OccursAt(Replace(s, target, NetCDFSuffix), q, i)
    ensures Contains(s, q)
    decreases |s|
  {
    var r := Replace(s, target, NetCDFSuffix);
    assert r[i..i + |q|][0] == r[i] && r[i..i + |q|][1] == r[i + 1];
    if OccursAt(s, target, 0) {
      var rest := Replace(s[|target|..], target, NetCDFSuffix);
      assert r == NetCDFSuffix + rest;
      if i < 3 {
        assert false;
      }
      assert rest == r[3..];
      OccursAtDrop(r, 3, q, i - 3);
      ReplaceKeepsAbsence(s[|target|..], target, q, i - 3);
      var k: nat :| k <= |s[|target|..]| && OccursAt(s[|target|..], q, k);
      OccursAtDrop(s, |target|, q, k);
    } else {
      var rest := Replace(s[1..], target, NetCDFSuffix);
      assert r == [s[0]] + rest;
      if i == 0 {
        assert rest[..|q| - 1] == q[1..];
        ReplacePrefix(s[1..], target, q[1..]);
        assert s[..|q|] == [s[0]] + s[1..][..|q| - 1];
        assert OccursAt(s, q, 0);
      } else {
        assert rest == r[1..];
        OccursAtDrop(r, 1, q, i - 1);
        ReplaceKeepsAbsence(s[1..], target, q, i - 1);
        var k: nat :| k <= |s[1..]| && OccursAt(s[1..], q, k);
        OccursAtDrop(s, 1, q, k);
      }
    }
  }

  /** Replacing a dot pattern with `.nc` leaves no occurrence of it. */
  lemma {:induction false} ReplaceRemoves(s: string, target: string, i: nat)
    requires DotPattern(target)
    ensures !OccursAt(Replace(s, target, NetCDFSuffix), target, i)
    decreases |s|
  {
    var r := Replace(s, target, NetCDFSuffix);
    if OccursAt(r, target, i) {
      assert r[i..i + |target|][0] == r[i] && r[i..i + |target|][1] == r[i + 1];
      if OccursAt(s, target, 0) {
        var rest := Replace(s[|target|..], target, NetCDFSuffix);
        assert r == NetCDFSuffix + rest;
        if i < 3 {
          assert false;
        }
        assert rest == r[3..];
        OccursAtDrop(r, 3, target, i - 3);
        ReplaceRemoves(s[|target|..], target, i - 3);
        assert false;
      } else {
        var rest := Replace(s[1..], target, NetCDFSuffix);
        assert r == [s[0]] + rest;
        if i == 0 {
          assert rest[..|target| - 1] == target[1..];
          ReplacePrefix(s[1..], target, target[1..]);
          assert false;
        } else {
          assert rest == r[1..];
          OccursAtDrop(r, 1, target, i - 1);
          ReplaceRemoves(s[1..], target, i - 1);
          assert false;
        }
      }
    }
  }

  /** What `fix_filename` returns: `.grib2`, then `.grb`, replaced by `.nc`. */
  function FixedFilename(fileName: string): string
  {
    Replace(Replace(fileName, Cases[0], NetCDFSuffix), Cases[1], NetCDFSuffix)
  }

  /** `fix_filename`, rebinding the name once per case. */
  method FixFilename(fileName: string) returns (r: string)
    ensures r == FixedFilename(fileName)
  {
    r := fileName;
    for k := 0 to |Cases|
      invariant k == 0 ==> r == fileName
      invariant k == 1 ==> r == Replace(fileName, Cases[0], NetCDFSuffix)
      invariant k == 2 ==> r == FixedFilename(fileName)
    {
      r := Replace(r, Cases[k], NetCDFSuffix);
    }
  }

  /** The fixed name contains neither `.grib2` nor `.grb`. */
  lemma FixedFilenameHasNoGrib(fileName: string)
    ensures !Contains(FixedFilename(fileName), ".grib2")
    ensures !Contains(FixedFilename(fileName), ".grb")
  {
    var once := Replace(fileName, ".grib2", NetCDFSuffix);
    var fixed := FixedFilename(fileName);
    assert DotPattern(".grib2") && DotPattern(".grb");
    forall i: nat ensures !OccursAt(fixed, ".grb", i) {
      ReplaceRemoves(once, ".grb", i);
    }
    forall i: nat ensures !OccursAt(fixed, ".grib2", i) {
      if OccursAt(fixed, ".grib2", i) {
        ReplaceKeepsAbsence(once, ".grb", ".grib2", i);
        var k: nat :| OccursAt(once, ".grib2", k);
        ReplaceRemoves(fileName, ".grib2", k);
      }
    }
  }

  /** A name with neither case in it is returned unchanged. */
  lemma FixedFilenameUnchanged(fileName: string)
    requires !Contains(fileName, ".grib2") && !Contains(fileName, ".grb")
    ensures FixedFilename(fileName) == fileName
  {
    ReplaceAbsent(fileName, ".grib2", NetCDFSuffix);
    ReplaceAbsent(fileName, ".grb", NetCDFSuffix);
  }

  // ---------------------------------------------------------------------------------------------
  // drop_variables

  /** The names of `xs` that satisfy `keep`, in order. */
  function Filter(xs: seq<string>, keep: string -> bool): (r: seq<string>)
    ensures forall x :: x in r <==> x in xs && keep(x)
    ensures |r| <= |xs|
  {
    if |xs| == 0 then []
    else (if keep(xs[0]) then [xs[0]] else []) + Filter(xs[1..], keep)
  }

  /** `variables_to_drop`: the data variables that are not to be kept. */
  function VariablesToDrop(variables: seq<string>, coordinates: seq<string>, variablesToKeep: seq<string>)
    : seq<string>
  {
    Filter(variables, v => v !in coordinates && v !in variablesToKeep)
  }

  /**
   * `drop_variables`: the variable names left after `drop_vars`. Coordinates always stay; any
   * other variable stays exactly when it is to be kept.
   */
  function DropVariables(variables: seq<string>, coordinates: seq<string>, variablesToKeep: seq<string>)
    : (r: seq<string>)
    ensures forall v :: v in r <==> v in variables && (v in coordinates || v in variablesToKeep)
  {
    var toDrop := VariablesToDrop(variables, coordinates, variablesToKeep);
    Filter(variables, v => v !in toDrop)
  }

  // ---------------------------------------------------------------------------------------------
  // destination_path

  /** A path as its components; the last one is the name. */
  type Path = seq<string>

  function Name(p: Path): string
  {
    if |p| == 0 then "" else p[|p| - 1]
  }

  /** The last index of `c` in `s`, if any. */
  function LastIndex(s: string, c: char): (r: Option<nat>)
    ensures r.Some? ==> r.value < |s| && s[r.value] == c && forall j :: r.value < j < |s| ==> s[j] != c
    ensures r.None? ==> forall j :: 0 <= j < |s| ==> s[j] != c
  {
    if |s| == 0 then None
    else if s[|s| - 1] == c then Some(|s| - 1)
    else LastIndex(s[..|s| - 1], c)
  }

  /**
   * `os.path.splitext` on a file name: the split is at the last dot, unless only dots come
   * before it (a leading-dot name has no extension).
   */
  function SplitExt(name: string): (r: (string, string))
    ensures r.0 + r.1 == name
    ensures r.1 == "" || (r.1[0] == '.' && forall j :: 1 <= j < |r.1| ==> r.1[j] != '.')
  {
    match LastIndex(name, '.')
    case None => (name, "")
    case Some(dot) =>
      if exists j :: 0 <= j < dot && name[j] != '.' then
        assert name[..dot] + name[dot..] == name;
        (name[..dot], name[dot..])
      else (name, "")
  }

  /**
   * `destination_path(origin, folder)`: the origin's name in the folder, with its extension
   * replaced by `.nc` unless the file type read from the extension is `NC`.
   */
  function DestinationPath(origin: Path, folder: Path, fileType: string -> string): (r: Path)
    ensures |r| == |folder| + 1 && r[..|folder|] == folder
    ensures fileType(Name(origin)) == "NC" ==> Name(r) == Name(origin)
    ensures fileType(Name(origin)) != "NC" ==>
      Name(r) == SplitExt(Name(origin)).0 + NetCDFSuffix && Name(r)[|Name(r)| - 3..] == NetCDFSuffix
  {
    var fileName := Name(origin);
    var newName := if fileType(fileName) != "NC" then SplitExt(fileName).0 + NetCDFSuffix else fileName;
    folder + [newName]
  }

  // ---------------------------------------------------------------------------------------------
  // transfer

  /** What `transfer` goes on to do once its arguments are accepted. */
  datatype Transfer =
    | SingleFile(origin: Path, destination: Path)
    | MultipleFiles(origins: seq<Path>, folder: Path)

  /**
   * The argument checks of `transfer`. Whether the output is a directory and whether it is
   * writable are read from the file system, so they come in as flags.
   */
  function CheckTransfer(filePaths: seq<Path>, output: Path, outputIsDir: bool, outputWritable: bool,
                         fileType: string -> string): (r: Result<Transfer>)
    ensures |filePaths| == 0 ==> r == Err(AssertionError("file_paths can't be an empty list"))
    ensures |filePaths| == 1 ==> r.Ok? && r.value.SingleFile? && r.value.origin == filePaths[0]
    ensures |filePaths| == 1 && outputIsDir ==> r.value.destination == DestinationPath(filePaths[0], output, fileType)
    ensures |filePaths| == 1 && !outputIsDir ==> r.value.destination == output
    ensures |filePaths| > 1 && !outputIsDir
      ==> r == Err(AssertionError("For multiple files, the output parameter should be a directory"))
    ensures |filePaths| > 1 && outputIsDir && !outputWritable
      ==> r == Err(AssertionError("The output folder provided does not have write permissions"))
    ensures |filePaths| > 1 ==> (r.Ok? <==> outputIsDir && outputWritable)
    ensures r.Ok? && r.value.MultipleFiles? ==> r.value.origins == filePaths && r.value.folder == output
  {
    if |filePaths| == 0 then Err(AssertionError("file_paths can't be an empty list"))
    else if |filePaths| == 1 then
      var origin := filePaths[0];
      Ok(SingleFile(origin, if outputIsDir then DestinationPath(origin, output, fileType) else output))
    else if !outputIsDir then Err(AssertionError("For multiple files, the output parameter should be a directory"))
    else if !outputWritable then Err(AssertionError("The output folder provided does not have write permissions"))
    else Ok(MultipleFiles(filePaths, output))
  }
}
