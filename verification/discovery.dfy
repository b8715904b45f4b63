/** Filesystem probing of src/platform/posix/paths.c: the existence
    predicates `arcan_isdir` / `arcan_isfile` and the priority-ordered
    searches `binpath_unix`, `libpath_unix` and `unix_find`. `stat`, `getenv`
    and `realpath("./")` are oracles passed in as parameters. */
module Discovery {

  import opened Wrappers

  /** The file types `stat` distinguishes (it follows symbolic links). */
  datatype FileType = Regular | Directory | Fifo | CharDevice | BlockDevice | Socket

  /** `stat`: the type of the file a path names, or None when stat fails. */
  type FileSystem = string -> Option<FileType>

  /** `getenv`. */
  type Environment = string -> Option<string>

  /** arcan_isdir: a NULL path or a failing stat is not a directory. */
  function IsDir(fs: FileSystem, path: Option<string>): (r: bool)
    ensures r <==> path.Some? && fs(path.value) == Some(Directory)
  {
    if path.None? then false
    else match fs(path.value)
      case None => false
      case Some(t) => t.Directory?
  }

  /** arcan_isfile: regular files and named pipes count; a NULL path, a
      failing stat, a directory, a device or a socket does not. */
  function IsFile(fs: FileSystem, path: Option<string>): (r: bool)
    ensures r <==> path.Some? && (fs(path.value) == Some(Regular) || fs(path.value) == Some(Fifo))
  {
    if path.None? then false
    else match fs(path.value)
      case None => false
      case Some(t) => t.Regular? || t.Fifo?
  }

  /** No path is both a directory and a file. */
  lemma DirIsNotFile(fs: FileSystem, path: Option<string>)
    ensures !(IsDir(fs, path) && IsFile(fs, path))
  {
  }

  /** One candidate of a priority search: the path probed, and what the
      search returns when the probe succeeds. */
  datatype Probe = Probe(path: Option<string>, found: Option<string>)

  /** Position of the first element satisfying `ok`. */
  function FirstIndex<T>(xs: seq<T>, ok: T -> bool): (r: Option<nat>)
    ensures r.Some? ==> r.value < |xs| && ok(xs[r.value])
    ensures r.Some? ==> forall j :: 0 <= j < r.value ==> !ok(xs[j])
    ensures r.None? ==> forall j :: 0 <= j < |xs| ==> !ok(xs[j])
  {
    if xs == [] then None
    else if ok(xs[0]) then Some(0)
    else match FirstIndex(xs[1..], ok)
      case None => None
      case Some(i) => Some(i + 1)
  }

  /** The reference first-match search: the result of the first probe whose
      path passes `ok`, or None when no probe passes. */
  function FirstHit(probes: seq<Probe>, ok: Option<string> -> bool): Option<string> {
    match FirstIndex(probes, (p: Probe) => ok(p.path))
    case None => None
    case Some(i) => probes[i].found
  }

  // ----- binpath_unix -----

  const BinCandidates: seq<string> := [
    "./arcan_frameserver",
    "/usr/local/bin/arcan_frameserver",
    "/usr/bin/arcan_frameserver"
  ]

  /** binpath_unix: the first frameserver binary that is a file. */
  function BinPath(fs: FileSystem): (r: Option<string>)
    ensures r.Some? ==> r.value in BinCandidates && IsFile(fs, r)
    ensures r.None? <==> forall i :: 0 <= i < |BinCandidates| ==> !IsFile(fs, Some(BinCandidates[i]))
  {
    if IsFile(fs, Some("./arcan_frameserver")) then Some("./arcan_frameserver")
    else if IsFile(fs, Some("/usr/local/bin/arcan_frameserver")) then Some("/usr/local/bin/arcan_frameserver")
    else if IsFile(fs, Some("/usr/bin/arcan_frameserver")) then Some("/usr/bin/arcan_frameserver")
    else None
  }

  function BinProbes(): seq<Probe> {
    seq(|BinCandidates|, i requires 0 <= i < |BinCandidates| => Probe(Some(BinCandidates[i]), Some(BinCandidates[i])))
  }

  /** binpath_unix is the first-match search over its three candidates. */
  lemma BinPathIsFirstHit(fs: FileSystem)
    ensures BinPath(fs) == FirstHit(BinProbes(), p => IsFile(fs, p))
  {
    var probes := BinProbes();
    var ok := (p: Probe) => IsFile(fs, p.path);
    var r := FirstIndex(probes, ok);
    assert forall i :: 0 <= i < 3 ==> ok(probes[i]) == IsFile(fs, Some(BinCandidates[i]));
    if r.Some? {
      assert r.value < 3;
    }
  }

  // ----- libpath_unix -----

  const HijackVar: string := "ARCAN_HIJACK"
  const HijackLib: string := "libarcan_hijack.so"
  const LocalHijack: string := "./libarcan_hijack.so"
  const LocalLibDir: string := "/usr/local/lib/"
  const SystemLibDir: string := "/usr/lib/"

  /** libpath_unix. `cwd` is what `realpath("./", NULL)` returns. */
  function LibPath(fs: FileSystem, env: Environment, cwd: Option<string>): (r: Option<string>)
    // the override wins, verbatim
    ensures IsFile(fs, env(HijackVar)) ==> r == env(HijackVar)
    // a library in the working directory found that directory, even when
    // realpath fails
    ensures !IsFile(fs, env(HijackVar)) && IsFile(fs, Some(LocalHijack)) ==> r == cwd
    // otherwise a system directory holding the library, with its trailing slash
    ensures !IsFile(fs, env(HijackVar)) && !IsFile(fs, Some(LocalHijack)) ==>
      (r.Some? <==> IsFile(fs, Some(LocalLibDir + HijackLib)) || IsFile(fs, Some(SystemLibDir + HijackLib)))
      && (r.Some? ==> (r.value == LocalLibDir || r.value == SystemLibDir) && IsFile(fs, Some(r.value + HijackLib)))
  {
    if IsFile(fs, env(HijackVar)) then env(HijackVar)
    else if IsFile(fs, Some(LocalHijack)) then cwd
    else if IsFile(fs, Some(LocalLibDir + HijackLib)) then Some(LocalLibDir)
    else if IsFile(fs, Some(SystemLibDir + HijackLib)) then Some(SystemLibDir)
    else None
  }

  function LibProbes(env: Environment, cwd: Option<string>): seq<Probe> {
    [ Probe(env(HijackVar), env(HijackVar)),
      Probe(Some(LocalHijack), cwd),
      Probe(Some(LocalLibDir + HijackLib), Some(LocalLibDir)),
      Probe(Some(SystemLibDir + HijackLib), Some(SystemLibDir)) ]
  }

  /** libpath_unix is the first-match search over its four probes. */
  lemma LibPathIsFirstHit(fs: FileSystem, env: Environment, cwd: Option<string>)
    ensures LibPath(fs, env, cwd) == FirstHit(LibProbes(env, cwd), p => IsFile(fs, p))
  {
    var probes := LibProbes(env, cwd);
    var ok := (p: Probe) => IsFile(fs, p.path);
    var r := FirstIndex(probes, ok);
    if ok(probes[0]) {
      assert r == Some(0);
    } else if ok(probes[1]) {
      assert r == Some(1);
    } else if ok(probes[2]) {
      assert r == Some(2);
    } else if ok(probes[3]) {
      assert r == Some(3);
    } else {
      assert r == None;
    }
  }

  // ----- unix_find -----

  /** Directory search: the first `base/fname` that is a directory. */
  function FindDir(fs: FileSystem, bases: seq<string>, fname: string): (r: Option<string>)
    ensures r.Some? ==> IsDir(fs, r)
    ensures r.None? <==> forall i :: 0 <= i < |bases| ==> !IsDir(fs, Some(bases[i] + "/" + fname))
  {
    if bases == [] then None
    else if IsDir(fs, Some(bases[0] + "/" + fname)) then Some(bases[0] + "/" + fname)
    else
      var r := FindDir(fs, bases[1..], fname);
      assert forall i :: 1 <= i < |bases| ==> bases[i] == bases[1..][i - 1];
      r
  }

  function DirProbes(bases: seq<string>, fname: string): seq<Probe> {
    seq(|bases|, i requires 0 <= i < |bases| => Probe(Some(bases[i] + "/" + fname), Some(bases[i] + "/" + fname)))
  }

  /** The directory search is the first-match search over `base/fname`. */
  lemma {:induction false} FindDirIsFirstHit(fs: FileSystem, bases: seq<string>, fname: string)
    ensures FindDir(fs, bases, fname) == FirstHit(DirProbes(bases, fname), p => IsDir(fs, p))
  {
    var probes := DirProbes(bases, fname);
    var ok := (p: Probe) => IsDir(fs, p.path);
    if bases != [] && !IsDir(fs, Some(bases[0] + "/" + fname)) {
      FindDirIsFirstHit(fs, bases[1..], fname);
      assert DirProbes(bases[1..], fname) == probes[1..];
    }
  }

  /** The `pathtbl` of unix_find: the working directory, `$HOME/.arcan` (the
      empty string when HOME is unset), then the two system locations. */
  function SearchBases(env: Environment): (bases: seq<string>)
    ensures |bases| == 4 && bases[0] == "."
    ensures env("HOME").Some? ==> bases[1] == env("HOME").value + "/.arcan"
    ensures env("HOME").None? ==> bases[1] == ""
    ensures bases[2..] == ["/usr/local/share/arcan", "/usr/share/arcan"]
  {
    var home := match env("HOME")
      case Some(h) => h + "/.arcan"
      case None => "";
    [".", home, "/usr/local/share/arcan", "/usr/share/arcan"]
  }

  /** unix_find: the first `base/fname` that is a directory, over the bases
      of `pathtbl` in order, or None when none of the four is. */
  function UnixFind(fs: FileSystem, env: Environment, fname: string): (r: Option<string>)
    ensures r.Some? ==> IsDir(fs, r)
    ensures IsDir(fs, Some("./" + fname)) ==> r == Some("./" + fname)
    ensures r.None? <==> forall b :: b in SearchBases(env) ==> !IsDir(fs, Some(b + "/" + fname))
    ensures r == FirstHit(DirProbes(SearchBases(env), fname), p => IsDir(fs, p))
  {
    var bases := SearchBases(env);
    assert "." + "/" + fname == "./" + fname;
    FindDirIsFirstHit(fs, bases, fname);
    assert forall b :: b in bases ==> exists i :: 0 <= i < |bases| && bases[i] == b;
    FindDir(fs, bases, fname)
  }

  /** A first-match search over two candidate lists in a row is the search
      over the first list, then over the second, when every probe of the
      first list returns a path on success. */
  lemma FirstHitConcat(a: seq<Probe>, b: seq<Probe>, ok: Option<string> -> bool)
    requires forall i :: 0 <= i < |a| ==> a[i].found.Some?
    ensures FirstHit(a + b, ok) == FirstHit(a, ok).OrElse(FirstHit(b, ok))
  {
    var f := (p: Probe) => ok(p.path);
    var r, ra, rb := FirstIndex(a + b, f), FirstIndex(a, f), FirstIndex(b, f);
    assert forall k :: 0 <= k < |a| ==> (a + b)[k] == a[k];
    assert forall k :: 0 <= k < |b| ==> (a + b)[|a| + k] == b[k];
    if ra.None? {
      assert forall k :: |a| <= k < |a + b| ==> (a + b)[k] == b[k - |a|];
    }
  }

  /** With HOME unset the second probe is `/fname`. */
  lemma UnixFindWithoutHome(fs: FileSystem, env: Environment, fname: string)
    requires env("HOME").None?
    requires !IsDir(fs, Some("./" + fname)) && IsDir(fs, Some("/" + fname))
    ensures UnixFind(fs, env, fname) == Some("/" + fname)
  {
    var bases := SearchBases(env);
    assert bases[0] + "/" + fname == "./" + fname;
    assert bases[1..][0] + "/" + fname == "/" + fname;
    assert FindDir(fs, bases[1..], fname) == Some("/" + fname);
  }

  /** A directory present in a later base is found only when no earlier base
      holds one: with only `/b/resources` a directory, searching
      `/a`, `/b`, `/c` finds it. */
  lemma FindDirSkipsMissing(fs: FileSystem)
    requires !IsDir(fs, Some("/a/resources")) && IsDir(fs, Some("/b/resources"))
    ensures FindDir(fs, ["/a", "/b", "/c"], "resources") == Some("/b/resources")
  {
    var bases := ["/a", "/b", "/c"];
    assert bases[0] + "/" + "resources" == "/a/resources";
    assert bases[1..][0] + "/" + "resources" == "/b/resources";
  }
}
