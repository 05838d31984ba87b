/**
 * The Java runtime registry (src/mcsrv/javaexecutable.py, and its twin
 * src/mcsrv/javaversion.py, which differs only in its class name and the
 * colour of one message): a Java executable is a resolved path with the
 * version line it reports, and the known installations are the lines of
 * `~/.javaversions`, each read back as an executable.
 *
 * Oracles: `which` is `shutil.which`, `output` the text `subprocess.getoutput`
 * returns for an argv (the shell quoting of `shlex.join` is not modelled)
 * and `samefile` is `os.path.samefile`.
 */
module Java {
  import opened Wrappers
  import opened Text
  import opened FileSystem

  datatype Host = Host(which: string -> Option<string>, output: seq<string> -> string, samefile: (string, string) -> bool)

  /** `RC_PATH`, `~/.javaversions` with the home directory given. */
  function JavaRc(home: string): string {
    JoinPath(home, ".javaversions")
  }

  /** `shutil.which`, read with Python truthiness: an empty answer is no answer. */
  function Resolved(host: Host, path: string): (r: Option<string>)
    ensures r.Some? ==> r.value != "" && host.which(path) == r
    ensures r.None? <==> host.which(path).None? || host.which(path) == Some("")
  {
    var w := host.which(path);
    if w.Some? && w.value != "" then w else None
  }

  /** `.split("\n")[0]`. */
  function FirstLine(out: string): string {
    SplitOn(out, '\n')[0]
  }

  /** The first line is the text up to the first newline, or all of it when there is none. */
  lemma FirstLineIsPrefix(out: string)
    ensures '\n' !in FirstLine(out)
    ensures '\n' in out ==> StartsWith(out, FirstLine(out) + "\n")
    ensures '\n' !in out ==> FirstLine(out) == out
  {
    match SplitFirst(out, '\n')
    case None =>
    case Some((a, b)) =>
      assert FirstLine(out) == a;
      assert out == (a + "\n") + b;
      assert out[..|a| + 1] == a + "\n";
  }

  const Unrecognized := "Unrecognized option: --version"

  /** `get_version` after the path is resolved: the first line of `--version`, unless old Java rejects that option. */
  function Version(host: Host, path: string): (r: string)
    ensures '\n' !in r
  {
    var v := FirstLine(host.output([path, "--version"]));
    FirstLineIsPrefix(host.output([path, "--version"]));
    FirstLineIsPrefix(host.output([path, "-version"]));
    if !StartsWith(v, Unrecognized) then v
    else FirstLine(host.output([path, "-version"]))
  }

  /**
   * The version is a line some probe printed: that of `--version` exactly
   * when it is not the rejection message, and then it never is that message
   * unless `-version` printed it too.
   */
  lemma VersionFallback(host: Host, path: string)
    ensures var long, short := FirstLine(host.output([path, "--version"])), FirstLine(host.output([path, "-version"]));
      (Version(host, path) == long <==> !StartsWith(long, Unrecognized) || long == short)
      && (Version(host, path) != long ==> Version(host, path) == short)
      && (StartsWith(Version(host, path), Unrecognized) ==> Version(host, path) == short)
  {
  }

  /** `JavaExecutable(p)`: the resolved path of the stripped argument and its version, or ValueError. */
  function Make(host: Host, p: string): (r: Result<(string, string), Failure>)
    ensures r.Err? <==> Resolved(host, Strip(p)).None?
    ensures r.Err? ==> r.error == ValueError
    ensures r.Ok? ==> r.value.0 == Resolved(host, Strip(p)).value && r.value.1 == Version(host, r.value.0)
  {
    match Resolved(host, Strip(p))
    case None => Err(ValueError)
    case Some(q) => Ok((q, Version(host, q)))
  }

  /** `cls` as the function `map` applies. */
  function Builder(host: Host): string -> Result<(string, string), Failure> {
    l => Make(host, l)
  }

  /** `list(map(cls, lines))`: every line built in order; the first line that fails raises ValueError. */
  function MakeAll(host: Host, lines: seq<string>): (r: Result<seq<(string, string)>, Failure>)
    ensures r.Ok? <==> forall k :: 0 <= k < |lines| ==> Make(host, lines[k]).Ok?
    ensures r.Ok? ==> |r.value| == |lines| && forall k :: 0 <= k < |lines| ==> Make(host, lines[k]) == Ok(r.value[k])
    ensures r.Err? ==> r.error == ValueError
  {
    MapAll(Builder(host), lines)
  }

  /** `get_known_java_installations`: no registry file means no known installation. */
  function KnownOutcome(files: map<string, string>, home: string, host: Host): (r: Result<seq<(string, string)>, Failure>)
    ensures JavaRc(home) !in files ==> r == Ok([])
    ensures JavaRc(home) in files ==> r == MakeAll(host, ReadLines(files[JavaRc(home)]))
  {
    if JavaRc(home) !in files then Ok([]) else MakeAll(host, ReadLines(files[JavaRc(home)]))
  }

  /** Some known installation is the same file as `p`. */
  predicate AlreadyKnown(host: Host, known: seq<(string, string)>, p: string) {
    exists k :: 0 <= k < |known| && host.samefile(known[k].0, p)
  }

  /**
   * `register`: a no-op for an installation already known, otherwise one
   * more line, the resolved path; the open raises FileNotFoundError when
   * neither the registry nor the home directory exists.
   */
  function RegisterOutcome(files: map<string, string>, dirs: set<string>, home: string, host: Host, p: string)
    : (r: Result<map<string, string>, Failure>)
    ensures KnownOutcome(files, home, host).Err? ==> r == Err(KnownOutcome(files, home, host).error)
    ensures (KnownOutcome(files, home, host).Ok? && !AlreadyKnown(host, KnownOutcome(files, home, host).value, p)
             && !Appendable(files, dirs, JavaRc(home))) ==> r == Err(FileNotFound)
    ensures r.Ok? && AlreadyKnown(host, KnownOutcome(files, home, host).value, p) ==> r.value == files
    ensures r.Ok? && !AlreadyKnown(host, KnownOutcome(files, home, host).value, p) ==>
      Appendable(files, dirs, JavaRc(home))
      && r.value.Keys == files.Keys + {JavaRc(home)}
      && r.value[JavaRc(home)] == (if JavaRc(home) in files then files[JavaRc(home)] else "") + p + "\n"
      && forall q :: q in files && q != JavaRc(home) ==> r.value[q] == files[q]
  {
    match KnownOutcome(files, home, host)
    case Err(e) => Err(e)
    case Ok(known) =>
      if AlreadyKnown(host, known, p) then Ok(files)
      else if Appendable(files, dirs, JavaRc(home)) then Ok(AppendEntry(files, JavaRc(home), p))
      else Err(FileNotFound)
  }

  /**
   * After a registration that appended, the known installations are the
   * earlier ones followed by this one, provided the registry ended with a
   * newline and the resolved path resolves to itself.
   */
  lemma KnownAfterRegister(files: map<string, string>, dirs: set<string>, home: string, host: Host, p: string)
    requires RegisterOutcome(files, dirs, home, host, p).Ok?
    requires !AlreadyKnown(host, KnownOutcome(files, home, host).value, p)
    requires JavaRc(home) in files ==> files[JavaRc(home)] == [] || files[JavaRc(home)][|files[JavaRc(home)]| - 1] == '\n'
    requires Stripped(p) && '\n' !in p && '\r' !in p && Resolved(host, p) == Some(p)
    ensures KnownOutcome(RegisterOutcome(files, dirs, home, host, p).value, home, host)
      == Ok(KnownOutcome(files, home, host).value + [(p, Version(host, p))])
  {
    var rc := JavaRc(home);
    var c := if rc in files then files[rc] else "";
    var f := RegisterOutcome(files, dirs, home, host, p).value;
    assert f[rc] == c + p + "\n";
    ReadLinesSnoc(c, p);
    StripTerminated(p);
    MapAllSnoc(Builder(host), ReadLines(c), p + "\n");
    if rc !in files {
      assert ReadLines(c) == [];
    }
  }

  /** Registering the same installation twice writes its line once. */
  lemma RegisterTwice(files: map<string, string>, dirs: set<string>, home: string, host: Host, p: string)
    requires RegisterOutcome(files, dirs, home, host, p).Ok?
    requires JavaRc(home) in files ==> files[JavaRc(home)] == [] || files[JavaRc(home)][|files[JavaRc(home)]| - 1] == '\n'
    requires Stripped(p) && '\n' !in p && '\r' !in p && Resolved(host, p) == Some(p) && host.samefile(p, p)
    ensures var once := RegisterOutcome(files, dirs, home, host, p).value;
      RegisterOutcome(once, dirs, home, host, p) == Ok(once)
  {
    var known := KnownOutcome(files, home, host).value;
    if !AlreadyKnown(host, known, p) {
      KnownAfterRegister(files, dirs, home, host, p);
      var again := KnownOutcome(RegisterOutcome(files, dirs, home, host, p).value, home, host).value;
      assert again[|known|].0 == p;
    }
  }

  /** Each executable holds the path and version of its entry of `known`. */
  ghost predicate Holds(out: seq<JavaExecutable>, known: seq<(string, string)>)
    reads set k | 0 <= k < |out| :: out[k]
  {
    |out| == |known| && forall k :: 0 <= k < |out| ==> out[k].path == known[k].0 && out[k].version == known[k].1
  }

  lemma HoldsSnoc(out: seq<JavaExecutable>, known: seq<(string, string)>, j: JavaExecutable, x: (string, string))
    requires Holds(out, known) && j.path == x.0 && j.version == x.1
    ensures Holds(out + [j], known + [x])
  {
  }

  class JavaExecutable {
    var path: string
    var version: string

    /** The first statement of `__init__`: the argument stripped of surrounding whitespace. */
    constructor Init(p: string)
      ensures path == Strip(p) && version == ""
    {
      path := Strip(p);
      version := "";
    }

    /** `get_version`: the path is replaced by the resolved one before the version is probed; an unresolvable path raises ValueError. */
    method GetVersion(host: Host) returns (r: Result<string, Failure>)
      modifies this
      ensures Resolved(host, old(path)).None? ==> r == Err(ValueError) && path == old(path)
      ensures Resolved(host, old(path)).Some? ==> path == Resolved(host, old(path)).value && r == Ok(Version(host, path))
      ensures version == old(version)
    {
      var w := Resolved(host, path);
      if w.None? {
        return Err(ValueError);
      }
      path := w.value;
      var v := FirstLine(host.output([path, "--version"]));
      if !StartsWith(v, Unrecognized) {
        return Ok(v);
      }
      r := Ok(FirstLine(host.output([path, "-version"])));
    }
  }

  /** `JavaExecutable(p)`: the object `__init__` leaves, or the ValueError it raised. */
  method New(p: string, host: Host) returns (r: Result<JavaExecutable, Failure>)
    ensures Make(host, p).Err? ==> r == Err(Make(host, p).error)
    ensures Make(host, p).Ok? ==>
      r.Ok? && fresh(r.value)
      && r.value.path == Make(host, p).value.0 && r.value.version == Make(host, p).value.1
  {
    var j := new JavaExecutable.Init(p);
    var v := j.GetVersion(host);
    if v.Err? {
      return Err(v.error);
    }
    j.version := v.value;
    r := Ok(j);
  }

  /** `get_known_java_installations`: no registry file, no installation; otherwise one per line. */
  method GetKnownJavaInstallations(fs: Fs, home: string, host: Host) returns (r: Result<seq<JavaExecutable>, Failure>)
    ensures var k := KnownOutcome(fs.files, home, host);
      (k.Err? ==> r == Err(k.error))
      && (k.Ok? ==> r.Ok? && Holds(r.value, k.value))
  {
    var rc := JavaRc(home);
    if rc !in fs.files {
      return Ok([]);
    }
    r := BuildAll(ReadLines(fs.files[rc]), host);
  }

  /** `list(map(cls, lines))`, one constructor call per line; the first ValueError ends it. */
  method BuildAll(lines: seq<string>, host: Host) returns (r: Result<seq<JavaExecutable>, Failure>)
    ensures var k := MapAll(Builder(host), lines);
      (k.Err? ==> r == Err(k.error))
      && (k.Ok? ==> r.Ok? && Holds(r.value, k.value))
  {
    ghost var f := Builder(host);
    var out: seq<JavaExecutable> := [];
    var i := 0;
    while i < |lines|
      invariant 0 <= i <= |lines|
      invariant MapAll(f, lines[..i]).Ok? && Holds(out, MapAll(f, lines[..i]).value)
    {
      PrefixSnoc(lines, i);
      MapAllSnoc(f, lines[..i], lines[i]);
      ghost var done := MapAll(f, lines[..i]).value;
      assert f(lines[i]) == Make(host, lines[i]);
      var j := New(lines[i], host);
      if j.Err? {
        MapAllSticks(f, lines, i + 1, |lines|);
        PrefixAll(lines);
        return Err(j.error);
      }
      HoldsSnoc(out, done, j.value, Make(host, lines[i]).value);
      out := out + [j.value];
      i := i + 1;
    }
    PrefixAll(lines);
    r := Ok(out);
  }

  /** `register`'s loop: whether some known installation is the same file. */
  method FindSame(javas: seq<JavaExecutable>, self: JavaExecutable, host: Host, ghost known: seq<(string, string)>) returns (dup: bool)
    requires Holds(javas, known)
    ensures dup == AlreadyKnown(host, known, self.path)
  {
    var i := 0;
    dup := false;
    while i < |javas| && !dup
      invariant 0 <= i <= |javas|
      invariant forall j :: 0 <= j < i - (if dup then 1 else 0) ==> !host.samefile(known[j].0, self.path)
      invariant dup ==> 0 < i && host.samefile(known[i - 1].0, self.path)
    {
      dup := host.samefile(javas[i].path, self.path);
      i := i + 1;
    }
  }

  /** `register`: no-op for a known installation, otherwise the resolved path appended as one line. */
  method Register(self: JavaExecutable, fs: Fs, home: string, host: Host) returns (r: Result<JavaExecutable, Failure>)
    modifies fs
    ensures var o := RegisterOutcome(old(fs.files), old(fs.dirs), home, host, self.path);
      (o.Err? ==> r == Err(o.error) && fs.files == old(fs.files))
      && (o.Ok? ==> r == Ok(self) && fs.files == o.value)
    ensures fs.dirs == old(fs.dirs)
  {
    var javas := GetKnownJavaInstallations(fs, home, host);
    if javas.Err? {
      return Err(javas.error);
    }
    ghost var known := KnownOutcome(fs.files, home, host).value;
    var dup := FindSame(javas.value, self, host, known);
    if !dup {
      var ok := fs.Append(JavaRc(home), self.path + "\n");
      if !ok {
        return Err(FileNotFound);
      }
    }
    r := Ok(self);
  }
}
