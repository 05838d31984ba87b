/**
 * The first-generation Python tool (server.py and screen.py at the top of
 * the repository): a server directory is its absolute path, not cleaned,
 * whose name is the id as written; constructing one loads `.mcsrvmeta`,
 * locates the jar, saves the metadata and registers the path, in that
 * order. The registry is `~/.mcsrvrc` WITHOUT `expanduser`, so it is the
 * file `.mcsrvrc` under a directory literally named `~` in the working
 * directory.
 *
 * The metadata format, the jar rule and the session listing are the ones
 * the current package keeps (Metadata, Server.Located, Sessions).
 */
module Legacy {
  import opened Wrappers
  import opened Text
  import opened Paths
  import opened Metadata
  import opened Ram
  import opened Sessions
  import opened FileSystem
  import Server
  import Properties

  const DefaultRam := "4G"

  /** `pathlib.Path(path).absolute()`: under the working directory, ".." and "." kept as written except that pathlib drops "." and empty segments. */
  function LegacyPath(cwd: string, p: string): (r: seq<string>)
    ensures forall i :: 0 <= i < |r| ==> r[i] != [] && r[i] != "."
  {
    Segments(SplitOn(Absolute(cwd, p), '/'))
  }

  /** `id`: the last path segment, with its case kept. */
  function LegacyId(path: seq<string>): string {
    Name(path)
  }

  /** `screen_name`. */
  function LegacyScreenName(path: seq<string>): (r: string)
    ensures StartsWith(r, "mc-") && r[3..] == LegacyId(path)
  {
    "mc-" + LegacyId(path)
  }

  /** `RC_PATH`, relative to the working directory since `~` is not expanded. */
  function LegacyRc(cwd: string): string {
    JoinPath(JoinPath(cwd, "~"), ".mcsrvrc")
  }

  /**
   * `get_registered_servers`: the raw `readlines()`, every entry but perhaps
   * the last still ending in "\n"; read in text mode, so "\r\n" and a lone
   * "\r" arrive as "\n".
   */
  function Registered(files: map<string, string>, rc: string): (r: seq<string>)
    ensures rc !in files ==> r == []
    ensures rc in files ==> Concat(r) == Universal(files[rc])
    ensures rc in files && '\r' !in files[rc] ==> Concat(r) == files[rc]
  {
    if rc in files then
      ReadLinesConcat(files[rc]);
      ReadLines(files[rc])
    else []
  }

  /**
   * `register`: skipped only when the path text equals an entry as read,
   * newline included; otherwise the path is appended, and the open raises
   * FileNotFoundError when neither the registry nor its directory exists.
   */
  function RegisterOutcome(files: map<string, string>, dirs: set<string>, rc: string, s: string): (r: Result<map<string, string>, Failure>)
    ensures s in Registered(files, rc) ==> r == Ok(files)
    ensures s !in Registered(files, rc) && Appendable(files, dirs, rc) ==> r == Ok(AppendEntry(files, rc, s))
    ensures s !in Registered(files, rc) && !Appendable(files, dirs, rc) ==> r == Err(FileNotFound)
  {
    if s in Registered(files, rc) then Ok(files)
    else if Appendable(files, dirs, rc) then Ok(AppendEntry(files, rc, s))
    else Err(FileNotFound)
  }

  /**
   * A path text not ending in "\n" never equals an entry of a registry
   * that ends with a newline, so every construction appends another copy
   * (or fails to open the registry).
   */
  lemma {:induction false} RegisterAlwaysAppends(files: map<string, string>, dirs: set<string>, rc: string, s: string)
    requires s != [] && s[|s| - 1] != '\n'
    requires rc in files ==> files[rc] == [] || files[rc][|files[rc]| - 1] == '\n'
    ensures RegisterOutcome(files, dirs, rc, s)
            == if Appendable(files, dirs, rc) then Ok(AppendEntry(files, rc, s)) else Err(FileNotFound)
  {
    if rc in files && s in Registered(files, rc) {
      var lines := ReadLines(files[rc]);
      var k :| 0 <= k < |lines| && lines[k] == s;
      ReadLinesTerminated(files[rc], k);
      assert false;
    }
  }

  /** Constructing the same server twice registers its path twice. */
  lemma RegisterTwiceDuplicates(files: map<string, string>, dirs: set<string>, rc: string, s: string)
    requires s != [] && s[|s| - 1] != '\n'
    requires rc in files ==> files[rc] == [] || files[rc][|files[rc]| - 1] == '\n'
    requires Appendable(files, dirs, rc)
    ensures var c := if rc in files then files[rc] else "";
      var once := RegisterOutcome(files, dirs, rc, s);
      once.Ok? && RegisterOutcome(once.value, dirs, rc, s).Ok?
      && RegisterOutcome(once.value, dirs, rc, s).value[rc] == c + (s + "\n") + (s + "\n")
  {
    RegisterAlwaysAppends(files, dirs, rc, s);
    var once := AppendEntry(files, rc, s);
    RegisterAlwaysAppends(once, dirs, rc, s);
  }

  /** After a registration the path text, newline included, is the registry's last entry. */
  lemma RegisteredAfter(files: map<string, string>, dirs: set<string>, rc: string, s: string)
    requires s != [] && '\n' !in s && '\r' !in s
    requires rc in files ==> files[rc] == [] || files[rc][|files[rc]| - 1] == '\n'
    requires Appendable(files, dirs, rc)
    ensures RegisterOutcome(files, dirs, rc, s).Ok?
    ensures Registered(RegisterOutcome(files, dirs, rc, s).value, rc) == Registered(files, rc) + [s + "\n"]
  {
    RegisterAlwaysAppends(files, dirs, rc, s);
    var c := if rc in files then files[rc] else "";
    assert AppendEntry(files, rc, s)[rc] == c + s + "\n";
    ReadLinesSnoc(c, s);
  }

  /** `send_command`: the keystrokes go to window 0 of the server's session, followed by "^M" when executed. */
  function SendCommand(path: seq<string>, cmd: string, execute: bool): (argv: seq<string>)
    ensures argv == SendCommandArgv(LegacyScreenName(path), cmd, execute)
    ensures argv[2] == "mc-" + LegacyId(path)
  {
    SendCommandArgv(LegacyScreenName(path), cmd, execute)
  }

  /** `start`'s argv: the override if non-empty, else the stored ram, else "4G", normalised; an invalid amount exits. */
  function StartArgv(path: seq<string>, data: Dict, jar: string, ram: Option<string>): (r: Result<seq<string>, Failure>)
    ensures var amount := if ram.Some? && ram.value != "" then ram.value else Server.GetOr(data, "ram", DefaultRam);
      match LegacyCheckRamArgument(amount)
      case Err(e) => r == Err(e)
      case Ok(flag) => r == Ok(["screen", "-d", "-S", LegacyScreenName(path), "-m", "java", flag, "-jar", LastSegment(jar)])
  {
    var amount := if ram.Some? && ram.value != "" then ram.value else Server.GetOr(data, "ram", DefaultRam);
    match LegacyCheckRamArgument(amount)
    case Err(e) => Err(e)
    case Ok(flag) => Ok(["screen", "-d", "-S", LegacyScreenName(path), "-m", "java", flag, "-jar", LastSegment(jar)])
  }

  /** With nothing given or stored, the server starts with 4 GB, and "java" is always the binary. */
  lemma StartDefaults(path: seq<string>, jar: string)
    ensures StartArgv(path, [], jar, None) == Ok(["screen", "-d", "-S", "mc-" + LegacyId(path), "-m", "java", "-Xmx4G", "-jar", LastSegment(jar)])
  {
    CheckRamArgumentExamples();
    assert Server.GetOr([], "ram", DefaultRam) == "4G";
    assert "-Xmx" + "4G" == "-Xmx4G";
  }

  /** The text `running` compares: true exactly when some listed session has the screen name. */
  function Running(path: seq<string>, dirExists: bool, entries: seq<string>): (r: Result<bool, Failure>)
    ensures r.Err? <==> RunningScreens(dirExists, entries).Err?
    ensures r.Ok? ==> (r.value <==> exists i :: 0 <= i < |RunningScreens(dirExists, entries).value|
                                         && RunningScreens(dirExists, entries).value[i].name == LegacyScreenName(path))
  {
    match RunningScreens(dirExists, entries)
    case Err(e) => Err(e)
    case Ok(screens) => Ok(FindByName(screens, LegacyScreenName(path)).Some?)
  }

  /** `ServerInformation`. */
  class ServerInformation {
    const path: seq<string>
    var data: Dict
    var jar: string
    /** The `@cached_property` `screen_handle`: None until it is first read. */
    var handle: Option<Option<Screen>>

    /** The first statement of `__init__`: the absolute path and an empty dictionary. */
    constructor (cwd: string, p: string)
      ensures path == LegacyPath(cwd, p) && data == [] && jar == "" && handle == None
    {
      path := LegacyPath(cwd, p);
      data := [];
      jar := "";
      handle := None;
    }

    /** `screen_handle`: computed from the session listing once, then served from the cache. */
    method ScreenHandle(dirExists: bool, entries: seq<string>) returns (r: Result<Option<Screen>, Failure>)
      modifies this`handle
      ensures old(handle).Some? ==> r == Ok(old(handle).value) && handle == old(handle)
      ensures old(handle).None? ==>
        match RunningScreens(dirExists, entries)
        case Err(e) => r == Err(e) && handle == old(handle)
        case Ok(ss) => r == Ok(FindByName(ss, LegacyScreenName(path))) && handle == Some(r.value)
    {
      if handle.Some? {
        return Ok(handle.value);
      }
      var screens := RunningScreens(dirExists, entries);
      if screens.Err? {
        return Err(screens.error);
      }
      var found := FindByName(screens.value, LegacyScreenName(path));
      handle := Some(found);
      r := Ok(found);
    }

    /**
     * `running`: a cached answer is returned whatever the listing now says;
     * otherwise it is `Running` on the listing, and the session is cached.
     */
    method IsRunning(dirExists: bool, entries: seq<string>) returns (r: Result<bool, Failure>)
      modifies this`handle
      ensures old(handle).Some? ==> r == Ok(old(handle).value.Some?) && handle == old(handle)
      ensures old(handle).None? ==> r == Running(path, dirExists, entries)
      ensures old(handle).None? ==>
        match RunningScreens(dirExists, entries)
        case Err(e) => handle == old(handle)
        case Ok(ss) => handle == Some(FindByName(ss, LegacyScreenName(path))) && r == Ok(handle.value.Some?)
    {
      var h := ScreenHandle(dirExists, entries);
      if h.Err? {
        return Err(h.error);
      }
      r := Ok(h.value.Some?);
    }

    /** `_load_data`: the pairs of the data file, or nothing when it is missing. */
    method LoadData(fs: Fs)
      modifies this`data
      ensures data == Server.StoredData(fs.files, path)
    {
      data := [];
      var f := Server.DataFile(path);
      if f !in fs.files {
        return;
      }
      data := Properties.ParseLines(ReadLines(fs.files[f]));
    }

    /** `save_data`: one `key=value` line per pair. */
    method SaveData(fs: Fs)
      modifies fs
      ensures fs.files == old(fs.files)[Server.DataFile(path) := Render(data)] && fs.dirs == old(fs.dirs)
    {
      fs.Write(Server.DataFile(path), Render(data));
    }

    /** `_locate_jar`: the same rule as the current package's. */
    method LocateJar(fs: Fs, jars: seq<string>, choice: Option<nat>) returns (r: Result<string, Failure>)
      requires DistinctKeys(data)
      requires choice.Some? ==> choice.value < |jars|
      modifies this`data
      ensures Server.Located(fs.files, PathString(path), old(data), jars, choice)
              == if r.Ok? then Ok((r.value, data)) else Err(r.error)
    {
      var dir := PathString(path);
      var stored := Get(data, "jar");
      if stored.Some? {
        var j := JoinPath(dir, stored.value);
        if fs.IsFile(j) {
          return Ok(j);
        }
      }
      if |jars| == 0 {
        return Err(Exit(1, NoJar));
      }
      if |jars| == 1 {
        data := Put(data, "jar", jars[0]);
        return Ok(JoinPath(dir, jars[0]));
      }
      if choice.None? {
        return Err(Exit(1, PromptAborted));
      }
      data := Put(data, "jar", jars[choice.value]);
      r := Ok(JoinPath(dir, jars[choice.value]));
    }

    /** `register`: the FileNotFoundError of the open, if it raised one. */
    method Register(fs: Fs, cwd: string) returns (err: Option<Failure>)
      modifies fs
      ensures var o := RegisterOutcome(old(fs.files), old(fs.dirs), LegacyRc(cwd), PathString(path));
        (o.Ok? ==> err == None && fs.files == o.value)
        && (o.Err? ==> err == Some(o.error) && fs.files == old(fs.files))
      ensures fs.dirs == old(fs.dirs)
    {
      var rc := LegacyRc(cwd);
      var servers := if fs.IsFile(rc) then ReadLines(fs.files[rc]) else [];
      if PathString(path) in servers {
        return None;
      }
      var ok := fs.Append(rc, PathString(path) + "\n");
      err := if ok then None else Some(FileNotFound);
    }

    /**
     * `start`: the argv handed to `subprocess.run`. Unlike the current
     * package, it does not forget the cached `screen_handle`.
     */
    method Start(ram: Option<string>) returns (r: Result<seq<string>, Failure>)
      ensures r == StartArgv(path, data, jar, ram)
      ensures handle == old(handle)
    {
      r := StartArgv(path, data, jar, ram);
    }
  }

  /**
   * `running` read before `start` keeps its answer after it: however the
   * session listing changes, the object that was not running still says so.
   */
  method StaleAfterStart(s: ServerInformation, ram: Option<string>, dirExists: bool, before: seq<string>, after: seq<string>)
      returns (wasRunning: Result<bool, Failure>, isRunning: Result<bool, Failure>)
    modifies s`handle
    ensures old(s.handle).None? && RunningScreens(dirExists, before).Ok? ==> isRunning == wasRunning
    ensures old(s.handle).None? ==> wasRunning == Running(s.path, dirExists, before)
  {
    wasRunning := s.IsRunning(dirExists, before);
    var argv := s.Start(ram);
    isRunning := s.IsRunning(dirExists, after);
  }

  /**
   * `ServerInformation(p)` as a value: the data and jar of the constructed
   * server, or the exception, with the files afterwards. A failure to
   * locate the jar leaves the files untouched; a failure to open the
   * registry comes after the data file was saved.
   */
  function InitOutcome(files: map<string, string>, dirs: set<string>, cwd: string, p: string, jars: seq<string>, choice: Option<nat>)
    : (Result<(Dict, string), Failure>, map<string, string>)
    requires choice.Some? ==> choice.value < |jars|
  {
    var path := LegacyPath(cwd, p);
    match Server.Located(files, PathString(path), Server.StoredData(files, path), jars, choice)
    case Err(e) => (Err(e), files)
    case Ok((jar, data)) =>
      var saved := files[Server.DataFile(path) := Render(data)];
      match RegisterOutcome(saved, dirs, LegacyRc(cwd), PathString(path))
      case Err(e) => (Err(e), saved)
      case Ok(after) => (Ok((data, jar)), after)
  }

  /** The metadata file of a server is never the legacy registry: their names end differently. */
  lemma DataFileIsNotLegacyRc(path: seq<string>, cwd: string)
    ensures Server.DataFile(path) != LegacyRc(cwd)
  {
    var d, rc := Server.DataFile(path), LegacyRc(cwd);
    assert d[|d| - 1] == (d[|d| - |"/" + Server.DataFileName|..])[|"/" + Server.DataFileName| - 1];
    assert rc[|rc| - 1] == (rc[|rc| - |".mcsrvrc"|..])[|".mcsrvrc"| - 1];
  }

  /**
   * Without a directory named `~` in the working directory (and no
   * registry in it), every construction that located its jar raises
   * FileNotFoundError, after saving the data file.
   */
  lemma InitFailsWithoutTildeDir(files: map<string, string>, dirs: set<string>, cwd: string, p: string,
                                 jars: seq<string>, choice: Option<nat>)
    requires choice.Some? ==> choice.value < |jars|
    requires cwd != [] && !EndsWith(cwd, "/")
    requires LegacyRc(cwd) !in files && JoinPath(cwd, "~") !in dirs
    requires Server.Located(files, PathString(LegacyPath(cwd, p)), Server.StoredData(files, LegacyPath(cwd, p)), jars, choice).Ok?
    ensures var path := LegacyPath(cwd, p);
      var l := Server.Located(files, PathString(path), Server.StoredData(files, path), jars, choice);
      InitOutcome(files, dirs, cwd, p, jars, choice) == (Err(FileNotFound), files[Server.DataFile(path) := Render(l.value.1)])
  {
    var path := LegacyPath(cwd, p);
    DataFileIsNotLegacyRc(path, cwd);
    var l := Server.Located(files, PathString(path), Server.StoredData(files, path), jars, choice);
    RegisterWithoutTildeDir(files[Server.DataFile(path) := Render(l.value.1)], dirs, cwd, PathString(path));
  }

  /** Without the registry and without the `~` directory it would go in, registering raises FileNotFoundError. */
  lemma RegisterWithoutTildeDir(files: map<string, string>, dirs: set<string>, cwd: string, s: string)
    requires cwd != [] && !EndsWith(cwd, "/")
    requires LegacyRc(cwd) !in files && JoinPath(cwd, "~") !in dirs
    ensures RegisterOutcome(files, dirs, LegacyRc(cwd), s) == Err(FileNotFound)
  {
    var tilde := JoinPath(cwd, "~");
    assert tilde == cwd + "/~";
    assert !EndsWith(tilde, "/") by {
      assert tilde[|tilde| - 1] == '~';
    }
    ParentOfJoin(tilde, ".mcsrvrc");
  }

  /** `ServerInformation(p)`: load, locate, save, register, in that order. */
  method New(fs: Fs, cwd: string, p: string, jars: seq<string>, choice: Option<nat>) returns (r: Result<ServerInformation, Failure>)
    requires choice.Some? ==> choice.value < |jars|
    modifies fs
    ensures var (o, after) := InitOutcome(old(fs.files), old(fs.dirs), cwd, p, jars, choice);
      fs.files == after
      && (o.Err? ==> r == Err(o.error))
      && (o.Ok? ==> r.Ok? && fresh(r.value) && r.value.path == LegacyPath(cwd, p)
                    && r.value.data == o.value.0 && r.value.jar == o.value.1)
    ensures fs.dirs == old(fs.dirs)
  {
    var s, j := LoadAndLocate(fs, cwd, p, jars, choice);
    if j.Err? {
      return Err(j.error);
    }
    s.jar := j.value;
    var err := SaveAndRegister(s, fs, cwd);
    if err.Some? {
      return Err(err.value);
    }
    r := Ok(s);
  }

  /** The first half of `ServerInformation(p)`: a new server with its data loaded and its jar located. */
  method LoadAndLocate(fs: Fs, cwd: string, p: string, jars: seq<string>, choice: Option<nat>)
    returns (s: ServerInformation, j: Result<string, Failure>)
    requires choice.Some? ==> choice.value < |jars|
    ensures fresh(s) && s.path == LegacyPath(cwd, p) && s.jar == ""
    ensures Server.Located(fs.files, PathString(s.path), Server.StoredData(fs.files, s.path), jars, choice)
            == if j.Ok? then Ok((j.value, s.data)) else Err(j.error)
  {
    s := new ServerInformation(cwd, p);
    s.LoadData(fs);
    ghost var l := Server.Located(fs.files, PathString(s.path), s.data, jars, choice);
    j := s.LocateJar(fs, jars, choice);
    assert l == if j.Ok? then Ok((j.value, s.data)) else Err(j.error);
  }

  /** The second half of `ServerInformation(p)`: the data file saved, then the server registered. */
  method SaveAndRegister(s: ServerInformation, fs: Fs, cwd: string) returns (err: Option<Failure>)
    modifies fs
    ensures var saved := old(fs.files)[Server.DataFile(s.path) := Render(s.data)];
      var o := RegisterOutcome(saved, old(fs.dirs), LegacyRc(cwd), PathString(s.path));
      (o.Ok? ==> err == None && fs.files == o.value)
      && (o.Err? ==> err == Some(o.error) && fs.files == saved)
    ensures fs.dirs == old(fs.dirs)
  {
    s.SaveData(fs);
    err := s.Register(fs, cwd);
  }

  /** `from_cwd`: the server whose directory is the working directory. */
  method FromCwd(fs: Fs, cwd: string, jars: seq<string>, choice: Option<nat>) returns (r: Result<ServerInformation, Failure>)
    requires choice.Some? ==> choice.value < |jars|
    modifies fs
    ensures var (o, after) := InitOutcome(old(fs.files), old(fs.dirs), cwd, cwd, jars, choice);
      fs.files == after
      && (o.Err? ==> r == Err(o.error))
      && (o.Ok? ==> r.Ok? && fresh(r.value) && r.value.path == LegacyPath(cwd, cwd)
                    && r.value.data == o.value.0 && r.value.jar == o.value.1)
    ensures fs.dirs == old(fs.dirs)
  {
    r := New(fs, cwd, cwd, jars, choice);
  }
}
