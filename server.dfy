/**
 * A server directory of the current package (src/mcsrv/server.py): its
 * cleaned absolute path, the `.mcsrvmeta` dictionary, the located jar and
 * the cached screen session. Opening a directory cleans the path, insists
 * it is a directory, loads the metadata, locates the jar (asking when the
 * directory holds several) and saves the metadata again.
 *
 * Oracles: `jars` is the `*.jar` listing of the directory in the order the
 * glob yields it, `choice` is the index the jar prompt returned (None when
 * it was cancelled), `which` is what `shutil.which` resolved, and
 * `dirExists`/`entries` are the screen socket directory listing.
 */
module Server {
  import opened Wrappers
  import opened Text
  import opened Paths
  import opened Metadata
  import opened Ram
  import opened Sessions
  import opened FileSystem

  const DataFileName := ".mcsrvmeta"
  const DefaultRam := "4G"
  const DefaultJava := "java"

  /** `id`: the directory name, lower-cased. */
  function ServerId(path: seq<string>): (r: string)
    ensures |r| == |Name(path)|
    ensures forall i :: 0 <= i < |r| ==> !('A' <= r[i] <= 'Z')
  {
    Lower(Name(path))
  }

  /** `screen_name`: the session a started server runs in. */
  function ScreenNameOf(path: seq<string>): (r: string)
    ensures StartsWith(r, "mc-") && r[3..] == ServerId(path)
  {
    "mc-" + ServerId(path)
  }

  /** `datafile`. */
  function DataFile(path: seq<string>): (r: string)
    ensures EndsWith(r, "/" + DataFileName)
  {
    var dir := PathString(path);
    if EndsWith(dir, "/") then
      assert EndsWith(dir + DataFileName, "/" + DataFileName) by {
        assert (dir + DataFileName)[|dir| - 1] == '/';
        assert (dir + DataFileName)[|dir + DataFileName| - |"/" + DataFileName|..] == "/" + DataFileName;
      }
      JoinPath(dir, DataFileName)
    else
      assert (dir + "/" + DataFileName)[|dir|..] == "/" + DataFileName;
      JoinPath(dir, DataFileName)
  }

  /** `d.get(k, default)`. */
  function GetOr(d: Dict, k: string, default: string): (r: string)
    ensures Get(d, k).Some? ==> r == Get(d, k).value
    ensures Get(d, k).None? ==> r == default
  {
    match Get(d, k) case Some(v) => v case None => default
  }

  /** The `ram` property: the stored amount (4G when none is stored), normalised. */
  function RamOf(d: Dict): Result<string, Failure> {
    CheckRamArgument(GetOr(d, "ram", DefaultRam))
  }

  /** The `autostarts` property: only the stored text "true" counts. */
  predicate AutostartsOf(d: Dict) {
    Get(d, "autostart") == Some("true")
  }

  /** The `java_bin_path` property. */
  function JavaBinOf(d: Dict): string {
    GetOr(d, "java-bin", DefaultJava)
  }

  /**
   * Each property reads back what its setter stored under its key, and a
   * setter of one key leaves the other properties as they were. The `ram`
   * property normalises again what `ram =` stored already normalised.
   */
  lemma SettingsReadBack(d: Dict, k: string, v: string)
    requires DistinctKeys(d)
    ensures RamOf(Put(d, k, v)) == if k == "ram" then CheckRamArgument(v) else RamOf(d)
    ensures JavaBinOf(Put(d, k, v)) == if k == "java-bin" then v else JavaBinOf(d)
    ensures AutostartsOf(Put(d, k, v)) <==> if k == "autostart" then v == "true" else AutostartsOf(d)
  {
    PutGet(d, k, v, "ram");
    PutGet(d, k, v, "java-bin");
    PutGet(d, k, v, "autostart");
  }

  /** With nothing stored a server runs with 4 GiB, `java` from the PATH and no autostart. */
  lemma Defaults()
    ensures RamOf([]) == Ok("4G") && JavaBinOf([]) == "java" && !AutostartsOf([])
  {
    CheckRamArgumentExamples();
  }

  /** The directory `Server(p)` opens: None-free cleaning, and a directory that exists. */
  function Resolve(dirs: set<string>, cwd: string, raw: string): (r: Result<seq<string>, Failure>)
    ensures r.Ok? ==> Plain(r.value) && PathString(r.value) in dirs
    ensures r.Err? ==> r.error == IndexError || r.error == FileNotFound
  {
    var parts := Parts(Absolute(cwd, raw));
    CleanedIsPlain(parts);
    match Cleaned(parts)
    case None => Err(IndexError)
    case Some(c) => if PathString(c) in dirs then Ok(c) else Err(FileNotFound)
  }

  /** `_load_data`: the pairs of the data file, nothing when there is no data file. */
  function StoredData(files: map<string, string>, path: seq<string>): (r: Dict)
    ensures DistinctKeys(r)
  {
    if DataFile(path) in files then Parse(ReadLines(files[DataFile(path)])) else []
  }

  /**
   * `_locate_jar`: the jar's path and the dictionary afterwards. A stored
   * name that is still a file wins; else the only jar is taken, or the
   * one the prompt picked among several, and its name is stored.
   */
  function Located(files: map<string, string>, dir: string, data: Dict, jars: seq<string>, choice: Option<nat>)
    : (r: Result<(string, Dict), Failure>)
    requires DistinctKeys(data)
    requires choice.Some? ==> choice.value < |jars|
    ensures r.Ok? ==>
      DistinctKeys(r.value.1) && Get(r.value.1, "jar").Some?
      && r.value.0 == JoinPath(dir, Get(r.value.1, "jar").value)
    ensures r.Err? ==> r.error.Exit? && r.error.code == 1
  {
    var stored := Get(data, "jar");
    if stored.Some? && JoinPath(dir, stored.value) in files then
      Ok((JoinPath(dir, stored.value), data))
    else if |jars| == 0 then
      Err(Exit(1, NoJar))
    else if |jars| == 1 then
      PutGet(data, "jar", jars[0], "jar");
      Ok((JoinPath(dir, jars[0]), Put(data, "jar", jars[0])))
    else
      match choice
      case None => Err(Exit(1, PromptAborted))
      case Some(i) =>
        PutGet(data, "jar", jars[i], "jar");
        Ok((JoinPath(dir, jars[i]), Put(data, "jar", jars[i])))
  }

  /**
   * The cases of `_locate_jar`: a stored name that is still a file is kept
   * with the dictionary unchanged; otherwise it fails exactly when there is
   * no jar, or several and the prompt was cancelled, and on success the
   * single or chosen jar is recorded under "jar".
   */
  lemma LocatedCases(files: map<string, string>, dir: string, data: Dict, jars: seq<string>, choice: Option<nat>)
    requires DistinctKeys(data)
    requires choice.Some? ==> choice.value < |jars|
    ensures var r := Located(files, dir, data, jars, choice);
      var s := Get(data, "jar");
      var kept := s.Some? && JoinPath(dir, s.value) in files;
      (kept ==> r == Ok((JoinPath(dir, s.value), data)))
      && (r.Err? <==> !kept && (|jars| == 0 || (|jars| > 1 && choice.None?)))
      && (!kept && |jars| == 0 ==> r == Err(Exit(1, NoJar)))
      && (!kept && |jars| > 1 && choice.None? ==> r == Err(Exit(1, PromptAborted)))
      && (r.Ok? && !kept ==>
            var jar := if |jars| == 1 then jars[0] else jars[choice.value];
            r == Ok((JoinPath(dir, jar), Put(data, "jar", jar))))
  {
  }

  /**
   * Once a jar has been located and its name stored, locating again while
   * that file exists finds the same jar without consulting the listing or
   * the prompt.
   */
  lemma LocatedAgainIsStable(files: map<string, string>, dir: string, data: Dict, jars: seq<string>, choice: Option<nat>,
                             jars': seq<string>, choice': Option<nat>)
    requires DistinctKeys(data)
    requires choice.Some? ==> choice.value < |jars|
    requires choice'.Some? ==> choice'.value < |jars'|
    requires Located(files, dir, data, jars, choice).Ok?
    requires Located(files, dir, data, jars, choice).value.0 in files
    ensures Located(files, dir, Located(files, dir, data, jars, choice).value.1, jars', choice')
            == Located(files, dir, data, jars, choice)
  {
  }

  /** A directory with no stored jar and exactly one jar never prompts. */
  lemma LocatedSingleJar(files: map<string, string>, dir: string, data: Dict, jar: string, choice: Option<nat>)
    requires DistinctKeys(data) && Get(data, "jar").None?
    requires choice.Some? ==> choice.value < 1
    ensures Located(files, dir, data, [jar], choice) == Ok((JoinPath(dir, jar), data + [("jar", jar)]))
  {
    assert "jar" !in Keys(data);
  }

  /** What `Server(p)` ends with: the directory, the dictionary and the jar. */
  datatype Opened = Opened(path: seq<string>, data: Dict, jar: string)

  /**
   * The working directory and, per directory, the `*.jar` listing (none
   * when absent) and the index the jar prompt answers; no answer, or one
   * outside the listing, is a cancelled prompt.
   */
  datatype Env = Env(cwd: string, globs: map<string, seq<string>>, choices: map<string, nat>)

  function JarGlob(env: Env, dir: string): seq<string> {
    if dir in env.globs then env.globs[dir] else []
  }

  function JarChoice(env: Env, dir: string): (r: Option<nat>)
    ensures r.Some? ==> r.value < |JarGlob(env, dir)|
  {
    if dir in env.choices && env.choices[dir] < |JarGlob(env, dir)| then Some(env.choices[dir]) else None
  }

  /** The outcome of `Server(p)` on a filesystem state. */
  function OpenOutcome(files: map<string, string>, dirs: set<string>, env: Env, raw: string): (r: Result<Opened, Failure>)
    ensures r.Ok? ==> Plain(r.value.path) && PathString(r.value.path) in dirs && DistinctKeys(r.value.data)
    ensures r.Err? && r.error == FileNotFound <==> Resolve(dirs, env.cwd, raw) == Err(FileNotFound)
  {
    match Resolve(dirs, env.cwd, raw)
    case Err(e) => Err(e)
    case Ok(p) =>
      var dir := PathString(p);
      match Located(files, dir, StoredData(files, p), JarGlob(env, dir), JarChoice(env, dir))
      case Err(e) => Err(e)
      case Ok((jar, d)) => Ok(Opened(p, d, jar))
  }

  /** Once the directory is resolved, opening succeeds or fails as locating the jar does. */
  lemma OpenOutcomeResolved(files: map<string, string>, dirs: set<string>, env: Env, raw: string, p: seq<string>)
    requires Resolve(dirs, env.cwd, raw) == Ok(p)
    ensures var dir := PathString(p);
      var l := Located(files, dir, StoredData(files, p), JarGlob(env, dir), JarChoice(env, dir));
      OpenOutcome(files, dirs, env, raw) == if l.Ok? then Ok(Opened(p, l.value.1, l.value.0)) else Err(l.error)
  {
  }

  /** The files after a successful `Server(p)`: its data file holds the dictionary. */
  function AfterOpen(files: map<string, string>, o: Opened): map<string, string> {
    files[DataFile(o.path) := Render(o.data)]
  }

  class Server {
    var path: seq<string>
    var data: Dict
    var jar: string
    /** The cached `screen_handle`: None until it has been computed. */
    var handle: Option<Option<Screen>>

    ghost predicate Valid()
      reads this
    {
      DistinctKeys(data)
    }

    constructor (p: seq<string>)
      ensures Valid()
      ensures path == p && data == [] && jar == "" && handle == None
    {
      path := p;
      data := [];
      jar := "";
      handle := None;
    }

    function Id(): string
      reads this
    {
      ServerId(path)
    }

    function ScreenName(): string
      reads this
    {
      ScreenNameOf(path)
    }

    /** `_load_data`. */
    method LoadData(fs: Fs)
      modifies this`data
      ensures Valid()
      ensures data == StoredData(fs.files, path)
    {
      data := [];
      var f := DataFile(path);
      if f !in fs.files {
        return;
      }
      var lines := ReadLines(fs.files[f]);
      var i := 0;
      while i < |lines|
        invariant 0 <= i <= |lines|
        invariant DistinctKeys(data) && data == Metadata.Fold([], EntriesOf(lines)[..i])
      {
        ParseStep(lines, i, data);
        var e := LineEntry(lines[i]);
        if e.Some? {
          data := Put(data, e.value.0, e.value.1);
        }
        i := i + 1;
      }
      ParseDone(lines);
    }

    /** `save_data`: the data file is rewritten with one `key=value` line per pair. */
    method SaveData(fs: Fs)
      modifies fs
      ensures fs.files == old(fs.files)[DataFile(path) := Render(data)] && fs.dirs == old(fs.dirs)
    {
      fs.Write(DataFile(path), Render(data));
    }

    /**
     * The part of `__init__` after the directory check: load the data
     * file, locate the jar and save the data file.
     */
    method Init(fs: Fs, jars: seq<string>, choice: Option<nat>) returns (r: Result<string, Failure>)
      requires choice.Some? ==> choice.value < |jars|
      modifies this`data, this`jar, fs
      ensures Valid()
      ensures var l := Located(old(fs.files), PathString(path), StoredData(old(fs.files), path), jars, choice);
        (l.Err? ==> r == Err(l.error) && fs.files == old(fs.files))
        && (l.Ok? ==>
              r.Ok? && data == l.value.1 && jar == l.value.0
              && fs.files == old(fs.files)[DataFile(path) := Render(data)])
      ensures fs.dirs == old(fs.dirs)
    {
      LoadData(fs);
      ghost var l := Located(fs.files, PathString(path), data, jars, choice);
      r := LocateJar(fs, jars, choice);
      assert l == if r.Ok? then Ok((r.value, data)) else Err(r.error);
      if r.Err? {
        return;
      }
      jar := r.value;
      SaveData(fs);
    }

    /** `_locate_jar`. */
    method LocateJar(fs: Fs, jars: seq<string>, choice: Option<nat>) returns (r: Result<string, Failure>)
      requires Valid()
      requires choice.Some? ==> choice.value < |jars|
      modifies this`data
      ensures Valid()
      ensures Located(fs.files, PathString(path), old(data), jars, choice)
              == if r.Ok? then Ok((r.value, data)) else Err(r.error)
      ensures r.Err? ==> data == old(data)
    {
      var dir := PathString(path);
      if "jar" in Keys(data) {
        var j := JoinPath(dir, Get(data, "jar").value);
        if fs.IsFile(j) {
          return Ok(j);
        }
      }
      if |jars| == 0 {
        return Err(Exit(1, NoJar));
      }
      if |jars| == 1 {
        data := Put(data, "jar", jars[0]);
        return Ok(JoinPath(dir, jars[0]));
      }
      if choice.None? {
        return Err(Exit(1, PromptAborted));
      }
      data := Put(data, "jar", jars[choice.value]);
      r := Ok(JoinPath(dir, jars[choice.value]));
    }

    /** The `ram` setter: the normalised amount is stored and saved; an invalid one exits. */
    method SetRam(fs: Fs, val: string) returns (r: Option<Failure>)
      requires Valid()
      modifies this`data, fs
      ensures Valid()
      ensures CheckRamArgument(val).Err? ==>
        r == Some(CheckRamArgument(val).error) && data == old(data) && fs.files == old(fs.files)
      ensures CheckRamArgument(val).Ok? ==>
        r.None? && data == Put(old(data), "ram", CheckRamArgument(val).value)
        && fs.files == old(fs.files)[DataFile(path) := Render(data)]
      ensures fs.dirs == old(fs.dirs)
    {
      var checked := CheckRamArgument(val);
      if checked.Err? {
        return Some(checked.error);
      }
      data := Put(data, "ram", checked.value);
      SaveData(fs);
      r := None;
    }

    /** The `autostarts` setter. */
    method SetAutostarts(fs: Fs, val: bool)
      requires Valid()
      modifies this`data, fs
      ensures Valid()
      ensures AutostartsOf(data) == val
      ensures data == Put(old(data), "autostart", if val then "true" else "false")
      ensures fs.files == old(fs.files)[DataFile(path) := Render(data)] && fs.dirs == old(fs.dirs)
    {
      data := Put(data, "autostart", if val then "true" else "false");
      PutGet(old(data), "autostart", if val then "true" else "false", "autostart");
      SaveData(fs);
    }

    /** The `java_bin_path` setter: `which` is what the given name resolved to. */
    method SetJavaBinPath(fs: Fs, val: string, which: Option<string>) returns (r: Option<Failure>)
      requires Valid()
      modifies this`data, fs
      ensures Valid()
      ensures which.None? || which == Some("") ==>
        r == Some(Exit(1, NotExecutable)) && data == old(data) && fs.files == old(fs.files)
      ensures which.Some? && which.value != "" ==>
        r.None? && data == Put(old(data), "java-bin", which.value) && JavaBinOf(data) == which.value
        && fs.files == old(fs.files)[DataFile(path) := Render(data)]
      ensures fs.dirs == old(fs.dirs)
    {
      if which.None? || which.value == "" {
        return Some(Exit(1, NotExecutable));
      }
      data := Put(data, "java-bin", which.value);
      PutGet(old(data), "java-bin", which.value, "java-bin");
      SaveData(fs);
      r := None;
    }

    /** `screen_handle`: computed from the socket listing once, then served from the cache. */
    method ScreenHandle(dirExists: bool, entries: seq<string>) returns (r: Result<Option<Screen>, Failure>)
      modifies this`handle
      ensures old(handle).Some? ==> r == Ok(old(handle).value) && handle == old(handle)
      ensures old(handle).None? ==>
        match RunningScreens(dirExists, entries)
        case Err(e) => r == Err(e) && handle == old(handle)
        case Ok(ss) => r == Ok(FindByName(ss, ScreenName())) && handle == Some(r.value)
    {
      if handle.Some? {
        return Ok(handle.value);
      }
      var screens := RunningScreens(dirExists, entries);
      if screens.Err? {
        return Err(screens.error);
      }
      var found := FindByName(screens.value, ScreenName());
      handle := Some(found);
      r := Ok(found);
    }

    /** `running`: a session named after the server exists. */
    method Running(dirExists: bool, entries: seq<string>) returns (r: Result<bool, Failure>)
      modifies this`handle
      ensures old(handle).Some? ==> r == Ok(old(handle).value.Some?) && handle == old(handle)
      ensures old(handle).None? ==>
        match RunningScreens(dirExists, entries)
        case Err(e) => r == Err(e) && handle == old(handle)
        case Ok(ss) => handle == Some(FindByName(ss, ScreenName())) && r == Ok(handle.value.Some?)
      ensures old(handle).None? && RunningScreens(dirExists, entries).Ok? ==>
        r == Ok(exists i :: 0 <= i < |RunningScreens(dirExists, entries).value|
                     && RunningScreens(dirExists, entries).value[i].name == ScreenName())
    {
      var h := ScreenHandle(dirExists, entries);
      if h.Err? {
        return Err(h.error);
      }
      r := Ok(h.value.Some?);
    }

    /** `send_command`. */
    function SendCommand(cmd: string, execute: bool): (argv: seq<string>)
      reads this
      ensures argv == SendCommandArgv(ScreenName(), cmd, execute)
    {
      SendCommandArgv(ScreenName(), cmd, execute)
    }

    /**
     * `start`: the command line run in the server directory. A given amount
     * overrides the stored one; an invalid amount or a Java binary `which`
     * cannot resolve exits. Starting forgets the cached session.
     */
    method Start(ram: Option<string>, which: Option<string>) returns (r: Result<seq<string>, Failure>)
      modifies this`handle
      ensures var amount := StartRam(ram, data);
        (amount.Err? ==> r == Err(amount.error) && handle == old(handle))
        && (amount.Ok? && which.None? ==> r == Err(Exit(1, NotExecutable)) && handle == old(handle))
        && (amount.Ok? && which.Some? ==>
             handle == None && r == Ok(StartArgv(ScreenName(), JavaBinOf(data), amount.value, LastSegment(jar))))
    {
      var amount: Result<string, Failure>;
      if ram.Some? && ram.value != "" {
        amount := CheckRamArgument(ram.value);
      } else {
        amount := RamOf(data);
      }
      if amount.Err? {
        return Err(amount.error);
      }
      if which.None? {
        return Err(Exit(1, NotExecutable));
      }
      handle := None;
      var cmd := ["screen", "-d", "-S", ScreenName(), "-m", JavaBinOf(data), "-Xmx" + amount.value, "-jar", LastSegment(jar)];
      r := Ok(cmd);
    }
  }

  /** The amount `start` uses: a non-empty argument, else the stored amount. */
  function StartRam(ram: Option<string>, data: Dict): Result<string, Failure> {
    if ram.Some? && ram.value != "" then CheckRamArgument(ram.value) else RamOf(data)
  }

  /** The command line `start` runs: a detached screen session running the jar. */
  function StartArgv(screenName: string, java: string, amount: string, jarName: string): (argv: seq<string>)
    ensures |argv| == 9 && argv[..5] == ["screen", "-d", "-S", screenName, "-m"]
    ensures argv[5] == java && argv[6] == "-Xmx" + amount && argv[7..] == ["-jar", jarName]
  {
    ["screen", "-d", "-S", screenName, "-m", java, "-Xmx" + amount, "-jar", jarName]
  }

  /** A given amount wins over the stored one; no amount falls back to it; none stored means 4G. */
  lemma StartRamChoice(ram: Option<string>, data: Dict)
    ensures ram.Some? && ram.value != "" ==> StartRam(ram, data) == CheckRamArgument(ram.value)
    ensures (ram.None? || ram == Some("")) && Get(data, "ram").None? ==> StartRam(ram, data) == Ok("4G")
    ensures (ram.None? || ram == Some("")) && Get(data, "ram").Some? ==>
      StartRam(ram, data) == CheckRamArgument(Get(data, "ram").value)
  {
    CheckRamArgumentExamples();
  }

  /** The first lines of `Server(p)`: clean the absolute path and insist on a directory. */
  method ResolveDir(fs: Fs, cwd: string, raw: string) returns (r: Result<seq<string>, Failure>)
    ensures r == Resolve(fs.dirs, cwd, raw)
  {
    var parts := Parts(Absolute(cwd, raw));
    var cleaned := CleanPath(parts);
    assert cleaned == Cleaned(parts);
    if cleaned.None? {
      return Err(IndexError);
    }
    if !fs.IsDir(PathString(cleaned.value)) {
      return Err(FileNotFound);
    }
    r := Ok(cleaned.value);
  }

  /** `Server(p)`. */
  method Open(fs: Fs, env: Env, raw: string) returns (r: Result<Server, Failure>)
    modifies fs
    ensures var o := OpenOutcome(old(fs.files), old(fs.dirs), env, raw);
      (o.Err? ==> r == Err(o.error) && fs.files == old(fs.files))
      && (o.Ok? ==>
           r.Ok? && fresh(r.value) && r.value.Valid() && r.value.handle == None
           && r.value.path == o.value.path && r.value.data == o.value.data && r.value.jar == o.value.jar
           && fs.files == AfterOpen(old(fs.files), o.value))
    ensures fs.dirs == old(fs.dirs)
  {
    var resolved := ResolveDir(fs, env.cwd, raw);
    if resolved.Err? {
      return Err(resolved.error);
    }
    OpenOutcomeResolved(fs.files, fs.dirs, env, raw, resolved.value);
    r := OpenAt(fs, env, resolved.value);
  }

  /** `Server(p)` once `p` names an existing directory: a new object, loaded and with its jar located. */
  method OpenAt(fs: Fs, env: Env, p: seq<string>) returns (r: Result<Server, Failure>)
    modifies fs
    ensures var dir := PathString(p);
      var l := Located(old(fs.files), dir, StoredData(old(fs.files), p), JarGlob(env, dir), JarChoice(env, dir));
      (l.Err? ==> r == Err(l.error) && fs.files == old(fs.files))
      && (l.Ok? ==>
           r.Ok? && fresh(r.value) && r.value.Valid() && r.value.handle == None
           && r.value.path == p && r.value.data == l.value.1 && r.value.jar == l.value.0
           && fs.files == old(fs.files)[DataFile(p) := Render(l.value.1)])
    ensures fs.dirs == old(fs.dirs)
  {
    var s := new Server(p);
    var dir := PathString(p);
    ghost var l := Located(fs.files, dir, StoredData(fs.files, p), JarGlob(env, dir), JarChoice(env, dir));
    var j := s.Init(fs, JarGlob(env, dir), JarChoice(env, dir));
    if j.Err? {
      assert l.Err?;
      return Err(j.error);
    }
    assert l.Ok? && s.data == l.value.1 && s.jar == l.value.0;
    r := Ok(s);
  }

}
