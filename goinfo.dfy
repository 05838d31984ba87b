/**
 * The early Go CLI's server information (subcommands/info.go) and its
 * registry of server directories (util/rc.go).
 *
 * A server is the working directory: its id is the last path element and
 * its metadata is `.mcsrvmeta` inside it, read into a Go map. The registry
 * is `.mcsrvrc` in the home directory, one path per line, read with
 * `strings.Split`, so a newline-terminated registry ends in an empty entry.
 * The registry is never created: saving a path into a missing registry
 * fails before the append that would create it.
 */
module GoInfo {
  import opened Wrappers
  import opened Text
  import opened Metadata
  import opened FileSystem

  /** The errors the Go code returns (the io and prompt errors by kind). */
  datatype GoError = ReadError | ErrNoJarFound | SelectError | ErrDataFileNotExisting

  const MetaName := ".mcsrvmeta"
  const RcName := ".mcsrvrc"

  /**
   * `path.Join` of a directory and a name: the two joined by exactly one
   * '/'. Unlike Python's joinpath, an absolute name does not replace the
   * directory.
   */
  function GoJoin(dir: string, name: string): (r: string)
    ensures name == [] ==> r == dir
    ensures dir == [] ==> r == name
    ensures dir != [] && name != [] ==> StartsWith(r, dir) && EndsWith(r, name) && |r| > |dir|
    ensures dir != [] && name != [] && !EndsWith(dir, "/") ==> r == dir + "/" + name
  {
    if name == [] then dir
    else if dir == [] then name
    else if EndsWith(dir, "/") then dir + name
    else dir + "/" + name
  }

  /** `DataFile`: the metadata file inside the server directory. */
  function DataFilePath(dir: string): (r: string)
    ensures dir != [] && !EndsWith(dir, "/") ==> r == dir + "/" + MetaName
    ensures dir == [] ==> r == MetaName
  {
    GoJoin(dir, MetaName)
  }

  /** Put on a dictionary is an update of the map it denotes. */
  lemma ToMapPut(d: Dict, k: string, v: string)
    requires DistinctKeys(d)
    ensures ToMap(Put(d, k, v)) == ToMap(d)[k := v]
  {
    var l, r := ToMap(Put(d, k, v)), ToMap(d)[k := v];
    forall k' ensures (k' in l) == (k' in r) && (k' in l ==> l[k'] == r[k']) {
      ToMapPutAt(d, k, v, k');
    }
    assert l.Keys == r.Keys;
  }

  lemma ToMapPutAt(d: Dict, k: string, v: string, k': string)
    requires DistinctKeys(d)
    ensures (k' in ToMap(Put(d, k, v))) == (k' == k || k' in ToMap(d))
    ensures k' in ToMap(Put(d, k, v)) ==> ToMap(Put(d, k, v))[k'] == if k' == k then v else ToMap(d)[k']
  {
    ToMapGet(Put(d, k, v), k');
    ToMapGet(d, k');
    PutGet(d, k, v, k');
  }

  /** The map GetStoredData's loop has built after the first i lines. */
  ghost function LoadedPrefix(lines: seq<string>, i: nat): map<string, string>
    requires i <= |lines|
  {
    ToMap(Fold([], GoEntriesOf(lines)[..i]))
  }

  /** One more line: the pair of its trimmed text, if any, overwrites the map. */
  lemma LoadStep(lines: seq<string>, i: nat)
    requires i < |lines|
    ensures var e := TrimmedEntry(TrimSpace(lines[i]));
      LoadedPrefix(lines, i + 1) == if e.Some? then LoadedPrefix(lines, i)[e.value.0 := e.value.1] else LoadedPrefix(lines, i)
  {
    var d := Fold([], GoEntriesOf(lines)[..i]);
    GoParseStep(lines, i, d);
    var e := TrimmedEntry(TrimSpace(lines[i]));
    if e.Some? {
      ToMapPut(d, e.value.0, e.value.1);
    }
  }

  /** The loop of `GetStoredData` over the file's lines. */
  method LoadLines(lines: seq<string>) returns (out: map<string, string>)
    ensures out == ToMap(Fold([], GoEntriesOf(lines)))
  {
    out := map[];
    var i := 0;
    assert GoEntriesOf(lines)[..0] == [];
    while i < |lines|
      invariant 0 <= i <= |lines|
      invariant out == LoadedPrefix(lines, i)
    {
      LoadStep(lines, i);
      var line := TrimSpace(lines[i]);
      if !StartsWith(line, "#") {
        var parts := SplitFirst(line, '=');
        if parts.Some? {
          out := out[parts.value.0 := parts.value.1];
        }
      }
      i := i + 1;
    }
    PrefixAll(GoEntriesOf(lines));
  }

  /** What `GetStoredData` returns for the files present. */
  function StoredDataOutcome(files: map<string, string>, dir: string): (r: Result<map<string, string>, GoError>)
    ensures r.Err? <==> DataFilePath(dir) !in files
    ensures r.Err? ==> r.error == ReadError
  {
    if DataFilePath(dir) in files then Ok(GoParse(files[DataFilePath(dir)])) else Err(ReadError)
  }

  /** Later lines win: a key's value is the one on the last line that carries it. */
  lemma LaterLineWins(content: string, k: string)
    ensures var v := LastValue(GoEntriesOf(SplitOn(content, '\n')), k);
      (k in GoParse(content) <==> v.Some?) && (k in GoParse(content) ==> GoParse(content)[k] == v.value)
  {
    var es := GoEntriesOf(SplitOn(content, '\n'));
    ToMapGet(Fold([], es), k);
    FoldIsLastValue(es, k);
  }

  /** Reading back what SaveData wrote gives the saved map, whatever the map's iteration order. */
  lemma SaveThenLoad(files: map<string, string>, dir: string, m: map<string, string>, order: seq<string>)
    requires Enumerates(order, m.Keys)
    requires forall k :: k in m ==> Storable((k, m[k]))
    ensures StoredDataOutcome(files[DataFilePath(dir) := GoRender(m, order)], dir) == Ok(m)
  {
    GoRoundTrip(m, order);
  }

  /** `ScreenName`. */
  function ScreenNameOf(id: string): (r: string)
    ensures StartsWith(r, "mc-") && r[3..] == id
  {
    "mc-" + id
  }

  /** The part of a `screen -list` entry after its first '.'. */
  function SessionName(screen: string): string
    requires '.' in screen
  {
    SplitFirst(screen, '.').value.1
  }

  /** The directory names `locateServerJarFile` offers, in listing order. */
  function JarCandidates(names: seq<string>): (r: seq<string>)
    ensures |r| <= |names|
    ensures forall x :: x in r <==> x in names && EndsWith(x, ".jar")
  {
    if names == [] then []
    else
      var last := names[|names| - 1];
      assert names == names[..|names| - 1] + [last];
      JarCandidates(names[..|names| - 1]) + if EndsWith(last, ".jar") then [last] else []
  }

  /** The map SaveData writes when the user picks a jar: that jar alone. */
  function JarOnly(jar: string): map<string, string> {
    map["jar" := jar]
  }

  /** The files after saving the picked jar as the only stored key. */
  function SaveJar(files: map<string, string>, dir: string, jar: string): map<string, string> {
    assert Enumerates(["jar"], JarOnly(jar).Keys);
    files[DataFilePath(dir) := GoRender(JarOnly(jar), ["jar"])]
  }

  /** The saved selection reads back as the jar alone. */
  lemma SaveJarLoads(files: map<string, string>, dir: string, jar: string)
    requires Storable(("jar", jar))
    ensures StoredDataOutcome(SaveJar(files, dir, jar), dir) == Ok(JarOnly(jar))
  {
    var m := JarOnly(jar);
    assert Enumerates(["jar"], m.Keys);
    assert forall k :: k in m ==> k == "jar" && m[k] == jar;
    SaveThenLoad(files, dir, m, ["jar"]);
  }

  /** The stored data names a jar that exists in the server directory. */
  predicate StoredJarValid(files: map<string, string>, dir: string) {
    var stored := StoredDataOutcome(files, dir);
    stored.Ok? && "jar" in stored.value && GoJoin(dir, stored.value["jar"]) in files
  }

  /**
   * `locateServerJarFile`: the returned jar name and the files afterwards.
   * `names` lists the directory and `choice` is the user's selection.
   */
  function LocateOutcome(files: map<string, string>, dir: string, names: seq<string>, choice: Option<nat>)
    : (Result<string, GoError>, map<string, string>)
    requires choice.Some? ==> choice.value < |JarCandidates(names)|
  {
    if StoredJarValid(files, dir) then
      (Ok(StoredDataOutcome(files, dir).value["jar"]), files)
    else
      PickOutcome(files, dir, names, choice)
  }

  /** The part of `locateServerJarFile` after the stored jar was found missing: the jars listed. */
  function PickOutcome(files: map<string, string>, dir: string, names: seq<string>, choice: Option<nat>)
    : (Result<string, GoError>, map<string, string>)
    requires choice.Some? ==> choice.value < |JarCandidates(names)|
  {
    var jars := JarCandidates(names);
    if |jars| == 0 then (Err(ErrNoJarFound), files)
    else if |jars| == 1 then (Ok(jars[0]), files)
    else if choice.None? then (Err(SelectError), files)
    else (Ok(jars[choice.value]), SaveJar(files, dir, jars[choice.value]))
  }

  /**
   * The cases of `locateServerJarFile`: a stored jar whose file exists is
   * returned as it is; otherwise none listed is ErrNoJarFound, one is taken,
   * several need a selection, and a cancelled selection is the prompt's
   * error. An error writes nothing.
   */
  lemma LocateCases(files: map<string, string>, dir: string, names: seq<string>, choice: Option<nat>)
    requires choice.Some? ==> choice.value < |JarCandidates(names)|
    ensures var (r, after) := LocateOutcome(files, dir, names, choice);
      var jars := JarCandidates(names);
      var kept := StoredJarValid(files, dir);
      && (kept ==> r == Ok(StoredDataOutcome(files, dir).value["jar"]) && after == files)
      && (r.Err? <==> !kept && (|jars| == 0 || (|jars| > 1 && choice.None?)))
      && (r.Err? ==> after == files)
      && (!kept && |jars| == 0 ==> r == Err(ErrNoJarFound))
      && (!kept && |jars| > 1 && choice.None? ==> r == Err(SelectError))
      && (!kept && |jars| == 1 ==> r == Ok(jars[0]) && after == files)
      && (r.Ok? && !kept ==> r.value in jars && EndsWith(r.value, ".jar"))
  {
  }

  /** Only a selection among several jars writes; and then the data file holds the jar alone. */
  lemma LocateWrites(files: map<string, string>, dir: string, names: seq<string>, choice: Option<nat>)
    requires choice.Some? ==> choice.value < |JarCandidates(names)|
    ensures var (r, after) := LocateOutcome(files, dir, names, choice);
      var jars := JarCandidates(names);
      after != files ==>
        !StoredJarValid(files, dir) && |jars| > 1 && choice.Some? && r == Ok(jars[choice.value])
        && after == SaveJar(files, dir, jars[choice.value])
  {
  }

  /** Picking one of several jars loses every other stored key, the ram setting among them. */
  lemma SelectionForgetsOtherKeys(files: map<string, string>, dir: string, names: seq<string>, i: nat)
    requires i < |JarCandidates(names)|
    requires !StoredJarValid(files, dir) && |JarCandidates(names)| > 1
    requires Storable(("jar", JarCandidates(names)[i]))
    ensures var after := LocateOutcome(files, dir, names, Some(i)).1;
      StoredDataOutcome(after, dir) == Ok(JarOnly(JarCandidates(names)[i]))
    ensures var after := LocateOutcome(files, dir, names, Some(i)).1;
      StoredDataOutcome(after, dir).Ok? && "ram" !in StoredDataOutcome(after, dir).value
  {
    SaveJarLoads(files, dir, JarCandidates(names)[i]);
  }

  /** Once a selected jar is saved, the next lookup returns it without asking and writes nothing. */
  lemma SelectionRemembered(files: map<string, string>, dir: string, names: seq<string>, i: nat,
                            names': seq<string>, choice': Option<nat>)
    requires i < |JarCandidates(names)|
    requires !StoredJarValid(files, dir) && |JarCandidates(names)| > 1
    requires Storable(("jar", JarCandidates(names)[i]))
    requires GoJoin(dir, JarCandidates(names)[i]) in files
    requires choice'.Some? ==> choice'.value < |JarCandidates(names')|
    ensures var after := LocateOutcome(files, dir, names, Some(i)).1;
      LocateOutcome(after, dir, names', choice') == (Ok(JarCandidates(names)[i]), after)
  {
    var jar := JarCandidates(names)[i];
    var after := LocateOutcome(files, dir, names, Some(i)).1;
    assert after == SaveJar(files, dir, jar);
    SaveJarLoads(files, dir, jar);
    assert GoJoin(dir, jar) in after;
    assert StoredJarValid(after, dir);
  }

  /** The registry file in the home directory. */
  function RcPath(home: string): string {
    GoJoin(home, RcName)
  }

  /** `GetAllServerPaths`: the registry split on "\n", or an error when it does not exist. */
  function AllServerPaths(files: map<string, string>, rc: string): (r: Result<seq<string>, GoError>)
    ensures r.Err? <==> rc !in files
    ensures r.Err? ==> r.error == ErrDataFileNotExisting
    ensures r.Ok? ==> |r.value| >= 1 && JoinWith(r.value, '\n') == files[rc] && forall i :: 0 <= i < |r.value| ==> '\n' !in r.value[i]
  {
    if rc in files then
      SplitOnJoin(files[rc], '\n');
      Ok(SplitOn(files[rc], '\n'))
    else Err(ErrDataFileNotExisting)
  }

  /** A newline-terminated registry lists an empty entry last. */
  lemma TrailingEmptyEntry(content: string)
    requires content != [] && content[|content| - 1] == '\n'
    ensures var ls := SplitOn(content, '\n'); ls[|ls| - 1] == ""
  {
    var c := content[..|content| - 1];
    assert content == c + "" + "\n";
    SplitOnAppendLine(c, "", '\n');
  }

  /** `SaveServerPath`: the error returned, if any, and the files afterwards. */
  function SaveOutcome(files: map<string, string>, rc: string, p: string): (Option<GoError>, map<string, string>) {
    match AllServerPaths(files, rc)
    case Err(e) => (Some(e), files)
    case Ok(existing) => if p in existing then (None, files) else (None, AppendEntry(files, rc, p))
  }

  /**
   * The cases of `SaveServerPath`: an error exactly when the registry is
   * missing, and then nothing is written; a path already listed writes
   * nothing; any other path is appended as one more line.
   */
  lemma SaveCases(files: map<string, string>, rc: string, p: string)
    ensures var (e, after) := SaveOutcome(files, rc, p);
      && (e.Some? <==> rc !in files)
      && (e.Some? ==> e.value == ErrDataFileNotExisting && after == files)
      && (rc in files && p in SplitOn(files[rc], '\n') ==> after == files)
      && (rc in files && p !in SplitOn(files[rc], '\n') ==> after == AppendEntry(files, rc, p) && after != files)
  {
    if rc in files && p !in SplitOn(files[rc], '\n') {
      assert |AppendEntry(files, rc, p)[rc]| > |files[rc]|;
    }
  }

  /** Without a registry nothing is ever written: the creating open is never reached. */
  lemma NeverCreatesRegistry(files: map<string, string>, rc: string, p: string)
    requires rc !in files
    ensures SaveOutcome(files, rc, p) == (Some(ErrDataFileNotExisting), files)
    ensures rc !in SaveOutcome(files, rc, p).1
  {
  }

  /** A new path becomes the last line; on a registry without a final newline it is glued to the last line. */
  lemma SavedEntries(files: map<string, string>, rc: string, p: string)
    requires rc in files && '\n' !in p
    requires p !in AllServerPaths(files, rc).value
    ensures var ls := AllServerPaths(files, rc).value;
      AllServerPaths(SaveOutcome(files, rc, p).1, rc) == Ok(ls[..|ls| - 1] + [ls[|ls| - 1] + p, ""])
  {
    SplitOnAppendLine(files[rc], p, '\n');
    assert files[rc] + (p + "\n") == files[rc] + p + "\n";
  }

  /** On an empty or newline-terminated registry, a saved path is afterwards among the entries. */
  lemma SavedIsListed(files: map<string, string>, rc: string, p: string)
    requires rc in files && '\n' !in p
    requires files[rc] == [] || files[rc][|files[rc]| - 1] == '\n'
    ensures SaveOutcome(files, rc, p).0 == None
    ensures var after := SaveOutcome(files, rc, p).1;
      rc in after && p in AllServerPaths(after, rc).value
      && (after[rc] == [] || after[rc][|after[rc]| - 1] == '\n')
  {
    if p !in AllServerPaths(files, rc).value {
      SavedEntries(files, rc, p);
      var ls := AllServerPaths(files, rc).value;
      if files[rc] != [] {
        TrailingEmptyEntry(files[rc]);
      }
      assert ls[|ls| - 1] + p == p;
    }
  }

  /** Saving the same path twice writes it once. */
  lemma SaveTwice(files: map<string, string>, rc: string, p: string)
    requires rc in files && '\n' !in p
    requires files[rc] == [] || files[rc][|files[rc]| - 1] == '\n'
    ensures var after := SaveOutcome(files, rc, p).1;
      SaveOutcome(after, rc, p) == (None, after)
  {
    SavedIsListed(files, rc, p);
  }

  /** `SaveServerPath`: search the entries, then append the path. */
  method SaveServerPath(fs: Fs, home: string, p: string) returns (err: Option<GoError>)
    modifies fs
    ensures (err, fs.files) == SaveOutcome(old(fs.files), RcPath(home), p)
    ensures fs.dirs == old(fs.dirs)
  {
    var rc := RcPath(home);
    var all := AllServerPaths(fs.files, rc);
    if all.Err? {
      return Some(all.error);
    }
    var existing := all.value;
    var i := 0;
    var found := false;
    while i < |existing| && !found
      invariant 0 <= i <= |existing|
      invariant found <==> p in existing[..i]
      decreases |existing| - i
    {
      assert existing[..i + 1] == existing[..i] + [existing[i]];
      found := existing[i] == p;
      i := i + 1;
    }
    if !found {
      assert existing[..|existing|] == existing;
    }
    if found {
      return None;
    }
    var ok := fs.Append(rc, p + "\n");
    err := None;
  }

  /** `ServerInfo`. */
  class ServerInfo {
    var jarFile: string
    var id: string
    var path: string

    constructor (p: string, i: string)
      ensures path == p && id == i && jarFile == ""
    {
      path := p;
      id := i;
      jarFile := "";
    }

    /** `GetStoredData`: each line trimmed, comments and lines without '=' skipped, later keys overwriting. */
    method GetStoredData(fs: Fs) returns (r: Result<map<string, string>, GoError>)
      ensures r == StoredDataOutcome(fs.files, path)
    {
      var f := DataFilePath(path);
      if f !in fs.files {
        return Err(ReadError);
      }
      var out := LoadLines(SplitOn(fs.files[f], '\n'));
      r := Ok(out);
    }

    /** `SaveData`: the file replaced by one `key=value` line per entry, in the map's iteration order. */
    method SaveData(fs: Fs, data: map<string, string>, order: seq<string>)
      requires Enumerates(order, data.Keys)
      modifies fs
      ensures fs.files == old(fs.files)[DataFilePath(path) := GoRender(data, order)] && fs.dirs == old(fs.dirs)
    {
      fs.Write(DataFilePath(path), GoRender(data, order));
    }

    /** `Running`: some listed session's name is this server's screen name. */
    method Running(screens: seq<string>) returns (b: bool)
      requires forall i :: 0 <= i < |screens| ==> '.' in screens[i]
      ensures b <==> exists i :: 0 <= i < |screens| && SessionName(screens[i]) == ScreenNameOf(id)
    {
      var i := 0;
      b := false;
      while i < |screens| && !b
        invariant 0 <= i <= |screens|
        invariant b <==> exists j :: 0 <= j < i && SessionName(screens[j]) == ScreenNameOf(id)
        decreases |screens| - i
      {
        b := SessionName(screens[i]) == ScreenNameOf(id);
        i := i + 1;
      }
    }
  }

  /** The loop of `locateServerJarFile` that collects the names ending in ".jar". */
  method JarFiles(names: seq<string>) returns (jarFiles: seq<string>)
    ensures jarFiles == JarCandidates(names)
  {
    jarFiles := [];
    var i := 0;
    while i < |names|
      invariant 0 <= i <= |names|
      invariant jarFiles == JarCandidates(names[..i])
    {
      assert names[..i + 1][..i] == names[..i];
      if EndsWith(names[i], ".jar") {
        jarFiles := jarFiles + [names[i]];
      }
      i := i + 1;
    }
    assert names[..|names|] == names;
  }

  /** `locateServerJarFile`. */
  method LocateServerJarFile(info: ServerInfo, fs: Fs, names: seq<string>, choice: Option<nat>)
    returns (r: Result<string, GoError>)
    requires choice.Some? ==> choice.value < |JarCandidates(names)|
    modifies fs
    ensures (r, fs.files) == LocateOutcome(old(fs.files), info.path, names, choice)
    ensures fs.dirs == old(fs.dirs)
  {
    var stored := StoredJar(info, fs);
    if stored.Some? {
      return Ok(stored.value);
    }
    r := PickJar(info, fs, names, choice);
  }

  /** The first step of `locateServerJarFile`: the stored jar, when it is still a file. */
  method StoredJar(info: ServerInfo, fs: Fs) returns (jar: Option<string>)
    ensures jar.Some? <==> StoredJarValid(fs.files, info.path)
    ensures jar.Some? ==> jar.value == StoredDataOutcome(fs.files, info.path).value["jar"]
  {
    var stored := info.GetStoredData(fs);
    if stored.Ok? && "jar" in stored.value && GoJoin(info.path, stored.value["jar"]) in fs.files {
      return Some(stored.value["jar"]);
    }
    return None;
  }

  /** The jar listing and selection of `locateServerJarFile`. */
  method PickJar(info: ServerInfo, fs: Fs, names: seq<string>, choice: Option<nat>)
    returns (r: Result<string, GoError>)
    requires choice.Some? ==> choice.value < |JarCandidates(names)|
    modifies fs
    ensures (r, fs.files) == PickOutcome(old(fs.files), info.path, names, choice)
    ensures fs.dirs == old(fs.dirs)
  {
    var jarFiles := JarFiles(names);
    if |jarFiles| == 0 {
      return Err(ErrNoJarFound);
    }
    if |jarFiles| == 1 {
      return Ok(jarFiles[0]);
    }
    if choice.None? {
      return Err(SelectError);
    }
    var selected := jarFiles[choice.value];
    assert Enumerates(["jar"], JarOnly(selected).Keys);
    info.SaveData(fs, JarOnly(selected), ["jar"]);
    r := Ok(selected);
  }

  /**
   * `GetCurrentServerInfo`: the working directory and its last element,
   * the located jar, and the directory saved into the registry with its
   * error ignored.
   */
  method GetCurrentServerInfo(fs: Fs, cwd: string, home: string, names: seq<string>, choice: Option<nat>)
    returns (info: ServerInfo, err: Option<GoError>)
    requires choice.Some? ==> choice.value < |JarCandidates(names)|
    modifies fs
    ensures fresh(info) && info.path == cwd && info.id == LastSegment(cwd)
    ensures var (l, located) := LocateOutcome(old(fs.files), cwd, names, choice);
      (l.Err? ==> err == Some(l.error) && info.jarFile == "" && fs.files == located)
      && (l.Ok? ==> err == None && info.jarFile == l.value && fs.files == SaveOutcome(located, RcPath(home), cwd).1)
  {
    info := new ServerInfo(cwd, LastSegment(cwd));
    var jar := LocateServerJarFile(info, fs, names, choice);
    if jar.Err? {
      return info, Some(jar.error);
    }
    info.jarFile := jar.value;
    var _ := SaveServerPath(fs, home, info.path);
    err := None;
  }
}
