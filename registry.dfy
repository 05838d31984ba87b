/**
 * The user-level registry of server directories of src/mcsrv/server.py:
 * the file `~/.mcsrv` holds one directory per line. Reading it, pruning
 * entries from it, re-opening every registered server and registering a
 * server. The home directory that `~` expands to is a parameter.
 */
module Registry {
  import opened Wrappers
  import opened Text
  import opened Paths
  import opened Metadata
  import opened FileSystem
  import opened Server

  /** `RC_PATH`: `~/.mcsrv` with `~` expanded. */
  function RcPath(home: string): (r: string)
    ensures EndsWith(r, ".mcsrv")
  {
    JoinPath(home, ".mcsrv")
  }

  /** A server's data file is never the registry: their names end differently. */
  lemma DataFileIsNotRegistry(path: seq<string>, home: string)
    ensures DataFile(path) != RcPath(home)
  {
    var d, rc := DataFile(path), RcPath(home);
    assert d[|d| - 1] == (d[|d| - |"/" + DataFileName|..])[|"/" + DataFileName| - 1];
    assert rc[|rc| - 1] == (rc[|rc| - |".mcsrv"|..])[|".mcsrv"| - 1];
  }

  /** `get_cached_server_paths`: the stripped lines of the registry, none when it is not a file. */
  function CachedServerPaths(files: map<string, string>, rc: string): seq<string> {
    if rc in files then StripAll(ReadLines(files[rc])) else []
  }

  /** Every cached entry is one stripped line: no surrounding whitespace and no line break. */
  lemma CachedEntryShape(files: map<string, string>, rc: string, i: nat)
    requires i < |CachedServerPaths(files, rc)|
    ensures Stripped(CachedServerPaths(files, rc)[i])
    ensures '\n' !in CachedServerPaths(files, rc)[i] && '\r' !in CachedServerPaths(files, rc)[i]
  {
    var lines := ReadLines(files[rc]);
    ReadLinesInner(files[rc], i);
    StripLineHasNoNewline(lines[i]);
    StripAvoids(lines[i], '\r');
    StripShape(lines[i]);
  }

  /**
   * What `unregister_paths(paths)` leaves when `paths` is not empty: the
   * registry rewritten with the old entries minus the removed ones, one
   * per line, in the order the set yields them.
   */
  ghost predicate Pruned(before: map<string, string>, rc: string, paths: seq<string>, after: map<string, string>) {
    exists order: seq<string> {:trigger JoinLines(order)} ::
      Enumerates(order, Elems(CachedServerPaths(before, rc)) - Elems(paths))
      && after == before[rc := JoinLines(order)]
  }

  /** The `for ... f.write(f"{line}\n")` loop over a file opened with "w". */
  method WriteLines(fs: Fs, p: string, lines: seq<string>)
    modifies fs
    ensures fs.files == old(fs.files)[p := JoinLines(lines)] && fs.dirs == old(fs.dirs)
  {
    fs.Write(p, "");
    var i := 0;
    while i < |lines|
      invariant 0 <= i <= |lines|
      invariant fs.files == old(fs.files)[p := JoinLines(lines[..i])] && fs.dirs == old(fs.dirs)
    {
      ghost var written := JoinLines(lines[..i]);
      PrefixSnoc(lines, i);
      JoinLinesAppend(lines[..i], lines[i]);
      Assoc(written, lines[i], "\n");
      var ok := fs.Append(p, lines[i] + "\n");
      UpdateTwice(old(fs.files), p, written, written + (lines[i] + "\n"));
      i := i + 1;
    }
    PrefixAll(lines);
  }

  /** `unregister_paths`. */
  method UnregisterPaths(fs: Fs, home: string, paths: seq<string>)
    modifies fs
    ensures paths == [] ==> fs.files == old(fs.files)
    ensures paths != [] ==> Pruned(old(fs.files), RcPath(home), paths, fs.files)
    ensures fs.dirs == old(fs.dirs)
  {
    if |paths| == 0 {
      return;
    }
    var rc := RcPath(home);
    var remaining := Elems(CachedServerPaths(fs.files, rc)) - Elems(paths);
    var order := Enumerate(remaining);
    WriteLines(fs, rc, order);
  }

  /** Every entry of a pruned enumeration came from the registry, so it is one stripped line. */
  lemma SubsetEntryShape(files: map<string, string>, rc: string, order: seq<string>)
    requires forall i :: 0 <= i < |order| ==> order[i] in CachedServerPaths(files, rc)
    ensures forall i :: 0 <= i < |order| ==> Stripped(order[i]) && '\n' !in order[i] && '\r' !in order[i]
  {
    var cached := CachedServerPaths(files, rc);
    forall i | 0 <= i < |order|
      ensures Stripped(order[i]) && '\n' !in order[i] && '\r' !in order[i]
    {
      assert order[i] in cached;
      var k :| 0 <= k < |cached| && cached[k] == order[i];
      CachedEntryShape(files, rc, k);
    }
  }

  /** After pruning, the registry reads back as the old entries minus the removed ones; no other file changes. */
  lemma PrunedReadsBack(before: map<string, string>, rc: string, paths: seq<string>, after: map<string, string>)
    requires Pruned(before, rc, paths, after)
    ensures Elems(CachedServerPaths(after, rc)) == Elems(CachedServerPaths(before, rc)) - Elems(paths)
    ensures rc in after && forall f :: f != rc ==> (f in after <==> f in before)
    ensures forall f :: f != rc && f in before ==> after[f] == before[f]
  {
    var keep := Elems(CachedServerPaths(before, rc)) - Elems(paths);
    var order: seq<string> :| Enumerates(order, keep) && after == before[rc := JoinLines(order)];
    assert forall i :: 0 <= i < |order| ==> order[i] in CachedServerPaths(before, rc) by {
      forall i | 0 <= i < |order|
        ensures order[i] in CachedServerPaths(before, rc)
      {
        assert order[i] in keep;
      }
    }
    SubsetEntryShape(before, rc, order);
    JoinLinesReadsBack(order);
    assert CachedServerPaths(after, rc) == order;
    assert Elems(order) == keep;
  }

  /** How one registry entry opens on a given state of the files. */
  type Opener = (map<string, string>, string) -> Result<Opened, Failure>

  /** `Server(p)` as an opener, for the directories and oracles of one run. */
  function ServerOpener(dirs: set<string>, env: Env): Opener {
    (files: map<string, string>, raw: string) => OpenOutcome(files, dirs, env, raw)
  }

  /** Whether an entry's directory is missing does not depend on the files. */
  ghost predicate MissingIsStable(open: Opener) {
    forall f, g, raw :: open(f, raw) == Err(FileNotFound) ==> open(g, raw) == Err(FileNotFound)
  }

  /** Every server an opener produces lives in an existing, cleaned directory. */
  ghost predicate OpensWithin(open: Opener, dirs: set<string>) {
    forall f, raw :: open(f, raw).Ok? ==> Plain(open(f, raw).value.path) && PathString(open(f, raw).value.path) in dirs
  }

  /** `Server(p)` fails with FileNotFoundError exactly for entries whose cleaned directory does not exist. */
  lemma ServerOpenerFacts(dirs: set<string>, env: Env)
    ensures MissingIsStable(ServerOpener(dirs, env)) && OpensWithin(ServerOpener(dirs, env), dirs)
    ensures forall f, raw :: ServerOpener(dirs, env)(f, raw) == Err(FileNotFound) <==> Resolve(dirs, env.cwd, raw) == Err(FileNotFound)
  {
  }

  /**
   * The state threaded through `get_registered_servers`' loop: the servers
   * opened so far, the entries whose directory is missing, the files
   * (every successful open rewrites a data file) and the exception that
   * stopped the loop, if one did.
   */
  datatype Sweep = Sweep(servers: seq<Opened>, invalid: seq<string>, files: map<string, string>, failure: Option<Failure>)

  /** One iteration: open the entry; a missing directory is noted, any other exception ends the sweep. */
  function SweepStep(open: Opener, acc: Sweep, raw: string): Sweep {
    if acc.failure.Some? then acc
    else
      match open(acc.files, raw)
      case Ok(o) => acc.(servers := acc.servers + [o], files := AfterOpen(acc.files, o))
      case Err(e) =>
        if e == FileNotFound then acc.(invalid := acc.invalid + [raw]) else acc.(failure := Some(e))
  }

  /** The sweep over a list of entries, in list order. */
  function SweepAll(open: Opener, files: map<string, string>, paths: seq<string>): Sweep {
    if paths == [] then Sweep([], [], files, None)
    else SweepStep(open, SweepAll(open, files, paths[..|paths| - 1]), paths[|paths| - 1])
  }

  /** Once an exception ended the sweep, later entries change nothing. */
  lemma {:induction false} SweepFailureSticks(open: Opener, files: map<string, string>, ps: seq<string>, qs: seq<string>)
    requires SweepAll(open, files, ps).failure.Some?
    ensures SweepAll(open, files, ps + qs) == SweepAll(open, files, ps)
    decreases |qs|
  {
    if qs == [] {
      assert ps + qs == ps;
    } else {
      var qs' := qs[..|qs| - 1];
      assert (ps + qs)[..|ps + qs| - 1] == ps + qs';
      SweepFailureSticks(open, files, ps, qs');
    }
  }

  /**
   * Without an exception, the sweep keeps one server per entry that opened,
   * in an existing directory, and prunes exactly the entries whose
   * directory is missing.
   */
  lemma {:induction false} SweepPartition(open: Opener, dirs: set<string>, files: map<string, string>, paths: seq<string>)
    requires MissingIsStable(open) && OpensWithin(open, dirs)
    requires SweepAll(open, files, paths).failure.None?
    ensures var sw := SweepAll(open, files, paths);
      |sw.servers| + |sw.invalid| == |paths|
      && (forall k :: 0 <= k < |sw.servers| ==> Plain(sw.servers[k].path) && PathString(sw.servers[k].path) in dirs)
      && (forall raw :: raw in paths ==> (raw in sw.invalid <==> open(files, raw) == Err(FileNotFound)))
      && (forall raw :: raw in sw.invalid ==> raw in paths)
    decreases |paths|
  {
    if paths != [] {
      var init := paths[..|paths| - 1];
      var raw := paths[|paths| - 1];
      var prev := SweepAll(open, files, init);
      var sw := SweepStep(open, prev, raw);
      assert prev.failure.None?;
      SweepPartition(open, dirs, files, init);
      assert paths == init + [raw];
      var o := open(prev.files, raw);
      if o.Ok? {
        assert sw.servers == prev.servers + [o.value] && sw.invalid == prev.invalid;
        assert open(files, raw) != Err(FileNotFound);
      } else {
        assert sw.servers == prev.servers && sw.invalid == prev.invalid + [raw];
        assert open(files, raw) == Err(FileNotFound);
      }
      forall r | r in paths
        ensures r in sw.invalid <==> open(files, r) == Err(FileNotFound)
      {
        if r != raw {
          assert r in init;
          assert r in sw.invalid <==> r in prev.invalid;
        }
      }
    }
  }

  /** Opening servers only ever writes data files, so the registry is as it was. */
  lemma {:induction false} SweepKeepsRegistry(open: Opener, files: map<string, string>, paths: seq<string>, home: string)
    ensures CachedServerPaths(SweepAll(open, files, paths).files, RcPath(home)) == CachedServerPaths(files, RcPath(home))
    decreases |paths|
  {
    if paths != [] {
      var prev := SweepAll(open, files, paths[..|paths| - 1]);
      SweepKeepsRegistry(open, files, paths[..|paths| - 1], home);
      var o := open(prev.files, paths[|paths| - 1]);
      if prev.failure.None? && o.Ok? {
        DataFileIsNotRegistry(o.value.path, home);
      }
    }
  }

  /** A server object in the state `Server(p)` described by an outcome. */
  ghost predicate Holds(s: Server, o: Opened)
    reads s
  {
    s.Valid() && s.handle == None && s.path == o.path && s.data == o.data && s.jar == o.jar
  }

  /** The files after the sweep's pruning step: untouched when nothing is invalid. */
  ghost predicate Swept(sw: Sweep, home: string, files: map<string, string>) {
    if sw.invalid == [] then files == sw.files else Pruned(sw.files, RcPath(home), sw.invalid, files)
  }

  /** One iteration of `get_registered_servers`' loop: `Server(p)` for one entry. */
  method SweepEntry(fs: Fs, env: Env, ghost open: Opener, ghost acc: Sweep, raw: string) returns (res: Result<Server, Failure>)
    requires open == ServerOpener(fs.dirs, env) && acc.failure.None? && acc.files == fs.files
    modifies fs
    ensures var n := SweepStep(open, acc, raw);
      fs.files == n.files && fs.dirs == old(fs.dirs)
      && (res.Ok? ==>
            fresh(res.value) && n.failure.None? && n.invalid == acc.invalid
            && |n.servers| == |acc.servers| + 1 && n.servers[..|acc.servers|] == acc.servers
            && Holds(res.value, n.servers[|acc.servers|]))
      && (res.Err? && res.error == FileNotFound ==>
            n.failure.None? && n.servers == acc.servers && n.invalid == acc.invalid + [raw])
      && (res.Err? && res.error != FileNotFound ==> n.failure == Some(res.error))
  {
    ghost var o := open(fs.files, raw);
    assert o == OpenOutcome(fs.files, fs.dirs, env, raw);
    res := Open(fs, env, raw);
    if o.Ok? {
      assert (acc.servers + [o.value])[..|acc.servers|] == acc.servers;
    }
  }

  /** The server objects of a loop state stand for the sweep's servers, one for one. */
  ghost predicate Tracks(out: seq<Server>, servers: seq<Opened>)
    reads set k | 0 <= k < |out| :: out[k]
  {
    |out| == |servers| && forall k :: 0 <= k < |out| ==> Holds(out[k], servers[k])
  }

  /** One more server object standing for one more opened server keeps the correspondence. */
  lemma TracksSnoc(out: seq<Server>, servers: seq<Opened>, s: Server, o: Opened)
    requires Tracks(out, servers) && Holds(s, o)
    ensures Tracks(out + [s], servers + [o])
  {
    forall k | 0 <= k < |out| + 1
      ensures Holds((out + [s])[k], (servers + [o])[k])
    {
      if k < |out| {
        assert (out + [s])[k] == out[k] && (servers + [o])[k] == servers[k];
      }
    }
  }

  /** One iteration with its bookkeeping: the opened server is kept, a missing entry is noted. */
  method Visit(fs: Fs, env: Env, ghost open: Opener, ghost acc: Sweep, out: seq<Server>, invalid: seq<string>, raw: string)
    returns (stop: Option<Failure>, out': seq<Server>, invalid': seq<string>)
    requires open == ServerOpener(fs.dirs, env) && acc.failure.None? && acc.files == fs.files
    requires invalid == acc.invalid && Tracks(out, acc.servers)
    modifies fs
    ensures var n := SweepStep(open, acc, raw);
      fs.files == n.files && fs.dirs == old(fs.dirs)
      && (stop.Some? ==> n.failure == stop)
      && (stop.None? ==> n.failure.None? && invalid' == n.invalid && Tracks(out', n.servers))
    ensures forall s :: s in out' ==> s in out || fresh(s)
  {
    var res := SweepEntry(fs, env, open, acc, raw);
    ghost var n := SweepStep(open, acc, raw);
    if res.Ok? {
      assert n.servers == acc.servers + [n.servers[|acc.servers|]];
      TracksSnoc(out, acc.servers, res.value, n.servers[|acc.servers|]);
      return None, out + [res.value], invalid;
    } else if res.error == FileNotFound {
      return None, out, invalid + [raw];
    } else {
      return Some(res.error), out, invalid;
    }
  }

  /** The sweep over one more entry takes one more step. */
  lemma SweepAllPrefix(open: Opener, files: map<string, string>, paths: seq<string>, i: nat)
    requires i < |paths|
    ensures SweepAll(open, files, paths[..i + 1]) == SweepStep(open, SweepAll(open, files, paths[..i]), paths[i])
  {
    assert paths[..i + 1][..i] == paths[..i] && paths[..i + 1][i] == paths[i];
  }

  /** The loop of `get_registered_servers`: `Server(p)` for every entry, in order, until an exception. */
  method OpenAll(fs: Fs, env: Env, paths: seq<string>) returns (stop: Option<Failure>, out: seq<Server>, invalid: seq<string>)
    modifies fs
    ensures var sw := SweepAll(ServerOpener(old(fs.dirs), env), old(fs.files), paths);
      fs.files == sw.files && fs.dirs == old(fs.dirs) && stop == sw.failure
      && (stop.None? ==> invalid == sw.invalid && Tracks(out, sw.servers) && forall s :: s in out ==> fresh(s))
  {
    ghost var open := ServerOpener(fs.dirs, env);
    ghost var files0 := fs.files;
    ghost var sw := SweepAll(open, files0, []);
    out, invalid, stop := [], [], None;
    var i := 0;
    while i < |paths| && stop.None?
      invariant 0 <= i <= |paths|
      invariant fs.dirs == old(fs.dirs) && open == ServerOpener(fs.dirs, env)
      invariant sw == SweepAll(open, files0, paths[..i]) && fs.files == sw.files && stop == sw.failure
      invariant stop.None? ==> invalid == sw.invalid && Tracks(out, sw.servers) && forall s :: s in out ==> fresh(s)
    {
      SweepAllPrefix(open, files0, paths, i);
      stop, out, invalid := Visit(fs, env, open, sw, out, invalid, paths[i]);
      sw := SweepStep(open, sw, paths[i]);
      i := i + 1;
    }
    if stop.Some? {
      SweepFailureSticks(open, files0, paths[..i], paths[i..]);
      PrefixSuffix(paths, i);
    } else {
      PrefixAll(paths);
    }
  }

  /** `get_registered_servers`. */
  method GetRegisteredServers(fs: Fs, env: Env, home: string) returns (r: Result<seq<Server>, Failure>)
    modifies fs
    ensures var sw := SweepAll(ServerOpener(old(fs.dirs), env), old(fs.files), CachedServerPaths(old(fs.files), RcPath(home)));
      (sw.failure.Some? ==> r == Err(sw.failure.value) && fs.files == sw.files)
      && (sw.failure.None? ==>
            r.Ok? && (forall s :: s in r.value ==> fresh(s)) && Tracks(r.value, sw.servers)
            && Swept(sw, home, fs.files))
    ensures fs.dirs == old(fs.dirs)
  {
    var paths := CachedServerPaths(fs.files, RcPath(home));
    ghost var open := ServerOpener(fs.dirs, env);
    ghost var files0 := fs.files;
    var stop, out, invalid := OpenAll(fs, env, paths);
    if stop.Some? {
      return Err(stop.value);
    }
    SweepKeepsRegistry(open, files0, paths, home);
    UnregisterPaths(fs, home, invalid);
    r := Ok(out);
  }

  /** What `register` does, decided by the first registered server with the same id. */
  datatype Decision = Known | Collision | Append

  function Decide(others: seq<seq<string>>, path: seq<string>): (d: Decision) {
    if others == [] then Append
    else if ServerId(others[0]) == ServerId(path) then
      (if PathString(others[0]) == PathString(path) then Known else Collision)
    else Decide(others[1..], path)
  }

  /** The ids of a list of server directories. */
  function IdsOf(others: seq<seq<string>>): (r: seq<string>)
    ensures |r| == |others| && forall k :: 0 <= k < |others| ==> r[k] == ServerId(others[k])
  {
    if others == [] then [] else [ServerId(others[0])] + IdsOf(others[1..])
  }

  /** The decision is read off the first server with the same id: none appends, the same path is known. */
  lemma {:induction false} DecideByFirstId(others: seq<seq<string>>, path: seq<string>)
    ensures Decide(others, path) == match FirstIndexOf(IdsOf(others), ServerId(path))
      case None => Append
      case Some(k) => if PathString(others[k]) == PathString(path) then Known else Collision
  {
    if others != [] {
      assert IdsOf(others)[1..] == IdsOf(others[1..]);
      if ServerId(others[0]) != ServerId(path) {
        DecideByFirstId(others[1..], path);
      }
    }
  }

  /** Registering a server that was just appended finds it and writes nothing more. */
  lemma {:induction false} RegisterAgainIsKnown(others: seq<seq<string>>, path: seq<string>)
    requires Decide(others, path) == Append
    ensures Decide(others + [path], path) == Known
  {
    if others == [] {
      assert others + [path] == [path];
    } else {
      assert (others + [path])[0] == others[0];
      assert (others + [path])[1..] == others[1..] + [path];
      RegisterAgainIsKnown(others[1..], path);
    }
  }

  /** The paths of a sweep's servers, in order. */
  function PathsOf(os: seq<Opened>): (r: seq<seq<string>>)
    ensures |r| == |os| && forall k :: 0 <= k < |os| ==> r[k] == os[k].path
  {
    if os == [] then [] else [os[0].path] + PathsOf(os[1..])
  }

  /** An appended entry reads back as the last entry when the registry ended with a newline. */
  lemma AppendEntryReadsBack(files: map<string, string>, rc: string, entry: string)
    requires rc in files ==> files[rc] == [] || files[rc][|files[rc]| - 1] == '\n'
    requires Stripped(entry) && '\n' !in entry && '\r' !in entry
    ensures CachedServerPaths(AppendEntry(files, rc, entry), rc) == CachedServerPaths(files, rc) + [entry]
  {
    var c := if rc in files then files[rc] else "";
    assert AppendEntry(files, rc, entry)[rc] == c + entry + "\n";
    ReadLinesSnoc(c, entry);
    StripTerminated(entry);
    StripAllSnoc(ReadLines(c), entry + "\n");
    if rc !in files {
      assert ReadLines(c) == [];
    }
  }

  /** `register`'s loop: the first registered server whose id equals this one's. */
  method FindSameId(servers: seq<Server>, self: Server, ghost others: seq<seq<string>>) returns (found: Option<nat>)
    requires |servers| == |others| && forall j :: 0 <= j < |servers| ==> servers[j].path == others[j]
    ensures found == FirstIndexOf(IdsOf(others), ServerId(self.path))
  {
    var id := self.Id();
    var i := 0;
    while i < |servers|
      invariant 0 <= i <= |servers|
      invariant forall j :: 0 <= j < i ==> ServerId(others[j]) != id
    {
      var other := servers[i].Id();
      if other == id {
        FirstSameIdAt(others, id, i);
        return Some(i);
      }
      i := i + 1;
    }
    FirstSameIdAt(others, id, i);
    return None;
  }

  /** The first index with the id is the one before which no server has it. */
  lemma FirstSameIdAt(others: seq<seq<string>>, id: string, i: nat)
    requires i <= |others| && forall j :: 0 <= j < i ==> ServerId(others[j]) != id
    ensures i < |others| && ServerId(others[i]) == id ==> FirstIndexOf(IdsOf(others), id) == Some(i)
    ensures i == |others| ==> FirstIndexOf(IdsOf(others), id) == None
  {
    FirstIndexOfAt(IdsOf(others), id, i);
  }

  /** `register`. */
  method Register(fs: Fs, env: Env, home: string, self: Server) returns (r: Result<Server, Failure>)
    modifies fs
    ensures var sw := SweepAll(ServerOpener(old(fs.dirs), env), old(fs.files), CachedServerPaths(old(fs.files), RcPath(home)));
      (sw.failure.Some? ==> r == Err(sw.failure.value))
      && (sw.failure.None? ==>
            var d := Decide(PathsOf(sw.servers), self.path);
            (d == Known ==> r == Ok(self) && Swept(sw, home, fs.files))
            && (d == Collision ==> r == Err(Exit(1, IdCollision)) && Swept(sw, home, fs.files))
            && (d == Append ==>
                  exists mid {:trigger Swept(sw, home, mid)} ::
                    Swept(sw, home, mid)
                    && (Appendable(mid, old(fs.dirs), RcPath(home)) ==>
                          r == Ok(self) && fs.files == AppendEntry(mid, RcPath(home), PathString(self.path)))
                    && (!Appendable(mid, old(fs.dirs), RcPath(home)) ==> r == Err(FileNotFound) && fs.files == mid)))
    ensures fs.dirs == old(fs.dirs)
  {
    ghost var sw := SweepAll(ServerOpener(fs.dirs, env), fs.files, CachedServerPaths(fs.files, RcPath(home)));
    var servers := GetRegisteredServers(fs, env, home);
    if servers.Err? {
      r := Err(servers.error);
    } else {
      ghost var mid := fs.files;
      r := RegisterAmong(fs, home, self, servers.value, sw.servers);
      if Decide(PathsOf(sw.servers), self.path) == Append {
        assert Swept(sw, home, mid);
      }
    }
  }

  /** `register` once the registered servers are known: the decision and the append it may make. */
  method RegisterAmong(fs: Fs, home: string, self: Server, servers: seq<Server>, ghost kept: seq<Opened>)
    returns (r: Result<Server, Failure>)
    requires Tracks(servers, kept)
    modifies fs
    ensures var d := Decide(PathsOf(kept), self.path);
      (d == Known ==> r == Ok(self) && fs.files == old(fs.files))
      && (d == Collision ==> r == Err(Exit(1, IdCollision)) && fs.files == old(fs.files))
      && (d == Append && Appendable(old(fs.files), old(fs.dirs), RcPath(home)) ==>
            r == Ok(self) && fs.files == AppendEntry(old(fs.files), RcPath(home), PathString(self.path)))
      && (d == Append && !Appendable(old(fs.files), old(fs.dirs), RcPath(home)) ==>
            r == Err(FileNotFound) && fs.files == old(fs.files))
    ensures fs.dirs == old(fs.dirs)
  {
    ghost var others := PathsOf(kept);
    DecideByFirstId(others, self.path);
    var found := FindSameId(servers, self, others);
    if found.None? {
      var ok := fs.Append(RcPath(home), PathString(self.path) + "\n");
      r := if ok then Ok(self) else Err(FileNotFound);
    } else if PathString(servers[found.value].path) == PathString(self.path) {
      r := Ok(self);
    } else {
      r := Err(Exit(1, IdCollision));
    }
  }
}
