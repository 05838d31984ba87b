/**
 * The filesystem as the tool sees it: a set of directories and a map from
 * file path to file content. Paths are absolute strings; a path is a file
 * exactly when it is a key of `files`.
 */
module FileSystem {
  import opened Text

  class Fs {
    var files: map<string, string>
    var dirs: set<string>

    constructor (files0: map<string, string>, dirs0: set<string>)
      ensures files == files0 && dirs == dirs0
    {
      files := files0;
      dirs := dirs0;
    }

    predicate IsFile(p: string)
      reads this
    {
      p in files
    }

    predicate IsDir(p: string)
      reads this
    {
      p in dirs
    }

    /** `open(p, "w")` and one write of `content`. */
    method Write(p: string, content: string)
      modifies this
      ensures files == old(files)[p := content] && dirs == old(dirs)
    {
      files := files[p := content];
    }

    /**
     * `open(p, "a" if p.is_file() else "w")` and one write of `text`.
     * Creating a file needs its directory: `ok` is false, for the
     * FileNotFoundError, when neither the file nor its parent exists.
     */
    method Append(p: string, text: string) returns (ok: bool)
      modifies this
      ensures ok <==> Appendable(old(files), old(dirs), p)
      ensures ok ==> files == old(files)[p := (if p in old(files) then old(files)[p] else "") + text]
      ensures !ok ==> files == old(files)
      ensures dirs == old(dirs)
    {
      if p !in files && Parent(p) !in dirs {
        return false;
      }
      files := files[p := (if p in files then files[p] else "") + text];
      ok := true;
    }

    /** `os.remove(p)`. */
    method Remove(p: string)
      modifies this
      ensures files == old(files) - {p} && dirs == old(dirs)
    {
      files := files - {p};
    }
  }

  /** Whether `open(p, "a")` succeeds: the file exists, or the directory to create it in does. */
  predicate Appendable(files: map<string, string>, dirs: set<string>, p: string) {
    p in files || Parent(p) in dirs
  }

  /** A second write to the same path replaces the first. */
  lemma UpdateTwice<K, V>(m: map<K, V>, k: K, a: V, b: V)
    ensures m[k := a][k := b] == m[k := b]
  {
  }

  /** The files after `Append(rc, entry + "\n")`: one more line, the file created when missing. */
  function AppendEntry(files: map<string, string>, rc: string, entry: string): map<string, string> {
    files[rc := (if rc in files then files[rc] else "") + (entry + "\n")]
  }

  /** Removing two paths one after the other removes both. */
  lemma RemoveTwice<K, V>(m: map<K, V>, a: K, b: K)
    ensures m - {a} - {b} == m - {a, b}
  {
  }

  /**
   * `dir.joinpath(name)`: an absolute name replaces the directory, an empty
   * one leaves it, any other is appended after a '/'.
   */
  function JoinPath(dir: string, name: string): (r: string)
    ensures EndsWith(r, name)
    ensures StartsWith(name, "/") ==> r == name
    ensures name == [] ==> r == dir
    ensures name != [] && !StartsWith(name, "/") ==> StartsWith(r, dir) && |r| > |dir|
  {
    if name == [] then dir
    else if name[0] == '/' then name
    else if EndsWith(dir, "/") then dir + name else dir + "/" + name
  }

  /** The directory holding a path: the text before its last '/', "/" for a name under the root, "." for a bare name. */
  function Parent(p: string): (r: string)
  {
    var k := |p| - |LastSegment(p)|;
    if k == 0 then "." else if k == 1 then "/" else p[..k - 1]
  }

  /** The name after the last '/' of a joined path is the name joined. */
  lemma {:induction false} LastSegmentAfterSlash(a: string, b: string)
    requires '/' !in b
    ensures LastSegment(a + "/" + b) == b
    decreases |b|
  {
    var s := a + "/" + b;
    if b == [] {
      assert s[|s| - 1] == '/';
    } else {
      var init := b[..|b| - 1];
      assert s[..|s| - 1] == a + "/" + init;
      assert '/' !in init by {
        assert forall j :: 0 <= j < |init| ==> init[j] == b[j];
      }
      LastSegmentAfterSlash(a, init);
      assert s[|s| - 1] == b[|b| - 1];
      assert init + [b[|b| - 1]] == b;
    }
  }

  /** Joining a plain name under a directory that does not end in '/' (or is the root) has that directory as parent. */
  lemma ParentOfJoin(dir: string, name: string)
    requires name != [] && '/' !in name
    requires dir == "/" || (dir != [] && !EndsWith(dir, "/"))
    ensures Parent(JoinPath(dir, name)) == dir
  {
    assert name[0] != '/';
    if dir == "/" {
      ParentOfRootJoin(name);
    } else {
      ParentOfDirJoin(dir, name);
    }
  }

  lemma ParentOfRootJoin(name: string)
    requires name != [] && '/' !in name
    ensures Parent(JoinPath("/", name)) == "/"
  {
    assert name[0] != '/';
    assert EndsWith("/", "/");
    assert JoinPath("/", name) == [] + "/" + name;
    LastSegmentAfterSlash([], name);
  }

  lemma ParentOfDirJoin(dir: string, name: string)
    requires name != [] && '/' !in name
    requires dir != [] && !EndsWith(dir, "/")
    ensures Parent(JoinPath(dir, name)) == dir
  {
    assert name[0] != '/';
    var p := dir + "/" + name;
    assert JoinPath(dir, name) == p;
    LastSegmentAfterSlash(dir, name);
    assert |p| - |name| == |dir| + 1;
    assert p[..|dir|] == dir;
  }
}
