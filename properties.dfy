/**
 * server.properties editing (src/mcsrv/properties.py). Opening the file
 * reads every `key=value` line into a dictionary exactly as the metadata
 * file is read. Setting a value marks its key as changed; saving re-reads
 * the file, rewrites the first line of every changed key with the new
 * value, writes every other line back stripped, appends the changed keys
 * the file did not mention and forgets the changes.
 */
module Properties {
  import opened Wrappers
  import opened Text
  import opened Metadata
  import opened FileSystem

  /** The value of a key the dictionary is known to hold. */
  function Value(d: Dict, k: string): string {
    match Get(d, k) case Some(v) => v case None => ""
  }

  /** A line of the file as save() sees it: the pair it carries, if any, and its stripped text. */
  type Line = (Option<(string, string)>, string)

  function ScanLine(line: string): Line {
    (LineEntry(line), Strip(line))
  }

  function Scan(lines: seq<string>): (r: seq<Line>)
    ensures |r| == |lines|
  {
    MapSeq(ScanLine, lines)
  }

  lemma ScanAt(lines: seq<string>, i: nat)
    requires i < |lines|
    ensures Scan(lines)[i] == (LineEntry(lines[i]), Strip(lines[i]))
  {
  }

  /** Line i carries a pair for key k. */
  predicate KeyAt(ls: seq<Line>, i: int, k: string)
    requires 0 <= i < |ls|
  {
    ls[i].0.Some? && ls[i].0.value.0 == k
  }

  /** Some line of the file is a `k=...` pair. */
  predicate Mentions(ls: seq<Line>, k: string) {
    exists i :: 0 <= i < |ls| && KeyAt(ls, i, k)
  }

  /** Line i is the first line that is a pair for key k. */
  predicate FirstFor(ls: seq<Line>, i: int, k: string)
    requires 0 <= i < |ls|
  {
    KeyAt(ls, i, k) && forall j :: 0 <= j < i ==> !KeyAt(ls, j, k)
  }

  /**
   * The rewriting pass of save(): the lines written for the file's lines
   * and the changed keys the pass did not meet.
   */
  function Rewrite(ls: seq<Line>, changed: set<string>, d: Dict): (r: (seq<string>, set<string>))
    ensures |r.0| == |ls| && r.1 <= changed
    decreases |ls|
  {
    if ls == [] then ([], changed)
    else
      var e := ls[0].0;
      if e.Some? && e.value.0 in changed then
        var rest := Rewrite(ls[1..], changed - {e.value.0}, d);
        ([EntryLine((e.value.0, Value(d, e.value.0)))] + rest.0, rest.1)
      else
        var rest := Rewrite(ls[1..], changed, d);
        ([ls[0].1] + rest.0, rest.1)
  }

  /** The lines appended for the keys `order` lists. */
  function Appended(order: seq<string>, d: Dict): (r: seq<string>)
    ensures |r| == |order|
    ensures forall i :: 0 <= i < |order| ==> r[i] == EntryLine((order[i], Value(d, order[i])))
  {
    if order == [] then [] else [EntryLine((order[0], Value(d, order[0])))] + Appended(order[1..], d)
  }

  /** A changed key is appended exactly when no line of the file is a pair for it. */
  lemma {:induction false} RewriteLeftover(ls: seq<Line>, changed: set<string>, d: Dict, k: string)
    ensures k in Rewrite(ls, changed, d).1 <==> k in changed && !Mentions(ls, k)
    decreases |ls|
  {
    if ls != [] {
      var e := ls[0].0;
      var ch := if e.Some? && e.value.0 in changed then changed - {e.value.0} else changed;
      RewriteLeftover(ls[1..], ch, d, k);
      assert Mentions(ls, k) <==> KeyAt(ls, 0, k) || Mentions(ls[1..], k) by {
        if Mentions(ls[1..], k) {
          var i :| 0 <= i < |ls[1..]| && KeyAt(ls[1..], i, k);
          assert KeyAt(ls, i + 1, k);
        }
        if j :| 0 < j < |ls| && KeyAt(ls, j, k) {
          assert KeyAt(ls[1..], j - 1, k);
        }
      }
    }
  }

  /** Line i is the first pair line for a key that is still to be written. */
  predicate Replaced(ls: seq<Line>, changed: set<string>, i: int)
    requires 0 <= i < |ls|
  {
    ls[i].0.Some? && ls[i].0.value.0 in changed && FirstFor(ls, i, ls[i].0.value.0)
  }

  /** The changed keys left after the rewriting pass has handled line 0. */
  function AfterFirst(ls: seq<Line>, changed: set<string>): set<string>
    requires ls != []
  {
    var e := ls[0].0;
    if e.Some? && e.value.0 in changed then changed - {e.value.0} else changed
  }

  lemma ReplacedShift(ls: seq<Line>, changed: set<string>, i: nat)
    requires 0 < i < |ls|
    ensures Replaced(ls, changed, i) <==> Replaced(ls[1..], AfterFirst(ls, changed), i - 1)
  {
    var f := ls[i].0;
    assert ls[1..][i - 1] == ls[i];
    if f.Some? {
      var k := f.value.0;
      if !KeyAt(ls, 0, k) {
        assert FirstFor(ls, i, k) <==> FirstFor(ls[1..], i - 1, k) by {
          if FirstFor(ls[1..], i - 1, k) {
            forall j | 0 < j < i
              ensures !KeyAt(ls, j, k)
            {
              assert !KeyAt(ls[1..], j - 1, k);
            }
          }
          if FirstFor(ls, i, k) {
            forall j | 0 <= j < i - 1
              ensures !KeyAt(ls[1..], j, k)
            {
              assert !KeyAt(ls, j + 1, k);
            }
          }
        }
      }
    }
  }

  /**
   * Line i is replaced by `k=<new value>` exactly when it is the first
   * pair line for a changed key k; every other line is written stripped.
   */
  lemma {:induction false} RewriteLine(ls: seq<Line>, changed: set<string>, d: Dict, i: nat)
    requires i < |ls|
    ensures Rewrite(ls, changed, d).0[i] ==
      if Replaced(ls, changed, i)
      then EntryLine((ls[i].0.value.0, Value(d, ls[i].0.value.0)))
      else ls[i].1
    decreases i
  {
    if i > 0 {
      var ch := AfterFirst(ls, changed);
      RewriteLine(ls[1..], ch, d, i - 1);
      assert Rewrite(ls, changed, d).0[i] == Rewrite(ls[1..], ch, d).0[i - 1];
      assert ls[1..][i - 1] == ls[i];
      ReplacedShift(ls, changed, i);
    }
  }

  /** The stripped text of every line. */
  function Texts(ls: seq<Line>): (r: seq<string>)
    ensures |r| == |ls| && forall i :: 0 <= i < |ls| ==> r[i] == ls[i].1
  {
    if ls == [] then [] else [ls[0].1] + Texts(ls[1..])
  }

  lemma {:induction false} RewriteNothingChanged(ls: seq<Line>, d: Dict)
    ensures Rewrite(ls, {}, d) == (Texts(ls), {})
    decreases |ls|
  {
    if ls != [] {
      RewriteNothingChanged(ls[1..], d);
    }
  }

  /** Saving with nothing changed writes the file back stripped line by line ... */
  lemma NothingChangedSaveNormalises(content: string, d: Dict)
    ensures JoinLines(Rewrite(Scan(ReadLines(content)), {}, d).0 + Appended([], d))
         == JoinLines(StripAll(ReadLines(content)))
  {
    var ls := Scan(ReadLines(content));
    RewriteNothingChanged(ls, d);
    forall i | 0 <= i < |ls|
      ensures Texts(ls)[i] == StripAll(ReadLines(content))[i]
    {
      ScanAt(ReadLines(content), i);
    }
    assert Texts(ls) == StripAll(ReadLines(content));
    assert Texts(ls) + [] == Texts(ls);
  }

  /** ... and saving that file again with nothing changed rewrites it as it is. */
  lemma SaveTwiceIsStable(content: string, d: Dict)
    ensures var once := JoinLines(StripAll(ReadLines(content)));
            JoinLines(Rewrite(Scan(ReadLines(once)), {}, d).0) == once
  {
    var ls := ReadLines(content);
    var s := StripAll(ls);
    forall k | 0 <= k < |s|
      ensures '\n' !in s[k] && '\r' !in s[k] && Stripped(s[k])
    {
      ReadLinesInner(content, k);
      StripLineHasNoNewline(ls[k]);
      StripAvoids(ls[k], '\r');
      StripShape(ls[k]);
    }
    ReadLinesJoinLines(s);
    var t := Terminated(s);
    var sc := Scan(t);
    RewriteNothingChanged(sc, d);
    forall k | 0 <= k < |s|
      ensures Texts(sc)[k] == s[k]
    {
      ScanAt(t, k);
      StripTerminated(s[k]);
    }
    assert Texts(sc) == s;
  }

  /**
   * Duplicate keys: save() rewrites only the first `k=` line, while reading
   * lets the last one win, so the value set for k is not the one read back.
   */
  lemma DuplicateKeyRewritesFirstLineOnly(k: string, first: string, second: string, v: string)
    requires Storable((k, first)) && Storable((k, second))
    ensures var lines := [EntryLine((k, first)) + "\n", EntryLine((k, second)) + "\n"];
            Rewrite(Scan(lines), {k}, [(k, v)]) == (EntryLines([(k, v), (k, second)]), {})
  {
    var a, b := EntryLine((k, first)) + "\n", EntryLine((k, second)) + "\n";
    StripEntryLine((k, first), "\n");
    StripEntryLine((k, second), "\n");
    MapSeqPair(ScanLine, a, b);
    DuplicateRewrite(k, first, second, v);
  }

  /** ... and reading that file back gives the old value of the second line. */
  lemma DuplicateKeyReadsOldValue(k: string, second: string, v: string)
    requires Storable((k, second)) && Storable((k, v))
    ensures Get(Parse(ReadLines(Render([(k, v), (k, second)]))), k) == Some(second)
  {
    var d := [(k, v), (k, second)];
    assert forall i :: 0 <= i < |d| ==> Storable(d[i]);
    ParseRendered(d, k);
    LastOfTwo(k, v, second);
  }

  lemma DuplicateRewrite(k: string, first: string, second: string, v: string)
    ensures var ls := [(Some((k, first)), EntryLine((k, first))), (Some((k, second)), EntryLine((k, second)))];
            Rewrite(ls, {k}, [(k, v)]) == (EntryLines([(k, v), (k, second)]), {})
  {
    var ls := [(Some((k, first)), EntryLine((k, first))), (Some((k, second)), EntryLine((k, second)))];
    var d := [(k, v)];
    assert Value(d, k) == v;
    assert {k} - {k} == {};
    RewriteNothingChanged(ls[1..], d);
    assert Texts(ls[1..]) == [EntryLine((k, second))];
    assert EntryLines([(k, v), (k, second)]) == [EntryLine((k, v)), EntryLine((k, second))];
  }

  lemma LastOfTwo(k: string, v: string, second: string)
    ensures LastValue(Entries([(k, v), (k, second)]), k) == Some(second)
  {
    assert Entries([(k, v), (k, second)]) == [Some((k, v)), Some((k, second))];
  }

  /** One step of the rewriting pass, from line i on. */
  lemma RewriteStep(ls: seq<Line>, i: nat, ch: set<string>, d: Dict)
    requires i < |ls|
    ensures ls[i].0.Some? && ls[i].0.value.0 in ch ==>
      var rest := Rewrite(ls[i + 1..], ch - {ls[i].0.value.0}, d);
      Rewrite(ls[i..], ch, d) == ([EntryLine((ls[i].0.value.0, Value(d, ls[i].0.value.0)))] + rest.0, rest.1)
    ensures !(ls[i].0.Some? && ls[i].0.value.0 in ch) ==>
      var rest := Rewrite(ls[i + 1..], ch, d);
      Rewrite(ls[i..], ch, d) == ([ls[i].1] + rest.0, rest.1)
  {
    assert ls[i..][1..] == ls[i + 1..];
  }

  /**
   * The rewriting loop of save(), over the lines it has read, each taken
   * apart by LineEntry as the loop does it: stripped, a comment or a line
   * without '=' written back as it is, otherwise split at the first '='.
   */
  method RewritePass(ls: seq<Line>, changed: set<string>, d: Dict) returns (output: seq<string>, left: set<string>)
    ensures (output, left) == Rewrite(ls, changed, d)
  {
    output := [];
    ghost var rw := Rewrite(ls, changed, d);
    var ch := changed;
    var i := 0;
    assert ls[i..] == ls;
    assert output + rw.0 == rw.0;
    while i < |ls|
      invariant 0 <= i <= |ls|
      invariant rw.0 == output + Rewrite(ls[i..], ch, d).0
      invariant rw.1 == Rewrite(ls[i..], ch, d).1
    {
      RewriteStep(ls, i, ch, d);
      var (entry, line) := ls[i];
      if entry.Some? && entry.value.0 in ch {
        var key := entry.value.0;
        var written := EntryLine((key, Value(d, key)));
        assert rw.0 == (output + [written]) + Rewrite(ls[i + 1..], ch - {key}, d).0;
        output := output + [written];
        ch := ch - {key};
      } else {
        assert rw.0 == (output + [line]) + Rewrite(ls[i + 1..], ch, d).0;
        output := output + [line];
      }
      i := i + 1;
    }
    assert ls[i..] == [];
    assert Rewrite(ls[i..], ch, d) == ([], ch);
    assert output + [] == output;
    left := ch;
  }

  /** The loop of `__init__` over the lines read: each pair is stored, a later one replacing an earlier one. */
  method ParseLines(lines: seq<string>) returns (d: Dict)
    ensures DistinctKeys(d) && d == Parse(lines)
  {
    d := [];
    var i := 0;
    while i < |lines|
      invariant 0 <= i <= |lines|
      invariant DistinctKeys(d) && d == Fold([], EntriesOf(lines)[..i])
    {
      ParseStep(lines, i, d);
      var e := LineEntry(lines[i]);
      if e.Some? {
        d := Put(d, e.value.0, e.value.1);
      }
      i := i + 1;
    }
    ParseDone(lines);
  }

  /** An open server.properties file. */
  class ServerProperties {
    const path: string
    var data: Dict
    var changed: set<string>

    /** Every changed key has a value to write. */
    ghost predicate Valid()
      reads this
    {
      DistinctKeys(data) && forall k :: k in changed ==> k in Keys(data)
    }

    /** `__init__` once the file has been read: the pairs of its lines, later lines winning. */
    constructor (p: string, content: string)
      ensures Valid()
      ensures path == p && data == Parse(ReadLines(content)) && changed == {}
    {
      path := p;
      changed := {};
      var d := ParseLines(ReadLines(content));
      data := d;
    }

    /** `get_value`: the value of key, KeyError when there is none. */
    function GetValue(key: string): (r: Result<string, Failure>)
      reads this
      ensures r.Err? <==> key !in Keys(data)
      ensures r.Err? ==> r.error == KeyError
      ensures r.Ok? ==> exists i :: 0 <= i < |data| && data[i] == (key, r.value)
    {
      match Get(data, key) case Some(v) => Ok(v) case None => Err(KeyError)
    }

    /** `__contains__`: true exactly when `get_value` would not raise KeyError. */
    predicate Contains(item: string)
      reads this
      ensures Contains(item) <==> Get(data, item).Some?
    {
      item in Keys(data)
    }

    /**
     * `save`: None is the FileNotFoundError of a file that has
     * disappeared; otherwise the order in which the leftover changed keys
     * were appended.
     */
    method Save(fs: Fs) returns (r: Option<seq<string>>)
      requires Valid()
      modifies this`changed, fs
      ensures Valid()
      ensures r.None? <==> path !in old(fs.files)
      ensures r.None? ==> fs.files == old(fs.files) && changed == old(changed)
      ensures r.Some? ==>
        var rw := Rewrite(Scan(ReadLines(old(fs.files)[path])), old(changed), data);
        Enumerates(r.value, rw.1)
        && fs.files == old(fs.files)[path := JoinLines(rw.0 + Appended(r.value, data))]
        && changed == {}
      ensures fs.dirs == old(fs.dirs)
    {
      if path !in fs.files {
        return None;
      }
      var lines := ReadLines(fs.files[path]);
      var output, left := RewritePass(Scan(lines), changed, data);
      var order := Enumerate(left);
      fs.Write(path, JoinLines(output + Appended(order, data)));
      changed := {};
      r := Some(order);
    }

    /** `set_value`: the key gets the value and is marked changed; with save, the file is saved too. */
    method SetValue(fs: Fs, key: string, value: string, save: bool) returns (r: Option<seq<string>>)
      requires Valid()
      modifies this`data, this`changed, fs
      ensures Valid()
      ensures data == Put(old(data), key, value)
      ensures GetValue(key) == Ok(value)
      ensures !save ==> r == None && changed == old(changed) + {key} && fs.files == old(fs.files)
      ensures save && path in old(fs.files) ==>
        var rw := Rewrite(Scan(ReadLines(old(fs.files)[path])), old(changed) + {key}, data);
        r.Some? && Enumerates(r.value, rw.1)
        && fs.files == old(fs.files)[path := JoinLines(rw.0 + Appended(r.value, data))]
        && changed == {}
      ensures save ==> (r.None? <==> path !in old(fs.files))
      ensures save && path !in old(fs.files) ==> fs.files == old(fs.files) && changed == old(changed) + {key}
      ensures fs.dirs == old(fs.dirs)
    {
      data := Put(data, key, value);
      changed := changed + {key};
      PutGet(old(data), key, value, key);
      r := None;
      if save {
        r := Save(fs);
      }
    }
  }

  /** `ServerProperties(path)`: FileNotFound when there is no such file. */
  method Open(fs: Fs, path: string) returns (r: Result<ServerProperties, Failure>)
    ensures r.Err? <==> path !in fs.files
    ensures r.Err? ==> r.error == FileNotFound
    ensures r.Ok? ==>
      fresh(r.value) && r.value.Valid() && r.value.path == path
      && r.value.data == Parse(ReadLines(fs.files[path])) && r.value.changed == {}
  {
    if path !in fs.files {
      return Err(FileNotFound);
    }
    var p := new ServerProperties(path, fs.files[path]);
    r := Ok(p);
  }
}
