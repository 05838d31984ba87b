/**
 * Lexical path handling of the current package: pathlib's `.absolute()`
 * and `.parts`, and `clean_path` (util.py), which walks the parts with a
 * stack, popping on "..", skipping "." and pushing everything else, and
 * then joins the stack under "/". Nothing here consults the filesystem, so
 * symbolic links are not resolved.
 */
module Paths {
  import opened Wrappers
  import opened Text

  /** pathlib's `.absolute()`: a relative path is put under the working directory. */
  function Absolute(cwd: string, p: string): (r: string)
    ensures StartsWith(p, "/") ==> r == p
  {
    if StartsWith(p, "/") then p else cwd + "/" + p
  }

  /** The non-empty segments other than "." (pathlib drops both). */
  function Segments(pieces: seq<string>): (r: seq<string>)
    ensures forall i :: 0 <= i < |r| ==> r[i] != [] && r[i] != "." && r[i] in pieces
  {
    if pieces == [] then []
    else if pieces[0] == [] || pieces[0] == "." then Segments(pieces[1..])
    else [pieces[0]] + Segments(pieces[1..])
  }

  /** pathlib's `.parts`: the root "/" first for an absolute path, then the named segments. */
  function Parts(p: string): (r: seq<string>)
    ensures forall i :: 0 <= i < |r| ==> '/' !in r[i] || (i == 0 && r[i] == "/")
  {
    (if StartsWith(p, "/") then ["/"] else []) + Segments(SplitOn(p, '/'))
  }

  /** One step of clean_path's loop; popping an empty list raises IndexError. */
  function Step(out: seq<string>, part: string): Option<seq<string>> {
    if part == ".." then
      if out == [] then None else Some(out[..|out| - 1])
    else if part == "." then Some(out)
    else Some(out + [part])
  }

  /** The stack after processing `parts` from stack `out`. */
  function Fold(out: seq<string>, parts: seq<string>): Option<seq<string>>
    decreases |parts|
  {
    if parts == [] then Some(out)
    else
      match Step(out, parts[0])
      case None => None
      case Some(o) => Fold(o, parts[1..])
  }

  /** `Path("/").joinpath(*out)`: an absolute piece restarts at the root. */
  function JoinUnderRoot(out: seq<string>): (r: seq<string>)
    ensures "/" !in r
  {
    if out == [] then []
    else
      var init := JoinUnderRoot(out[..|out| - 1]);
      if out[|out| - 1] == "/" then [] else init + [out[|out| - 1]]
  }

  /** The path as text: "/" followed by its components separated by "/". */
  function PathString(components: seq<string>): string {
    if components == [] then "/" else "/" + JoinWith(components, '/')
  }

  /** pathlib's `.name`: the last component, "" for the root. */
  function Name(components: seq<string>): string {
    if components == [] then "" else components[|components| - 1]
  }

  predicate Plain(c: seq<string>) {
    forall i :: 0 <= i < |c| ==> c[i] != "." && c[i] != ".." && c[i] != "/"
  }

  /**
   * clean_path. The result is the list of components under the root "/";
   * None is the IndexError raised by a ".." with nothing left to pop.
   */
  method CleanPath(parts: seq<string>) returns (r: Option<seq<string>>)
    ensures r == (match Fold([], parts) case None => None case Some(out) => Some(JoinUnderRoot(out)))
  {
    var out: seq<string> := [];
    var i := 0;
    while i < |parts|
      invariant 0 <= i <= |parts|
      invariant Fold(out, parts[i..]) == Fold([], parts)
    {
      var part := parts[i];
      assert parts[i..][1..] == parts[i + 1..];
      if part == ".." {
        if out == [] {
          return None;
        }
        out := out[..|out| - 1];
        i := i + 1;
        continue;
      }
      if part == "." {
        i := i + 1;
        continue;
      }
      out := out + [part];
      i := i + 1;
    }
    r := Some(JoinUnderRoot(out));
  }

  /** The specification CleanPath is proved against. */
  function Cleaned(parts: seq<string>): Option<seq<string>> {
    match Fold([], parts) case None => None case Some(out) => Some(JoinUnderRoot(out))
  }

  /** The stack never holds "." or "..". */
  lemma {:induction false} FoldPlainish(out: seq<string>, parts: seq<string>)
    requires forall i :: 0 <= i < |out| ==> out[i] != "." && out[i] != ".."
    ensures Fold(out, parts).Some? ==>
      forall i :: 0 <= i < |Fold(out, parts).value| ==> Fold(out, parts).value[i] != "." && Fold(out, parts).value[i] != ".."
    decreases |parts|
  {
    if parts != [] {
      match Step(out, parts[0])
      case None =>
      case Some(o) => FoldPlainish(o, parts[1..]);
    }
  }

  lemma {:induction false} JoinUnderRootPlain(out: seq<string>)
    requires forall i :: 0 <= i < |out| ==> out[i] != "." && out[i] != ".."
    ensures Plain(JoinUnderRoot(out))
  {
    if out != [] {
      JoinUnderRootPlain(out[..|out| - 1]);
    }
  }

  /** The cleaned path is rooted at "/" and none of its components is ".", ".." or "/". */
  lemma CleanedIsPlain(parts: seq<string>)
    ensures Cleaned(parts).Some? ==> Plain(Cleaned(parts).value)
  {
    FoldPlainish([], parts);
    if Fold([], parts).Some? {
      JoinUnderRootPlain(Fold([], parts).value);
    }
  }

  /** Without "." and "..", every part is pushed. */
  lemma {:induction false} FoldPlain(out: seq<string>, parts: seq<string>)
    requires forall i :: 0 <= i < |parts| ==> parts[i] != "." && parts[i] != ".."
    ensures Fold(out, parts) == Some(out + parts)
    decreases |parts|
  {
    if parts != [] {
      FoldPlain(out + [parts[0]], parts[1..]);
      assert out + [parts[0]] + parts[1..] == out + parts;
    } else {
      assert out + parts == out;
    }
  }

  lemma {:induction false} JoinUnderRootNoRoot(out: seq<string>)
    requires "/" !in out
    ensures JoinUnderRoot(out) == out
  {
    if out != [] {
      JoinUnderRootNoRoot(out[..|out| - 1]);
    }
  }

  /** An absolute path without "." or ".." keeps all its components. */
  lemma CleanedKeepsPlainPath(c: seq<string>)
    requires Plain(c)
    ensures Cleaned(["/"] + c) == Some(c)
  {
    FoldPlain([], ["/"] + c);
    assert [] + (["/"] + c) == ["/"] + c;
    assert "/" !in c;
    assert JoinUnderRoot(["/"] + c) == c by {
      JoinUnderRootAfterRoot(c);
    }
  }

  lemma {:induction false} JoinUnderRootAfterRoot(c: seq<string>)
    requires "/" !in c
    ensures JoinUnderRoot(["/"] + c) == c
  {
    if c != [] {
      var init := c[..|c| - 1];
      assert (["/"] + c)[..|c|] == ["/"] + init;
      JoinUnderRootAfterRoot(init);
    }
  }

  /** clean_path is idempotent: cleaning a cleaned path gives it back. */
  lemma CleanedIdempotent(parts: seq<string>)
    requires Cleaned(parts).Some?
    ensures Cleaned(["/"] + Cleaned(parts).value) == Cleaned(parts)
  {
    CleanedIsPlain(parts);
    CleanedKeepsPlainPath(Cleaned(parts).value);
  }

  lemma {:induction false} FoldAppend(out: seq<string>, p: seq<string>, part: string)
    ensures Fold(out, p + [part]) == match Fold(out, p) case None => None case Some(o) => Step(o, part)
    decreases |p|
  {
    if p == [] {
      assert [part][1..] == [];
    } else {
      assert (p + [part])[0] == p[0];
      assert (p + [part])[1..] == p[1..] + [part];
      match Step(out, p[0])
      case None =>
      case Some(o) => FoldAppend(o, p[1..], part);
    }
  }

  /** Each ".." removes the most recently kept component (the stack is popped). */
  lemma DotDotPops(p: seq<string>)
    requires Fold([], p).Some? && Fold([], p).value != []
    ensures Fold([], p + [".."]) == Some(Fold([], p).value[..|Fold([], p).value| - 1])
  {
    FoldAppend([], p, "..");
  }

  /** A ".." with nothing left on the stack raises IndexError: "/../.." cannot be cleaned. */
  lemma RootEscapeFails()
    ensures Cleaned(["/", "..", ".."]) == None
    ensures Cleaned(["/", "..", "a"]) == Some(["a"])
  {
    assert Fold([], ["/", "..", ".."]) == Fold(["/"], ["..", ".."]);
    assert ["/", "..", ".."][1..] == ["..", ".."];
    assert ["..", ".."][1..] == [".."];
    assert Fold(["/"], ["..", ".."]) == Fold([], [".."]);
    assert ["/", "..", "a"][1..] == ["..", "a"];
    assert ["..", "a"][1..] == ["a"];
    assert [] + ["a"] == ["a"];
    assert Fold([], ["a"]) == Fold(["a"], []);
    assert Fold([], ["/", "..", "a"]) == Some(["a"]);
    assert JoinUnderRoot(["a"]) == ["a"];
  }
}
