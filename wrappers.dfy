/** Option and Result values, and the failures the tool raises, used for its error paths. */
module Wrappers {

  datatype Option<+T> = None | Some(value: T)

  datatype Result<+T, +E> = Ok(value: T) | Err(error: E)

  /** Why a command ended with `click.exceptions.Exit`. */
  datatype Reason =
    | InvalidRam          // check_ram_argument rejected its input
    | NotExecutable       // shutil.which could not resolve the Java binary
    | NoJar               // no *.jar in the server directory
    | PromptAborted       // the interactive prompt was cancelled
    | IdCollision         // another registered directory has the same id

  /** The exceptions the Python generations raise on their error paths. */
  datatype Failure =
    | Exit(code: int, reason: Reason)   // click.exceptions.Exit
    | IndexError                        // list.pop() on an empty list, s[1] on a one-piece split
    | ValueError                        // int() of a non-number, an unresolvable Java path
    | FileNotFound                      // a path that must be a directory or file is not
    | KeyError                          // a dict lookup of a missing key
    | EndOfInput                        // input() with nothing left to read

  /** Applying a fallible `f` to every element in order: all results, or the error of the first that fails. */
  function MapAll<A, B, E>(f: A -> Result<B, E>, s: seq<A>): (r: Result<seq<B>, E>)
    ensures r.Ok? <==> forall k :: 0 <= k < |s| ==> f(s[k]).Ok?
    ensures r.Ok? ==> |r.value| == |s| && forall k :: 0 <= k < |s| ==> f(s[k]) == Ok(r.value[k])
    ensures r.Err? ==> exists k :: 0 <= k < |s| && f(s[k]) == Err(r.error)
  {
    if s == [] then Ok([])
    else
      var init := s[..|s| - 1];
      assert forall k :: 0 <= k < |init| ==> init[k] == s[k];
      match MapAll(f, init)
      case Err(e) => Err(e)
      case Ok(xs) =>
        match f(s[|s| - 1])
        case Err(e) => Err(e)
        case Ok(x) => Ok(xs + [x])
  }

  /** One more element: its result is appended, unless something already failed. */
  lemma MapAllSnoc<A, B, E>(f: A -> Result<B, E>, s: seq<A>, x: A)
    ensures MapAll(f, s + [x]) ==
      match MapAll(f, s)
      case Err(e) => Err(e)
      case Ok(xs) =>
        match f(x)
        case Err(e) => Err(e)
        case Ok(y) => Ok(xs + [y])
  {
    assert (s + [x])[..|s|] == s;
  }

  /** The first failure ends the iteration: later elements do not change the outcome. */
  lemma {:induction false} MapAllSticks<A, B, E>(f: A -> Result<B, E>, s: seq<A>, i: nat, n: nat)
    requires i <= n <= |s| && MapAll(f, s[..i]).Err?
    ensures MapAll(f, s[..n]) == MapAll(f, s[..i])
    decreases n
  {
    if n > i {
      MapAllSticks(f, s, i, n - 1);
      assert s[..n] == s[..n - 1] + [s[n - 1]];
      MapAllSnoc(f, s[..n - 1], s[n - 1]);
    }
  }
}
