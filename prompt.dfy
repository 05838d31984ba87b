/**
 * Interactive prompting (src/mcsrv/prompt.py): yes/no tokens, and
 * `prompt_user`, which asks for every configured key not already given on
 * the command line and re-asks until the answer validates.
 *
 * The answers typed are a stream of lines (`Console.pending`); a regular
 * expression or callable validator is an oracle `string -> bool`, and a
 * `clean` function an oracle `string -> string`.
 */
module Prompt {
  import opened Wrappers
  import opened Text

  // ---------------------------------------------------------------- yes / no

  /** `_yesno_vals[0]`: the tokens read as yes. */
  const YesTokens: seq<string> := ["y", "j", "t", "true", "yes", "1", "+", "ja"]

  /** `_yesno_vals[1]`: the tokens read as no. */
  const NoTokens: seq<string> := ["n", "f", "false", "no", "nein", "ne", "0", "-"]

  /** `valid_yesno`. */
  predicate ValidYesNo(v: string) {
    v in YesTokens || v in NoTokens
  }

  /** `yesno`: the yes list is consulted first, then the no list, and any other string gives the fallback. */
  function YesNo(v: string, fb: bool): bool {
    if v in YesTokens then true
    else if v in NoTokens then false
    else fb
  }

  /** No token is on both lists, so the order in which they are consulted never matters. */
  lemma TokensDisjoint(v: string)
    ensures !(v in YesTokens && v in NoTokens)
  {
    if v in YesTokens {
      assert v == "y" || v == "j" || v == "t" || v == "true" || v == "yes" || v == "1" || v == "+" || v == "ja";
      assert v !in NoTokens;
    }
  }

  /** Exactly the yes tokens give true and exactly the no tokens give false, whatever the fallback. */
  lemma YesNoMeaning(v: string, fb: bool)
    ensures v in YesTokens ==> YesNo(v, fb)
    ensures v in NoTokens ==> !YesNo(v, fb)
    ensures !ValidYesNo(v) ==> YesNo(v, fb) == fb
  {
    TokensDisjoint(v);
  }

  /** A string is a valid answer exactly when the fallback cannot change what it means. */
  lemma ValidIffFallbackIrrelevant(v: string)
    ensures ValidYesNo(v) <==> YesNo(v, true) == YesNo(v, false)
  {
  }

  /** The comparison is exact: upper case and surrounding blanks are not recognised. */
  lemma YesNoIsCaseSensitive(fb: bool)
    ensures YesNo("Y", fb) == fb && YesNo("Yes", fb) == fb && YesNo(" y", fb) == fb
    ensures YesNo("ja", fb) && !YesNo("nein", fb)
  {
    assert "Y" !in YesTokens && "Y" !in NoTokens;
    assert "Yes" !in YesTokens && "Yes" !in NoTokens;
    assert " y" !in YesTokens && " y" !in NoTokens;
    assert "nein" !in YesTokens;
  }

  // ---------------------------------------------------------------- prompt_user

  /** How an answer is checked: by default it must be non-empty. */
  datatype Validator = NonEmpty | Check(accepts: string -> bool)

  /**
   * A configuration entry: a plain string is only the prompt text; a dict
   * may give a prompt, a default, a validator and `clean` functions.
   */
  datatype ArgSpec =
    | Label(text: string)
    | Options(prompt: Option<string>, default: Option<string>, validate: Validator, clean: seq<string -> string>)

  function DefaultOf(spec: ArgSpec): Option<string> {
    if spec.Options? then spec.default else None
  }

  function ValidatorOf(spec: ArgSpec): Validator {
    if spec.Options? then spec.validate else NonEmpty
  }

  function CleanOf(spec: ArgSpec): seq<string -> string> {
    if spec.Options? then spec.clean else []
  }

  predicate Validates(v: Validator, value: string) {
    match v
    case NonEmpty => value != ""
    case Check(accepts) => accepts(value)
  }

  /** The value of one typed line: stripped, and the default when it is blank and there is one. */
  function Answer(spec: ArgSpec, line: string): string {
    var value := Strip(line);
    if value == "" && DefaultOf(spec).Some? then DefaultOf(spec).value else value
  }

  /** The loop stops when the value validates, or when it is blank and the default is blank. */
  predicate Accepts(spec: ArgSpec, value: string) {
    Validates(ValidatorOf(spec), value) || (value == "" && DefaultOf(spec) == Some(""))
  }

  /** The read loop stops at this typed line. */
  predicate Taken(spec: ArgSpec, line: string) {
    Accepts(spec, Answer(spec, line))
  }

  /**
   * The read loop for one key: the answer of the first typed line that is
   * accepted, and the lines left after it; running out of input raises.
   */
  function Ask(spec: ArgSpec, lines: seq<string>): (r: Result<(string, seq<string>), Failure>)
    ensures r.Err? ==> r.error == EndOfInput
    ensures r.Ok? ==> |r.value.1| < |lines|
    decreases |lines|
  {
    if lines == [] then Err(EndOfInput)
    else if Taken(spec, lines[0]) then Ok((Answer(spec, lines[0]), lines[1..]))
    else Ask(spec, lines[1..])
  }

  /** Input runs out exactly when no typed line is accepted. */
  lemma {:induction false} AskFails(spec: ArgSpec, lines: seq<string>)
    ensures Ask(spec, lines).Err? <==> forall j :: 0 <= j < |lines| ==> !Taken(spec, lines[j])
    decreases |lines|
  {
    if lines != [] && !Taken(spec, lines[0]) {
      var tail := lines[1..];
      AskFails(spec, tail);
      assert Ask(spec, lines) == Ask(spec, tail);
      forall j | 0 < j < |lines|
        ensures lines[j] == tail[j - 1]
      {
      }
    }
  }

  /** Line n is the first typed line the read loop accepts. */
  predicate FirstTaken(spec: ArgSpec, lines: seq<string>, n: int) {
    && 0 <= n < |lines| && Taken(spec, lines[n])
    && forall j :: 0 <= j < n ==> !Taken(spec, lines[j])
  }

  /** The first accepted line gives the answer, and the lines after it are left unread. */
  lemma {:induction false} AskAt(spec: ArgSpec, lines: seq<string>, n: nat)
    requires FirstTaken(spec, lines, n)
    ensures Ask(spec, lines) == Ok((Answer(spec, lines[n]), lines[n + 1..]))
    decreases n
  {
    if n == 0 {
      assert Taken(spec, lines[0]);
    } else {
      var tail := lines[1..];
      assert !Taken(spec, lines[0]);
      assert Ask(spec, lines) == Ask(spec, tail);
      forall j | 0 <= j < n - 1
        ensures !Taken(spec, tail[j])
      {
        assert tail[j] == lines[j + 1];
      }
      assert tail[n - 1] == lines[n];
      AskAt(spec, tail, n - 1);
      assert tail[n..] == lines[n + 1..];
    }
  }

  /** Whatever answer is taken validates, or is blank with a blank default. */
  lemma {:induction false} AskAccepts(spec: ArgSpec, lines: seq<string>)
    ensures Ask(spec, lines).Ok? ==> Accepts(spec, Ask(spec, lines).value.0)
    decreases |lines|
  {
    if lines != [] && !Taken(spec, lines[0]) {
      AskAccepts(spec, lines[1..]);
    }
  }

  /**
   * The answer taken is that of the first line the loop accepts: input
   * runs out exactly when no line is accepted; otherwise the value taken
   * validates or is a blank default, it is the answer of the first line
   * accepted, and the lines after that one are left unread.
   */
  lemma AskMeaning(spec: ArgSpec, lines: seq<string>)
    ensures Ask(spec, lines).Err? <==> forall j :: 0 <= j < |lines| ==> !Taken(spec, lines[j])
    ensures Ask(spec, lines).Ok? ==> Accepts(spec, Ask(spec, lines).value.0)
    ensures forall n :: FirstTaken(spec, lines, n) ==> Ask(spec, lines) == Ok((Answer(spec, lines[n]), lines[n + 1..]))
  {
    AskFails(spec, lines);
    AskAccepts(spec, lines);
    forall n | FirstTaken(spec, lines, n)
      ensures Ask(spec, lines) == Ok((Answer(spec, lines[n]), lines[n + 1..]))
    {
      AskAt(spec, lines, n);
    }
  }

  /** `for f in clean: value = f(value)`: the functions applied in order. */
  function Clean(fs: seq<string -> string>, v: string): string {
    if fs == [] then v else fs[|fs| - 1](Clean(fs[..|fs| - 1], v))
  }

  /** The cleaned value is the last function applied to what the earlier ones left. */
  lemma CleanSnoc(fs: seq<string -> string>, f: string -> string, v: string)
    ensures Clean(fs + [f], v) == f(Clean(fs, v))
  {
    assert (fs + [f])[..|fs|] == fs;
  }

  function KeysOf(config: seq<(string, ArgSpec)>): (r: set<string>)
  {
    if config == [] then {} else {config[0].0} + KeysOf(config[1..])
  }

  /** A configuration is a dict: each key once, in insertion order. */
  predicate DistinctKeys(config: seq<(string, ArgSpec)>) {
    config == [] || (config[0].0 !in KeysOf(config[1..]) && DistinctKeys(config[1..]))
  }

  /**
   * The loop over the configuration from the arguments collected so far:
   * a key given on the command line is copied, any other key is asked for
   * and its answer cleaned.
   */
  function PromptFrom(config: seq<(string, ArgSpec)>, cli: map<string, string>, lines: seq<string>, args: map<string, string>)
    : Result<(map<string, string>, seq<string>), Failure>
    requires DistinctKeys(config)
    decreases |config|
  {
    if config == [] then Ok((args, lines))
    else
      var (key, spec) := config[0];
      if key in cli then PromptFrom(config[1..], cli, lines, args[key := cli[key]])
      else
        match Ask(spec, lines)
        case Err(e) => Err(e)
        case Ok((value, rest)) => PromptFrom(config[1..], cli, rest, args[key := Clean(CleanOf(spec), value)])
  }

  /** What the loop collects: the earlier arguments and one entry per configured key. */
  lemma {:induction false} PromptFromKeys(config: seq<(string, ArgSpec)>, cli: map<string, string>, lines: seq<string>, args: map<string, string>)
    requires DistinctKeys(config) && PromptFrom(config, cli, lines, args).Ok?
    ensures PromptFrom(config, cli, lines, args).value.0.Keys == args.Keys + KeysOf(config)
    decreases |config|
  {
    if config != [] {
      var (key, spec) := config[0];
      if key in cli {
        PromptFromKeys(config[1..], cli, lines, args[key := cli[key]]);
      } else {
        var (value, rest) := Ask(spec, lines).value;
        PromptFromKeys(config[1..], cli, rest, args[key := Clean(CleanOf(spec), value)]);
      }
    }
  }

  /** A configured key given on the command line keeps its command-line value. */
  lemma {:induction false} PromptFromBypass(config: seq<(string, ArgSpec)>, cli: map<string, string>, lines: seq<string>, args: map<string, string>, k: string)
    requires DistinctKeys(config) && PromptFrom(config, cli, lines, args).Ok?
    requires k in KeysOf(config) && k in cli
    ensures k in PromptFrom(config, cli, lines, args).value.0 && PromptFrom(config, cli, lines, args).value.0[k] == cli[k]
    decreases |config|
  {
    var (key, spec) := config[0];
    if key == k {
      PromptFromKeeps(config[1..], cli, lines, args[key := cli[key]], k);
    } else if key in cli {
      PromptFromBypass(config[1..], cli, lines, args[key := cli[key]], k);
    } else {
      var (value, rest) := Ask(spec, lines).value;
      PromptFromBypass(config[1..], cli, rest, args[key := Clean(CleanOf(spec), value)], k);
    }
  }

  /** An argument collected before, whose key is not configured any more, stays as it was. */
  lemma {:induction false} PromptFromKeeps(config: seq<(string, ArgSpec)>, cli: map<string, string>, lines: seq<string>, args: map<string, string>, k: string)
    requires DistinctKeys(config) && PromptFrom(config, cli, lines, args).Ok?
    requires k in args && k !in KeysOf(config)
    ensures k in PromptFrom(config, cli, lines, args).value.0 && PromptFrom(config, cli, lines, args).value.0[k] == args[k]
    decreases |config|
  {
    if config != [] {
      var (key, spec) := config[0];
      if key in cli {
        PromptFromKeeps(config[1..], cli, lines, args[key := cli[key]], k);
      } else {
        var (value, rest) := Ask(spec, lines).value;
        PromptFromKeeps(config[1..], cli, rest, args[key := Clean(CleanOf(spec), value)], k);
      }
    }
  }

  /** When every configured key is given on the command line, nothing is read. */
  lemma {:induction false} PromptFromReadsNothing(config: seq<(string, ArgSpec)>, cli: map<string, string>, lines: seq<string>, args: map<string, string>)
    requires DistinctKeys(config) && KeysOf(config) <= cli.Keys
    ensures PromptFrom(config, cli, lines, args).Ok? && PromptFrom(config, cli, lines, args).value.1 == lines
    decreases |config|
  {
    if config != [] {
      var key := config[0].0;
      PromptFromReadsNothing(config[1..], cli, lines, args[key := cli[key]]);
    }
  }

  /** `prompt_user(config, cli_args)`: the collected arguments and the input left unread. */
  function PromptAll(config: seq<(string, ArgSpec)>, cli: map<string, string>, lines: seq<string>)
    : (r: Result<(map<string, string>, seq<string>), Failure>)
    requires DistinctKeys(config)
  {
    PromptFrom(config, cli, lines, map[])
  }

  /** The result has exactly the configured keys, with the command-line values of those given there. */
  lemma PromptAllKeys(config: seq<(string, ArgSpec)>, cli: map<string, string>, lines: seq<string>)
    requires DistinctKeys(config) && PromptAll(config, cli, lines).Ok?
    ensures PromptAll(config, cli, lines).value.0.Keys == KeysOf(config)
    ensures forall k :: k in KeysOf(config) && k in cli ==> PromptAll(config, cli, lines).value.0[k] == cli[k]
  {
    PromptFromKeys(config, cli, lines, map[]);
    forall k | k in KeysOf(config) && k in cli
      ensures PromptAll(config, cli, lines).value.0[k] == cli[k]
    {
      PromptFromBypass(config, cli, lines, map[], k);
    }
  }

  /** When every key is given on the command line, nothing is read. */
  lemma AllGivenReadsNothing(config: seq<(string, ArgSpec)>, cli: map<string, string>, lines: seq<string>)
    requires DistinctKeys(config) && KeysOf(config) <= cli.Keys
    ensures PromptAll(config, cli, lines).Ok? && PromptAll(config, cli, lines).value.1 == lines
  {
    PromptFromReadsNothing(config, cli, lines, map[]);
  }

  /** Without a validator and without a default, a blank answer is never taken. */
  lemma BlankRejectedByDefault(spec: ArgSpec, lines: seq<string>)
    requires DefaultOf(spec).None? && ValidatorOf(spec) == NonEmpty
    requires Ask(spec, lines).Ok?
    ensures Ask(spec, lines).value.0 != ""
  {
    AskMeaning(spec, lines);
  }

  /** A blank default lets a blank answer through, whatever the validator says. */
  lemma BlankDefaultAcceptsBlank(spec: ArgSpec, line: string, rest: seq<string>)
    requires DefaultOf(spec) == Some("") && Strip(line) == ""
    ensures Ask(spec, [line] + rest) == Ok(("", rest))
  {
    assert ([line] + rest)[0] == line;
    assert ([line] + rest)[1..] == rest;
  }

  /** The typed lines not yet read. */
  class Console {
    var pending: seq<string>

    constructor (lines: seq<string>)
      ensures pending == lines
    {
      pending := lines;
    }

    /** `input(...)`: the next line, or EOFError when there is none. */
    method Input() returns (r: Result<string, Failure>)
      modifies this
      ensures old(pending) == [] ==> r == Err(EndOfInput) && pending == old(pending)
      ensures old(pending) != [] ==> r == Ok(old(pending)[0]) && pending == old(pending)[1..]
    {
      if pending == [] {
        return Err(EndOfInput);
      }
      r := Ok(pending[0]);
      pending := pending[1..];
    }
  }

  /** The `while do:` loop for one key. */
  method AskLoop(spec: ArgSpec, console: Console) returns (r: Result<string, Failure>)
    modifies console
    ensures var a := Ask(spec, old(console.pending));
      (a.Err? ==> r == Err(a.error))
      && (a.Ok? ==> r == Ok(a.value.0) && console.pending == a.value.1)
  {
    ghost var goal := Ask(spec, console.pending);
    var done := false;
    r := Err(EndOfInput);
    while !done
      invariant !done ==> goal == Ask(spec, console.pending)
      invariant done ==> (goal.Err? ==> r == Err(goal.error)) && (goal.Ok? ==> r == Ok(goal.value.0) && console.pending == goal.value.1)
      decreases if done then 0 else |console.pending| + 1
    {
      var line := console.Input();
      if line.Err? {
        r, done := Err(line.error), true;
      } else {
        var value := Answer(spec, line.value);
        if Accepts(spec, value) {
          r, done := Ok(value), true;
        }
      }
    }
  }

  /** `for f in clean: value = f(value)`. */
  method ApplyClean(fs: seq<string -> string>, v: string) returns (value: string)
    ensures value == Clean(fs, v)
  {
    value := v;
    for i := 0 to |fs|
      invariant value == Clean(fs[..i], v)
    {
      CleanSnoc(fs[..i], fs[i], v);
      assert fs[..i + 1] == fs[..i] + [fs[i]];
      value := fs[i](value);
    }
    assert fs[..|fs|] == fs;
  }

  /** `prompt_user`: `cli_args` None is an empty dict. */
  method PromptUser(config: seq<(string, ArgSpec)>, cliArgs: Option<map<string, string>>, console: Console)
    returns (r: Result<map<string, string>, Failure>)
    requires DistinctKeys(config)
    modifies console
    ensures var o := PromptAll(config, if cliArgs.Some? then cliArgs.value else map[], old(console.pending));
      (o.Err? ==> r == Err(o.error)) && (o.Ok? ==> r == Ok(o.value.0) && console.pending == o.value.1)
  {
    var cli := if cliArgs.Some? then cliArgs.value else map[];
    var arguments: map<string, string> := map[];
    ghost var goal := PromptAll(config, cli, console.pending);
    var err: Option<Failure> := None;
    var i := 0;
    while i < |config| && err.None?
      invariant 0 <= i <= |config|
      invariant DistinctKeys(config[i..])
      invariant err.None? ==> goal == PromptFrom(config[i..], cli, console.pending, arguments)
      invariant err.Some? ==> goal == Err(err.value)
    {
      PromptStep(config, i, cli, console.pending, arguments);
      ghost var before := console.pending;
      var (key, spec) := config[i];
      if key in cli {
        arguments := arguments[key := cli[key]];
      } else {
        var value := AskLoop(spec, console);
        if value.Err? {
          assert Ask(spec, before) == Err(value.error);
          err := Some(value.error);
        } else {
          assert Ask(spec, before) == Ok((value.value, console.pending));
          var cleaned := ApplyClean(CleanOf(spec), value.value);
          arguments := arguments[key := cleaned];
        }
      }
      i := i + 1;
    }
    if err.Some? {
      return Err(err.value);
    }
    r := Ok(arguments);
  }

  /** One step of the loop over the configuration, from entry i. */
  lemma PromptStep(config: seq<(string, ArgSpec)>, i: nat, cli: map<string, string>, lines: seq<string>, args: map<string, string>)
    requires i < |config| && DistinctKeys(config[i..])
    ensures DistinctKeys(config[i + 1..])
    ensures var (key, spec) := config[i];
      PromptFrom(config[i..], cli, lines, args) ==
        if key in cli then PromptFrom(config[i + 1..], cli, lines, args[key := cli[key]])
        else
          match Ask(spec, lines)
          case Err(e) => Err(e)
          case Ok((value, rest)) => PromptFrom(config[i + 1..], cli, rest, args[key := Clean(CleanOf(spec), value)])
  {
    assert config[i..][0] == config[i];
    assert config[i..][1..] == config[i + 1..];
  }
}
