/**
 * Launch methods of the current package (src/mcsrv/launch/): how a server
 * directory is started. A launch method is a registered class with a tag
 * (`METHOD`), a probe (`could_satisfy`) that inspects a directory and
 * proposes the method's argument, an argv builder and an existence check.
 * The manager keeps the registered classes in order; lookup by stored tag
 * and probing both take the first class, in registration order, that fits.
 *
 * Oracles: `jars` is the `*.jar` listing of the directory in glob order,
 * `answer` is the index of the choice the jar prompt returned (None when
 * it was cancelled) and `shlex` is `shlex.split`, None where it raises
 * ValueError (an unbalanced quote, say).
 */
module Launch {
  import opened Wrappers
  import opened Text
  import opened FileSystem

  /** The classes that can be registered: the base class and its two variants. */
  datatype MethodClass = NullMethod | JarMethod | ForgeMethod

  /** `METHOD`, the tag a launch method is stored under. */
  function Tag(c: MethodClass): string {
    match c
    case NullMethod => "null"
    case JarMethod => "jar"
    case ForgeMethod => "forge"
  }

  /** The tags tell the classes apart, so a lookup by tag is unambiguous. */
  lemma TagsDistinct(c: MethodClass, d: MethodClass)
    ensures Tag(c) == Tag(d) <==> c == d
  {
  }

  /** An instance `mng(path, args)`: its class, the server directory and the argument. */
  datatype LaunchMethod = LaunchMethod(cls: MethodClass, path: string, args: string)

  /** `to_tuple`: what is stored to find the method again. */
  function ToTuple(m: LaunchMethod): (string, string) {
    (Tag(m.cls), m.args)
  }

  /** `get_command`: the base class builds nothing (None). */
  function GetCommand(m: LaunchMethod, java: string, ram: string): (r: Option<seq<string>>)
    ensures m.cls == NullMethod <==> r.None?
    ensures m.cls == JarMethod ==> r == Some([java, "-Xmx" + ram, "-jar", m.args])
    ensures m.cls == ForgeMethod ==> r == Some([java, "-Xmx" + ram, "@" + m.args])
  {
    match m.cls
    case NullMethod => None
    case JarMethod => Some([java, "-Xmx" + ram, "-jar", m.args])
    case ForgeMethod => Some([java, "-Xmx" + ram, "@" + m.args])
  }

  /** `is_valid`: the argument names an existing file of the directory (the base class: None, falsy). */
  predicate IsValid(m: LaunchMethod, files: map<string, string>) {
    m.cls != NullMethod && JoinPath(m.path, m.args) in files
  }

  // ---------------------------------------------------------------- lookup

  /** The classes are in registration order: the first one with the tag wins. */
  function FindTag(methods: seq<MethodClass>, tag: string): (r: Option<nat>)
    ensures r.None? <==> forall k :: 0 <= k < |methods| ==> Tag(methods[k]) != tag
    ensures r.Some? ==>
      r.value < |methods| && Tag(methods[r.value]) == tag
      && forall j :: 0 <= j < r.value ==> Tag(methods[j]) != tag
  {
    if methods == [] then None
    else if Tag(methods[0]) == tag then Some(0)
    else match FindTag(methods[1..], tag)
      case None => None
      case Some(k) => Some(k + 1)
  }

  /** `get_method` on the stored `(tag, args)` of the server at `path`. */
  function GetMethodIn(methods: seq<MethodClass>, path: string, stored: (string, string)): (r: Option<LaunchMethod>)
    ensures r.None? <==> forall k :: 0 <= k < |methods| ==> Tag(methods[k]) != stored.0
    ensures r.Some? ==>
      r.value.path == path && r.value.args == stored.1 && Tag(r.value.cls) == stored.0
      && exists k :: 0 <= k < |methods| && methods[k] == r.value.cls
           && forall j :: 0 <= j < k ==> Tag(methods[j]) != stored.0
  {
    match FindTag(methods, stored.0)
    case None => None
    case Some(k) => Some(LaunchMethod(methods[k], path, stored.1))
  }

  /** Looking up what `to_tuple` stored rebuilds the same method, whenever its class is registered. */
  lemma GetMethodToTuple(methods: seq<MethodClass>, m: LaunchMethod)
    requires m.cls in methods
    ensures GetMethodIn(methods, m.path, ToTuple(m)) == Some(m)
  {
    var r := GetMethodIn(methods, m.path, ToTuple(m));
    var k :| 0 <= k < |methods| && methods[k] == m.cls;
    assert Tag(methods[k]) == ToTuple(m).0;
    TagsDistinct(r.value.cls, m.cls);
  }

  // ---------------------------------------------------------------- probes

  /** The answers of the outside world a probe consults. */
  datatype Oracles = Oracles(jars: seq<string>, answer: Option<nat>, shlex: string -> Option<seq<string>>)

  /** The prompt offers one choice per jar and "Other server type...": its answer is one of them. */
  predicate AnswerOffered(o: Oracles) {
    o.answer.Some? ==> o.answer.value <= |o.jars|
  }

  /**
   * `JarLaunchMethod.could_satisfy`: no jar gives None without a prompt;
   * otherwise the chosen jar's path relative to the directory (its name),
   * None for "Other server type...", and Exit(1) for a cancelled prompt.
   */
  function JarOutcome(jars: seq<string>, answer: Option<nat>): (r: Result<Option<string>, Failure>)
    requires answer.Some? ==> answer.value <= |jars|
    ensures jars == [] ==> r == Ok(None)
    ensures jars != [] && answer.None? ==> r == Err(Exit(1, PromptAborted))
    ensures r.Ok? && r.value.Some? ==> r.value.value in jars
    ensures jars != [] && answer.Some? ==> r.Ok? && (r.value.None? <==> answer.value == |jars|)
  {
    if jars == [] then Ok(None)
    else
      match answer
      case None => Err(Exit(1, PromptAborted))
      case Some(i) => if i < |jars| then Ok(Some(jars[i])) else Ok(None)
  }

  /** The prompt is shown even for a single jar: cancelling it still exits. */
  lemma SingleJarStillPrompts(jar: string)
    ensures JarOutcome([jar], None) == Err(Exit(1, PromptAborted))
    ensures JarOutcome([jar], Some(0)) == Ok(Some(jar))
    ensures JarOutcome([jar], Some(1)) == Ok(None)
  {
  }

  /** The glob lists files of the directory, so the jar a prompt picks passes `is_valid`. */
  lemma JarFoundIsValid(files: map<string, string>, dir: string, jars: seq<string>, answer: Option<nat>, a: string)
    requires answer.Some? ==> answer.value <= |jars|
    requires forall j :: j in jars ==> JoinPath(dir, j) in files
    requires JarOutcome(jars, answer) == Ok(Some(a))
    ensures IsValid(LaunchMethod(JarMethod, dir, a), files)
  {
    assert a in jars;
  }

  const ArgPrefix := "@libraries/net/minecraftforge/forge/"
  const ArgSuffix := "/unix_args.txt"

  /**
   * `ARG_RE.match(tok)` and its group 1: the whole token but its leading
   * '@'. `.` matches no '\n' and `$` also matches before one final '\n',
   * which group 1 then leaves out.
   */
  function ArgMatch(tok: string): (r: Option<string>)
    ensures r.Some? ==> tok == "@" + r.value || tok == "@" + r.value + "\n"
    ensures r.Some? ==> StartsWith(r.value, ArgPrefix[1..]) && EndsWith(r.value, ArgSuffix) && '\n' !in r.value
  {
    var body := if EndsWith(tok, "\n") then tok[..|tok| - 1] else tok;
    if |body| >= |ArgPrefix| + |ArgSuffix| && StartsWith(body, ArgPrefix) && EndsWith(body, ArgSuffix) && '\n' !in body then
      ArgBodyShape(body);
      assert EndsWith(tok, "\n") ==> tok == body + "\n";
      Some(body[1..])
    else None
  }

  /** A matching body is '@' followed by the group, which keeps the rest of the prefix and the suffix. */
  lemma ArgBodyShape(body: string)
    requires |body| >= |ArgPrefix| + |ArgSuffix| && StartsWith(body, ArgPrefix) && EndsWith(body, ArgSuffix)
    requires '\n' !in body
    ensures body == "@" + body[1..] && '\n' !in body[1..]
    ensures StartsWith(body[1..], ArgPrefix[1..]) && EndsWith(body[1..], ArgSuffix)
  {
    var t := body[1..];
    assert body[0] == body[..|ArgPrefix|][0];
    assert t[..|ArgPrefix| - 1] == body[1..|ArgPrefix|];
    assert body[1..|ArgPrefix|] == body[..|ArgPrefix|][1..];
    assert t[|t| - |ArgSuffix|..] == body[|body| - |ArgSuffix|..];
    assert forall i :: 0 <= i < |t| ==> t[i] == body[i + 1];
  }

  /** Every token of the form `@libraries/net/minecraftforge/forge/<m>/unix_args.txt` matches, whatever `<m>` is. */
  lemma ArgMatchAccepts(m: string)
    requires '\n' !in m
    ensures ArgMatch(ArgPrefix + m + ArgSuffix) == Some(ArgPrefix[1..] + m + ArgSuffix)
  {
    var tok := ArgPrefix + m + ArgSuffix;
    ConcatParts(ArgPrefix, m, ArgSuffix);
    assert '\n' !in ArgPrefix && '\n' !in ArgSuffix;
    assert tok[|tok| - 1] == ArgSuffix[|ArgSuffix| - 1];
  }

  /** A token the regular expression accepts. */
  predicate IsArgToken(tok: string) {
    ArgMatch(tok).Some?
  }

  /** The index of the last matching token. */
  function LastMatch(tokens: seq<string>): (r: Option<nat>)
    ensures r.None? <==> forall k :: 0 <= k < |tokens| ==> !IsArgToken(tokens[k])
    ensures r.Some? ==>
      r.value < |tokens| && IsArgToken(tokens[r.value])
      && forall j :: r.value < j < |tokens| ==> !IsArgToken(tokens[j])
  {
    LastWhere(tokens, IsArgToken)
  }

  /** The argument the loop over the tokens ends with: the group of the last matching token. */
  function LastArg(tokens: seq<string>): (r: Option<string>)
    ensures r.None? <==> forall k :: 0 <= k < |tokens| ==> !IsArgToken(tokens[k])
    ensures r.Some? ==> LastMatch(tokens).Some? && r == ArgMatch(tokens[LastMatch(tokens).value])
  {
    match LastMatch(tokens)
    case None => None
    case Some(k) => ArgMatch(tokens[k])
  }

  /** A line that runs java. */
  predicate IsJavaLine(line: string) {
    StartsWith(Strip(line), "java")
  }

  /** The index of the first line of run.sh whose stripped form starts with "java". */
  function FirstJavaIndex(lines: seq<string>): (r: Option<nat>)
    ensures r.None? <==> forall k :: 0 <= k < |lines| ==> !IsJavaLine(lines[k])
    ensures r.Some? ==>
      r.value < |lines| && IsJavaLine(lines[r.value])
      && forall j :: 0 <= j < r.value ==> !IsJavaLine(lines[j])
  {
    FirstWhere(lines, IsJavaLine)
  }

  /** That line itself. */
  function FirstJavaLine(lines: seq<string>): (r: Option<string>)
    ensures r.None? <==> forall k :: 0 <= k < |lines| ==> !IsJavaLine(lines[k])
    ensures r.Some? ==> FirstJavaIndex(lines).Some? && r.value == lines[FirstJavaIndex(lines).value]
  {
    match FirstJavaIndex(lines)
    case None => None
    case Some(k) => Some(lines[k])
  }

  function JvmArgsFile(dir: string): string { JoinPath(dir, "user_jvm_args.txt") }
  function RunScript(dir: string): string { JoinPath(dir, "run.sh") }

  /**
   * `ForgeLaunchMethod.could_satisfy`: the argument found and the files
   * afterwards. The two marker files are removed only when an argument is
   * returned; every None, and the ValueError of a java line `shlex.split`
   * cannot split, leaves the files as they were.
   */
  function ForgeOutcome(files: map<string, string>, dir: string, shlex: string -> Option<seq<string>>)
    : (r: (Result<Option<string>, Failure>, map<string, string>))
    ensures !(r.0.Ok? && r.0.value.Some?) ==> r.1 == files
    ensures r.0.Err? <==>
      JvmArgsFile(dir) in files && RunScript(dir) in files
      && FirstJavaLine(ReadLines(files[RunScript(dir)])).Some?
      && shlex(Strip(FirstJavaLine(ReadLines(files[RunScript(dir)])).value)).None?
    ensures r.0.Err? ==> r.0.error == ValueError
    ensures r.0.Ok? && r.0.value.Some? ==>
      JvmArgsFile(dir) in files && RunScript(dir) in files && JoinPath(dir, r.0.value.value) in files
      && r.1 == files - {JvmArgsFile(dir), RunScript(dir)}
    ensures r.0.Ok? && r.0.value.Some? ==>
      FirstJavaLine(ReadLines(files[RunScript(dir)])).Some?
      && shlex(Strip(FirstJavaLine(ReadLines(files[RunScript(dir)])).value)).Some?
      && LastArg(shlex(Strip(FirstJavaLine(ReadLines(files[RunScript(dir)])).value)).value) == r.0.value
  {
    var jvm, run := JvmArgsFile(dir), RunScript(dir);
    if jvm !in files || run !in files then (Ok(None), files)
    else
      match FirstJavaLine(ReadLines(files[run]))
      case None => (Ok(None), files)
      case Some(line) =>
        match shlex(Strip(line))
        case None => (Err(ValueError), files)
        case Some(tokens) =>
          match LastArg(tokens)
          case None => (Ok(None), files)
          case Some(a) => if JoinPath(dir, a) in files then (Ok(Some(a)), files - {jvm, run}) else (Ok(None), files)
  }

  /** After one successful probe a second one finds nothing: the markers are gone. */
  lemma ForgeProbesOnce(files: map<string, string>, dir: string, shlex: string -> Option<seq<string>>)
    requires ForgeOutcome(files, dir, shlex).0.Ok? && ForgeOutcome(files, dir, shlex).0.value.Some?
    ensures ForgeOutcome(ForgeOutcome(files, dir, shlex).1, dir, shlex) == (Ok(None), ForgeOutcome(files, dir, shlex).1)
  {
  }

  /**
   * `is_valid` holds for the Forge method a probe finds, on the files the
   * probe leaves: the argument file is neither of the two markers removed.
   */
  lemma ForgeFoundIsValid(files: map<string, string>, dir: string, shlex: string -> Option<seq<string>>, a: string, after: map<string, string>)
    requires ForgeOutcome(files, dir, shlex) == (Ok(Some(a)), after)
    ensures IsValid(LaunchMethod(ForgeMethod, dir, a), after)
  {
    ForgeArgShape(files, dir, shlex, a);
    ForgeFound(files, dir, shlex, a, after);
    ArgFileKept(files, dir, a, after);
  }

  /** Removing the markers keeps an argument file. */
  lemma ArgFileKept(files: map<string, string>, dir: string, a: string, after: map<string, string>)
    requires EndsWith(a, ArgSuffix) && JoinPath(dir, a) in files
    requires after == files - {JvmArgsFile(dir), RunScript(dir)}
    ensures JoinPath(dir, a) in after
  {
    ArgFileIsNoMarker(dir, a);
    KeptByRemoval(files, {JvmArgsFile(dir), RunScript(dir)}, JoinPath(dir, a));
  }

  /** What a probe that finds an argument leaves: its file exists, and the markers are removed. */
  lemma ForgeFound(files: map<string, string>, dir: string, shlex: string -> Option<seq<string>>, a: string, after: map<string, string>)
    requires ForgeOutcome(files, dir, shlex) == (Ok(Some(a)), after)
    ensures JoinPath(dir, a) in files && after == files - {JvmArgsFile(dir), RunScript(dir)}
  {
    var r := ForgeOutcome(files, dir, shlex);
    assert r.0.Ok? && r.0.value.Some? && r.0.value.value == a && r.1 == after;
  }

  /** A key outside the removed set is still a key. */
  lemma KeptByRemoval<K, V>(m: map<K, V>, gone: set<K>, k: K)
    requires k in m && k !in gone
    ensures k in m - gone
  {
  }

  /** The argument a probe finds is a match group, so it ends with the suffix of `ARG_RE`. */
  lemma ForgeArgShape(files: map<string, string>, dir: string, shlex: string -> Option<seq<string>>, a: string)
    requires ForgeOutcome(files, dir, shlex).0 == Ok(Some(a))
    ensures EndsWith(a, ArgSuffix)
  {
    var line := FirstJavaLine(ReadLines(files[RunScript(dir)])).value;
    var tokens := shlex(Strip(line)).value;
    assert ArgMatch(tokens[LastMatch(tokens).value]) == Some(a);
  }

  /** A file named by a match group is neither `user_jvm_args.txt` nor `run.sh`. */
  lemma ArgFileIsNoMarker(dir: string, a: string)
    requires EndsWith(a, ArgSuffix)
    ensures JoinPath(dir, a) !in {JvmArgsFile(dir), RunScript(dir)}
  {
    SuffixOfSuffix(JoinPath(dir, a), a, ArgSuffix);
    NotJvmArgs(JoinPath(dir, a), dir);
    NotRunScript(JoinPath(dir, a), dir);
  }

  lemma NotJvmArgs(p: string, dir: string)
    requires EndsWith(p, ArgSuffix)
    ensures p != JvmArgsFile(dir)
  {
    assert ArgSuffix[1] == 'u' && "user_jvm_args.txt"[4] == '_';
    EndsDiffer(p, JvmArgsFile(dir), ArgSuffix, "user_jvm_args.txt", 13);
  }

  lemma NotRunScript(p: string, dir: string)
    requires EndsWith(p, ArgSuffix)
    ensures p != RunScript(dir)
  {
    assert ArgSuffix[13] == 't' && "run.sh"[5] == 'h';
    EndsDiffer(p, RunScript(dir), ArgSuffix, "run.sh", 1);
  }

  /** A suffix of a suffix is a suffix. */
  lemma SuffixOfSuffix(x: string, s: string, t: string)
    requires EndsWith(x, s) && EndsWith(s, t)
    ensures EndsWith(x, t)
  {
    assert x[|x| - |t|..] == s[|s| - |t|..];
  }

  /** Texts that end with suffixes differing k characters from the end are different. */
  lemma EndsDiffer(p: string, q: string, s: string, t: string, k: nat)
    requires EndsWith(p, s) && EndsWith(q, t) && 0 < k <= |s| && k <= |t| && s[|s| - k] != t[|t| - k]
    ensures p != q
  {
    SuffixAt(p, s, k);
    SuffixAt(q, t, k);
  }

  /** A text ending with a suffix agrees with it k characters from the end. */
  lemma SuffixAt(x: string, s: string, k: nat)
    requires EndsWith(x, s) && 0 < k <= |s|
    ensures x[|x| - k] == s[|s| - k]
  {
    assert x[|x| - |s|..][|s| - k] == x[|x| - k];
  }

  /**
   * The launch token of a detected Forge argument is the token that
   * matched, unless that token ended with '\n', which `$` let through.
   */
  lemma ForgeTokenIsMatchedToken(tok: string, java: string, ram: string, dir: string)
    requires ArgMatch(tok).Some? && !EndsWith(tok, "\n")
    ensures GetCommand(LaunchMethod(ForgeMethod, dir, ArgMatch(tok).value), java, ram) == Some([java, "-Xmx" + ram, tok])
  {
  }

  /** The outcome of one class's probe and the files afterwards. */
  function Satisfy(c: MethodClass, files: map<string, string>, dir: string, o: Oracles)
    : (r: (Result<Option<string>, Failure>, map<string, string>))
    requires AnswerOffered(o)
    ensures c != ForgeMethod ==> r.1 == files
    ensures c == NullMethod ==> r.0 == Ok(None)
  {
    match c
    case NullMethod => (Ok(None), files)
    case JarMethod => (JarOutcome(o.jars, o.answer), files)
    case ForgeMethod =>
      ForgeOutcome(files, dir, o.shlex)
  }

  /** Python truthiness of the probe result: None and "" are skipped. */
  predicate Truthy(a: Option<string>) {
    a.Some? && a.value != ""
  }

  /**
   * `find_matching_method`: the first class, in registration order, whose
   * probe is truthy, built with that value; an exception of a probe ends
   * the search. The files are those the probes consulted left behind.
   */
  function Probe(methods: seq<MethodClass>, files: map<string, string>, dir: string, o: Oracles)
    : (r: (Result<Option<LaunchMethod>, Failure>, map<string, string>))
    requires AnswerOffered(o)
    ensures r.0.Ok? && r.0.value.Some? ==>
      r.0.value.value.path == dir && r.0.value.value.cls in methods
      && r.0.value.value.cls != NullMethod && r.0.value.value.args != ""
    decreases |methods|
  {
    if methods == [] then (Ok(None), files)
    else
      var s := Satisfy(methods[0], files, dir, o);
      match s.0
      case Err(e) => (Err(e), s.1)
      case Ok(a) =>
        if Truthy(a) then (Ok(Some(LaunchMethod(methods[0], dir, a.value))), s.1)
        else Probe(methods[1..], s.1, dir, o)
  }

  /** A truthy first probe wins and no later class is consulted. */
  lemma ProbeFirstWins(c: MethodClass, rest: seq<MethodClass>, files: map<string, string>, dir: string, o: Oracles)
    requires AnswerOffered(o)
    requires Satisfy(c, files, dir, o).0.Ok? && Truthy(Satisfy(c, files, dir, o).0.value)
    ensures Probe([c] + rest, files, dir, o)
      == (Ok(Some(LaunchMethod(c, dir, Satisfy(c, files, dir, o).0.value.value))), Satisfy(c, files, dir, o).1)
  {
    assert ([c] + rest)[0] == c;
  }

  /** A falsy first probe passes the search on to the next classes, with the files it left. */
  lemma ProbeFalsySkips(c: MethodClass, rest: seq<MethodClass>, files: map<string, string>, dir: string, o: Oracles)
    requires AnswerOffered(o)
    requires Satisfy(c, files, dir, o).0.Ok? && !Truthy(Satisfy(c, files, dir, o).0.value)
    ensures Probe([c] + rest, files, dir, o) == Probe(rest, Satisfy(c, files, dir, o).1, dir, o)
  {
    assert ([c] + rest)[0] == c;
    assert ([c] + rest)[1..] == rest;
  }

  /** Only the base class registered: nothing ever matches and nothing changes. */
  lemma NullNeverWins(n: nat, files: map<string, string>, dir: string, o: Oracles)
    requires AnswerOffered(o)
    ensures Probe(seq(n, _ => NullMethod), files, dir, o) == (Ok(None), files)
  {
    var ms := seq(n, _ => NullMethod);
    if n > 0 {
      assert ms == [NullMethod] + seq(n - 1, _ => NullMethod);
      ProbeFalsySkips(NullMethod, seq(n - 1, _ => NullMethod), files, dir, o);
      NullNeverWins(n - 1, files, dir, o);
    }
  }

  // ---------------------------------------------------------------- the manager

  /** `LaunchMethodManager`, whose class-level `_METHODS` list is its state. */
  class Manager {
    var methods: seq<MethodClass>

    constructor ()
      ensures methods == []
    {
      methods := [];
    }

    /** `register`: appended last, the earlier classes stay in place. */
    method Register(c: MethodClass)
      modifies this
      ensures methods == old(methods) + [c]
    {
      methods := methods + [c];
    }

    /** `get_method` for a server at `path` whose stored launch method is `stored`. */
    function GetMethod(path: string, stored: (string, string)): (r: Option<LaunchMethod>)
      reads this
    {
      GetMethodIn(methods, path, stored)
    }

    /** `find_matching_method`: the search loop over the registered classes. */
    method FindMatchingMethod(fs: Fs, dir: string, o: Oracles) returns (r: Result<Option<LaunchMethod>, Failure>)
      requires AnswerOffered(o)
      modifies fs
      ensures (r, fs.files) == Probe(methods, old(fs.files), dir, o)
      ensures fs.dirs == old(fs.dirs)
    {
      ghost var goal := Probe(methods, fs.files, dir, o);
      r := Ok(None);
      var done := false;
      var i := 0;
      while i < |methods| && !done
        invariant 0 <= i <= |methods| && fs.dirs == old(fs.dirs)
        invariant !done ==> r == Ok(None) && goal == Probe(methods[i..], fs.files, dir, o)
        invariant done ==> goal == (r, fs.files)
      {
        var c := methods[i];
        ProbeUnfold(methods, i, fs.files, dir, o);
        var a := CouldSatisfy(c, fs, dir, o);
        if a.Err? {
          r, done := Err(a.error), true;
        } else if a.value.Some? && a.value.value != "" {
          r, done := Ok(Some(LaunchMethod(c, dir, a.value.value))), true;
        }
        i := i + 1;
      }
      if !done {
        assert methods[i..] == [];
      }
    }
  }

  /** The search from class i on takes one probe and then goes on from class i + 1. */
  lemma ProbeUnfold(methods: seq<MethodClass>, i: nat, files: map<string, string>, dir: string, o: Oracles)
    requires AnswerOffered(o) && i < |methods|
    ensures var s := Satisfy(methods[i], files, dir, o);
      Probe(methods[i..], files, dir, o) ==
        match s.0
        case Err(e) => (Err(e), s.1)
        case Ok(a) =>
          if Truthy(a) then (Ok(Some(LaunchMethod(methods[i], dir, a.value))), s.1)
          else Probe(methods[i + 1..], s.1, dir, o)
  {
    assert methods[i..][0] == methods[i];
    assert methods[i..][1..] == methods[i + 1..];
  }

  /** One class's `could_satisfy`, run against the filesystem. */
  method CouldSatisfy(c: MethodClass, fs: Fs, dir: string, o: Oracles) returns (a: Result<Option<string>, Failure>)
    requires AnswerOffered(o)
    modifies fs
    ensures (a, fs.files) == Satisfy(c, old(fs.files), dir, o)
    ensures fs.dirs == old(fs.dirs)
  {
    match c
    case NullMethod => a := Ok(None);
    case JarMethod => a := JarOutcome(o.jars, o.answer);
    case ForgeMethod =>
      a := ForgeCouldSatisfy(fs, dir, o.shlex);
  }

  /** `ForgeLaunchMethod.could_satisfy`, with its loop over the tokens of the java line. */
  method ForgeCouldSatisfy(fs: Fs, dir: string, shlex: string -> Option<seq<string>>) returns (a: Result<Option<string>, Failure>)
    modifies fs
    ensures (a, fs.files) == ForgeOutcome(old(fs.files), dir, shlex)
    ensures fs.dirs == old(fs.dirs)
  {
    var jvm, run := JvmArgsFile(dir), RunScript(dir);
    if jvm !in fs.files || run !in fs.files {
      return Ok(None);
    }
    var javaCmd := FirstJavaLine(ReadLines(fs.files[run]));
    if javaCmd.None? {
      return Ok(None);
    }
    var tokens := shlex(Strip(javaCmd.value));
    if tokens.None? {
      return Err(ValueError);
    }
    var argPath := ScanTokens(tokens.value);
    if argPath.None? || JoinPath(dir, argPath.value) !in fs.files {
      return Ok(None);
    }
    fs.Remove(jvm);
    fs.Remove(run);
    RemoveTwice(old(fs.files), jvm, run);
    a := Ok(argPath);
  }

  /** The loop over the tokens of the java line: the last match wins. */
  method ScanTokens(tokens: seq<string>) returns (argPath: Option<string>)
    ensures argPath == LastArg(tokens)
  {
    argPath := None;
    var i := 0;
    while i < |tokens|
      invariant 0 <= i <= |tokens|
      invariant argPath == LastArg(tokens[..i])
    {
      LastArgStep(tokens, i);
      var m := ArgMatch(tokens[i]);
      if m.Some? {
        argPath := m;
      }
      i := i + 1;
    }
    PrefixAll(tokens);
  }

  /** One more token: a match replaces the argument found so far. */
  lemma LastArgStep(tokens: seq<string>, i: nat)
    requires i < |tokens|
    ensures LastArg(tokens[..i + 1]) == if ArgMatch(tokens[i]).Some? then ArgMatch(tokens[i]) else LastArg(tokens[..i])
  {
    var p := tokens[..i + 1];
    assert p[|p| - 1] == tokens[i];
    assert p[..|p| - 1] == tokens[..i];
  }

  // ---------------------------------------------------------------- the package

  /** What importing the package registers: Jar first, then Forge. */
  const Registered: seq<MethodClass> := [JarMethod, ForgeMethod]

  /** The package's `__init__`: the two `register` calls on an empty list. */
  method InitPackage() returns (mgr: Manager)
    ensures fresh(mgr) && mgr.methods == Registered
  {
    mgr := new Manager();
    mgr.Register(JarMethod);
    mgr.Register(ForgeMethod);
  }

  /** "jar" resolves to the jar method, "forge" to the Forge method, any other tag to nothing. */
  lemma RegisteredTags(path: string, tag: string, args: string)
    ensures GetMethodIn(Registered, path, ("jar", args)) == Some(LaunchMethod(JarMethod, path, args))
    ensures GetMethodIn(Registered, path, ("forge", args)) == Some(LaunchMethod(ForgeMethod, path, args))
    ensures tag != "jar" && tag != "forge" ==> GetMethodIn(Registered, path, (tag, args)) == None
  {
  }

  /**
   * Probing the registered classes: a jar the prompt picked wins and
   * Forge is never consulted (the files stay as they were); Forge is
   * reached exactly when the jar probe gives None.
   */
  lemma RegisteredProbe(files: map<string, string>, dir: string, o: Oracles)
    requires AnswerOffered(o)
    ensures var j := JarOutcome(o.jars, o.answer);
      var p := Probe(Registered, files, dir, o);
      (j.Err? ==> p == (Err(j.error), files))
      && (j.Ok? && Truthy(j.value) ==> p == (Ok(Some(LaunchMethod(JarMethod, dir, j.value.value))), files))
      && (j == Ok(None) ==>
            var f := ForgeOutcome(files, dir, o.shlex);
            (f.0.Err? ==> p == (Err(f.0.error), files))
            && (f.0.Ok? ==> p == (Ok(if Truthy(f.0.value) then Some(LaunchMethod(ForgeMethod, dir, f.0.value.value)) else None), f.1)))
  {
    assert Registered[1..] == [ForgeMethod];
    assert [ForgeMethod][1..] == [];
  }
}
