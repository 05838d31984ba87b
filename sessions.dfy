/**
 * Terminal-multiplexer sessions: the `Screen` value parsed from a socket
 * name `<pid>.<name>` (util.py and screen.py, which are the same code),
 * discovery of the tool's sessions (`*.mc-*` entries of the socket
 * directory), the early Go CLI's parse of `screen -list`, the argument vectors
 * that send keystrokes into a session, and the warn-once log of util.py.
 */
module Sessions {
  import opened Wrappers
  import opened Text

  datatype Screen = Screen(pid: int, name: string)

  /** `s[0]` of `sock.split(".", 1)`: the text before the first '.', all of it when there is none. */
  function PidText(sock: string): (r: string)
    ensures '.' !in r && StartsWith(sock, r)
  {
    match SplitFirst(sock, '.')
    case None => sock
    case Some((p, _)) => p
  }

  /**
   * `Screen(sock)`: split at the first '.', int() of the prefix, the rest as
   * the name. int() runs first, so a prefix that is not a number raises
   * ValueError even when there is no '.'; only then does the missing
   * `s[1]` raise IndexError.
   */
  function ParseScreen(sock: string): (r: Result<Screen, Failure>)
    ensures r == Err(ValueError) <==> ParseInt(PidText(sock)).None?
    ensures r == Err(IndexError) <==> '.' !in sock && ParseInt(sock).Some?
    ensures r.Ok? ==> exists p :: sock == p + "." + r.value.name && '.' !in p && ParseInt(p) == Some(r.value.pid)
  {
    match SplitFirst(sock, '.')
    case None => if ParseInt(sock).None? then Err(ValueError) else Err(IndexError)
    case Some((p, n)) =>
      match ParseInt(p)
      case None => Err(ValueError)
      case Some(pid) => Ok(Screen(pid, n))
  }

  /** `__repr__` / `__str__`: "pid.name". */
  function Repr(s: Screen): string {
    IntToString(s.pid) + "." + s.name
  }

  /** Parsing a rendered session gives it back, whatever dots its name holds. */
  lemma ParseRepr(s: Screen)
    ensures ParseScreen(Repr(s)) == Ok(s)
  {
    IntToStringParse(s.pid);
    SplitFirstUnique(IntToString(s.pid), '.', s.name);
    assert Repr(s) == IntToString(s.pid) + ['.'] + s.name;
  }

  /** Rendering a parsed session reproduces its socket name when the pid prefix is canonical decimal. */
  lemma ReprParse(sock: string, p: string, n: string)
    requires sock == p + "." + n && '.' !in p
    requires CanonicalDecimal(p)
    ensures ParseScreen(sock).Ok?
    ensures ParseScreen(sock).value.name == n
    ensures Repr(ParseScreen(sock).value) == sock
  {
    SplitFirstUnique(p, '.', n);
    assert sock == p + ['.'] + n;
    ParseIntCanonical(p);
  }

  /**
   * A pid prefix of plain digits is read as their value and rendered
   * without leading zeros: "007.mc-x" renders as "7.mc-x".
   */
  lemma LeadingZerosAreDropped(p: string, n: string)
    requires p != [] && AllDigits(p)
    ensures ParseScreen(p + "." + n) == Ok(Screen(DigitsValue(p), n))
    ensures Repr(ParseScreen(p + "." + n).value) == NatToString(DigitsValue(p)) + "." + n
  {
    assert '.' !in p by {
      assert forall i :: 0 <= i < |p| ==> IsDigit(p[i]);
    }
    ParseDigits(p);
    ParseScreenOf(p, n);
  }

  /** A socket name whose prefix before the first '.' is a number parses to that number and the rest. */
  lemma ParseScreenOf(p: string, n: string)
    requires '.' !in p && ParseInt(p).Some?
    ensures ParseScreen(p + "." + n) == Ok(Screen(ParseInt(p).value, n))
  {
    SplitFirstUnique(p, '.', n);
    assert p + "." + n == p + ['.'] + n;
  }

  /** Without a '.', a number still parses and the name is missing; anything else fails in int() first. */
  lemma NoDotErrors()
    ensures ParseScreen("123") == Err(IndexError)
    ensures ParseScreen("abc") == Err(ValueError)
  {
    NoDotNumber();
    NoDotName();
  }

  lemma NoDotNumber()
    ensures ParseScreen("123") == Err(IndexError)
  {
    assert '.' !in "123";
    StripNoop("123");
    assert Grouped("123");
  }

  lemma NoDotName()
    ensures ParseScreen("abc") == Err(ValueError)
  {
    assert '.' !in "abc";
    StripNoop("abc");
    assert !Grouped("abc");
  }

  /** The glob `*.mc-*`: the name holds ".mc-" somewhere. */
  predicate MatchesMcGlob(entry: string) {
    exists i :: 0 <= i < |entry| && McAt(entry, i)
  }

  predicate McAt(entry: string, i: int) {
    0 <= i && i + 4 <= |entry| && entry[i..i + 4] == ".mc-"
  }

  function FilterMc(entries: seq<string>): (r: seq<string>)
    ensures forall i :: 0 <= i < |r| ==> MatchesMcGlob(r[i]) && r[i] in entries
    ensures forall e :: e in entries && MatchesMcGlob(e) ==> e in r
  {
    if entries == [] then []
    else (if MatchesMcGlob(entries[0]) then [entries[0]] else []) + FilterMc(entries[1..])
  }

  /**
   * The listing is filtered entry by entry: filtering a concatenation
   * concatenates the filtered parts, so with `FilterMcSingle` the kept
   * entries keep their order and their repetitions.
   */
  lemma {:induction false} FilterMcAppend(a: seq<string>, b: seq<string>)
    ensures FilterMc(a + b) == FilterMc(a) + FilterMc(b)
    decreases |a|
  {
    if a == [] {
      assert a + b == b;
    } else {
      var ab := a + b;
      assert ab[0] == a[0] && ab[1..] == a[1..] + b;
      var head := if MatchesMcGlob(a[0]) then [a[0]] else [];
      assert FilterMc(ab) == head + FilterMc(a[1..] + b);
      assert FilterMc(a) == head + FilterMc(a[1..]);
      FilterMcAppend(a[1..], b);
      assert FilterMc(ab) == head + (FilterMc(a[1..]) + FilterMc(b));
      Assoc(head, FilterMc(a[1..]), FilterMc(b));
    }
  }

  /** A single entry is kept iff it matches the glob. */
  lemma FilterMcSingle(e: string)
    ensures FilterMc([e]) == if MatchesMcGlob(e) then [e] else []
  {
    assert [e][1..] == [];
  }

  /** `[Screen(s) for s in ...]`: every name parsed in order, or the exception of the first that fails. */
  function ParseAll(socks: seq<string>): (r: Result<seq<Screen>, Failure>)
    ensures r.Ok? ==> |r.value| == |socks| && forall i :: 0 <= i < |socks| ==> ParseScreen(socks[i]) == Ok(r.value[i])
    ensures r.Err? ==> exists i :: 0 <= i < |socks| && ParseScreen(socks[i]).Err?
  {
    MapAll(ParseScreen, socks)
  }

  /**
   * get_running_screens (util.py) and get_running_servers (screen.py): no
   * socket directory gives no sessions; otherwise every `*.mc-*` entry, in
   * listing order, becomes a session. `entries` is the directory listing.
   */
  function RunningScreens(dirExists: bool, entries: seq<string>): (r: Result<seq<Screen>, Failure>)
    ensures !dirExists ==> r == Ok([])
    ensures dirExists && r.Ok? ==> (|r.value| == |FilterMc(entries)|
      && forall i :: 0 <= i < |r.value| ==> ParseScreen(FilterMc(entries)[i]) == Ok(r.value[i]))
  {
    if !dirExists then Ok([]) else ParseAll(FilterMc(entries))
  }

  /** The `screen_handle` loop: the first session with the given name. */
  function FindByName(screens: seq<Screen>, name: string): (r: Option<Screen>)
    ensures r.None? <==> forall i :: 0 <= i < |screens| ==> screens[i].name != name
    ensures r.Some? ==> exists k :: (0 <= k < |screens| && screens[k] == r.value && r.value.name == name
      && forall j :: 0 <= j < k ==> screens[j].name != name)
  {
    if screens == [] then None
    else if screens[0].name == name then Some(screens[0])
    else
      match FindByName(screens[1..], name)
      case None => None
      case Some(s) =>
        ghost var k :| (0 <= k < |screens[1..]| && screens[1..][k] == s && s.name == name
          && forall j :: 0 <= j < k ==> screens[1..][j].name != name);
        assert screens[k + 1] == s;
        Some(s)
  }

  /** `send_command`: the keystrokes, with "^M" (Enter) appended when `execute` holds. */
  function SendCommandArgv(screenName: string, cmd: string, execute: bool): (argv: seq<string>)
    ensures |argv| == 8 && argv[..7] == ["screen", "-S", screenName, "-p", "0", "-X", "stuff"]
    ensures argv[7] == if execute then cmd + "^M" else cmd
  {
    ["screen", "-S", screenName, "-p", "0", "-X", "stuff", if execute then cmd + "^M" else cmd]
  }

  /** print_warning's module-level list of the ids already warned about. */
  class WarningLog {
    var printed: seq<string>

    constructor ()
      ensures printed == []
    {
      printed := [];
    }

    /** Echoes (returns true) only the first time an id is seen. */
    method PrintWarning(s: string, id: string) returns (echoed: bool)
      modifies this
      ensures echoed <==> id !in old(printed)
      ensures printed == if echoed then old(printed) + [id] else old(printed)
      ensures id in printed
    {
      echoed := id !in printed;
      if echoed {
        printed := printed + [id];
      }
    }
  }

  /** A second warning with the same id prints nothing and changes nothing. */
  method WarnTwice(log: WarningLog, s: string, t: string, id: string) returns (first: bool, second: bool)
    modifies log
    ensures !second
    ensures first <==> id !in old(log.printed)
    ensures log.printed == if first then old(log.printed) + [id] else old(log.printed)
  {
    first := log.PrintWarning(s, id);
    second := log.PrintWarning(t, id);
  }
}
