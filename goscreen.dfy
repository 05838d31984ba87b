/**
 * The early Go CLI's util/screen.go: the parse of `screen -list` and
 * the keystroke vector of ExecCommandInScreen.
 */
module GoScreen {
  import opened Wrappers
  import opened Text
  import Sessions

  /**
   * GetRunningScreens: the output of `screen -list` (None when the command
   * failed) split on '\n'; the first line and the last two are dropped and
   * every other line gives its first whitespace-separated field. Fewer than
   * three lines, or a blank kept line, make the Go code panic.
   */
  method GetRunningScreens(output: Option<string>) returns (screens: seq<string>)
    requires output.Some? ==> |SplitOn(output.value, '\n')| >= 3
    requires output.Some? ==> var lines := SplitOn(output.value, '\n');
      forall k :: 1 <= k < |lines| - 2 ==> HasField(lines[k])
    ensures output.None? ==> screens == []
    ensures output.Some? ==> var lines := SplitOn(output.value, '\n');
      |screens| == |lines| - 3 && forall k :: 0 <= k < |screens| ==> screens[k] == FirstField(lines[k + 1])
  {
    if output.None? {
      return [];
    }
    var lines := SplitOn(output.value, '\n');
    var kept := lines[1..|lines| - 2];
    assert forall k :: 0 <= k < |kept| ==> kept[k] == lines[k + 1];
    screens := FirstFields(kept);
  }

  /** The first field of every line, in order. */
  function FirstFieldsOf(lines: seq<string>): (r: seq<string>)
    requires forall k :: 0 <= k < |lines| ==> HasField(lines[k])
    ensures |r| == |lines| && forall k :: 0 <= k < |lines| ==> r[k] == FirstField(lines[k])
  {
    if lines == [] then [] else [FirstField(lines[0])] + FirstFieldsOf(lines[1..])
  }

  /** The loop of GetRunningScreens: the first field of every kept line, in order. */
  method FirstFields(lines: seq<string>) returns (fields: seq<string>)
    requires forall k :: 0 <= k < |lines| ==> HasField(lines[k])
    ensures fields == FirstFieldsOf(lines)
  {
    ghost var all := FirstFieldsOf(lines);
    fields := [];
    var k := 0;
    while k < |lines|
      invariant 0 <= k <= |lines|
      invariant fields == all[..k]
    {
      var f := FirstField(lines[k]);
      PrefixSnoc(all, k);
      fields := fields + [f];
      k := k + 1;
    }
    PrefixAll(all);
  }

  /** ExecCommandInScreen: the keystrokes always end with "^M". */
  function ExecCommandInScreenArgv(id: string, cmd: string): (argv: seq<string>)
    ensures argv == Sessions.SendCommandArgv(id, cmd, true)
  {
    ["screen", "-S", id, "-p", "0", "-X", "stuff", cmd + "^M"]
  }
}
