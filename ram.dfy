/**
 * Validation of the memory-size argument (`check_ram_argument`), in the
 * current package and in the legacy script, which prefixes `-Xmx`.
 *
 * The source validates with `re.match(r"[0-9]+G|M", i)` and then
 * `re.match(r"[0-9]+", i)`. Both are prefix matches, and the first regular
 * expression groups as `([0-9]+G)|M`, so "512M" does not match it and the
 * result is "512MG".
 */
module Ram {
  import opened Wrappers
  import opened Text

  /** What `re.match(r"[0-9]+G|M", i)` accepts: some digits then 'G' at the start, or a leading 'M'. */
  ghost predicate MatchesGigabytesOrM(i: string) {
    (exists n :: 1 <= n < |i| && AllDigits(i[..n]) && i[n] == 'G')
    || (i != [] && i[0] == 'M')
  }

  /** What `re.match(r"[0-9]+", i)` accepts: a leading digit. */
  predicate StartsWithDigit(i: string) {
    i != [] && IsDigit(i[0])
  }

  /** Length of the longest prefix of s made of digits. */
  function DigitRun(s: string): (n: nat)
    ensures n <= |s|
    ensures AllDigits(s[..n])
    ensures n < |s| ==> !IsDigit(s[n])
  {
    if s != [] && IsDigit(s[0]) then
      var m := DigitRun(s[1..]);
      assert s[..m + 1] == [s[0]] + s[1..][..m];
      m + 1
    else 0
  }

  /** The gigabyte alternative of the regular expression, decided on the maximal digit run. */
  predicate GigabytePrefix(i: string) {
    var n := DigitRun(i);
    1 <= n < |i| && i[n] == 'G'
  }

  /** Backtracking to a shorter digit run never helps, since 'G' is not a digit. */
  lemma GigabytePrefixMatches(i: string)
    ensures GigabytePrefix(i) <==> (exists n :: 1 <= n < |i| && AllDigits(i[..n]) && i[n] == 'G')
  {
    var d := DigitRun(i);
    if n :| 1 <= n < |i| && AllDigits(i[..n]) && i[n] == 'G' {
      if n < d {
        assert i[..d][n] == i[n];
      } else if n > d {
        assert i[..n][d] == i[d];
      }
    }
  }

  /** util.py's check_ram_argument. */
  function CheckRamArgument(i: string): (r: Result<string, Failure>)
    ensures MatchesGigabytesOrM(i) ==> r == Ok(i)
    ensures !MatchesGigabytesOrM(i) && StartsWithDigit(i) ==> r == Ok(i + "G")
    ensures !MatchesGigabytesOrM(i) && !StartsWithDigit(i) ==> r == Err(Exit(1, InvalidRam))
  {
    GigabytePrefixMatches(i);
    if GigabytePrefix(i) || (i != [] && i[0] == 'M') then Ok(i)
    else if StartsWithDigit(i) then Ok(i + "G")
    else Err(Exit(1, InvalidRam))
  }

  /** Every accepted result starts with a digit or 'M' and extends the input by at most a 'G'. */
  lemma CheckRamArgumentShape(i: string)
    ensures CheckRamArgument(i).Ok? <==> (i != [] && (IsDigit(i[0]) || i[0] == 'M'))
    ensures CheckRamArgument(i).Ok? ==> CheckRamArgument(i).value in {i, i + "G"}
  {
    var n := DigitRun(i);
    if i != [] && IsDigit(i[0]) {
      assert n >= 1;
    }
  }

  /** The documented cases: "8" becomes "8G", "4G" and "M" stay, "512M" becomes "512MG", "x" exits. */
  lemma CheckRamArgumentExamples()
    ensures CheckRamArgument("8") == Ok("8G")
    ensures CheckRamArgument("4G") == Ok("4G")
    ensures CheckRamArgument("16Gb") == Ok("16Gb")
    ensures CheckRamArgument("M") == Ok("M")
    ensures CheckRamArgument("512M") == Ok("512MG")
    ensures CheckRamArgument("x") == Err(Exit(1, InvalidRam))
  {
    assert DigitRun("8") == 1;
    assert DigitRun("4G") == 1;
    assert DigitRun("16Gb") == 2;
    assert DigitRun("512M") == 3;
    assert "8" + "G" == "8G";
    assert "512M" + "G" == "512MG";
  }

  /** Normalising twice is not normalising once: "512M" gives "512MG" and then "512MGG". */
  lemma CheckRamArgumentNotIdempotent()
    ensures CheckRamArgument("512M") == Ok("512MG")
    ensures CheckRamArgument("512MG") == Ok("512MGG")
  {
    assert DigitRun("512M") == 3;
    assert DigitRun("512MG") == 3;
    assert "512M" + "G" == "512MG";
    assert "512MG" + "G" == "512MGG";
  }

  /** server.py's check_ram_argument: the same decision, with the flag prefix "-Xmx" put in front. */
  function LegacyCheckRamArgument(i: string): (r: Result<string, Failure>)
    ensures CheckRamArgument(i).Ok? ==> r == Ok("-Xmx" + CheckRamArgument(i).value)
    ensures CheckRamArgument(i).Err? ==> r == Err(Exit(1, InvalidRam))
  {
    GigabytePrefixMatches(i);
    if GigabytePrefix(i) || (i != [] && i[0] == 'M') then Ok("-Xmx" + i)
    else if StartsWithDigit(i) then Ok("-Xmx" + (i + "G"))
    else Err(Exit(1, InvalidRam))
  }
}
