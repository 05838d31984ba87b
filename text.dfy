/**
 * String helpers shared by every generation of the tool: whitespace
 * stripping (Python's str.isspace() set, and Go's unicode.IsSpace), prefix tests, the first-separator
 * split, Python's readlines(), Go's strings.Split / strings.Fields, ASCII
 * lower-casing, the last path segment and decimal integers.
 */
module Text {
  import opened Wrappers

  /** A non-empty sequence is its prefix followed by its last element. */
  lemma SnocSplit<T>(s: seq<T>)
    requires |s| > 0
    ensures s == s[..|s| - 1] + [s[|s| - 1]]
  {
  }

  /** One more element of a prefix. */
  lemma PrefixSnoc<T>(s: seq<T>, i: nat)
    requires i < |s|
    ensures s[..i + 1] == s[..i] + [s[i]]
  {
  }

  /** The empty sequence is a unit of concatenation. */
  lemma ConcatEmpty<T>(s: seq<T>)
    ensures [] + s == s && s + [] == s
  {
  }

  /** Appending keeps every earlier element and puts the new one last. */
  lemma SnocKeeps<T>(s: seq<T>, x: T)
    ensures |s + [x]| == |s| + 1 && (s + [x])[|s|] == x
    ensures forall j :: 0 <= j < |s| ==> (s + [x])[j] == s[j]
  {
  }

  /** Concatenation is associative. */
  lemma Assoc<T>(a: seq<T>, b: seq<T>, c: seq<T>)
    ensures a + b + c == a + (b + c)
  {
  }

  /** The outer parts of a three-part concatenation are its prefix and its suffix. */
  lemma ConcatParts<T>(a: seq<T>, b: seq<T>, c: seq<T>)
    requires |a| > 0
    ensures (a + b + c)[..|a|] == a
    ensures (a + b + c)[|a + b + c| - |c|..] == c
    ensures (a + b + c)[1..] == a[1..] + b + c
  {
    var t := a + b + c;
    assert t[1..] == a[1..] + b + c by {
      assert forall i :: 0 <= i < |t| - 1 ==> t[1..][i] == t[i + 1];
    }
  }

  /** A sequence is its prefix followed by its suffix. */
  lemma PrefixSuffix<T>(s: seq<T>, i: nat)
    requires i <= |s|
    ensures s[..i] + s[i..] == s
  {
  }

  /** The whole prefix is the sequence. */
  lemma PrefixAll<T>(s: seq<T>)
    ensures s[..|s|] == s
  {
  }

  /**
   * Python's str.isspace(): the characters of bidirectional class WS, B or S
   * and of category Zs, which include the separators U+001C to U+001F.
   */
  predicate IsSpace(c: char) {
    var n := c as int;
    || 0x09 <= n <= 0x0D || 0x1C <= n <= 0x20 || n == 0x85 || n == 0xA0 || n == 0x1680
    || 0x2000 <= n <= 0x200A || n == 0x2028 || n == 0x2029 || n == 0x202F || n == 0x205F || n == 0x3000
  }

  /** Go's unicode.IsSpace: Python's whitespace without U+001C to U+001F. */
  predicate GoIsSpace(c: char) {
    var n := c as int;
    || 0x09 <= n <= 0x0D || n == 0x20 || n == 0x85 || n == 0xA0 || n == 0x1680
    || 0x2000 <= n <= 0x200A || n == 0x2028 || n == 0x2029 || n == 0x202F || n == 0x205F || n == 0x3000
  }

  /** The two notions differ exactly on the four information separators. */
  lemma GoSpaceIsSpace(c: char)
    ensures GoIsSpace(c) ==> IsSpace(c)
    ensures IsSpace(c) && !GoIsSpace(c) <==> 0x1C <= c as int <= 0x1F
  {
  }

  predicate IsDigit(c: char) {
    '0' <= c <= '9'
  }

  predicate StartsWith(s: string, p: string) {
    |p| <= |s| && s[..|p|] == p
  }

  predicate EndsWith(s: string, p: string) {
    |p| <= |s| && s[|s| - |p|..] == p
  }

  /** s without its leading whitespace. */
  function TrimLeft(s: string): (r: string)
    ensures |r| <= |s| && r == s[|s| - |r|..]
    ensures r != [] ==> !IsSpace(r[0])
    ensures forall i :: 0 <= i < |s| - |r| ==> IsSpace(s[i])
  {
    if s != [] && IsSpace(s[0]) then TrimLeft(s[1..]) else s
  }

  /** s without its trailing whitespace. */
  function TrimRight(s: string): (r: string)
    ensures |r| <= |s| && r == s[..|r|]
    ensures r != [] ==> !IsSpace(r[|r| - 1])
    ensures forall i :: |r| <= i < |s| ==> IsSpace(s[i])
  {
    if s != [] && IsSpace(s[|s| - 1]) then TrimRight(s[..|s| - 1]) else s
  }

  /** Python's str.strip(). */
  function Strip(s: string): (r: string)
  {
    TrimRight(TrimLeft(s))
  }

  predicate Stripped(s: string) {
    s == [] || (!IsSpace(s[0]) && !IsSpace(s[|s| - 1]))
  }

  lemma TrimLeftNoop(s: string)
    requires s == [] || !IsSpace(s[0])
    ensures TrimLeft(s) == s
  {
  }

  lemma TrimRightNoop(s: string)
    requires s == [] || !IsSpace(s[|s| - 1])
    ensures TrimRight(s) == s
  {
  }

  /** The result of Strip is a slice of its input with no surrounding whitespace. */
  lemma StripShape(s: string)
    ensures Stripped(Strip(s))
    ensures exists i, j :: 0 <= i <= j <= |s| && Strip(s) == s[i..j]
  {
    var l := TrimLeft(s);
    var r := TrimRight(l);
    if r != [] {
      assert r[0] == l[0];
    }
    assert r == s[|s| - |l|..][..|r|];
    assert r == s[|s| - |l|..|s| - |l| + |r|];
  }

  /** A string without surrounding whitespace is its own strip. */
  lemma StripNoop(s: string)
    requires Stripped(s)
    ensures Strip(s) == s
  {
    TrimLeftNoop(s);
    TrimRightNoop(s);
  }

  lemma StripIdempotent(s: string)
    ensures Strip(Strip(s)) == Strip(s)
  {
    StripShape(s);
    StripNoop(Strip(s));
  }

  /** A stripped slice of a line read by readlines() holds no '\n'. */
  lemma LineSliceHasNoNewline(l: string, i: nat, j: nat)
    requires l != [] && '\n' !in l[..|l| - 1]
    requires i <= j <= |l| && Stripped(l[i..j])
    ensures '\n' !in l[i..j]
  {
    var t := l[i..j];
    forall p | 0 <= p < |t|
      ensures t[p] != '\n'
    {
      assert t[p] == l[i + p];
      if i + p < |l| - 1 {
        assert l[..|l| - 1][i + p] == l[i + p];
      } else {
        assert p == |t| - 1;
      }
    }
  }

  /** Stripping a line read by readlines() leaves no '\n' in it. */
  lemma StripLineHasNoNewline(l: string)
    requires l != [] && '\n' !in l[..|l| - 1]
    ensures '\n' !in Strip(l)
  {
    StripShape(l);
    var i, j :| 0 <= i <= j <= |l| && Strip(l) == l[i..j];
    LineSliceHasNoNewline(l, i, j);
  }

  /** Stripping only removes characters: one absent before is absent after. */
  lemma StripAvoids(l: string, c: char)
    requires c !in l
    ensures c !in Strip(l)
  {
    StripShape(l);
    var i, j :| 0 <= i <= j <= |l| && Strip(l) == l[i..j];
    assert forall p :: 0 <= p < j - i ==> l[i..j][p] == l[i + p];
  }

  /** A stripped line written with its '\n' and read back strips to itself. */
  lemma StripTerminated(x: string)
    requires Stripped(x)
    ensures Strip(x + "\n") == x
  {
    if x == [] {
      assert TrimLeft("\n") == TrimLeft([]);
    } else {
      TrimLeftNoop(x + "\n");
      assert (x + "\n")[..|x|] == x;
      TrimRightNoop(x);
    }
  }

  /** s without its leading Go whitespace. */
  function GoTrimLeft(s: string): (r: string)
    ensures |r| <= |s| && r == s[|s| - |r|..]
    ensures r != [] ==> !GoIsSpace(r[0])
    ensures forall i :: 0 <= i < |s| - |r| ==> GoIsSpace(s[i])
  {
    if s != [] && GoIsSpace(s[0]) then GoTrimLeft(s[1..]) else s
  }

  /** s without its trailing Go whitespace. */
  function GoTrimRight(s: string): (r: string)
    ensures |r| <= |s| && r == s[..|r|]
    ensures r != [] ==> !GoIsSpace(r[|r| - 1])
    ensures forall i :: |r| <= i < |s| ==> GoIsSpace(s[i])
  {
    if s != [] && GoIsSpace(s[|s| - 1]) then GoTrimRight(s[..|s| - 1]) else s
  }

  /** Go's strings.TrimSpace. */
  function TrimSpace(s: string): (r: string)
  {
    GoTrimRight(GoTrimLeft(s))
  }

  /** A string without Python whitespace at its ends has none of Go's either. */
  lemma TrimSpaceNoop(s: string)
    requires Stripped(s)
    ensures TrimSpace(s) == s
  {
    if s != [] {
      GoSpaceIsSpace(s[0]);
      GoSpaceIsSpace(s[|s| - 1]);
    }
  }

  /** Index of the first occurrence of c in s (Python's str.find, without the -1). */
  function FirstIndex(s: string, c: char): (r: Option<nat>)
    ensures r.None? <==> c !in s
    ensures r.Some? ==> r.value < |s| && s[r.value] == c && forall j :: 0 <= j < r.value ==> s[j] != c
  {
    if s == [] then None
    else if s[0] == c then Some(0)
    else
      match FirstIndex(s[1..], c)
      case None => None
      case Some(i) => Some(i + 1)
  }

  /** s.split(c, 1) / strings.SplitN(s, c, 2): the text before and after the first c. */
  function SplitFirst(s: string, c: char): (r: Option<(string, string)>)
    ensures r.None? <==> c !in s
    ensures r.Some? ==> s == r.value.0 + [c] + r.value.1 && c !in r.value.0
  {
    match FirstIndex(s, c)
    case None => None
    case Some(i) => assert s == s[..i] + [c] + s[i + 1..]; Some((s[..i], s[i + 1..]))
  }

  /** The decomposition at the first c is unique. */
  lemma SplitFirstUnique(a: string, c: char, b: string)
    requires c !in a
    ensures SplitFirst(a + [c] + b, c) == Some((a, b))
  {
    var s := a + [c] + b;
    var r := SplitFirst(s, c);
    var i := FirstIndex(s, c).value;
    assert s[|a|] == c;
    assert i == |a|;
    var (x, y) := r.value;
    assert x == s[..|a|] == a;
    assert y == s[|a| + 1..] == b;
  }

  /** Go's strings.Split(s, string(c)) and Python's s.split(c). */
  function SplitOn(s: string, c: char): (r: seq<string>)
    ensures |r| >= 1
    ensures forall i :: 0 <= i < |r| ==> c !in r[i]
    decreases |s|
  {
    match SplitFirst(s, c)
    case None => [s]
    case Some((a, b)) => [a] + SplitOn(b, c)
  }

  /** Inverse of SplitOn: the pieces glued back with c. */
  function JoinWith(parts: seq<string>, c: char): (r: string)
    requires |parts| >= 1
  {
    if |parts| == 1 then parts[0] else parts[0] + [c] + JoinWith(parts[1..], c)
  }

  lemma {:induction false} SplitOnJoin(s: string, c: char)
    ensures JoinWith(SplitOn(s, c), c) == s
    decreases |s|
  {
    match SplitFirst(s, c)
    case None =>
    case Some((a, b)) =>
      SplitOnJoin(b, c);
      assert SplitOn(s, c)[1..] == SplitOn(b, c);
  }

  lemma {:induction false} JoinSplitOn(parts: seq<string>, c: char)
    requires |parts| >= 1
    requires forall i :: 0 <= i < |parts| ==> c !in parts[i]
    ensures SplitOn(JoinWith(parts, c), c) == parts
  {
    if |parts| > 1 {
      JoinSplitOn(parts[1..], c);
      SplitFirstUnique(parts[0], c, JoinWith(parts[1..], c));
    }
  }

  lemma {:induction false} JoinWithSnoc(parts: seq<string>, y: string, c: char)
    requires |parts| >= 1
    ensures JoinWith(parts + [y], c) == JoinWith(parts, c) + [c] + y
  {
    if |parts| > 1 {
      assert (parts + [y])[1..] == parts[1..] + [y];
      JoinWithSnoc(parts[1..], y, c);
    }
  }

  lemma {:induction false} JoinWithExtendLast(parts: seq<string>, t: string, c: char)
    requires |parts| >= 1
    ensures JoinWith(parts[..|parts| - 1] + [parts[|parts| - 1] + t], c) == JoinWith(parts, c) + t
  {
    if |parts| > 1 {
      var q := parts[1..];
      assert (parts[..|parts| - 1] + [parts[|parts| - 1] + t])[1..] == q[..|q| - 1] + [q[|q| - 1] + t];
      JoinWithExtendLast(q, t, c);
    }
  }

  /** Appending a piece without separators and then a separator extends the last piece and opens an empty one. */
  lemma SplitOnAppendLine(s: string, p: string, c: char)
    requires c !in p
    ensures var ls := SplitOn(s, c);
      SplitOn(s + p + [c], c) == ls[..|ls| - 1] + [ls[|ls| - 1] + p, []]
  {
    var ls := SplitOn(s, c);
    var init, last := ls[..|ls| - 1], ls[|ls| - 1];
    var parts := init + [last + p, []];
    assert ls == init + [last];
    assert parts == (init + [last + p]) + [[]];
    SplitOnJoin(s, c);
    JoinWithExtendLast(ls, p, c);
    JoinWithSnoc(init + [last + p], [], c);
    assert JoinWith(parts, c) == s + p + [c];
    forall i | 0 <= i < |parts|
      ensures c !in parts[i]
    {
      if i < |init| {
        assert parts[i] == ls[i];
      }
    }
    JoinSplitOn(parts, c);
  }

  /** `order` lists every element of s once, in the order iterating over the set gives. */
  predicate Enumerates<T>(order: seq<T>, s: set<T>) {
    (forall i :: 0 <= i < |order| ==> order[i] in s)
    && (forall k :: k in s ==> k in order)
    && (forall i, j :: 0 <= i < j < |order| ==> order[i] != order[j])
  }

  /** Iterating over a set: each element once, in an order the model leaves open. */
  method Enumerate<T>(s: set<T>) returns (order: seq<T>)
    ensures Enumerates(order, s)
  {
    order := [];
    var rest := s;
    while rest != {}
      invariant rest <= s
      invariant forall j :: 0 <= j < |order| ==> order[j] in s && order[j] !in rest
      invariant forall k :: k in s ==> k in rest || k in order
      invariant forall j, l :: 0 <= j < l < |order| ==> order[j] != order[l]
      decreases rest
    {
      var k :| k in rest;
      order := order + [k];
      rest := rest - {k};
    }
  }

  /** The index of the first occurrence of `x`, if any. */
  function FirstIndexOf(xs: seq<string>, x: string): (r: Option<nat>)
    ensures r.None? <==> x !in xs
    ensures r.Some? ==>
      r.value < |xs| && xs[r.value] == x
      && forall j :: 0 <= j < r.value ==> xs[j] != x
  {
    if xs == [] then None
    else if xs[0] == x then Some(0)
    else match FirstIndexOf(xs[1..], x)
      case None => None
      case Some(k) => Some(k + 1)
  }

  /** The first occurrence is the one before which `x` does not occur. */
  lemma FirstIndexOfAt(xs: seq<string>, x: string, i: nat)
    requires i <= |xs| && forall j :: 0 <= j < i ==> xs[j] != x
    ensures i < |xs| && xs[i] == x ==> FirstIndexOf(xs, x) == Some(i)
    ensures i == |xs| ==> FirstIndexOf(xs, x) == None
  {
    if i == |xs| {
      assert x !in xs;
    }
  }

  /** The index of the first element satisfying `p`. */
  function FirstWhere<T>(s: seq<T>, p: T -> bool): (r: Option<nat>)
    ensures r.None? <==> forall k :: 0 <= k < |s| ==> !p(s[k])
    ensures r.Some? ==>
      r.value < |s| && p(s[r.value])
      && forall j :: 0 <= j < r.value ==> !p(s[j])
  {
    if s == [] then None
    else if p(s[0]) then Some(0)
    else match FirstWhere(s[1..], p)
      case None => None
      case Some(k) => Some(k + 1)
  }

  /** The index of the last element satisfying `p`. */
  function LastWhere<T>(s: seq<T>, p: T -> bool): (r: Option<nat>)
    ensures r.None? <==> forall k :: 0 <= k < |s| ==> !p(s[k])
    ensures r.Some? ==>
      r.value < |s| && p(s[r.value])
      && forall j :: r.value < j < |s| ==> !p(s[j])
  {
    if s == [] then None
    else if p(s[|s| - 1]) then Some(|s| - 1)
    else
      var r := LastWhere(s[..|s| - 1], p);
      assert forall k :: 0 <= k < |s| - 1 ==> s[..|s| - 1][k] == s[k];
      r
  }

  /** `map(f, s)`. */
  function MapSeq<A, B>(f: A -> B, s: seq<A>): (r: seq<B>)
    ensures |r| == |s| && forall i :: 0 <= i < |s| ==> r[i] == f(s[i])
  {
    if s == [] then [] else [f(s[0])] + MapSeq(f, s[1..])
  }

  lemma MapSeqSnoc<A, B>(f: A -> B, s: seq<A>, x: A)
    ensures MapSeq(f, s + [x]) == MapSeq(f, s) + [f(x)]
  {
    var a, b := MapSeq(f, s + [x]), MapSeq(f, s) + [f(x)];
    forall i | 0 <= i < |a|
      ensures a[i] == b[i]
    {
      if i < |s| {
        assert (s + [x])[i] == s[i];
      } else {
        assert (s + [x])[i] == x;
      }
    }
  }

  lemma MapSeqPair<A, B>(f: A -> B, x: A, y: A)
    ensures MapSeq(f, [x, y]) == [f(x), f(y)]
  {
  }

  /** `map(str.strip, lines)`. */
  function StripAll(lines: seq<string>): (r: seq<string>)
    ensures |r| == |lines| && forall i :: 0 <= i < |lines| ==> r[i] == Strip(lines[i])
  {
    MapSeq(Strip, lines)
  }

  lemma StripAllSnoc(lines: seq<string>, l: string)
    ensures StripAll(lines + [l]) == StripAll(lines) + [Strip(l)]
  {
    MapSeqSnoc(Strip, lines, l);
  }

  /** The elements of a sequence, as `set(list)` builds them. */
  function Elems(s: seq<string>): (r: set<string>)
    ensures forall x :: x in r <==> x in s
  {
    set x | x in s
  }

  /**
   * Python's universal newlines on reading a text file: "\r\n" and a lone
   * "\r" each become "\n".
   */
  function Universal(s: string): (r: string)
    ensures '\r' !in r
    decreases |s|
  {
    if s == [] then []
    else if s[0] == '\r' then "\n" + Universal(if |s| > 1 && s[1] == '\n' then s[2..] else s[1..])
    else [s[0]] + Universal(s[1..])
  }

  /** Text without '\r' is read as it is. */
  lemma {:induction false} UniversalPlain(s: string)
    requires '\r' !in s
    ensures Universal(s) == s
    decreases |s|
  {
    if s != [] {
      assert s[0] != '\r';
      assert s == [s[0]] + s[1..];
      UniversalPlain(s[1..]);
    }
  }

  /** Translation splits at any point that is not just after a '\r'. */
  lemma {:induction false} UniversalAppend(a: string, b: string)
    requires a == [] || a[|a| - 1] != '\r'
    ensures Universal(a + b) == Universal(a) + Universal(b)
    decreases |a|
  {
    if a == [] {
      assert a + b == b;
    } else {
      var n := UniversalAppendStep(a, b);
      var h := [if a[0] == '\r' then '\n' else a[0]];
      UniversalAppend(a[n..], b);
      assert h + (Universal(a[n..]) + Universal(b)) == (h + Universal(a[n..])) + Universal(b);
    }
  }

  /** The first translated character of `a + b` is that of `a`; `n` characters of `a` are consumed. */
  lemma UniversalAppendStep(a: string, b: string) returns (n: nat)
    requires a != [] && a[|a| - 1] != '\r'
    ensures 0 < n <= |a|
    ensures a[n..] == [] || a[n..][|a[n..]| - 1] != '\r'
    ensures Universal(a + b) == [if a[0] == '\r' then '\n' else a[0]] + Universal(a[n..] + b)
    ensures Universal(a) == [if a[0] == '\r' then '\n' else a[0]] + Universal(a[n..])
  {
    var ab := a + b;
    assert ab[0] == a[0];
    if a[0] == '\r' {
      assert |a| >= 2 && ab[1] == a[1];
      n := if a[1] == '\n' then 2 else 1;
    } else {
      n := 1;
    }
    assert ab[n..] == a[n..] + b;
  }

  /** Text ending in '\n' still ends in '\n' once translated. */
  lemma {:induction false} UniversalEndsNewline(s: string)
    requires s != [] && s[|s| - 1] == '\n'
    ensures Universal(s) != [] && Universal(s)[|Universal(s)| - 1] == '\n'
    decreases |s|
  {
    var n := if s[0] == '\r' && |s| > 1 && s[1] == '\n' then 2 else 1;
    var t := s[n..];
    assert Universal(s) == [if s[0] == '\r' then '\n' else s[0]] + Universal(t);
    if t != [] {
      assert t[|t| - 1] == '\n';
      UniversalEndsNewline(t);
    }
  }

  /** The lines of translated text: each keeps its '\n'; a last line without one is kept as it is. */
  function Lines(content: string): (r: seq<string>)
    ensures forall i :: 0 <= i < |r| ==> r[i] != []
    decreases |content|
  {
    match FirstIndex(content, '\n')
    case None => if content == [] then [] else [content]
    case Some(i) => [content[..i + 1]] + Lines(content[i + 1..])
  }

  /** A line of readlines() holds '\n' at most as its last character. */
  lemma {:induction false} LinesInner(content: string, k: nat)
    requires k < |Lines(content)|
    ensures '\n' !in Lines(content)[k][..|Lines(content)[k]| - 1]
    decreases |content|
  {
    var rest := InnerStep(content, k);
    if k > 0 {
      LinesInner(rest, k - 1);
    }
  }

  /** One step of `LinesInner`: the first line has no inner '\n', and a later one is a line of the rest. */
  lemma InnerStep(content: string, k: nat) returns (rest: string)
    requires k < |Lines(content)|
    ensures k == 0 ==> '\n' !in Lines(content)[0][..|Lines(content)[0]| - 1]
    ensures k > 0 ==> |rest| < |content| && k - 1 < |Lines(rest)| && Lines(content)[k] == Lines(rest)[k - 1]
  {
    rest := [];
    match FirstIndex(content, '\n')
    case None =>
      LinesNoNewline(content);
      NotInPrefix(content, |content| - 1, '\n');
    case Some(i) =>
      if k > 0 {
        LinesLater(content, i, k);
        rest := content[i + 1..];
      } else {
        FirstLineInner(content, i);
      }
  }

  /** The first line of text holding a '\n' has none before its end. */
  lemma FirstLineInner(content: string, i: nat)
    requires FirstIndex(content, '\n') == Some(i)
    ensures |Lines(content)| > 0 && '\n' !in Lines(content)[0][..|Lines(content)[0]| - 1]
  {
    LinesUnfold(content, i);
    assert Lines(content)[0][..i] == content[..i];
    NotInPrefix(content, i, '\n');
  }

  /** No occurrence in a prefix when every position before its end differs. */
  lemma NotInPrefix(s: string, n: nat, c: char)
    requires n <= |s| && forall j :: 0 <= j < n ==> s[j] != c
    ensures c !in s[..n]
  {
    assert forall j :: 0 <= j < n ==> s[..n][j] == s[j];
  }


  /** Flattening, the inverse of Lines. */
  function Concat(ls: seq<string>): string {
    if ls == [] then [] else ls[0] + Concat(ls[1..])
  }

  /** Every line followed by '\n', as `f.write(f"{line}\n")` in a loop writes them. */
  function JoinLines(ls: seq<string>): (r: string)
    ensures |ls| > 0 ==> EndsWith(r, "\n")
  {
    if ls == [] then [] else ls[0] + "\n" + JoinLines(ls[1..])
  }

  lemma {:induction false} LinesConcat(content: string)
    ensures Concat(Lines(content)) == content
    decreases |content|
  {
    match FirstIndex(content, '\n')
    case None =>
    case Some(i) =>
      var rest := content[i + 1..];
      LinesUnfold(content, i);
      LinesConcat(rest);
      assert content == content[..i + 1] + rest;
  }


  lemma LinesLine(line: string, rest: string)
    requires '\n' !in line
    ensures Lines(line + "\n" + rest) == [line + "\n"] + Lines(rest)
  {
    var s := line + "\n" + rest;
    assert s == line + ['\n'] + rest;
    SplitFirstUnique(line, '\n', rest);
    var i := FirstIndex(s, '\n').value;
    assert i == |line|;
    assert s[..i + 1] == line + "\n";
    assert s[i + 1..] == rest;
  }

  /** Every line with its '\n' kept, as readlines() returns them. */
  function Terminated(ls: seq<string>): (r: seq<string>)
    ensures |r| == |ls|
    ensures forall i :: 0 <= i < |ls| ==> r[i] == ls[i] + "\n"
  {
    if ls == [] then [] else [ls[0] + "\n"] + Terminated(ls[1..])
  }

  /** Reading back what `key=value\n` writing produced gives one line per written line. */
  lemma {:induction false} LinesJoinLines(ls: seq<string>)
    requires forall i :: 0 <= i < |ls| ==> '\n' !in ls[i]
    ensures Lines(JoinLines(ls)) == Terminated(ls)
  {
    if ls != [] {
      LinesJoinLines(ls[1..]);
      LinesLine(ls[0], JoinLines(ls[1..]));
    }
  }

  lemma {:induction false} JoinLinesAppend(ls: seq<string>, l: string)
    ensures JoinLines(ls + [l]) == JoinLines(ls) + l + "\n"
  {
    if ls != [] {
      assert (ls + [l])[1..] == ls[1..] + [l];
      JoinLinesAppend(ls[1..], l);
    } else {
      assert JoinLines([l]) == l + "\n" + JoinLines([]);
    }
  }

  /** Text appended after a '\n' does not move the first '\n'. */
  lemma FirstIndexAppend(content: string, t: string)
    requires '\n' in content
    ensures FirstIndex(content + t, '\n') == FirstIndex(content, '\n')
  {
    assert (content + t)[FirstIndex(content, '\n').value] == '\n';
  }

  lemma LinesUnfold(c: string, i: nat)
    requires FirstIndex(c, '\n') == Some(i)
    ensures Lines(c) == [c[..i + 1]] + Lines(c[i + 1..])
  {
  }

  /** Text appended after a first line leaves that first line in place. */
  lemma LinesAfterFirstLine(content: string, t: string, i: nat)
    requires FirstIndex(content, '\n') == Some(i)
    ensures Lines(content + t) == [content[..i + 1]] + Lines(content[i + 1..] + t)
  {
    var s := content + t;
    FirstIndexAppend(content, t);
    assert s[..i + 1] == content[..i + 1];
    assert s[i + 1..] == content[i + 1..] + t;
    LinesUnfold(s, i);
  }

  lemma LinesOneLine(line: string)
    requires '\n' !in line
    ensures Lines(line + "\n") == [line + "\n"]
  {
    assert line + "\n" == line + "\n" + "";
    LinesLine(line, "");
  }

  /** The inductive step of LinesSnoc: the first line stays, the rest is appended to. */
  lemma LinesSnocStep(content: string, line: string, i: nat)
    requires FirstIndex(content, '\n') == Some(i)
    requires Lines(content[i + 1..] + line + "\n") == Lines(content[i + 1..]) + [line + "\n"]
    ensures Lines(content + line + "\n") == Lines(content) + [line + "\n"]
  {
    var rest := content[i + 1..];
    Assoc(rest, line, "\n");
    Assoc(content, line, "\n");
    LinesAfterFirstLine(content, line + "\n", i);
    LinesUnfold(content, i);
    Assoc([content[..i + 1]], Lines(rest), [line + "\n"]);
  }

  /** Appending one '\n'-terminated line to terminated content adds exactly that line. */
  lemma {:induction false} LinesSnoc(content: string, line: string)
    requires content == [] || content[|content| - 1] == '\n'
    requires '\n' !in line
    ensures Lines(content + line + "\n") == Lines(content) + [line + "\n"]
    decreases |content|
  {
    if content == [] {
      LinesOneLine(line);
      assert content + line + "\n" == line + "\n";
    } else {
      assert '\n' in content by { assert content[|content| - 1] == '\n'; }
      var i := FirstIndex(content, '\n').value;
      var rest := content[i + 1..];
      assert rest == [] || rest[|rest| - 1] == '\n' by {
        assert rest != [] ==> rest[|rest| - 1] == content[|content| - 1];
      }
      LinesSnoc(rest, line);
      LinesSnocStep(content, line, i);
    }
  }

  /** Stripping lines that were written terminated gives the written lines back. */
  lemma StripAllTerminated(ls: seq<string>)
    requires forall i :: 0 <= i < |ls| ==> Stripped(ls[i])
    ensures StripAll(Terminated(ls)) == ls
  {
    forall i | 0 <= i < |ls|
      ensures StripAll(Terminated(ls))[i] == ls[i]
    {
      StripTerminated(ls[i]);
    }
  }

  /** Stripped lines without '\n' or '\r', written one per line, read back as themselves. */
  lemma JoinLinesReadsBack(ls: seq<string>)
    requires forall i :: 0 <= i < |ls| ==> Stripped(ls[i]) && '\n' !in ls[i] && '\r' !in ls[i]
    ensures StripAll(ReadLines(JoinLines(ls))) == ls
  {
    ReadLinesJoinLines(ls);
    StripAllTerminated(ls);
  }

  /** The text up to and including a '\n' ends with "\n". */
  lemma LineThroughNewline(content: string, i: nat)
    requires i < |content| && content[i] == '\n'
    ensures EndsWith(content[..i + 1], "\n")
  {
    var line := content[..i + 1];
    assert line[|line| - 1] == '\n';
    assert line[|line| - 1..] == "\n";
  }

  /** Every line but possibly the last one ends with '\n'; the last one does too when the content does. */
  lemma {:induction false} LinesTerminated(content: string, k: nat)
    requires k < |Lines(content)|
    requires k + 1 < |Lines(content)| || content == [] || content[|content| - 1] == '\n'
    ensures EndsWith(Lines(content)[k], "\n")
    decreases |content|
  {
    var rest := TerminatedStep(content, k);
    if k > 0 {
      LinesTerminated(rest, k - 1);
    }
  }

  /** One step of `LinesTerminated`: the text holds a '\n', and the line is the first or a line of the rest. */
  lemma TerminatedStep(content: string, k: nat) returns (rest: string)
    requires k < |Lines(content)|
    requires k + 1 < |Lines(content)| || content == [] || content[|content| - 1] == '\n'
    ensures FirstIndex(content, '\n').Some?
    ensures k == 0 ==> EndsWith(Lines(content)[0], "\n")
    ensures k > 0 ==>
      |rest| < |content| && k - 1 < |Lines(rest)| && Lines(content)[k] == Lines(rest)[k - 1]
      && (k < |Lines(rest)| || rest == [] || rest[|rest| - 1] == '\n')
  {
    TerminatedHasNewline(content, k);
    var i := FirstIndex(content, '\n').value;
    if k == 0 {
      FirstLineTerminated(content, i);
      rest := [];
    } else {
      LaterLineStep(content, i, k);
      rest := content[i + 1..];
    }
  }

  /** Text whose chosen line is followed by another or by a final '\n' holds a '\n'. */
  lemma TerminatedHasNewline(content: string, k: nat)
    requires k < |Lines(content)|
    requires k + 1 < |Lines(content)| || content == [] || content[|content| - 1] == '\n'
    ensures FirstIndex(content, '\n').Some?
  {
    if FirstIndex(content, '\n').None? {
      LinesNoNewline(content);
      NoNewlineNoEnd(content);
    }
  }

  /** Text without '\n' does not end with one. */
  lemma NoNewlineNoEnd(content: string)
    requires FirstIndex(content, '\n') == None
    ensures content == [] || content[|content| - 1] != '\n'
  {
    if content != [] {
      assert content[|content| - 1] in content;
    }
  }

  /** The first line of text holding a '\n' runs through it. */
  lemma FirstLineTerminated(content: string, i: nat)
    requires FirstIndex(content, '\n') == Some(i)
    ensures |Lines(content)| > 0 && EndsWith(Lines(content)[0], "\n")
  {
    LinesUnfold(content, i);
    LineThroughNewline(content, i);
  }

  /** A later line is a line of the rest, with the rest's last character the text's. */
  lemma LaterLineStep(content: string, i: nat, k: nat)
    requires FirstIndex(content, '\n') == Some(i)
    requires 0 < k < |Lines(content)|
    requires k + 1 < |Lines(content)| || content == [] || content[|content| - 1] == '\n'
    ensures var rest := content[i + 1..];
      k - 1 < |Lines(rest)| && Lines(content)[k] == Lines(rest)[k - 1]
      && (k < |Lines(rest)| || rest == [] || rest[|rest| - 1] == '\n')
  {
    var rest := content[i + 1..];
    LinesLater(content, i, k);
    assert rest != [] ==> rest[|rest| - 1] == content[|content| - 1];
  }

  /** Content without '\n' is at most one line. */
  lemma LinesNoNewline(content: string)
    requires FirstIndex(content, '\n') == None
    ensures Lines(content) == if content == [] then [] else [content]
  {
  }

  /** The lines after the first one are the lines of the text after the first '\n'. */
  lemma LinesLater(content: string, i: nat, k: nat)
    requires FirstIndex(content, '\n') == Some(i)
    requires 0 < k < |Lines(content)|
    ensures |Lines(content[i + 1..])| == |Lines(content)| - 1
    ensures Lines(content)[k] == Lines(content[i + 1..])[k - 1]
  {
    LinesUnfold(content, i);
  }

  /** A character absent from the text is absent from each of its lines. */
  lemma {:induction false} LinesAvoid(content: string, c: char, k: nat)
    requires c !in content && k < |Lines(content)|
    ensures c !in Lines(content)[k]
    decreases |content|
  {
    var rest := AvoidStep(content, c, k);
    if k > 0 {
      LinesAvoid(rest, c, k - 1);
    }
  }

  /** One step of `LinesAvoid`: the first line avoids the character, and a later one is a line of the rest, which avoids it too. */
  lemma AvoidStep(content: string, c: char, k: nat) returns (rest: string)
    requires c !in content && k < |Lines(content)|
    ensures k == 0 ==> c !in Lines(content)[0]
    ensures k > 0 ==> |rest| < |content| && c !in rest && k - 1 < |Lines(rest)| && Lines(content)[k] == Lines(rest)[k - 1]
  {
    rest := [];
    match FirstIndex(content, '\n')
    case None =>
      LinesNoNewline(content);
    case Some(i) =>
      LinesUnfold(content, i);
      if k > 0 {
        LinesLater(content, i, k);
        rest := content[i + 1..];
        assert forall j :: 0 <= j < |rest| ==> rest[j] == content[i + 1 + j];
      } else {
        assert forall j :: 0 <= j < i + 1 ==> content[..i + 1][j] == content[j];
      }
  }

  /** A character other than '\n' that no line holds is not in the written text. */
  lemma {:induction false} JoinLinesAvoid(ls: seq<string>, c: char)
    requires c != '\n' && forall i :: 0 <= i < |ls| ==> c !in ls[i]
    ensures c !in JoinLines(ls)
  {
    if ls != [] {
      JoinLinesAvoid(ls[1..], c);
      assert JoinLines(ls) == ls[0] + "\n" + JoinLines(ls[1..]);
    }
  }

  /** Python's text-mode readlines(): universal newlines, then one line per '\n'. */
  function ReadLines(content: string): (r: seq<string>)
    ensures forall i :: 0 <= i < |r| ==> r[i] != []
  {
    Lines(Universal(content))
  }

  /** Text without '\r' is split as it is. */
  lemma ReadLinesPlain(content: string)
    requires '\r' !in content
    ensures ReadLines(content) == Lines(content)
  {
    UniversalPlain(content);
  }

  /** A line read holds '\n' at most as its last character, and no '\r'. */
  lemma ReadLinesInner(content: string, k: nat)
    requires k < |ReadLines(content)|
    ensures '\n' !in ReadLines(content)[k][..|ReadLines(content)[k]| - 1]
    ensures '\r' !in ReadLines(content)[k]
  {
    LinesInner(Universal(content), k);
    LinesAvoid(Universal(content), '\r', k);
  }

  /** The lines read concatenate to the translated text, which is the text itself when it holds no '\r'. */
  lemma ReadLinesConcat(content: string)
    ensures Concat(ReadLines(content)) == Universal(content)
    ensures '\r' !in content ==> Concat(ReadLines(content)) == content
  {
    LinesConcat(Universal(content));
    if '\r' !in content {
      UniversalPlain(content);
    }
  }

  /** Reading back what `key=value\n` writing produced gives one line per written line. */
  lemma ReadLinesJoinLines(ls: seq<string>)
    requires forall i :: 0 <= i < |ls| ==> '\n' !in ls[i] && '\r' !in ls[i]
    ensures ReadLines(JoinLines(ls)) == Terminated(ls)
  {
    JoinLinesAvoid(ls, '\r');
    ReadLinesPlain(JoinLines(ls));
    LinesJoinLines(ls);
  }

  /** Appending one '\n'-terminated line to terminated content adds exactly that line. */
  lemma ReadLinesSnoc(content: string, line: string)
    requires content == [] || content[|content| - 1] == '\n'
    requires '\n' !in line && '\r' !in line
    ensures ReadLines(content + line + "\n") == ReadLines(content) + [line + "\n"]
  {
    var u := Universal(content);
    assert content + line + "\n" == content + (line + "\n");
    UniversalAppend(content, line + "\n");
    UniversalPlain(line + "\n");
    assert u + (line + "\n") == u + line + "\n";
    if content != [] {
      UniversalEndsNewline(content);
    }
    LinesSnoc(u, line);
  }

  /** Every line read but possibly the last ends with '\n'; the last one does too when the content does. */
  lemma ReadLinesTerminated(content: string, k: nat)
    requires k < |ReadLines(content)|
    requires k + 1 < |ReadLines(content)| || content == [] || content[|content| - 1] == '\n'
    ensures EndsWith(ReadLines(content)[k], "\n")
  {
    if content != [] && content[|content| - 1] == '\n' {
      UniversalEndsNewline(content);
    }
    LinesTerminated(Universal(content), k);
  }

  /** ASCII lower-casing (Python's str.lower on ASCII letters). */
  function Lower(s: string): (r: string)
    ensures |r| == |s|
    ensures forall i :: 0 <= i < |s| ==> r[i] == if 'A' <= s[i] <= 'Z' then (s[i] as int + 32) as char else s[i]
  {
    if s == [] then [] else
      [if 'A' <= s[0] <= 'Z' then (s[0] as int + 32) as char else s[0]] + Lower(s[1..])
  }

  /** The text after the last '/', as pathlib's .name and Go's path.Split give it. */
  function LastSegment(s: string): (r: string)
    ensures '/' !in r
    ensures EndsWith(s, r)
    ensures r == s || s[|s| - |r| - 1] == '/'
  {
    if s == [] || s[|s| - 1] == '/' then []
    else
      var init := s[..|s| - 1];
      var t := LastSegment(init);
      SuffixGrows(s, t);
      t + [s[|s| - 1]]
  }

  /** A suffix of everything but the last character, extended by that character. */
  lemma SuffixGrows(s: string, t: string)
    requires s != [] && EndsWith(s[..|s| - 1], t)
    requires t == s[..|s| - 1] || s[..|s| - 1][|s| - 1 - |t| - 1] == '/'
    ensures EndsWith(s, t + [s[|s| - 1]])
    ensures t + [s[|s| - 1]] == s || s[|s| - |t| - 2] == '/'
  {
    var init := s[..|s| - 1];
    assert s[|s| - |t| - 1..] == init[|init| - |t|..] + [s[|s| - 1]];
    if t == init {
      assert t + [s[|s| - 1]] == s;
    }
  }

  /** strings.Fields yields at least one field: something is left after the leading whitespace. */
  predicate HasField(s: string) {
    GoTrimLeft(s) != []
  }

  /** A line has a field exactly when some character of it is not Go whitespace. */
  lemma HasFieldIff(s: string)
    ensures HasField(s) <==> exists i :: 0 <= i < |s| && !GoIsSpace(s[i])
  {
    var t := GoTrimLeft(s);
    if t != [] {
      assert !GoIsSpace(s[|s| - |t|]);
    }
  }

  /** The first field of strings.Fields(s): its first run of characters that are not Go whitespace. */
  function FirstField(s: string): (r: string)
    requires HasField(s)
    ensures r != []
    ensures forall i :: 0 <= i < |r| ==> !GoIsSpace(r[i])
    ensures StartsWith(GoTrimLeft(s), r)
    ensures |r| == |GoTrimLeft(s)| || GoIsSpace(GoTrimLeft(s)[|r|])
  {
    TakeWord(GoTrimLeft(s))
  }

  function TakeWord(t: string): (r: string)
    ensures forall i :: 0 <= i < |r| ==> !GoIsSpace(r[i])
    ensures StartsWith(t, r)
    ensures |r| == |t| || GoIsSpace(t[|r|])
    ensures t != [] && !GoIsSpace(t[0]) ==> r != []
  {
    if t == [] || GoIsSpace(t[0]) then [] else [t[0]] + TakeWord(t[1..])
  }

  // Decimal integers.

  function DigitChar(d: nat): (c: char)
    requires d < 10
    ensures IsDigit(c)
  {
    ('0' as int + d) as char
  }

  function DigitValue(c: char): (d: nat)
    requires IsDigit(c)
    ensures d < 10
  {
    c as int - '0' as int
  }

  predicate AllDigits(s: string) {
    forall i :: 0 <= i < |s| ==> IsDigit(s[i])
  }

  /** The value of a string of decimal digits, most significant first. */
  function DigitsValue(s: string): nat
    requires AllDigits(s)
  {
    if s == [] then 0 else DigitsValue(s[..|s| - 1]) * 10 + DigitValue(s[|s| - 1])
  }

  /** Python's str() of a non-negative int. */
  function NatToString(n: nat): (r: string)
    ensures r != [] && AllDigits(r)
  {
    if n < 10 then [DigitChar(n)] else NatToString(n / 10) + [DigitChar(n % 10)]
  }

  /** Python's str() of an int. */
  function IntToString(n: int): (r: string)
  {
    if n < 0 then "-" + NatToString(-n) else NatToString(n)
  }

  /** Decimal digits with single underscores between them, the literal form int() accepts. */
  predicate Grouped(s: string) {
    && s != [] && IsDigit(s[0]) && IsDigit(s[|s| - 1])
    && (forall i :: 0 <= i < |s| ==> IsDigit(s[i]) || s[i] == '_')
    && (forall i :: 0 <= i < |s| - 1 && s[i] == '_' ==> IsDigit(s[i + 1]))
  }

  /** The digits of a grouped literal, underscores dropped. */
  function Ungrouped(s: string): (r: string)
    requires forall i :: 0 <= i < |s| ==> IsDigit(s[i]) || s[i] == '_'
    ensures AllDigits(r)
    ensures AllDigits(s) ==> r == s
  {
    if s == [] then [] else (if s[0] == '_' then [] else [s[0]]) + Ungrouped(s[1..])
  }

  /**
   * Python's int() of a string: surrounding whitespace is ignored, then an
   * optional sign and a grouped decimal literal; anything else raises
   * ValueError (None).
   */
  function ParseInt(s: string): (r: Option<int>)
  {
    var t := Strip(s);
    var body := if t != [] && (t[0] == '-' || t[0] == '+') then t[1..] else t;
    if Grouped(body) then
      var v: int := DigitsValue(Ungrouped(body));
      Some(if t[0] == '-' then -v else v)
    else None
  }

  /** The form str() produces: no sign but '-', no leading zero, no "-0". */
  predicate CanonicalDecimal(s: string) {
    var body := if s != [] && s[0] == '-' then s[1..] else s;
    && body != [] && AllDigits(body)
    && (body[0] == '0' ==> body == "0")
    && (s != [] && s[0] == '-' ==> body != "0")
  }

  lemma {:induction false} NatToStringValue(n: nat)
    ensures DigitsValue(NatToString(n)) == n
  {
    if n >= 10 {
      NatToStringValue(n / 10);
      var s := NatToString(n);
      assert s[..|s| - 1] == NatToString(n / 10);
    }
  }

  lemma {:induction false} NatToStringNoLeadingZero(n: nat)
    ensures NatToString(n)[0] == '0' ==> n == 0
  {
    if n >= 10 {
      NatToStringNoLeadingZero(n / 10);
    }
  }

  lemma {:induction false} DigitsValuePositive(s: string)
    requires s != [] && AllDigits(s) && s[0] != '0'
    ensures DigitsValue(s) >= 1
  {
    if |s| > 1 {
      DigitsValuePositive(s[..|s| - 1]);
    }
  }

  lemma {:induction false} DigitsValueToString(s: string)
    requires s != [] && AllDigits(s) && (s[0] == '0' ==> s == "0")
    ensures NatToString(DigitsValue(s)) == s
  {
    var v := DigitsValue(s);
    var pre := s[..|s| - 1];
    if |s| == 1 {
      assert DigitsValue(pre) == 0;
    } else {
      DigitsValuePositive(pre);
      DigitsValueToString(pre);
      assert v / 10 == DigitsValue(pre);
      assert v % 10 == DigitValue(s[|s| - 1]);
      assert s == pre + [s[|s| - 1]];
    }
  }

  /** int(str(n)) == n. */
  lemma IntToStringParse(n: int)
    ensures ParseInt(IntToString(n)) == Some(n)
    ensures CanonicalDecimal(IntToString(n))
    ensures '.' !in IntToString(n)
  {
    if n < 0 {
      NegativeToStringParse(n);
    } else {
      NatToStringParse(n);
    }
  }

  lemma NatToStringParse(n: nat)
    ensures ParseInt(NatToString(n)) == Some(n as int)
    ensures CanonicalDecimal(NatToString(n))
    ensures '.' !in NatToString(n)
  {
    var d := NatToString(n);
    NatToStringValue(n);
    NatToStringNoLeadingZero(n);
    ParseDigits(d);
    assert !IsDigit('.') && !IsDigit('-');
  }

  lemma NegativeToStringParse(n: int)
    requires n < 0
    ensures ParseInt(IntToString(n)) == Some(n)
    ensures CanonicalDecimal(IntToString(n))
    ensures '.' !in IntToString(n)
  {
    var m: nat := -n;
    assert IntToString(n) == "-" + NatToString(m);
    NegatedNatParse(m);
  }

  lemma NegatedNatParse(m: nat)
    requires m > 0
    ensures ParseInt("-" + NatToString(m)) == Some(0 - m)
    ensures CanonicalDecimal("-" + NatToString(m))
    ensures '.' !in "-" + NatToString(m)
  {
    var d := NatToString(m);
    NatToStringValue(m);
    NatToStringNoLeadingZero(m);
    assert DigitsValue(d) == m;
    NegatedDigitsValue(d);
    assert ParseInt("-" + d) == Some(0 - m);
    NegatedDigitsShape(d);
  }

  lemma NegatedDigitsValue(d: string)
    requires d != [] && AllDigits(d)
    ensures ParseInt("-" + d) == Some(0 - DigitsValue(d))
  {
    var s := "-" + d;
    assert s[1..] == d && s[0] == '-';
    assert s[|s| - 1] == d[|d| - 1];
    SignedDigitsStripped(s);
    ParseIntOfDigits(s, d);
  }

  lemma NegatedDigitsShape(d: string)
    requires d != [] && AllDigits(d) && d[0] != '0'
    ensures CanonicalDecimal("-" + d)
    ensures '.' !in "-" + d
  {
    var s := "-" + d;
    assert s[1..] == d;
    assert d != "0" by {
      assert d[0] != "0"[0];
    }
    assert !IsDigit('.');
  }

  /** Plain digits are a grouped literal without underscores. */
  lemma DigitsGrouped(s: string)
    requires s != [] && AllDigits(s)
    ensures Grouped(s) && Ungrouped(s) == s
  {
  }

  /** A sign or digit first and a digit last: nothing to strip. */
  lemma SignedDigitsStripped(s: string)
    requires s != [] && (IsDigit(s[0]) || s[0] == '-') && IsDigit(s[|s| - 1])
    ensures Strip(s) == s
  {
    assert !IsSpace(s[0]) && !IsSpace(s[|s| - 1]);
    StripNoop(s);
  }

  /** int() of plain digits, leading zeros included, is their value. */
  lemma ParseDigits(s: string)
    requires s != [] && AllDigits(s)
    ensures ParseInt(s) == Some(DigitsValue(s) as int)
  {
    SignedDigitsStripped(s);
    ParseIntOfDigits(s, s);
  }

  /** int() of a '-' followed by digits is their value negated. */
  lemma ParseNegative(s: string)
    requires |s| > 1 && s[0] == '-' && AllDigits(s[1..])
    ensures ParseInt(s) == Some(0 - DigitsValue(s[1..]))
  {
    var body := s[1..];
    assert s[|s| - 1] == body[|body| - 1];
    SignedDigitsStripped(s);
    ParseIntOfDigits(s, body);
  }

  /** int() of canonical text: the value of its digits, negated after a '-'. */
  lemma ParseCanonicalValue(s: string)
    requires CanonicalDecimal(s)
    ensures s != []
    ensures s[0] == '-' ==> ParseInt(s) == Some(0 - DigitsValue(s[1..]))
    ensures s[0] != '-' ==> ParseInt(s) == Some(DigitsValue(s) as int)
  {
    if s[0] == '-' {
      ParseNegative(s);
    } else {
      ParseDigits(s);
    }
  }

  /** int() of text with nothing to strip and plain digits after its sign. */
  lemma ParseIntOfDigits(s: string, body: string)
    requires Strip(s) == s && s != []
    requires body == if s[0] == '-' || s[0] == '+' then s[1..] else s
    requires body != [] && AllDigits(body)
    ensures ParseInt(s) == Some(if s[0] == '-' then 0 - DigitsValue(body) else DigitsValue(body) as int)
  {
    DigitsGrouped(body);
  }

  /** str(int(s)) == s exactly when s is already in canonical form. */
  lemma ParseIntCanonical(s: string)
    requires CanonicalDecimal(s)
    ensures ParseInt(s).Some? && IntToString(ParseInt(s).value) == s
  {
    if s[0] == '-' {
      CanonicalNegativeBody(s);
      NegativeRoundTrip(s);
    } else {
      ParseDigits(s);
      DigitsValueToString(s);
    }
  }

  lemma CanonicalNegativeBody(s: string)
    requires CanonicalDecimal(s) && s[0] == '-'
    ensures |s| > 1 && AllDigits(s[1..]) && s[1] != '0'
  {
    assert s[1..][0] == s[1];
  }

  lemma NegativeRoundTrip(s: string)
    requires |s| > 1 && s[0] == '-' && AllDigits(s[1..]) && s[1] != '0'
    ensures ParseInt(s).Some? && IntToString(ParseInt(s).value) == s
  {
    var body := s[1..];
    ParseNegative(s);
    NegatedBodyToString(s);
  }

  lemma NegatedBodyToString(s: string)
    requires |s| > 1 && s[0] == '-' && AllDigits(s[1..]) && s[1] != '0'
    ensures IntToString((0 as int) - DigitsValue(s[1..])) == s
  {
    NegatedDigitsToString(s[1..]);
    assert s == "-" + s[1..];
  }

  lemma NegatedDigitsToString(body: string)
    requires body != [] && AllDigits(body) && body[0] != '0'
    ensures IntToString((0 as int) - DigitsValue(body)) == "-" + body
  {
    DigitsValuePositive(body);
    DigitsValueToString(body);
  }
}
