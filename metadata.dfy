/**
 * The per-server metadata file `.mcsrvmeta`: one `key=value` pair per
 * line. All three generations read it the same way (strip the line, skip
 * lines starting with '#', split at the first '=', skip lines without one,
 * later lines win) and write it as `key=value\n` per entry. The Python
 * code keeps the pairs in a dict, whose order is the order keys were first
 * inserted; the Go code keeps them in a map.
 */
module Metadata {
  import opened Wrappers
  import opened Text

  /** The pair a trimmed line contributes: none for a comment or a line without '='. */
  function TrimmedEntry(t: string): (r: Option<(string, string)>)
  {
    if StartsWith(t, "#") then None else SplitFirst(t, '=')
  }

  /** The pair a line contributes to the Python loaders, which strip it with str.strip(). */
  function LineEntry(line: string): (r: Option<(string, string)>)
  {
    TrimmedEntry(Strip(line))
  }

  /** The pair a line contributes to Go's GetStoredData, which trims it with strings.TrimSpace. */
  function GoLineEntry(line: string): (r: Option<(string, string)>)
  {
    TrimmedEntry(TrimSpace(line))
  }

  /**
   * The pair of a line, as the loops compute it: the text before and after
   * the first '=' of the stripped line, unless it is a comment or has no '='.
   */
  lemma LineEntryShape(line: string)
    ensures var t := Strip(line);
      LineEntry(line) == if StartsWith(t, "#") || '=' !in t then None
                         else Some((t[..FirstIndex(t, '=').value], t[FirstIndex(t, '=').value + 1..]))
    ensures LineEntry(line).Some? ==> Strip(line) == LineEntry(line).value.0 + "=" + LineEntry(line).value.1
    ensures LineEntry(line).Some? ==> '=' !in LineEntry(line).value.0 && !StartsWith(Strip(line), "#")
  {
  }

  /** An insertion-ordered dictionary: pairs with distinct keys. */
  type Dict = seq<(string, string)>

  predicate DistinctKeys(d: Dict) {
    forall i, j :: 0 <= i < j < |d| ==> d[i].0 != d[j].0
  }

  function Keys(d: Dict): (r: seq<string>)
    ensures |r| == |d| && forall i :: 0 <= i < |d| ==> r[i] == d[i].0
  {
    if d == [] then [] else [d[0].0] + Keys(d[1..])
  }

  /** `d.get(k)`. */
  function Get(d: Dict, k: string): (r: Option<string>)
    ensures r.None? <==> forall i :: 0 <= i < |d| ==> d[i].0 != k
    ensures r.Some? ==> exists i :: 0 <= i < |d| && d[i] == (k, r.value)
  {
    if d == [] then None else if d[0].0 == k then Some(d[0].1) else Get(d[1..], k)
  }

  lemma GetDistinct(d: Dict, i: nat)
    requires DistinctKeys(d) && i < |d|
    ensures Get(d, d[i].0) == Some(d[i].1)
  {
    if i > 0 {
      GetDistinct(d[1..], i - 1);
    }
  }

  /** `d[k] = v`: an existing key keeps its place, a new one goes last. */
  function Put(d: Dict, k: string, v: string): (r: Dict)
    requires DistinctKeys(d)
    ensures DistinctKeys(r)
    ensures Keys(r) == if k in Keys(d) then Keys(d) else Keys(d) + [k]
    ensures k !in Keys(d) ==> r == d + [(k, v)]
    ensures forall i :: 0 <= i < |d| ==> r[i] == if d[i].0 == k then (k, v) else d[i]
  {
    match FirstIndexOf(Keys(d), k)
    case None => PutNew(d, k, v); d + [(k, v)]
    case Some(i) => PutExisting(d, k, v, i); d[i := (k, v)]
  }

  lemma PutNew(d: Dict, k: string, v: string)
    requires DistinctKeys(d) && k !in Keys(d)
    ensures DistinctKeys(d + [(k, v)]) && Keys(d + [(k, v)]) == Keys(d) + [k]
  {
    var r := d + [(k, v)];
    forall i | 0 <= i < |d|
      ensures r[i] == d[i] && d[i].0 != k
    {
      assert Keys(d)[i] == d[i].0;
    }
  }

  lemma PutExisting(d: Dict, k: string, v: string, i: nat)
    requires DistinctKeys(d) && i < |d| && Keys(d)[i] == k
    ensures var r := d[i := (k, v)];
      DistinctKeys(r) && Keys(r) == Keys(d) && k in Keys(d)
      && forall j :: 0 <= j < |d| ==> r[j] == if d[j].0 == k then (k, v) else d[j]
  {
    var r := d[i := (k, v)];
    assert Keys(r) == Keys(d);
  }

  /** Looking a key up after `d[k] = v`. */
  lemma PutGet(d: Dict, k: string, v: string, k': string)
    requires DistinctKeys(d)
    ensures Get(Put(d, k, v), k') == if k' == k then Some(v) else Get(d, k')
  {
    var r := Put(d, k, v);
    if k' == k {
      var j := if k in Keys(d) then FirstIndexOf(Keys(d), k).value else |d|;
      assert r[j] == (k, v);
      GetDistinct(r, j);
    } else if Get(d, k').Some? {
      var i :| 0 <= i < |d| && d[i] == (k', Get(d, k').value);
      assert r[i] == d[i];
      GetDistinct(r, i);
    } else {
      forall i | 0 <= i < |r|
        ensures r[i].0 != k'
      {
        assert Keys(r)[i] == r[i].0;
        if i < |d| {
          assert Keys(d)[i] == d[i].0;
        }
      }
    }
  }

  /** What each line contributes. */
  function EntriesOf(lines: seq<string>): (r: seq<Option<(string, string)>>)
    ensures |r| == |lines| && forall i :: 0 <= i < |lines| ==> r[i] == LineEntry(lines[i])
  {
    MapSeq(LineEntry, lines)
  }

  /** What each line contributes to Go's GetStoredData. */
  function GoEntriesOf(lines: seq<string>): (r: seq<Option<(string, string)>>)
    ensures |r| == |lines| && forall i :: 0 <= i < |lines| ==> r[i] == GoLineEntry(lines[i])
  {
    MapSeq(GoLineEntry, lines)
  }

  lemma GoEntriesOfSnoc(lines: seq<string>, l: string)
    ensures GoEntriesOf(lines + [l]) == GoEntriesOf(lines) + [GoLineEntry(l)]
  {
    MapSeqSnoc(GoLineEntry, lines, l);
  }

  lemma EntriesOfSnoc(lines: seq<string>, l: string)
    ensures EntriesOf(lines + [l]) == EntriesOf(lines) + [LineEntry(l)]
  {
    MapSeqSnoc(LineEntry, lines, l);
  }

  /** `_load_data`'s loop over the contributed entries, from dictionary `d` on. */
  function Fold(d: Dict, es: seq<Option<(string, string)>>): (r: Dict)
    requires DistinctKeys(d)
    ensures DistinctKeys(r)
    decreases |es|
  {
    if es == [] then d
    else
      var d' := match es[0] case None => d case Some((k, v)) => Put(d, k, v);
      Fold(d', es[1..])
  }

  /** The dictionary read from a file's lines. */
  function Parse(lines: seq<string>): Dict {
    Fold([], EntriesOf(lines))
  }

  /** One more entry of a loading loop: its pair, if any, is put into the dictionary. */
  lemma FoldStep(es: seq<Option<(string, string)>>, i: nat, d: Dict)
    requires i < |es| && DistinctKeys(d) && d == Fold([], es[..i])
    ensures Fold([], es[..i + 1]) == if es[i].Some? then Put(d, es[i].value.0, es[i].value.1) else d
  {
    PrefixSnoc(es, i);
    FoldSnoc([], es[..i], es[i]);
  }

  /** One more line of `_load_data`'s loop: its pair, if any, is put into the dictionary. */
  lemma ParseStep(lines: seq<string>, i: nat, d: Dict)
    requires i < |lines| && DistinctKeys(d) && d == Fold([], EntriesOf(lines)[..i])
    ensures var e := LineEntry(lines[i]);
      Fold([], EntriesOf(lines)[..i + 1]) == if e.Some? then Put(d, e.value.0, e.value.1) else d
  {
    FoldStep(EntriesOf(lines), i, d);
  }

  /** One more line of GetStoredData's loop: the pair of its trimmed text, if any, is put into the dictionary. */
  lemma GoParseStep(lines: seq<string>, i: nat, d: Dict)
    requires i < |lines| && DistinctKeys(d) && d == Fold([], GoEntriesOf(lines)[..i])
    ensures var e := TrimmedEntry(TrimSpace(lines[i]));
      Fold([], GoEntriesOf(lines)[..i + 1]) == if e.Some? then Put(d, e.value.0, e.value.1) else d
  {
    FoldStep(GoEntriesOf(lines), i, d);
  }

  /** The loop over all lines computes the parse. */
  lemma ParseDone(lines: seq<string>)
    ensures Fold([], EntriesOf(lines)[..|lines|]) == Parse(lines)
  {
    PrefixAll(EntriesOf(lines));
  }

  /** Independent reference: the value of the LAST entry that carries key k. */
  function LastValue(es: seq<Option<(string, string)>>, k: string): Option<string> {
    if es == [] then None
    else if es[|es| - 1].Some? && es[|es| - 1].value.0 == k then Some(es[|es| - 1].value.1)
    else LastValue(es[..|es| - 1], k)
  }

  lemma {:induction false} FoldSnoc(d: Dict, es: seq<Option<(string, string)>>, e: Option<(string, string)>)
    requires DistinctKeys(d)
    ensures e.None? ==> Fold(d, es + [e]) == Fold(d, es)
    ensures e.Some? ==> Fold(d, es + [e]) == Put(Fold(d, es), e.value.0, e.value.1)
    decreases |es|
  {
    if es == [] {
      assert ([] + [e])[1..] == [];
    } else {
      assert (es + [e])[0] == es[0];
      assert (es + [e])[1..] == es[1..] + [e];
      var d' := match es[0] case None => d case Some((k, v)) => Put(d, k, v);
      FoldSnoc(d', es[1..], e);
    }
  }

  /** A later entry for a key wins over every earlier one; a key no entry carries stays absent. */
  lemma {:induction false} FoldIsLastValue(es: seq<Option<(string, string)>>, k: string)
    ensures Get(Fold([], es), k) == LastValue(es, k)
    decreases |es|
  {
    if es != [] {
      FoldIsLastValue(es[..|es| - 1], k);
      FoldLastValueStep(es, k);
    }
  }

  /** The last entry of a sequence of entries decides the key, or leaves it to the earlier ones. */
  lemma FoldLastValueStep(es: seq<Option<(string, string)>>, k: string)
    requires es != [] && Get(Fold([], es[..|es| - 1]), k) == LastValue(es[..|es| - 1], k)
    ensures Get(Fold([], es), k) == LastValue(es, k)
  {
    var init := es[..|es| - 1];
    var e := es[|es| - 1];
    SnocSplit(es);
    FoldSnoc([], init, e);
    if e.Some? {
      PutGet(Fold([], init), e.value.0, e.value.1, k);
    }
  }

  /** After load, a key's value is the text after the first '=' of the last line carrying it. */
  lemma ParseIsLastValue(lines: seq<string>, k: string)
    ensures Get(Parse(lines), k) == LastValue(EntriesOf(lines), k)
  {
    FoldIsLastValue(EntriesOf(lines), k);
  }

  /** Comment lines and lines without '=' contribute nothing. */
  lemma SkippedLinesIgnored(lines: seq<string>, l: string)
    requires StartsWith(Strip(l), "#") || '=' !in Strip(l)
    ensures Parse(lines + [l]) == Parse(lines)
  {
    EntriesOfSnoc(lines, l);
    FoldSnoc([], EntriesOf(lines), None);
  }

  /** Every pair as a contributed entry. */
  function Entries(d: Dict): (r: seq<Option<(string, string)>>)
    ensures |r| == |d| && forall i :: 0 <= i < |d| ==> r[i] == Some(d[i])
  {
    if d == [] then [] else [Some(d[0])] + Entries(d[1..])
  }

  /** Entries that each carry one further pair extend the dictionary by those pairs, in order. */
  lemma {:induction false} FoldEntries(pre: Dict, d: Dict)
    requires DistinctKeys(pre + d)
    ensures DistinctKeys(pre) && Fold(pre, Entries(d)) == pre + d
    decreases |d|
  {
    assert DistinctKeys(pre) by {
      assert forall i :: 0 <= i < |pre| ==> pre[i] == (pre + d)[i];
    }
    if d != [] {
      var k, v := d[0].0, d[0].1;
      assert Entries(d[1..]) == Entries(d)[1..];
      assert k !in Keys(pre) by {
        assert forall i :: 0 <= i < |pre| ==> Keys(pre)[i] == (pre + d)[i].0 && (pre + d)[|pre|].0 == k;
      }
      assert pre + d == (pre + [(k, v)]) + d[1..] by {
        assert d == [(k, v)] + d[1..];
        SeqAssoc(pre, [(k, v)], d[1..]);
      }
      FoldEntries(pre + [(k, v)], d[1..]);
    } else {
      assert pre + d == pre;
    }
  }

  lemma SeqAssoc(a: Dict, b: Dict, c: Dict)
    ensures a + (b + c) == (a + b) + c
  {
  }

  /** The line `save_data` writes for one pair. */
  function EntryLine(e: (string, string)): string {
    e.0 + "=" + e.1
  }

  function EntryLines(d: Dict): (r: seq<string>)
    ensures |r| == |d| && forall i :: 0 <= i < |d| ==> r[i] == EntryLine(d[i])
  {
    if d == [] then [] else [EntryLine(d[0])] + EntryLines(d[1..])
  }

  /** `save_data`: one `key=value\n` per pair, in dictionary order. */
  function Render(d: Dict): string {
    JoinLines(EntryLines(d))
  }

  /** A pair that reads back as itself. */
  predicate Storable(e: (string, string)) {
    && '=' !in e.0 && '\n' !in e.0 && '\n' !in e.1 && '\r' !in e.0 && '\r' !in e.1
    && (e.0 != [] ==> !IsSpace(e.0[0]) && e.0[0] != '#')
    && (e.1 != [] ==> !IsSpace(e.1[|e.1| - 1]))
  }

  predicate StorableDict(d: Dict) {
    DistinctKeys(d) && forall i :: 0 <= i < |d| ==> Storable(d[i])
  }

  /** A storable pair's line has no surrounding whitespace and does not start a comment. */
  lemma EntryLineEdges(e: (string, string))
    requires Storable(e)
    ensures Stripped(EntryLine(e)) && !StartsWith(EntryLine(e), "#")
    ensures EntryLine(e) == e.0 + ['='] + e.1
  {
    var l := EntryLine(e);
    assert l[|e.0|] == '=';
    if e.0 == [] { assert l[0] == '='; } else { assert l[0] == e.0[0]; }
    if e.1 == [] { assert l[|l| - 1] == '='; } else { assert l[|l| - 1] == e.1[|e.1| - 1]; }
  }

  /** Go's trim leaves a storable pair's line alone, so GetStoredData reads the pair back. */
  lemma GoEntryLine(e: (string, string))
    requires Storable(e)
    ensures TrimSpace(EntryLine(e)) == EntryLine(e)
    ensures GoLineEntry(EntryLine(e)) == Some(e)
  {
    EntryLineEdges(e);
    TrimSpaceNoop(EntryLine(e));
    SplitFirstUnique(e.0, '=', e.1);
  }

  lemma StripEntryLine(e: (string, string), terminator: string)
    requires Storable(e) && (terminator == "" || terminator == "\n")
    ensures Strip(EntryLine(e) + terminator) == EntryLine(e)
    ensures LineEntry(EntryLine(e) + terminator) == Some(e)
  {
    var l := EntryLine(e);
    EntryLineEdges(e);
    if terminator == "\n" {
      StripTerminated(l);
    } else {
      assert l + terminator == l;
      StripNoop(l);
    }
    SplitFirstUnique(e.0, '=', e.1);
  }

  /** Loading what `save_data` wrote gives the same dictionary, in the same order. */
  lemma EntriesOfRendered(d: Dict)
    requires forall i :: 0 <= i < |d| ==> Storable(d[i])
    ensures EntriesOf(Terminated(EntryLines(d))) == Entries(d)
  {
    var lines := Terminated(EntryLines(d));
    forall i | 0 <= i < |d|
      ensures lines[i] == EntryLine(d[i]) + "\n"
    {
    }
    forall i | 0 <= i < |d|
      ensures LineEntry(lines[i]) == Some(d[i])
    {
      StripEntryLine(d[i], "\n");
    }
    EntriesOfEach(lines, d);
  }

  /** Lines that each contribute one pair contribute exactly those pairs. */
  lemma EntriesOfEach(lines: seq<string>, d: Dict)
    requires |lines| == |d| && forall i :: 0 <= i < |d| ==> LineEntry(lines[i]) == Some(d[i])
    ensures EntriesOf(lines) == Entries(d)
  {
  }

  lemma {:induction false} EntryLinesSingleLine(d: Dict)
    requires forall i :: 0 <= i < |d| ==> Storable(d[i])
    ensures forall i :: 0 <= i < |d| ==> '\n' !in EntryLines(d)[i] && '\r' !in EntryLines(d)[i]
  {
    forall i | 0 <= i < |d| ensures '\n' !in EntryLines(d)[i] && '\r' !in EntryLines(d)[i] {
      assert EntryLines(d)[i] == d[i].0 + "=" + d[i].1;
    }
  }

  /** Reading any rendered pairs back: each key gets the value of its last pair. */
  lemma ParseRendered(d: Dict, k: string)
    requires forall i :: 0 <= i < |d| ==> Storable(d[i])
    ensures Get(Parse(ReadLines(Render(d))), k) == LastValue(Entries(d), k)
  {
    EntryLinesSingleLine(d);
    ReadLinesJoinLines(EntryLines(d));
    EntriesOfRendered(d);
    FoldIsLastValue(Entries(d), k);
  }

  /** Loading what `save_data` wrote gives the same dictionary, in the same order. */
  lemma RenderRoundTrip(d: Dict)
    requires StorableDict(d)
    ensures Parse(ReadLines(Render(d))) == d
  {
    EntryLinesSingleLine(d);
    ReadLinesJoinLines(EntryLines(d));
    EntriesOfRendered(d);
    ConcatEmpty(d);
    FoldEntries([], d);
  }

  // The early Go CLI: strings.Split on '\n' and a map.

  /** The map a dictionary denotes. */
  function ToMap(d: Dict): (m: map<string, string>)
  {
    if d == [] then map[] else ToMap(d[..|d| - 1])[d[|d| - 1].0 := d[|d| - 1].1]
  }

  /** GetStoredData's parse of the file content. */
  function GoParse(content: string): map<string, string> {
    ToMap(Fold([], GoEntriesOf(SplitOn(content, '\n'))))
  }

  lemma {:induction false} JoinLinesAsSplit(ls: seq<string>)
    ensures JoinLines(ls) == JoinWith(ls + [""], '\n')
  {
    if ls != [] {
      JoinLinesAsSplit(ls[1..]);
      assert (ls + [""])[1..] == ls[1..] + [""];
    }
  }

  lemma {:induction false} ToMapGet(d: Dict, k: string)
    requires DistinctKeys(d)
    ensures (k in ToMap(d)) == Get(d, k).Some?
    ensures k in ToMap(d) ==> ToMap(d)[k] == Get(d, k).value
  {
    if d != [] {
      var init := d[..|d| - 1];
      ToMapGet(init, k);
      if d[|d| - 1].0 == k {
        GetDistinct(d, |d| - 1);
      } else if Get(init, k).Some? {
        var j :| 0 <= j < |init| && init[j] == (k, Get(init, k).value);
        GetDistinct(init, j);
        GetDistinct(d, j);
      }
    }
  }

  /** The pairs of `m` in the order `order` visits its keys. */
  function Pairs(m: map<string, string>, order: seq<string>): (d: Dict)
    requires forall i :: 0 <= i < |order| ==> order[i] in m
    ensures |d| == |order| && forall i :: 0 <= i < |order| ==> d[i] == (order[i], m[order[i]])
  {
    if order == [] then [] else [(order[0], m[order[0]])] + Pairs(m, order[1..])
  }

  /** The content SaveData writes: the entries of `m` in the map's iteration order `order`. */
  function GoRender(m: map<string, string>, order: seq<string>): string
    requires forall i :: 0 <= i < |order| ==> order[i] in m
  {
    Render(Pairs(m, order))
  }

  /** Splitting rendered content on '\n' gives the entry lines and one empty piece. */
  lemma SplitRender(d: Dict)
    requires StorableDict(d)
    ensures SplitOn(Render(d), '\n') == EntryLines(d) + [""]
  {
    var ls := EntryLines(d);
    JoinLinesAsSplit(ls);
    EntryLinesSingleLine(d);
    assert forall i :: 0 <= i < |ls + [""]| ==> (ls + [""])[i] == if i < |ls| then ls[i] else "";
    JoinSplitOn(ls + [""], '\n');
  }

  /** Each written line contributes its own pair to Go's GetStoredData. */
  lemma GoEntriesOfRendered(d: Dict)
    requires forall i :: 0 <= i < |d| ==> Storable(d[i])
    ensures GoEntriesOf(EntryLines(d)) == Entries(d)
  {
    var ls := EntryLines(d);
    forall i | 0 <= i < |d|
      ensures GoEntriesOf(ls)[i] == Entries(d)[i]
    {
      GoEntryLine(d[i]);
    }
  }

  /** The Go parse of rendered content gives the dictionary back. */
  lemma GoParseRender(d: Dict)
    requires StorableDict(d)
    ensures Fold([], GoEntriesOf(SplitOn(Render(d), '\n'))) == d
  {
    var ls := EntryLines(d);
    SplitRender(d);
    GoEntriesOfRendered(d);
    ConcatEmpty(d);
    FoldEntries([], d);
    assert GoLineEntry("") == None;
    GoEntriesOfSnoc(ls, "");
    FoldSnoc([], GoEntriesOf(ls), None);
  }

  lemma PairsDistinct(m: map<string, string>, order: seq<string>)
    requires forall i, j :: 0 <= i < j < |order| ==> order[i] != order[j]
    requires forall i :: 0 <= i < |order| ==> order[i] in m
    ensures DistinctKeys(Pairs(m, order))
  {
  }

  lemma ToMapPairs(m: map<string, string>, order: seq<string>)
    requires forall i, j :: 0 <= i < j < |order| ==> order[i] != order[j]
    requires forall k :: k in m <==> k in order
    ensures DistinctKeys(Pairs(m, order))
    ensures ToMap(Pairs(m, order)) == m
  {
    var d := Pairs(m, order);
    PairsDistinct(m, order);
    forall k
      ensures (k in ToMap(d)) == (k in m) && (k in m ==> ToMap(d)[k] == m[k])
    {
      ToMapPairsAt(m, order, k);
    }
    MapsAgree(ToMap(d), m);
  }

  /** Two maps with the same keys and the same value at each key are equal. */
  lemma MapsAgree(t: map<string, string>, m: map<string, string>)
    requires forall k :: (k in t) == (k in m) && (k in m ==> t[k] == m[k])
    ensures t == m
  {
    assert t.Keys == m.Keys;
  }

  lemma ToMapPairsAt(m: map<string, string>, order: seq<string>, k: string)
    requires forall i, j :: 0 <= i < j < |order| ==> order[i] != order[j]
    requires forall k :: k in m <==> k in order
    ensures DistinctKeys(Pairs(m, order))
    ensures (k in ToMap(Pairs(m, order))) == (k in m)
    ensures k in m ==> ToMap(Pairs(m, order))[k] == m[k]
  {
    var d := Pairs(m, order);
    PairsDistinct(m, order);
    ToMapGet(d, k);
    if k in m {
      var i :| 0 <= i < |order| && order[i] == k;
      GetDistinct(d, i);
    } else {
      assert forall i :: 0 <= i < |d| ==> d[i].0 != k;
    }
  }

  /** GetStoredData after SaveData gives the saved map back, whatever the iteration order. */
  lemma GoRoundTrip(m: map<string, string>, order: seq<string>)
    requires forall i, j :: 0 <= i < j < |order| ==> order[i] != order[j]
    requires forall k :: k in m <==> k in order
    requires forall k :: k in m ==> Storable((k, m[k]))
    ensures GoParse(GoRender(m, order)) == m
  {
    ToMapPairs(m, order);
    GoParseRender(Pairs(m, order));
  }
}
