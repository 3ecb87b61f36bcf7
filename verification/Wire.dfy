/** The two text formats of the package feed, artifact and delta, and when reading them back
    gives what was written. */
module Wire {
  import opened Text
  import opened Sorting
  import opened LineOrder
  import opened Delta
  import opened MergeJoin

  // ---------------------------------------------------------------------------- decimals

  function Decimal(n: nat): (s: Str)
    ensures |s| >= 1 && forall u :: u in s ==> IsDigit(u)
  {
    if n < 10 then [ZERO + n] else Decimal(n / 10) + [ZERO + n % 10]
  }

  predicate IsDigit(u: int) { ZERO <= u < ZERO + 10 }

  function Value(s: Str): (n: nat)
    requires forall u :: u in s ==> IsDigit(u)
  {
    if s == [] then 0
    else
      var last := s[|s| - 1];
      assert last in s && IsDigit(last);
      10 * Value(s[..|s| - 1]) + (last - ZERO)
  }

  lemma {:induction false} DecimalValue(n: nat)
    ensures Value(Decimal(n)) == n
  {
    if n >= 10 {
      DecimalValue(n / 10);
      var s := Decimal(n);
      assert s[..|s| - 1] == Decimal(n / 10);
    }
  }

  // ------------------------------------------------------------------------------- lines

  /** Lines as written: each followed by a newline. */
  function TextOf(lines: seq<Str>): Str {
    if lines == [] then [] else lines[0] + [NEWLINE] + TextOf(lines[1..])
  }

  predicate OneLine(s: Str) { NEWLINE !in s }

  lemma {:induction false} SplitText(lines: seq<Str>)
    requires AllOneLine(lines)
    ensures Split(TextOf(lines), NEWLINE) == lines + [[]]
  {
    hide Split;
    if lines == [] {
      SplitWhole([], NEWLINE);
    } else {
      SplitHead(lines[0], NEWLINE, TextOf(lines[1..]));
      SplitText(lines[1..]);
      assert lines + [[]] == [lines[0]] + (lines[1..] + [[]]);
    }
  }

  // ---------------------------------------------------------------------------- artifact

  function EntryLine(e: Entry): Str {
    e.key + [TAB] + e.spec
  }

  function EntryLines(es: seq<Entry>): (lines: seq<Str>)
    ensures |lines| == |es| && forall i :: 0 <= i < |es| ==> lines[i] == EntryLine(es[i])
  {
    seq(|es|, i requires 0 <= i < |es| => EntryLine(es[i]))
  }

  ghost function SortedEntries(index: Index): (es: seq<Entry>)
    ensures EntryKeys(es) == SortedKeys(index.Keys)
    ensures forall e :: e in es ==> e.key in index && e.spec == index[e.key]
  {
    var ks := SortedKeys(index.Keys);
    assert forall i :: 0 <= i < |ks| ==> ks[i] in Elements(ks);
    seq(|ks|, i requires 0 <= i < |ks| => Entry(ks[i], index[ks[i]]))
  }

  predicate IsComment(l: Str) { l != [] && l[0] == HASH }

  predicate AllComments(lines: seq<Str>) {
    forall i :: 0 <= i < |lines| ==> IsComment(lines[i])
  }

  predicate AllOneLine(lines: seq<Str>) {
    forall i :: 0 <= i < |lines| ==> OneLine(lines[i])
  }

  /** The comment lines at the head of an artifact; the sequence line is optional. */
  function ArtifactHead(generated: Str, entries: nat, seqNo: seq<nat>): (lines: seq<Str>)
    ensures AllComments(lines)
    ensures OneLine(generated) ==> AllOneLine(lines)
  {
    [Comment(" moat-packages v1"), Comment(" generated ") + generated, Comment(" entries ") + Decimal(entries)]
    + if seqNo == [] then [] else [Comment(" seq ") + Decimal(seqNo[0])]
  }

  /** `artifactLines`, without the line ends. */
  ghost function ArtifactLines(index: Index, generated: Str, seqNo: seq<nat>): seq<Str> {
    ArtifactHead(generated, |index|, seqNo) + EntryLines(SortedEntries(index))
  }

  ghost function ArtifactText(index: Index, generated: Str, seqNo: seq<nat>): Str {
    TextOf(ArtifactLines(index, generated, seqNo))
  }

  /** What a key and spec need to survive one line of the artifact. */
  predicate CleanEntry(key: Str, spec: Str) {
    && OneLine(key) && (key == [] || key[0] != HASH)
    && OneLine(spec) && TAB !in spec
  }

  ghost predicate CleanIndex(index: Index) {
    forall k :: k in index ==> CleanEntry(k, index[k])
  }

  lemma ParseEntryLine(e: Entry)
    requires CleanEntry(e.key, e.spec)
    ensures ParseEntry(EntryLine(e)) == Just(e)
    ensures OneLine(EntryLine(e))
  {
    LastOccurrence(e.key, TAB, e.spec);
    var line := EntryLine(e);
    assert line[..|e.key|] == e.key && line[|e.key| + 1..] == e.spec;
  }

  predicate AllClean(es: seq<Entry>) {
    forall i :: 0 <= i < |es| ==> CleanEntry(es[i].key, es[i].spec)
  }

  lemma {:induction false} EntriesOfLines(es: seq<Entry>)
    requires AllClean(es)
    ensures Entries(EntryLines(es)) == es
    ensures AllOneLine(EntryLines(es))
  {
    hide Entries;
    hide ParseEntry;
    hide EntryLine;
    hide CleanEntry;
    hide OneLine;
    if es == [] {
      NoEntries();
      assert EntryLines(es) == [];
    } else {
      var init, last := es[..|es| - 1], es[|es| - 1];
      EntriesOfLines(init);
      ParseEntryLine(last);
      EntriesSnoc(EntryLines(init), EntryLine(last));
      assert EntryLines(es) == EntryLines(init) + [EntryLine(last)];
      assert es == init + [last];
    }
  }

  lemma NoEntries()
    ensures Entries([]) == []
  {
  }

  lemma EntriesSnoc(lines: seq<Str>, line: Str)
    ensures Entries(lines + [line]) == Entries(lines) + OneEntry(line)
  {
    assert (lines + [line])[..|lines|] == lines;
  }

  lemma {:induction false} CommentsAreNotEntries(lines: seq<Str>)
    requires AllComments(lines)
    ensures Entries(lines) == []
  {
    if lines != [] {
      CommentsAreNotEntries(lines[..|lines| - 1]);
    }
  }

  lemma SortedEntriesClean(index: Index)
    requires CleanIndex(index)
    ensures AllClean(SortedEntries(index))
  {
    var es := SortedEntries(index);
    forall i | 0 <= i < |es| ensures CleanEntry(es[i].key, es[i].spec) {
      var e := es[i];
      assert e in es;
    }
  }

  lemma ArtifactEntries(index: Index, generated: Str, seqNo: seq<nat>)
    requires CleanIndex(index)
    ensures Entries(ArtifactLines(index, generated, seqNo)) == SortedEntries(index)
    ensures OneLine(generated) ==> AllOneLine(ArtifactLines(index, generated, seqNo))
  {
    hide Entries;
    hide SortedEntries;
    hide ArtifactHead;
    hide EntryLines;
    hide CleanIndex;
    hide AllClean;
    hide AllComments;
    var head := ArtifactHead(generated, |index|, seqNo);
    var es := SortedEntries(index);
    SortedEntriesClean(index);
    CommentsAreNotEntries(head);
    EntriesOfLines(es);
    EntriesConcat(head, EntryLines(es));
    assert [] + es == es;
  }

  lemma SortedEntryKeys(index: Index)
    ensures EntryKeys(SortedEntries(index)) == SortedKeys(index.Keys)
  {
    hide SortedKeys;
  }

  /** Sorted entries decide their keys as the index does. */
  lemma SortedEntriesDecide(index: Index, es: seq<Entry>, k: Str)
    requires es == SortedEntries(index) && k in index
    requires forall i :: 0 <= i < |es| ==> es[i].key in IndexFrom(es) && IndexFrom(es)[es[i].key] == es[i].spec
    ensures k in IndexFrom(es) && IndexFrom(es)[k] == index[k]
  {
    hide IndexFrom;
    hide SortedEntries;
    hide SortedKeys;
    SortedEntryKeys(index);
    assert k in Elements(EntryKeys(es));
    var i :| 0 <= i < |es| && EntryKeys(es)[i] == k;
    SortedEntryAt(index, i);
  }

  lemma IndexOfSortedEntries(index: Index)
    ensures IndexFrom(SortedEntries(index)) == index
  {
    hide IndexFrom;
    hide StrictOrder;
    hide SortedBy;
    hide Before;
    hide SortedEntries;
    hide SortedKeys;
    hide Elements;
    hide EntryKeys;
    var es := SortedEntries(index);
    SortedKeysInOrder(index.Keys);
    SortedEntryKeys(index);
    IndexFromSorted(es);
    forall k | k in index ensures k in IndexFrom(es) && IndexFrom(es)[k] == index[k] {
      SortedEntriesDecide(index, es, k);
    }
  }

  lemma SortedEntryAt(index: Index, i: nat)
    requires i < |SortedEntries(index)|
    ensures (var e := SortedEntries(index)[i]; e.key in index && e.spec == index[e.key])
  {
    hide SortedKeys;
  }

  /** Everything read from lines is clean: no newline, no tab in a spec, no leading `#`. */
  lemma {:induction false} ReadIsClean(lines: seq<Str>)
    requires AllOneLine(lines)
    ensures AllClean(Entries(lines))
  {
    if lines != [] {
      ReadIsClean(lines[..|lines| - 1]);
      LineIsClean(lines[|lines| - 1]);
    }
  }

  lemma LineIsClean(line: Str)
    requires OneLine(line)
    ensures var p := ParseEntry(line); p.Just? ==> CleanEntry(p.entry.key, p.entry.spec)
  {
    LastIndexOfLast(line, TAB);
  }

  lemma {:induction false} CleanFrom(es: seq<Entry>)
    requires AllClean(es)
    ensures CleanIndex(IndexFrom(es))
  {
    if es != [] {
      CleanFrom(es[..|es| - 1]);
    }
  }

  lemma ArtifactReadsBack(index: Index, generated: Str, seqNo: seq<nat>)
    requires OneLine(generated) && CleanIndex(index)
    ensures ParseIndex(Split(ArtifactText(index, generated, seqNo), NEWLINE)) == index
  {
    var lines := ArtifactLines(index, generated, seqNo);
    ArtifactEntries(index, generated, seqNo);
    SplitText(lines);
    BlankLineAdds(lines);
    IndexOfSortedEntries(index);
  }

  lemma BlankLineAdds(lines: seq<Str>)
    ensures Entries(lines + [[]]) == Entries(lines)
  {
    assert (lines + [[]])[..|lines|] == lines;
  }

  lemma LinesParseAlike(text: Str)
    ensures Entries(LinesOf(text)) == Entries(Split(text, NEWLINE))
  {
    hide Entries;
    hide Split;
    var parts := Split(text, NEWLINE);
    if parts[|parts| - 1] == [] {
      BlankLineAdds(LinesOf(text));
      assert parts == LinesOf(text) + [[]];
    }
  }

  /** The lines of a clean artifact are its entries, in key order. */
  lemma ArtifactLinesRead(index: Index, generated: Str, seqNo: seq<nat>)
    requires OneLine(generated) && CleanIndex(index)
    ensures Entries(LinesOf(ArtifactText(index, generated, seqNo))) == SortedEntries(index)
    ensures ParseIndex(LinesOf(ArtifactText(index, generated, seqNo))) == index
  {
    var lines := ArtifactLines(index, generated, seqNo);
    LinesParseAlike(ArtifactText(index, generated, seqNo));
    ArtifactEntries(index, generated, seqNo);
    SplitText(lines);
    BlankLineAdds(lines);
    IndexOfSortedEntries(index);
  }

  /** Reading an artifact back gives the index that was written exactly when every key and
      spec is clean. */
  lemma ArtifactRoundTrip(index: Index, generated: Str, seqNo: seq<nat>)
    requires OneLine(generated)
    ensures ParseIndex(Split(ArtifactText(index, generated, seqNo), NEWLINE)) == index <==> CleanIndex(index)
  {
    var lines := Split(ArtifactText(index, generated, seqNo), NEWLINE);
    SplitParts(ArtifactText(index, generated, seqNo), NEWLINE);
    ReadIsClean(lines);
    CleanFrom(Entries(lines));
    if CleanIndex(index) {
      ArtifactReadsBack(index, generated, seqNo);
    }
  }

  function AddLine(index: Index, line: Str): Index {
    var p := ParseEntry(line);
    if p.Just? then index[p.entry.key := p.entry.spec] else index
  }

  lemma ParseSnoc(lines: seq<Str>, n: nat)
    requires n < |lines|
    ensures ParseIndex(lines[..n + 1]) == AddLine(ParseIndex(lines[..n]), lines[n])
  {
    assert lines[..n + 1] == lines[..n] + [lines[n]];
    EntriesSnoc(lines[..n], lines[n]);
    var p, es := ParseEntry(lines[n]), Entries(lines[..n]);
    if p.Just? {
      assert (es + [p.entry])[..|es|] == es;
    } else {
      assert es + [] == es;
    }
  }

  /** When the cursor is at the end only an empty piece can be left. */
  lemma NothingLeft(text: Str, pos: nat, n: nat)
    requires pos >= |text| && Cursor(text, NEWLINE, pos, n)
    ensures ParseIndex(Split(text, NEWLINE)) == ParseIndex(Split(text, NEWLINE)[..n])
  {
    var lines := Split(text, NEWLINE);
    if pos == |text| {
      CursorEnd(text, NEWLINE, n);
      ParseSnoc(lines, n);
      assert lines[..n + 1] == lines;
    } else {
      assert lines[..n] == lines;
    }
  }

  lemma NothingParsed()
    ensures ParseIndex([]) == map[]
  {
  }

  lemma CursorBound(text: Str, pos: nat, n: nat)
    requires Cursor(text, NEWLINE, pos, n)
    ensures n <= |Split(text, NEWLINE)|
  {
  }

  /** `parseArtifact`: the cursor loop over newlines. */
  method ParseArtifact(text: Str) returns (index: Index)
    ensures index == ParseIndex(Split(text, NEWLINE))
  {
    hide Split;
    hide Cursor;
    hide ParseIndex;
    hide IndexOf;
    hide LastIndexOf;
    index := map[];
    ghost var n := 0;
    var pos := 0;
    NothingParsed();
    CursorStart(text, NEWLINE);
    CursorBound(text, 0, 0);
    while pos < |text|
      invariant Cursor(text, NEWLINE, pos, n) && n <= |Split(text, NEWLINE)|
      invariant index == ParseIndex(Split(text, NEWLINE)[..n])
    {
      var nl := IndexOf(text[pos..], NEWLINE);
      var end := if nl < 0 then |text| else pos + nl;
      var line := text[pos..end];
      CursorStep(text, NEWLINE, pos, n);
      ParseSnoc(Split(text, NEWLINE), n);
      CursorBound(text, end + 1, n + 1);
      pos, n := end + 1, n + 1;
      if line != [] && line[0] != HASH {
        var t := LastIndexOf(line, TAB);
        if t >= 0 {
          index := index[line[..t] := line[t + 1..]];
        }
      }
    }
    NothingLeft(text, pos, n);
  }
}
