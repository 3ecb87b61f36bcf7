/** The loops that write the records file and fold the index as the lines go past: the full
    rebuild and the tick's rewrite. */
module RecordRuns {
  import opened Text
  import opened Delta
  import opened MergeJoin
  import opened Clauses
  import opened Contributions
  import opened Records
  import opened RecordIndex

  /** One contribution: its line, and its entry folded. */
  method EmitOne(id: Str, c: Contribution, index: PackageIndex, ghost before: seq<Entry>) returns (line: Str)
    requires index.entries == Folded(before)
    modifies index
    ensures line == RecordLine(id, c)
    ensures index.entries == Folded(before + [EntryOf(c)])
  {
    hide FoldStep;
    hide Spec;
    hide Folded;
    var spec := Collapse(c.clauses);
    FoldInto(index, c.eco + [TAB] + c.name, spec);
    FoldedSnoc(before, EntryOf(c));
    line := id + [TAB] + (c.eco + [TAB] + c.name + [TAB] + spec);
  }

  /** One source's lines, folding each contribution as it is emitted. */
  method EmitSource(id: Str, cs: seq<Contribution>, index: PackageIndex, ghost before: seq<Entry>)
    returns (lines: seq<Str>)
    requires index.entries == Folded(before)
    modifies index
    ensures lines == RecordLines(id, cs)
    ensures index.entries == Folded(before + SourceEntries(cs))
  {
    hide Folded;
    hide EntryOf;
    hide RecordLine;
    lines := [];
    assert before + SourceEntries(cs[..0]) == before;
    for j := 0 to |cs|
      invariant lines == RecordLines(id, cs[..j])
      invariant index.entries == Folded(before + SourceEntries(cs[..j]))
    {
      var line := EmitOne(id, cs[j], index, before + SourceEntries(cs[..j]));
      assert before + SourceEntries(cs[..j]) + [EntryOf(cs[j])] == before + SourceEntries(cs[..j + 1]);
      lines := lines + [line];
    }
    assert cs[..|cs|] == cs;
  }

  lemma FoldedSnoc(es: seq<Entry>, e: Entry)
    ensures Folded(es + [e]) == FoldStep(Folded(es), e.key, e.spec)
  {
    assert (es + [e])[..|es|] == es;
  }

  /** `buildFullRecords`: every source in the order the archive and the manifests come. */
  method BuildFullRecords(up: Upstream, order: seq<Source>, index: PackageIndex) returns (lines: seq<Str>)
    requires index.entries == map[]
    modifies index
    ensures lines == Rebuilt(up, order)
    ensures index.entries == Folded(BuildEntries(up, order))
  {
    hide ContributionsOf;
    hide Id;
    hide FoldStep;
    hide RecordLines;
    lines := [];
    for i := 0 to |order|
      invariant lines == Rebuilt(up, order[..i])
      invariant index.entries == Folded(BuildEntries(up, order[..i]))
    {
      assert order[..i + 1][..i] == order[..i];
      var more := EmitSource(Id(order[i]), ContributionsOf(up, order[i]), index, BuildEntries(up, order[..i]));
      lines := lines + more;
    }
    assert order[..|order|] == order;
  }

  /** The fresh lines of a tick: the sources fetched again. */
  method FreshLines(up: Upstream, fetched: seq<Source>) returns (added: seq<Str>)
    ensures added == Rebuilt(up, fetched)
  {
    hide ContributionsOf;
    hide Id;
    hide Spec;
    added := [];
    for i := 0 to |fetched|
      invariant added == Rebuilt(up, fetched[..i])
    {
      var id, cs := Id(fetched[i]), ContributionsOf(up, fetched[i]);
      ghost var before := added;
      for j := 0 to |cs|
        invariant added == before + RecordLines(id, cs[..j])
      {
        var c := cs[j];
        var spec := Collapse(c.clauses);
        added := added + [id + [TAB] + (c.eco + [TAB] + c.name + [TAB] + spec)];
        assert RecordLines(id, cs[..j + 1]) == RecordLines(id, cs[..j]) + [RecordLine(id, c)];
      }
      assert cs[..|cs|] == cs;
      assert fetched[..i + 1][..i] == fetched[..i];
    }
    assert fetched[..|fetched|] == fetched;
  }

  lemma RecordEntriesSnoc(lines: seq<Str>, l: Str)
    ensures RecordEntries(lines + [l]) == RecordEntries(lines) + [RecordEntry(l)]
  {
    hide RecordEntry;
  }

  lemma IndexSnoc(lines: seq<Str>, l: Str)
    ensures FoldedIndex(lines + [l]) == FoldStep(FoldedIndex(lines), RecordEntry(l).key, RecordEntry(l).spec)
  {
    hide RecordEntry;
    hide FoldStep;
    hide Folded;
    RecordEntriesSnoc(lines, l);
    FoldedSnoc(RecordEntries(lines), RecordEntry(l));
  }

  lemma KeptSnoc(lines: seq<Str>, i: nat, ids: set<Str>)
    requires i < |lines|
    ensures (var l := lines[i];
             Kept(lines[..i + 1], ids)
             == Kept(lines[..i], ids) + if l != [] && IndexOf(l, TAB) >= 0 && IdOf(l) !in ids then [l] else [])
  {
    hide IdOf;
    assert lines[..i + 1][..i] == lines[..i];
  }

  /** The one streaming pass of `runTick`: drop replaced lines, keep the rest, append the added
      ones, folding the new index on the way. */
  method RewriteRecords(lines: seq<Str>, ids: set<Str>, added: seq<Str>, index: PackageIndex) returns (out: seq<Str>)
    requires index.entries == map[] && Tabbed(added)
    modifies index
    ensures out == Kept(lines, ids) + added
    ensures index.entries == FoldedIndex(out)
  {
    hide Kept;
    hide FoldStep;
    hide FoldedIndex;
    out := [];
    NothingFolded(lines, ids);
    for i := 0 to |lines|
      invariant out == Kept(lines[..i], ids)
      invariant index.entries == FoldedIndex(out)
    {
      var line := lines[i];
      KeptSnoc(lines, i, ids);
      var t1 := IndexOf(line, TAB);
      if line != [] && t1 >= 0 && line[..t1] !in ids {
        IndexSnoc(out, line);
        FoldLine(index, line);
        out := out + [line];
      }
    }
    assert lines[..|lines|] == lines;
    ghost var kept := out;
    for i := 0 to |added|
      invariant out == kept + added[..i]
      invariant index.entries == FoldedIndex(out)
    {
      var line := added[i];
      IndexOfFirst(line, TAB);
      IndexSnoc(out, line);
      FoldLine(index, line);
      out := out + [line];
    }
    assert added[..|added|] == added;
  }

  lemma NothingFolded(lines: seq<Str>, ids: set<Str>)
    ensures Kept(lines[..0], ids) == [] && FoldedIndex([]) == map[]
  {
    assert RecordEntries([]) == [];
  }

  /** Fold one record line into the index. */
  method FoldLine(index: PackageIndex, line: Str)
    requires IndexOf(line, TAB) >= 0
    modifies index
    ensures index.entries == FoldStep(old(index.entries), RecordEntry(line).key, RecordEntry(line).spec)
  {
    hide IndexOf;
    hide LastIndexOf;
    hide FoldStep;
    var t1, t3 := IndexOf(line, TAB), LastIndexOf(line, TAB);
    IndexOfFirst(line, TAB);
    LastIndexOfLast(line, TAB);
    FoldInto(index, Slice(line, t1 + 1, t3), line[t3 + 1..]);
  }

  /** A whole tick on the records file. */
  method TickRecords(lines: seq<Str>, new_: Upstream, c: Change, index: PackageIndex) returns (out: seq<Str>)
    requires index.entries == map[] && PlainSources(Touched(c))
    modifies index
    ensures out == Ticked(lines, new_, c)
    ensures index.entries == FoldedIndex(out)
  {
    hide Kept;
    hide Rebuilt;
    hide Id;
    hide FoldedIndex;
    var added := FreshLines(new_, Fetched(c));
    FreshTabbed(new_, Fetched(c), c);
    out := RewriteRecords(lines, TouchedIds(c), added, index);
  }

  lemma {:induction false} FreshTabbed(up: Upstream, order: seq<Source>, c: Change)
    requires PlainSources(Touched(c)) && forall s :: s in order ==> s in Touched(c)
    ensures Tabbed(Rebuilt(up, order))
  {
    hide Id;
    hide Touched;
    hide ContributionsOf;
    if order != [] {
      assert order == order[..|order| - 1] + [order[|order| - 1]];
      FreshTabbed(up, order[..|order| - 1], c);
      SourceLinesById(up, order[|order| - 1], []);
    }
  }
}
