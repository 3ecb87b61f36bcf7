/** The index folded from record lines: a tick's equals a rebuild's, and with separator-free
    versions it is one the artifact can carry. */
module RecordIndex {
  import opened Text
  import opened Sorting
  import opened LineOrder
  import opened Delta
  import opened MergeJoin
  import opened Wire
  import opened Clauses
  import opened Contributions
  import opened Records
  import opened Ticks

  /** `slice(from, to)` of a string: empty when the bounds cross. */
  function Slice(s: Str, from: nat, to: nat): Str
    requires from <= |s| && to <= |s|
  {
    if from <= to then s[from..to] else []
  }

  /** Key and spec of a record line: between first and last tab, and after the last. */
  function RecordEntry(line: Str): Entry {
    var t1, t3 := IndexOf(line, TAB), LastIndexOf(line, TAB);
    if t1 < 0 || t3 < 0 then Entry([], []) else Entry(Slice(line, t1 + 1, t3), line[t3 + 1..])
  }

  function RecordEntries(lines: seq<Str>): (es: seq<Entry>)
    ensures |es| == |lines|
  {
    seq(|lines|, i requires 0 <= i < |lines| => RecordEntry(lines[i]))
  }

  /** The index a records file folds to. */
  ghost function FoldedIndex(lines: seq<Str>): Index {
    Folded(RecordEntries(lines))
  }

  /** The order and the number of copies of record lines do not matter to the index. */
  lemma SameBagSameIndex(a: seq<Str>, b: seq<Str>)
    requires multiset(a) == multiset(b)
    ensures FoldedIndex(a) == FoldedIndex(b)
  {
    hide RecordEntry;
    hide Folded;
    assert forall l :: l in a <==> l in multiset(a);
    assert forall l :: l in b <==> l in multiset(b);
    EntriesWithin(a, b);
    EntriesWithin(b, a);
    FoldOrderFree(RecordEntries(a), RecordEntries(b));
  }

  lemma EntriesWithin(a: seq<Str>, b: seq<Str>)
    requires forall l :: l in a ==> l in b
    ensures Elements(RecordEntries(a)) <= Elements(RecordEntries(b))
  {
    hide RecordEntry;
    forall e | e in RecordEntries(a) ensures e in RecordEntries(b) {
      var i :| 0 <= i < |a| && RecordEntry(a[i]) == e;
      assert a[i] in a && a[i] in b;
      var j :| 0 <= j < |b| && b[j] == a[i];
      assert RecordEntries(b)[j] == e;
    }
  }

  // ------------------------------------------------------------------------- cleanness

  predicate TabFree(s: Str) { TAB !in s && NEWLINE !in s }

  lemma {:induction false} JoinTabFree(parts: seq<Str>)
    requires forall i :: 0 <= i < |parts| ==> TabFree(parts[i])
    ensures TabFree(Join(parts, PIPE))
  {
    if |parts| > 1 {
      JoinTabFree(parts[1..]);
    }
  }

  lemma SpecTabFree(clauses: set<Str>)
    requires forall c :: c in clauses ==> TabFree(c)
    ensures TabFree(Spec(clauses))
  {
    hide Join;
    var sorted := SortedClauses(clauses);
    forall i | 0 <= i < |sorted| ensures TabFree(sorted[i]) {
      assert sorted[i] in Elements(sorted);
    }
    JoinTabFree(sorted);
  }

  lemma ContributionSpecTabFree(c: Contribution)
    requires CleanClauses(c.clauses)
    ensures TabFree(ContributionSpec(c))
  {
    hide Spec;
    SpecTabFree(Elements(c.clauses));
  }

  function KeyOf(c: Contribution): Str {
    c.eco + [TAB] + c.name
  }

  ghost function EntryOf(c: Contribution): Entry {
    Entry(KeyOf(c), ContributionSpec(c))
  }

  /** A record line of a clean contribution reads back as its key and spec. */
  lemma RecordLineReads(id: Str, c: Contribution)
    requires TAB !in id && CleanContribution(c)
    ensures RecordEntry(RecordLine(id, c)) == EntryOf(c)
  {
    hide Spec;
    ContributionSpecTabFree(c);
    var spec, key := ContributionSpec(c), KeyOf(c);
    var line := RecordLine(id, c);
    assert line == id + [TAB] + (key + [TAB] + spec);
    FirstOccurrence(id, TAB, key + [TAB] + spec);
    assert line == (id + [TAB] + key) + [TAB] + spec;
    LastOccurrence(id + [TAB] + key, TAB, spec);
    assert line[|id| + 1..|id| + 1 + |key|] == key;
    assert line[|id| + 1 + |key| + 1..] == spec;
  }

  ghost predicate CleanUpstream(up: Upstream) {
    forall s :: s in Sources(up) ==> AllCleanContributions(ContributionsOf(up, s)) && PlainSource(s)
  }

  // --------------------------------------------------------------------- what a build folds

  ghost function SourceEntries(cs: seq<Contribution>): (es: seq<Entry>)
    ensures |es| == |cs| && forall i :: 0 <= i < |cs| ==> es[i] == EntryOf(cs[i])
  {
    seq(|cs|, i requires 0 <= i < |cs| => EntryOf(cs[i]))
  }

  /** The contributions a full build folds, source by source. */
  ghost function BuildEntries(up: Upstream, order: seq<Source>): seq<Entry> {
    if order == [] then []
    else BuildEntries(up, order[..|order| - 1]) + SourceEntries(ContributionsOf(up, order[|order| - 1]))
  }

  lemma NoRecordEntries()
    ensures RecordEntries([]) == []
  {
  }

  lemma RecordEntriesConcat(a: seq<Str>, b: seq<Str>)
    ensures RecordEntries(a + b) == RecordEntries(a) + RecordEntries(b)
  {
    hide RecordEntry;
  }

  /** One source's lines read back as its entries. */
  lemma SourceEntriesRead(up: Upstream, s: Source)
    requires CleanUpstream(up) && s in Sources(up)
    ensures RecordEntries(SourceLines(up, s)) == SourceEntries(ContributionsOf(up, s))
  {
    hide Sources;
    hide ContributionsOf;
    hide RecordLine;
    hide RecordEntry;
    hide CleanContribution;
    var cs := ContributionsOf(up, s);
    var lines := SourceLines(up, s);
    IdHasNoTab(s);
    forall i | 0 <= i < |cs| ensures RecordEntry(lines[i]) == EntryOf(cs[i]) {
      RecordLineReads(Id(s), cs[i]);
    }
  }

  lemma {:induction false} RebuiltEntries(up: Upstream, order: seq<Source>)
    requires CleanUpstream(up) && forall s :: s in order ==> s in Sources(up)
    ensures RecordEntries(Rebuilt(up, order)) == BuildEntries(up, order)
  {
    hide Sources;
    hide ContributionsOf;
    hide RecordLine;
    hide RecordEntry;
    hide CleanContribution;
    hide RecordEntries;
    hide EntryOf;
    hide RecordLines;
    hide SourceEntries;
    if order == [] {
      NoRecordEntries();
    } else {
      var init, s := order[..|order| - 1], order[|order| - 1];
      assert order == init + [s];
      RebuiltEntries(up, init);
      SourceEntriesRead(up, s);
      RecordEntriesConcat(Rebuilt(up, init), SourceLines(up, s));
    }
  }

  /** The index after any ticks is the one a rebuild of the last snapshot folds, in any order. */
  lemma TickIndexIsRebuildIndex(lines: seq<Str>, start: Upstream, ticks: seq<Tick>, order: seq<Source>)
    requires Represents(lines, start) && GoodTicks(start, ticks)
    requires var last := SnapshotAt(start, ticks, |ticks|);
             CleanUpstream(last) && Apart(Sources(last)) && Distinct(order)
             && forall s :: s in order <==> s in Sources(last)
    ensures (var last := SnapshotAt(start, ticks, |ticks|);
             multiset(AfterTicks(lines, ticks)) == multiset(Rebuilt(last, order))
             && FoldedIndex(AfterTicks(lines, ticks)) == Folded(BuildEntries(last, order)))
  {
    hide Represents;
    hide Sources;
    hide Rebuilt;
    hide Apart;
    hide BuildEntries;
    hide AfterTicks;
    hide RecordEntries;
    hide Folded;
    var last := SnapshotAt(start, ticks, |ticks|);
    TicksRepresent(lines, start, ticks);
    RepresentsTabbed(AfterTicks(lines, ticks), last);
    RepresentsIffRebuilt(AfterTicks(lines, ticks), last, order);
    SameBagSameIndex(AfterTicks(lines, ticks), Rebuilt(last, order));
    RebuiltEntries(last, order);
  }

  lemma RepresentsTabbed(lines: seq<Str>, up: Upstream)
    requires Represents(lines, up)
    ensures Tabbed(lines)
  {
  }

  // ------------------------------------------------------------------ an index to publish

  /** A key of the index as the feed needs it: one tab, one line, no comment sign in front. */
  predicate GoodKey(k: Str) {
    Tabs(k) == 1 && OneLine(k) && (k == [] || k[0] != HASH)
  }

  predicate GoodEntry(e: Entry) {
    GoodKey(e.key) && TabFree(e.spec)
  }

  lemma {:induction false} NoTabs(s: Str)
    requires TAB !in s
    ensures Tabs(s) == 0
  {
    if s != [] {
      NoTabs(s[1..]);
    }
  }

  lemma EntryOfGood(c: Contribution)
    requires CleanContribution(c)
    ensures GoodEntry(EntryOf(c))
  {
    hide Spec;
    ContributionSpecTabFree(c);
    NoTabs(c.eco);
    NoTabs(c.name);
    TabsAppend(c.eco + [TAB], c.name);
    TabsAppend(c.eco, [TAB]);
  }

  lemma {:induction false} BuildEntriesGood(up: Upstream, order: seq<Source>)
    requires CleanUpstream(up) && forall s :: s in order ==> s in Sources(up)
    ensures forall i :: 0 <= i < |BuildEntries(up, order)| ==> GoodEntry(BuildEntries(up, order)[i])
  {
    hide Sources;
    hide ContributionsOf;
    hide GoodEntry;
    hide CleanContribution;
    hide EntryOf;
    if order != [] {
      var init, s := order[..|order| - 1], order[|order| - 1];
      assert order == init + [s];
      BuildEntriesGood(up, init);
      var cs := ContributionsOf(up, s);
      forall i | 0 <= i < |cs| ensures GoodEntry(SourceEntries(cs)[i]) {
        EntryOfGood(cs[i]);
      }
    }
  }

  lemma {:induction false} SplitTabFree(s: Str)
    requires TabFree(s)
    ensures forall i :: 0 <= i < |Split(s, PIPE)| ==> TabFree(Split(s, PIPE)[i])
  {
    var i := IndexOf(s, PIPE);
    if i >= 0 {
      SplitTabFree(s[i + 1..]);
    }
  }

  lemma PiecesTabFree(s: Str)
    requires TabFree(s)
    ensures forall c :: c in Pieces(s) ==> TabFree(c)
  {
    hide TabFree;
    hide Split;
    SplitTabFree(s);
  }

  lemma CanonTabFree(specs: set<Str>)
    requires specs != {} && forall s :: s in specs ==> TabFree(s)
    ensures TabFree(Canon(specs))
  {
    hide TabFree;
    hide Spec;
    hide Pieces;
    forall c | c in PiecesOf(specs) ensures TabFree(c) {
      var s :| s in specs && c in Pieces(s);
      PiecesTabFree(s);
    }
    SpecTabFree(PiecesOf(specs));
  }

  /** From separator-free upstream comes an index every artifact carries faithfully, with keys
      whose order is the byte order of their lines. */
  lemma BuiltIndexIsClean(up: Upstream, order: seq<Source>)
    requires CleanUpstream(up) && forall s :: s in order ==> s in Sources(up)
    ensures (var index := Folded(BuildEntries(up, order));
             CleanIndex(index) && forall k :: k in index ==> GoodKey(k))
  {
    hide Sources;
    hide BuildEntries;
    hide Folded;
    hide Canon;
    hide TabFree;
    var es := BuildEntries(up, order);
    var index := Folded(es);
    BuildEntriesGood(up, order);
    forall k | k in index ensures GoodKey(k) && TabFree(index[k]) {
      FoldCanonical(es, k);
      var spec :| spec in SpecsOf(es, k);
      var e :| e in es && e.key == k && e.spec == spec;
      assert GoodEntry(e);
      forall s | s in SpecsOf(es, k) ensures TabFree(s) {
        var f :| f in es && f.key == k && f.spec == s;
        assert GoodEntry(f);
      }
      CanonTabFree(SpecsOf(es, k));
    }
    forall k | k in index ensures CleanEntry(k, index[k]) {
      GoodKeyClean(k, index[k]);
    }
  }

  lemma GoodKeyClean(k: Str, spec: Str)
    requires GoodKey(k) && TabFree(spec)
    ensures CleanEntry(k, spec)
  {
  }

  /** Some source of the snapshot contributes this. */
  ghost predicate Contributes(up: Upstream, c: Contribution) {
    exists s :: s in Sources(up) && c in ContributionsOf(up, s)
  }

  lemma {:induction false} BuildEntryMembers(up: Upstream, order: seq<Source>, e: Entry)
    ensures e in BuildEntries(up, order)
       <==> exists s, c :: s in order && c in ContributionsOf(up, s) && e == EntryOf(c)
  {
    hide ContributionsOf;
    hide EntryOf;
    if order != [] {
      var init, last := order[..|order| - 1], order[|order| - 1];
      assert order == init + [last];
      BuildEntryMembers(up, init, e);
      var cs := ContributionsOf(up, last);
      if e in SourceEntries(cs) {
        var i :| 0 <= i < |cs| && SourceEntries(cs)[i] == e;
        assert last in order && cs[i] in cs && e == EntryOf(cs[i]);
      }
      if c :| c in cs && e == EntryOf(c) {
        var i :| 0 <= i < |cs| && cs[i] == c;
        assert SourceEntries(cs)[i] == e;
      }
    }
  }

  /** The clauses of all contributions under a key. */
  ghost function ClausesUnder(up: Upstream, k: Str): set<Str> {
    Union(ClauseSetsUnder(up, k))
  }

  ghost function ClauseSetsUnder(up: Upstream, k: Str): set<set<Str>> {
    set s, c | s in Sources(up) && c in ContributionsOf(up, s) && KeyOf(c) == k :: Elements(c.clauses)
  }

  lemma EntriesAreContributions(up: Upstream, order: seq<Source>, k: Str)
    requires forall s :: s in order <==> s in Sources(up)
    ensures SpecsOf(BuildEntries(up, order), k) == SpecsFrom(ClauseSetsUnder(up, k))
  {
    hide Sources;
    hide ContributionsOf;
    hide Spec;
    hide BuildEntries;
    var es, sets := BuildEntries(up, order), ClauseSetsUnder(up, k);
    forall spec | spec in SpecsOf(es, k) ensures spec in SpecsFrom(sets) {
      var e :| e in es && e.key == k && e.spec == spec;
      BuildEntryMembers(up, order, e);
      var s, c :| s in order && c in ContributionsOf(up, s) && e == EntryOf(c);
      assert Elements(c.clauses) in sets;
    }
    forall spec | spec in SpecsFrom(sets) ensures spec in SpecsOf(es, k) {
      var cs :| cs in sets && Spec(cs) == spec;
      var s, c :| s in Sources(up) && c in ContributionsOf(up, s) && KeyOf(c) == k && Elements(c.clauses) == cs;
      BuildEntryMembers(up, order, EntryOf(c));
      assert s in order && EntryOf(c) in es;
    }
  }

  lemma ClauseSetsAreClean(up: Upstream, k: Str)
    requires CleanUpstream(up)
    ensures ClauseSets(ClauseSetsUnder(up, k))
  {
    hide Sources;
    hide ContributionsOf;
    forall cs | cs in ClauseSetsUnder(up, k) ensures cs != {} && Separate(cs) {
      var s, c :| s in Sources(up) && c in ContributionsOf(up, s) && Elements(c.clauses) == cs;
      assert CleanContribution(c);
      var some := c.clauses[0];
      assert some in c.clauses;
      assert some in Elements(c.clauses);
    }
  }

  /** The index of a build, in terms of what the snapshot says: a key is there when something is
      contributed under it, and its spec is `*` if any contributed clause is, else the sorted
      join of all of them. */
  lemma IndexIsUnionOfClauses(up: Upstream, order: seq<Source>, k: Str)
    requires CleanUpstream(up) && forall s :: s in order <==> s in Sources(up)
    ensures k in Folded(BuildEntries(up, order)) <==> exists c :: Contributes(up, c) && KeyOf(c) == k
    ensures k in Folded(BuildEntries(up, order)) ==> Folded(BuildEntries(up, order))[k] == Spec(ClausesUnder(up, k))
  {
    hide Sources;
    hide ContributionsOf;
    hide BuildEntries;
    hide Folded;
    hide Spec;
    hide Canon;
    hide CleanUpstream;
    var es, sets := BuildEntries(up, order), ClauseSetsUnder(up, k);
    FoldCanonical(es, k);
    EntriesAreContributions(up, order, k);
    ClauseSetsAreClean(up, k);
    if sets != {} {
      SpecIsUnionOfClauses(sets);
      var cs :| cs in sets;
      var s, c :| s in Sources(up) && c in ContributionsOf(up, s) && KeyOf(c) == k && Elements(c.clauses) == cs;
      assert Contributes(up, c);
    }
    if c :| Contributes(up, c) && KeyOf(c) == k {
      var s :| s in Sources(up) && c in ContributionsOf(up, s);
      assert Elements(c.clauses) in sets;
      assert Spec(Elements(c.clauses)) in SpecsFrom(sets);
    }
  }

  /** The artifact of such an index is sorted by the UTF-8 bytes of its lines. */
  lemma ArtifactInByteOrder(index: Index, i: nat, j: nat)
    requires forall k :: k in index ==> GoodKey(k) && WellFormed(k + [TAB] + index[k])
    requires i < j < |SortedEntries(index)|
    ensures (var a, b := SortedEntries(index)[i], SortedEntries(index)[j];
             WellFormed(EntryLine(a)) && WellFormed(EntryLine(b))
             && Lex(LineBytes(a.key, a.spec), LineBytes(b.key, b.spec)) == -1)
  {
    hide WellFormed;
    hide LineBytes;
    hide Tabs;
    var es := SortedEntries(index);
    SortedKeysInOrder(index.Keys);
    var a, b := es[i], es[j];
    assert a in es && b in es;
    assert EntryKeys(es)[i] == a.key && EntryKeys(es)[j] == b.key;
    assert Before(a.key, b.key);
    OneTabUnextended(a.key, b.key);
    KeyOrderIsLineByteOrder(a.key, b.key, a.spec, b.spec);
  }
}
