/** The records file: one line per source record and package. A rebuild writes it from the whole
    upstream, a tick rewrites only what changed, and the two agree exactly when the list of
    changes misses nothing. */
module Records {
  import opened Wrappers
  import opened Text
  import opened Sorting
  import opened Clauses
  import opened Contributions

  // ---------------------------------------------------------------------------- upstream

  /** One upstream snapshot: OSSF files by path (None when a body does not parse) and Datadog
      manifests by ecosystem. */
  datatype Upstream = Upstream(docs: map<Str, Option<Doc>>, manifests: map<Str, seq<ManifestEntry>>)

  datatype Source = Osv(path: Str) | Manifest(eco: Str)

  function Sources(up: Upstream): set<Source> {
    (set p | p in up.docs :: Osv(p)) + (set e | e in up.manifests :: Manifest(e))
  }

  /** What one source contributes. */
  function ContributionsOf(up: Upstream, s: Source): seq<Contribution> {
    match s
    case Osv(p) => if p in up.docs && up.docs[p].Some? then OsvContributions(up.docs[p].value, p) else []
    case Manifest(e) => if e in up.manifests then ManifestContributions(e, up.manifests[e]) else []
  }

  // --------------------------------------------------------------------------- record ids

  /** One of the two 32-bit lanes of `rid`. */
  function Lane(path: Str, start: bv32, factor: bv32): bv32 {
    if path == [] then start
    else (Lane(path[..|path| - 1], start, factor) ^ (path[|path| - 1] as bv32)) * factor
  }

  function HexDigit(d: int): (u: Unit)
    requires 0 <= d < 16
    ensures IsHex(u)
  {
    if d < 10 then ZERO + d else 97 + d - 10
  }

  predicate IsHex(u: int) { 48 <= u <= 57 || 97 <= u <= 102 }

  /** Lower-case hexadecimal, padded with zeros to a width. */
  function Hex(n: nat, width: nat): (s: Str)
    ensures |s| == width && forall i :: 0 <= i < |s| ==> IsHex(s[i])
  {
    if width == 0 then [] else Hex(n / 16, width - 1) + [HexDigit(n % 16)]
  }

  /** `rid`: sixteen hex digits that stand for a path. */
  function Rid(path: Str): (id: Str)
    ensures |id| == 16 && forall i :: 0 <= i < |id| ==> IsHex(id[i])
  {
    var h1 := Lane(path, 0x811c9dc5, 0x01000193);
    var h2 := (Lane(path, 0x9e3779b9, 0x85ebca6b) ^ ((|path| % 0x1_0000_0000) as bv32)) * 0x27d4eb2f;
    Hex(h1 as int, 8) + Hex(h2 as int, 8)
  }

  /** The id a source's lines carry. */
  function Id(s: Source): Str {
    match s
    case Osv(p) => Rid(p)
    case Manifest(e) => Ascii("dd:") + e
  }

  /** Sources whose ids do not collide. */
  ghost predicate Apart(ss: set<Source>) {
    forall s, t :: s in ss && t in ss && Id(s) == Id(t) ==> s == t
  }

  /** Only two paths can collide: a path's id is never a manifest's. */
  lemma ApartIffPathsApart(ss: set<Source>)
    ensures Apart(ss) <==> forall p, q :: Osv(p) in ss && Osv(q) in ss && Rid(p) == Rid(q) ==> p == q
  {
    forall p, e ensures Id(Osv(p)) != Id(Manifest(e)) {
      PathIdIsNoManifestId(p, e);
    }
    forall e, f | Id(Manifest(e)) == Id(Manifest(f)) ensures e == f {
      ManifestIdsDiffer(e, f);
    }
    hide Rid;
    if forall p, q :: Osv(p) in ss && Osv(q) in ss && Rid(p) == Rid(q) ==> p == q {
      forall s, t | s in ss && t in ss && Id(s) == Id(t) ensures s == t {
        match (s, t)
        case (Osv(p), Osv(q)) => assert Rid(p) == Rid(q);
        case _ =>
      }
    }
    if Apart(ss) {
      forall p, q | Osv(p) in ss && Osv(q) in ss && Rid(p) == Rid(q) ensures p == q {
        assert Id(Osv(p)) == Id(Osv(q));
      }
    }
  }

  lemma PathIdIsNoManifestId(p: Str, e: Str)
    ensures Id(Osv(p)) != Id(Manifest(e))
  {
    var m := Id(Manifest(e));
    assert m[2] == 58 && IsHex(Rid(p)[2]);
  }

  lemma ManifestIdsDiffer(e: Str, f: Str)
    requires Id(Manifest(e)) == Id(Manifest(f))
    ensures e == f
  {
    assert Id(Manifest(e))[3..] == e && Id(Manifest(f))[3..] == f;
  }

  /** Ids of manifests must survive a line too. */
  predicate PlainSource(s: Source) {
    s.Manifest? ==> TAB !in s.eco
  }

  lemma IdHasNoTab(s: Source)
    requires PlainSource(s)
    ensures TAB !in Id(s)
  {
    match s
    case Osv(p) => assert forall i :: 0 <= i < 16 ==> IsHex(Rid(p)[i]);
    case Manifest(e) =>
  }

  // --------------------------------------------------------------------------- the lines

  ghost function ContributionSpec(c: Contribution): Str {
    Spec(Elements(c.clauses))
  }

  /** `recordLine`. */
  ghost function RecordLine(id: Str, c: Contribution): Str {
    id + [TAB] + (c.eco + [TAB] + c.name + [TAB] + ContributionSpec(c))
  }

  ghost function RecordLines(id: Str, cs: seq<Contribution>): (lines: seq<Str>)
    ensures |lines| == |cs| && forall i :: 0 <= i < |cs| ==> lines[i] == RecordLine(id, cs[i])
  {
    seq(|cs|, i requires 0 <= i < |cs| => RecordLine(id, cs[i]))
  }

  ghost function SourceLines(up: Upstream, s: Source): seq<Str> {
    RecordLines(Id(s), ContributionsOf(up, s))
  }

  /** The lines of some sources, one after another. */
  ghost function Rebuilt(up: Upstream, order: seq<Source>): seq<Str> {
    if order == [] then [] else Rebuilt(up, order[..|order| - 1]) + SourceLines(up, order[|order| - 1])
  }

  function IdOf(line: Str): Str {
    var t := IndexOf(line, TAB);
    if t < 0 then line else line[..t]
  }

  predicate Tabbed(lines: seq<Str>) {
    forall i :: 0 <= i < |lines| ==> TAB in lines[i]
  }

  /** The lines that carry an id. */
  function ById(lines: seq<Str>, id: Str): seq<Str> {
    if lines == [] then []
    else ById(lines[..|lines| - 1], id) + if IdOf(lines[|lines| - 1]) == id then [lines[|lines| - 1]] else []
  }

  lemma {:induction false} ByIdConcat(a: seq<Str>, b: seq<Str>, id: Str)
    ensures ById(a + b, id) == ById(a, id) + ById(b, id)
  {
    hide IdOf;
    if b == [] {
      assert a + b == a;
    } else {
      ByIdConcat(a, b[..|b| - 1], id);
      assert (a + b)[..|a + b| - 1] == a + b[..|b| - 1];
      assert (a + b)[|a + b| - 1] == b[|b| - 1];
    }
  }

  lemma RecordLineId(id: Str, c: Contribution)
    requires TAB !in id
    ensures IdOf(RecordLine(id, c)) == id && TAB in RecordLine(id, c)
  {
    hide Spec;
    var rest := c.eco + [TAB] + c.name + [TAB] + ContributionSpec(c);
    FirstOccurrence(id, TAB, rest);
    var line := RecordLine(id, c);
    assert line[..|id|] == id && line[|id|] == TAB;
  }

  lemma {:induction false} ByIdAll(lines: seq<Str>, id: Str)
    requires forall i :: 0 <= i < |lines| ==> IdOf(lines[i]) == id
    ensures forall other :: ById(lines, other) == if other == id then lines else []
  {
    hide IdOf;
    if lines != [] {
      ByIdAll(lines[..|lines| - 1], id);
      assert lines == lines[..|lines| - 1] + [lines[|lines| - 1]];
    }
  }

  lemma SourceLinesById(up: Upstream, s: Source, id: Str)
    requires PlainSource(s)
    ensures ById(SourceLines(up, s), id) == if id == Id(s) then SourceLines(up, s) else []
    ensures Tabbed(SourceLines(up, s))
  {
    hide RecordLine;
    hide IdOf;
    hide ContributionsOf;
    IdHasNoTab(s);
    var cs := ContributionsOf(up, s);
    forall i | 0 <= i < |cs| ensures IdOf(SourceLines(up, s)[i]) == Id(s) && TAB in SourceLines(up, s)[i] {
      RecordLineId(Id(s), cs[i]);
    }
    ByIdAll(SourceLines(up, s), Id(s));
  }

  // -------------------------------------------------------------- bags of lines, id by id

  lemma {:induction false} CountById(lines: seq<Str>, id: Str, l: Str)
    ensures multiset(ById(lines, id))[l] == if IdOf(l) == id then multiset(lines)[l] else 0
  {
    hide IdOf;
    if lines != [] {
      var init, last := lines[..|lines| - 1], lines[|lines| - 1];
      CountById(init, id, l);
      assert lines == init + [last];
      assert multiset(lines) == multiset(init) + multiset([last]);
      var tail := if IdOf(last) == id then [last] else [];
      assert multiset(ById(lines, id)) == multiset(ById(init, id)) + multiset(tail);
    }
  }

  ghost predicate SameParts(a: seq<Str>, b: seq<Str>) {
    forall id :: multiset(ById(a, id)) == multiset(ById(b, id))
  }

  lemma SamePart(a: seq<Str>, b: seq<Str>, id: Str)
    requires multiset(a) == multiset(b)
    ensures multiset(ById(a, id)) == multiset(ById(b, id))
  {
    hide ById;
    hide IdOf;
    forall l ensures multiset(ById(a, id))[l] == multiset(ById(b, id))[l] {
      CountById(a, id, l);
      CountById(b, id, l);
    }
  }

  /** Two files hold the same lines exactly when they do so id by id. */
  lemma SameBagById(a: seq<Str>, b: seq<Str>)
    ensures multiset(a) == multiset(b) <==> SameParts(a, b)
  {
    hide ById;
    hide IdOf;
    if multiset(a) == multiset(b) {
      forall id ensures multiset(ById(a, id)) == multiset(ById(b, id)) {
        SamePart(a, b, id);
      }
    } else if SameParts(a, b) {
      forall l ensures multiset(a)[l] == multiset(b)[l] {
        CountById(a, IdOf(l), l);
        CountById(b, IdOf(l), l);
        assert multiset(ById(a, IdOf(l))) == multiset(ById(b, IdOf(l)));
      }
    }
  }

  /** The lines an id should have. */
  ghost function Expected(up: Upstream, id: Str): seq<Str> {
    if exists s :: s in Sources(up) && Id(s) == id then
      var s :| s in Sources(up) && Id(s) == id;
      SourceLines(up, s)
    else []
  }

  lemma ExpectedOf(up: Upstream, ss: set<Source>, s: Source)
    requires Apart(ss) && Sources(up) <= ss && s in ss
    ensures multiset(Expected(up, Id(s))) == multiset(SourceLines(up, s))
  {
    hide Id;
    if s !in Sources(up) {
      assert ContributionsOf(up, s) == [];
    }
  }

  /** The records file is what the upstream calls for, as a multiset of lines. */
  ghost predicate Represents(lines: seq<Str>, up: Upstream) {
    Tabbed(lines) && forall id :: multiset(ById(lines, id)) == multiset(Expected(up, id))
  }

  predicate Distinct(order: seq<Source>) {
    forall i, j :: 0 <= i < j < |order| ==> order[i] != order[j]
  }

  ghost predicate PlainSources(ss: set<Source>) {
    forall s :: s in ss ==> PlainSource(s)
  }

  lemma {:induction false} RebuiltById(up: Upstream, order: seq<Source>, ss: set<Source>, id: Str)
    requires Apart(ss) && PlainSources(ss) && Distinct(order) && forall s :: s in order ==> s in ss
    ensures Tabbed(Rebuilt(up, order))
    ensures forall s :: s in ss && Id(s) == id ==> ById(Rebuilt(up, order), id) == if s in order then SourceLines(up, s) else []
    ensures (forall s :: s in order ==> Id(s) != id) ==> ById(Rebuilt(up, order), id) == []
  {
    hide Id;
    hide SourceLines;
    if order != [] {
      var init, last := order[..|order| - 1], order[|order| - 1];
      assert order == init + [last];
      RebuiltById(up, init, ss, id);
      SourceLinesById(up, last, id);
      ByIdConcat(Rebuilt(up, init), SourceLines(up, last), id);
    }
  }

  /** A rebuild over any enumeration of the sources represents the upstream. */
  lemma RebuildRepresents(up: Upstream, order: seq<Source>)
    requires Apart(Sources(up)) && PlainSources(Sources(up)) && Distinct(order)
    requires forall s :: s in order <==> s in Sources(up)
    ensures Represents(Rebuilt(up, order), up)
  {
    hide Id;
    hide SourceLines;
    var lines := Rebuilt(up, order);
    RebuiltById(up, order, Sources(up), []);
    forall id ensures multiset(ById(lines, id)) == multiset(Expected(up, id)) {
      RebuiltById(up, order, Sources(up), id);
      if exists s :: s in Sources(up) && Id(s) == id {
        var s :| s in Sources(up) && Id(s) == id;
        ExpectedOf(up, Sources(up), s);
      }
    }
  }

  /** Representing the upstream is holding the lines of a rebuild. */
  lemma RepresentsIffRebuilt(lines: seq<Str>, up: Upstream, order: seq<Source>)
    requires Apart(Sources(up)) && PlainSources(Sources(up)) && Distinct(order)
    requires forall s :: s in order <==> s in Sources(up)
    requires Tabbed(lines)
    ensures Represents(lines, up) <==> multiset(lines) == multiset(Rebuilt(up, order))
  {
    hide Id;
    hide SourceLines;
    hide Expected;
    hide ById;
    RebuildRepresents(up, order);
    var rebuilt := Rebuilt(up, order);
    SameBagById(lines, rebuilt);
    if Represents(lines, up) {
      forall id ensures multiset(ById(lines, id)) == multiset(ById(rebuilt, id)) {
        assert multiset(ById(rebuilt, id)) == multiset(Expected(up, id));
      }
      assert SameParts(lines, rebuilt);
    }
    if multiset(lines) == multiset(rebuilt) {
      forall id ensures multiset(ById(lines, id)) == multiset(Expected(up, id)) {
        assert multiset(ById(rebuilt, id)) == multiset(Expected(up, id));
      }
    }
  }

  // ---------------------------------------------------------------------------- the tick

  /** What one tick was told: files to fetch again, files gone, manifests to replace. */
  datatype Change = Change(changed: seq<Str>, removed: set<Str>, manifests: seq<Str>)

  /** The sources fetched again, in order. */
  function Fetched(c: Change): seq<Source> {
    seq(|c.changed|, i requires 0 <= i < |c.changed| => Osv(c.changed[i]))
    + seq(|c.manifests|, i requires 0 <= i < |c.manifests| => Manifest(c.manifests[i]))
  }

  /** Every source whose old lines go. */
  function Touched(c: Change): set<Source> {
    Elements(Fetched(c)) + set p | p in c.removed :: Osv(p)
  }

  function TouchedIds(c: Change): set<Str> {
    set s | s in Touched(c) :: Id(s)
  }

  /** The lines a tick keeps. */
  function Kept(lines: seq<Str>, ids: set<Str>): seq<Str> {
    if lines == [] then []
    else
      var l := lines[|lines| - 1];
      Kept(lines[..|lines| - 1], ids) + if l != [] && IndexOf(l, TAB) >= 0 && IdOf(l) !in ids then [l] else []
  }

  /** The records file after a tick. */
  ghost function Ticked(lines: seq<Str>, new_: Upstream, c: Change): seq<Str> {
    Kept(lines, TouchedIds(c)) + Rebuilt(new_, Fetched(c))
  }

  lemma ByIdSnoc(lines: seq<Str>, l: Str, id: Str)
    ensures ById(lines + [l], id) == ById(lines, id) + if IdOf(l) == id then [l] else []
  {
    hide IdOf;
    assert (lines + [l])[..|lines|] == lines;
  }

  lemma {:induction false} KeptById(lines: seq<Str>, ids: set<Str>, id: Str)
    requires Tabbed(lines)
    ensures ById(Kept(lines, ids), id) == if id in ids then [] else ById(lines, id)
    ensures Tabbed(Kept(lines, ids))
  {
    hide IdOf;
    hide IndexOf;
    if lines != [] {
      var init, l := lines[..|lines| - 1], lines[|lines| - 1];
      KeptById(init, ids, id);
      IndexOfFirst(l, TAB);
      ByIdSnoc(Kept(init, ids), l, id);
      assert Kept(lines, ids) == if IdOf(l) !in ids then Kept(init, ids) + [l] else Kept(init, ids);
    }
  }

  /** Nothing about source `s` is missed: it was fetched again, or it is gone and stands for
      nothing now, or it was left alone and contributes what it did. */
  ghost predicate Accounted(old_: Upstream, new_: Upstream, c: Change, s: Source) {
    if s in Fetched(c) then true
    else if s in Touched(c) then SourceLines(new_, s) == []
    else multiset(SourceLines(old_, s)) == multiset(SourceLines(new_, s))
  }

  ghost function Scope(old_: Upstream, new_: Upstream, c: Change): set<Source> {
    Sources(old_) + Sources(new_) + Touched(c)
  }

  ghost predicate GoodTick(old_: Upstream, new_: Upstream, c: Change) {
    && Apart(Scope(old_, new_, c)) && PlainSources(Scope(old_, new_, c))
    && Distinct(Fetched(c))
  }

  lemma TickedById(lines: seq<Str>, old_: Upstream, new_: Upstream, c: Change, s: Source)
    requires Represents(lines, old_) && GoodTick(old_, new_, c) && s in Scope(old_, new_, c)
    ensures var got := multiset(ById(Ticked(lines, new_, c), Id(s)));
            got == if s in Fetched(c) then multiset(SourceLines(new_, s))
                   else if s in Touched(c) then multiset{}
                   else multiset(SourceLines(old_, s))
  {
    hide Id;
    hide SourceLines;
    hide Fetched;
    var ss := Scope(old_, new_, c);
    KeptById(lines, TouchedIds(c), Id(s));
    assert forall t :: t in Fetched(c) ==> t in Elements(Fetched(c));
    RebuiltById(new_, Fetched(c), ss, Id(s));
    ByIdConcat(Kept(lines, TouchedIds(c)), Rebuilt(new_, Fetched(c)), Id(s));
    ExpectedOf(old_, ss, s);
    assert Id(s) in TouchedIds(c) <==> s in Touched(c);
  }

  lemma NothingExpected(up: Upstream, id: Str)
    requires forall s :: s in Sources(up) ==> Id(s) != id
    ensures Expected(up, id) == []
  {
    hide Id;
    hide SourceLines;
    hide Sources;
  }

  lemma TickedElsewhere(lines: seq<Str>, old_: Upstream, new_: Upstream, c: Change, id: Str)
    requires Represents(lines, old_) && GoodTick(old_, new_, c)
    requires forall s :: s in Scope(old_, new_, c) ==> Id(s) != id
    ensures multiset(ById(Ticked(lines, new_, c), id)) == multiset{} == multiset(Expected(new_, id))
  {
    hide Id;
    hide SourceLines;
    hide Fetched;
    hide Expected;
    hide Kept;
    hide ById;
    hide Rebuilt;
    hide Sources;
    hide Apart;
    hide Distinct;
    hide TouchedIds;
    NothingExpected(old_, id);
    NothingExpected(new_, id);
    KeptById(lines, TouchedIds(c), id);
    assert forall t :: t in Fetched(c) ==> t in Elements(Fetched(c));
    RebuiltById(new_, Fetched(c), Scope(old_, new_, c), id);
    ByIdConcat(Kept(lines, TouchedIds(c)), Rebuilt(new_, Fetched(c)), id);
    assert multiset(ById(lines, id)) == multiset(Expected(old_, id));
    NoLines(ById(lines, id));
  }

  lemma NoLines(lines: seq<Str>)
    requires multiset(lines) == multiset{}
    ensures lines == []
  {
    assert |lines| == |multiset(lines)|;
  }

  /** A tick on a records file for `old_` yields the records file for `new_` exactly when its
      change list misses nothing. */
  lemma TickIff(lines: seq<Str>, old_: Upstream, new_: Upstream, c: Change)
    requires Represents(lines, old_) && GoodTick(old_, new_, c)
    ensures Represents(Ticked(lines, new_, c), new_)
       <==> forall s :: s in Scope(old_, new_, c) ==> Accounted(old_, new_, c, s)
  {
    hide Id;
    hide SourceLines;
    hide Fetched;
    hide Expected;
    hide Kept;
    var ss, out := Scope(old_, new_, c), Ticked(lines, new_, c);
    TickedTabbed(lines, old_, new_, c);
    forall s | s in ss
      ensures multiset(ById(out, Id(s))) == multiset(Expected(new_, Id(s))) <==> Accounted(old_, new_, c, s)
    {
      TickedById(lines, old_, new_, c, s);
      ExpectedOf(new_, ss, s);
    }
    forall id | forall s :: s in ss ==> Id(s) != id
      ensures multiset(ById(out, id)) == multiset(Expected(new_, id))
    {
      TickedElsewhere(lines, old_, new_, c, id);
    }
  }

  lemma TickedTabbed(lines: seq<Str>, old_: Upstream, new_: Upstream, c: Change)
    requires Represents(lines, old_) && GoodTick(old_, new_, c)
    ensures Tabbed(Ticked(lines, new_, c))
  {
    hide Id;
    hide SourceLines;
    hide Fetched;
    KeptById(lines, TouchedIds(c), []);
    assert forall t :: t in Fetched(c) ==> t in Elements(Fetched(c));
    RebuiltById(new_, Fetched(c), Scope(old_, new_, c), []);
  }

  /** Running a tick again on the same changes alters nothing, line for line. */
  lemma TickIdempotent(lines: seq<Str>, new_: Upstream, c: Change)
    requires PlainSources(Touched(c))
    ensures Ticked(Ticked(lines, new_, c), new_, c) == Ticked(lines, new_, c)
  {
    hide Id;
    hide SourceLines;
    hide Fetched;
    hide Rebuilt;
    KeptConcat(Kept(lines, TouchedIds(c)), Rebuilt(new_, Fetched(c)), TouchedIds(c));
    KeptTwice(lines, TouchedIds(c));
    FreshGoes(new_, Fetched(c), c);
    assert Kept(lines, TouchedIds(c)) + [] == Kept(lines, TouchedIds(c));
  }

  lemma {:induction false} KeptConcat(a: seq<Str>, b: seq<Str>, ids: set<Str>)
    ensures Kept(a + b, ids) == Kept(a, ids) + Kept(b, ids)
  {
    hide IdOf;
    if b == [] {
      assert a + b == a;
    } else {
      KeptConcat(a, b[..|b| - 1], ids);
      assert (a + b)[..|a + b| - 1] == a + b[..|b| - 1];
      assert (a + b)[|a + b| - 1] == b[|b| - 1];
    }
  }

  lemma {:induction false} KeptTwice(lines: seq<Str>, ids: set<Str>)
    ensures Kept(Kept(lines, ids), ids) == Kept(lines, ids)
  {
    hide IdOf;
    if lines != [] {
      KeptTwice(lines[..|lines| - 1], ids);
      var l := lines[|lines| - 1];
      var tail := if l != [] && IndexOf(l, TAB) >= 0 && IdOf(l) !in ids then [l] else [];
      KeptConcat(Kept(lines[..|lines| - 1], ids), tail, ids);
    }
  }

  lemma {:induction false} NoneKept(lines: seq<Str>, ids: set<Str>)
    requires forall i :: 0 <= i < |lines| ==> IdOf(lines[i]) in ids
    ensures Kept(lines, ids) == []
  {
    hide IdOf;
    if lines != [] {
      NoneKept(lines[..|lines| - 1], ids);
    }
  }

  lemma {:induction false} FreshGoes(new_: Upstream, order: seq<Source>, c: Change)
    requires forall s :: s in order ==> s in Touched(c) && PlainSource(s)
    ensures Kept(Rebuilt(new_, order), TouchedIds(c)) == []
  {
    hide Id;
    hide IdOf;
    hide Touched;
    hide RecordLine;
    hide ContributionsOf;
    if order != [] {
      var init, s := order[..|order| - 1], order[|order| - 1];
      assert order == init + [s];
      FreshGoes(new_, init, c);
      var lines := SourceLines(new_, s);
      IdHasNoTab(s);
      forall i | 0 <= i < |lines| ensures IdOf(lines[i]) in TouchedIds(c) {
        RecordLineId(Id(s), ContributionsOf(new_, s)[i]);
        assert Id(s) in TouchedIds(c);
      }
      NoneKept(lines, TouchedIds(c));
      KeptConcat(Rebuilt(new_, init), lines, TouchedIds(c));
    }
  }
}
