/** From parsed advisories to contributions: `clausesFromAffected`, `osvContributions` and
    `datadogContributions`, and what upstream must avoid for an index to be clean. */
module Contributions {
  import opened Wrappers
  import opened Text

  /** One event of an OSV range; absent fields are None. */
  datatype Event = Event(introduced: Option<Str>, fixed: Option<Str>, lastAffected: Option<Str>)

  datatype Affected = Affected(ecosystem: Str, name: Str, versions: seq<Str>, ranges: seq<seq<Event>>)

  datatype Doc = Doc(withdrawn: bool, affected: seq<Affected>)

  /** A Datadog manifest entry: no versions means every version. */
  datatype ManifestEntry = ManifestEntry(name: Str, versions: seq<Str>)

  datatype Contribution = Contribution(eco: Str, name: Str, clauses: seq<Str>)

  // -------------------------------------------------------------------------- ecosystems

  datatype Eco = Npm | Pypi | CratesIo | Go | Rubygems | Nuget | Maven | Packagist | Vscode | AiSkills

  /** `ECO`: the spellings upstream uses. */
  function Ecosystem(raw: Str): Option<Eco> {
    if raw == Ascii("npm") then Some(Npm)
    else if raw == Ascii("PyPI") || raw == Ascii("pypi") then Some(Pypi)
    else if raw == Ascii("crates.io") then Some(CratesIo)
    else if raw == Ascii("Go") then Some(Go)
    else if raw == Ascii("RubyGems") then Some(Rubygems)
    else if raw == Ascii("NuGet") then Some(Nuget)
    else if raw == Ascii("Maven") then Some(Maven)
    else if raw == Ascii("Packagist") then Some(Packagist)
    else if raw == Ascii("VSCode") || raw == Ascii("VSCode:https://open-vsx.org") || raw == Ascii("ide_extensions")
    then Some(Vscode)
    else if raw == Ascii("ai-skills") then Some(AiSkills)
    else None
  }

  /** The canonical spelling. */
  function EcoName(e: Eco): (eco: Str)
    ensures PlainWord(eco) && eco != []
  {
    match e
    case Npm => Word("npm")
    case Pypi => Word("pypi")
    case CratesIo => Word("crates.io")
    case Go => Word("go")
    case Rubygems => Word("rubygems")
    case Nuget => Word("nuget")
    case Maven => Word("maven")
    case Packagist => Word("packagist")
    case Vscode => Word("vscode")
    case AiSkills => Word("ai-skills")
  }

  /** No separator of the feed's formats inside, and no comment sign in front. */
  predicate PlainWord(s: Str) {
    TAB !in s && NEWLINE !in s && (s == [] || s[0] != HASH)
  }

  function Word(s: string): (w: Str)
    requires forall i :: 0 <= i < |s| ==> '-' <= s[i] < 128 as char
    ensures PlainWord(w) && |w| == |s|
  {
    Ascii(s)
  }

  // ------------------------------------------------------------------------------- names

  predicate Pep503Separator(u: Unit) { u == 45 || u == 95 || u == 46 }

  /** Runs of `-`, `_` and `.` become one `-`; ASCII letters become lower case. */
  function Pep503(name: Str): Str {
    if name == [] then []
    else
      var n := |name| - 1;
      var init := Pep503(name[..n]);
      if Pep503Separator(name[n]) then
        if n > 0 && Pep503Separator(name[n - 1]) then init else init + [MINUS]
      else if 65 <= name[n] <= 90 then init + [name[n] + 32]
      else init + [name[n]]
  }

  function CanonicalName(eco: Eco, name: Str): Str {
    if eco.Pypi? then Pep503(name) else name
  }

  predicate NameOk(name: Str) {
    name != [] && TAB !in name && NEWLINE !in name && RETURN !in name
  }

  // ----------------------------------------------------------------------------- clauses

  /** `Set.add`, keeping insertion order. */
  function AddOnce(out: seq<Str>, c: Str): seq<Str> {
    if c in out then out else out + [c]
  }

  /** A JavaScript truthy string. */
  predicate Truthy(o: Option<Str>) {
    o.Some? && o.value != []
  }

  datatype Bounds = Bounds(intro: Option<Str>, fixed: Option<Str>, last: Option<Str>)

  /** The last value each kind of event gave. */
  function BoundsOf(events: seq<Event>): Bounds {
    if events == [] then Bounds(None, None, None)
    else
      var b, e := BoundsOf(events[..|events| - 1]), events[|events| - 1];
      Bounds(if e.introduced.Some? then e.introduced else b.intro,
             if e.fixed.Some? then e.fixed else b.fixed,
             if e.lastAffected.Some? then e.lastAffected else b.last)
  }

  const GE: Str := [62, 61]
  const LT: Str := [COMMA, 60]
  const LE: Str := [COMMA, 60, 61]
  const EQ: Str := [61]

  /** The one clause of a range. */
  function RangeClause(b: Bounds): Str {
    var from := if Truthy(b.intro) then b.intro.value else [ZERO];
    if Truthy(b.fixed) then GE + from + LT + b.fixed.value
    else if Truthy(b.last) then GE + from + LE + b.last.value
    else if b.intro.None? || b.intro.value == [ZERO] then [STAR]
    else GE + b.intro.value
  }

  function VersionClauses(versions: seq<Str>): seq<Str> {
    if versions == [] then []
    else AddOnce(VersionClauses(versions[..|versions| - 1]), EQ + versions[|versions| - 1])
  }

  function RangeClauses(start: seq<Str>, ranges: seq<seq<Event>>): seq<Str> {
    if ranges == [] then start
    else AddOnce(RangeClauses(start, ranges[..|ranges| - 1]), RangeClause(BoundsOf(ranges[|ranges| - 1])))
  }

  function Clauses(a: Affected): (cs: seq<Str>)
    ensures cs != []
  {
    var out := RangeClauses(VersionClauses(a.versions), a.ranges);
    if out == [] then [[STAR]] else out
  }

  /** The three variables the event loop of a range leaves. */
  method ReadBounds(events: seq<Event>) returns (b: Bounds)
    ensures b == BoundsOf(events)
  {
    var intro, fixed, last: Option<Str> := None, None, None;
    for j := 0 to |events|
      invariant Bounds(intro, fixed, last) == BoundsOf(events[..j])
    {
      assert events[..j + 1][..j] == events[..j];
      if events[j].introduced.Some? { intro := events[j].introduced; }
      if events[j].fixed.Some? { fixed := events[j].fixed; }
      if events[j].lastAffected.Some? { last := events[j].lastAffected; }
    }
    assert events[..|events|] == events;
    b := Bounds(intro, fixed, last);
  }

  /** `clausesFromAffected`, filling the set as it goes. */
  method ClausesFromAffected(a: Affected) returns (out: seq<Str>)
    ensures out == Clauses(a)
  {
    hide AddOnce;
    hide RangeClause;
    hide BoundsOf;
    out := [];
    for i := 0 to |a.versions|
      invariant out == VersionClauses(a.versions[..i])
    {
      assert a.versions[..i + 1][..i] == a.versions[..i];
      out := AddOnce(out, EQ + a.versions[i]);
    }
    assert a.versions[..|a.versions|] == a.versions;
    ghost var start := out;
    for i := 0 to |a.ranges|
      invariant out == RangeClauses(start, a.ranges[..i])
    {
      assert a.ranges[..i + 1][..i] == a.ranges[..i];
      var b := ReadBounds(a.ranges[i]);
      out := AddOnce(out, RangeClause(b));
    }
    assert a.ranges[..|a.ranges|] == a.ranges;
    if out == [] {
      out := [[STAR]];
    }
  }

  // ----------------------------------------------------------------------- contributions

  function OneContribution(eco: Option<Eco>, raw: Str, clauses: seq<Str>): seq<Contribution> {
    if eco.None? || raw == [] then []
    else
      var name := CanonicalName(eco.value, raw);
      if NameOk(name) then [Contribution(EcoName(eco.value), name, clauses)] else []
  }

  function AffectedContributions(affected: seq<Affected>): seq<Contribution> {
    if affected == [] then []
    else
      var a := affected[|affected| - 1];
      AffectedContributions(affected[..|affected| - 1])
      + OneContribution(Ecosystem(a.ecosystem), a.name, Clauses(a))
  }

  predicate Includes(s: Str, part: Str) {
    part <= s || (s != [] && Includes(s[1..], part))
  }

  /** Withdrawn by its own field, or by where it is kept. */
  predicate Withdrawn(doc: Doc, path: Str) {
    doc.withdrawn || Includes([47] + path, Ascii("/osv/withdrawn/"))
  }

  /** `osvContributions`. */
  function OsvContributions(doc: Doc, path: Str): seq<Contribution> {
    if Withdrawn(doc, path) then [] else AffectedContributions(doc.affected)
  }

  function EntryClauses(e: ManifestEntry): seq<Str> {
    if e.versions == [] then [[STAR]]
    else seq(|e.versions|, i requires 0 <= i < |e.versions| => EQ + e.versions[i])
  }

  /** `datadogContributions`, over the entries of a manifest in order. */
  function ManifestContributions(raw: Str, entries: seq<ManifestEntry>): seq<Contribution> {
    if entries == [] then []
    else
      var e := entries[|entries| - 1];
      ManifestContributions(raw, entries[..|entries| - 1])
      + OneContribution(Ecosystem(raw), e.name, EntryClauses(e))
  }

  // --------------------------------------------------------------------------- cleanness

  /** No separator inside a version: what upstream has to respect. */
  predicate CleanVersion(v: Str) {
    TAB !in v && NEWLINE !in v && PIPE !in v
  }

  predicate CleanOption(o: Option<Str>) {
    o.Some? ==> CleanVersion(o.value)
  }

  predicate CleanEvents(events: seq<Event>) {
    forall i :: 0 <= i < |events| ==>
      CleanOption(events[i].introduced) && CleanOption(events[i].fixed) && CleanOption(events[i].lastAffected)
  }

  predicate CleanAffected(a: Affected) {
    (forall i :: 0 <= i < |a.versions| ==> CleanVersion(a.versions[i]))
    && (forall i :: 0 <= i < |a.ranges| ==> CleanEvents(a.ranges[i]))
  }

  predicate CleanClauses(cs: seq<Str>) {
    cs != [] && forall i :: 0 <= i < |cs| ==> CleanVersion(cs[i])
  }

  /** A contribution whose record line parts where it should. */
  predicate CleanContribution(c: Contribution) {
    PlainWord(c.eco) && c.eco != [] && NameOk(c.name) && CleanClauses(c.clauses)
  }

  predicate AllCleanContributions(cs: seq<Contribution>) {
    forall i :: 0 <= i < |cs| ==> CleanContribution(cs[i])
  }

  lemma {:induction false} BoundsClean(events: seq<Event>)
    requires CleanEvents(events)
    ensures var b := BoundsOf(events); CleanOption(b.intro) && CleanOption(b.fixed) && CleanOption(b.last)
  {
    if events != [] {
      BoundsClean(events[..|events| - 1]);
    }
  }

  lemma RangeClauseClean(b: Bounds)
    requires CleanOption(b.intro) && CleanOption(b.fixed) && CleanOption(b.last)
    ensures CleanVersion(RangeClause(b))
  {
  }

  lemma {:induction false} VersionClausesClean(versions: seq<Str>)
    requires forall i :: 0 <= i < |versions| ==> CleanVersion(versions[i])
    ensures versions != [] ==> CleanClauses(VersionClauses(versions))
  {
    if versions != [] {
      VersionClausesClean(versions[..|versions| - 1]);
    }
  }

  lemma {:induction false} RangeClausesClean(start: seq<Str>, ranges: seq<seq<Event>>)
    requires start == [] || CleanClauses(start)
    requires forall i :: 0 <= i < |ranges| ==> CleanEvents(ranges[i])
    ensures ranges == [] || CleanClauses(RangeClauses(start, ranges))
  {
    if ranges != [] {
      RangeClausesClean(start, ranges[..|ranges| - 1]);
      BoundsClean(ranges[|ranges| - 1]);
      RangeClauseClean(BoundsOf(ranges[|ranges| - 1]));
    }
  }

  /** Clean versions give clean clauses. */
  lemma ClausesClean(a: Affected)
    requires CleanAffected(a)
    ensures CleanClauses(Clauses(a))
  {
    VersionClausesClean(a.versions);
    RangeClausesClean(VersionClauses(a.versions), a.ranges);
  }

  /** An advisory with separator-free versions contributes only lines that part correctly. */
  lemma {:induction false} AffectedClean(affected: seq<Affected>)
    requires forall i :: 0 <= i < |affected| ==> CleanAffected(affected[i])
    ensures AllCleanContributions(AffectedContributions(affected))
  {
    if affected != [] {
      AffectedClean(affected[..|affected| - 1]);
      ClausesClean(affected[|affected| - 1]);
    }
  }

  lemma {:induction false} ManifestClean(raw: Str, entries: seq<ManifestEntry>)
    requires forall i :: 0 <= i < |entries| ==>
               forall j :: 0 <= j < |entries[i].versions| ==> CleanVersion(entries[i].versions[j])
    ensures AllCleanContributions(ManifestContributions(raw, entries))
  {
    if entries != [] {
      ManifestClean(raw, entries[..|entries| - 1]);
      EntryClausesClean(entries[|entries| - 1]);
    }
  }

  lemma EntryClausesClean(e: ManifestEntry)
    requires forall j :: 0 <= j < |e.versions| ==> CleanVersion(e.versions[j])
    ensures CleanClauses(EntryClauses(e))
  {
  }
}
