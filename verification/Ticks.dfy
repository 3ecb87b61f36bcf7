/** Ticks against rebuilds: the compare list, sequences of ticks, and what a dead tick leaves
    behind. */
module Ticks {
  import opened Wrappers
  import opened Text
  import opened Sorting
  import opened Contributions
  import opened Records

  // ---------------------------------------------------------------------- the compare list

  /** One file of a GitHub compare response. */
  datatype ComparedFile = ComparedFile(path: Str, removed: bool, previous: Option<Str>)

  datatype Compared = NeedsRebuild | Listed(changed: seq<Str>, removed: set<Str>)

  const COMPARE_FILE_CAP := 300
  const COMPARE_COMMIT_CAP := 250

  predicate IsOsvPath(p: Str) {
    var ext := Ascii(".json");
    |p| >= |ext| && p[|p| - |ext|..] == ext && Includes([47] + p, Ascii("/osv/"))
  }

  function ChangedPaths(files: seq<ComparedFile>): seq<Str> {
    if files == [] then []
    else
      var f := files[|files| - 1];
      ChangedPaths(files[..|files| - 1]) + if IsOsvPath(f.path) && !f.removed then [f.path] else []
  }

  function RemovedPaths(files: seq<ComparedFile>): set<Str> {
    (set f | f in files && f.removed && IsOsvPath(f.path) :: f.path)
    + (set f | f in files && f.previous.Some? && IsOsvPath(f.previous.value) :: f.previous.value)
  }

  /** `compareSince`: a truncated response means a rebuild, never a partial update. */
  method CompareSince(files: seq<ComparedFile>, commits: nat) returns (r: Compared)
    ensures r == if commits > COMPARE_COMMIT_CAP || |files| >= COMPARE_FILE_CAP then NeedsRebuild
                 else Listed(ChangedPaths(files), RemovedPaths(files))
  {
    if commits > COMPARE_COMMIT_CAP || |files| >= COMPARE_FILE_CAP {
      return NeedsRebuild;
    }
    hide IsOsvPath;
    hide RemovedPaths;
    var changed, removed: set<Str> := [], {};
    if files != [] { MoreRemoved(files, 0); } else { NothingRemoved(); }
    for i := 0 to |files|
      invariant changed == ChangedPaths(files[..i])
      invariant removed == RemovedPaths(files[..i])
    {
      var f := files[i];
      MoreRemoved(files, i);
      assert files[..i + 1][..i] == files[..i];
      if f.previous.Some? && IsOsvPath(f.previous.value) {
        removed := removed + {f.previous.value};
      }
      if IsOsvPath(f.path) {
        if f.removed {
          removed := removed + {f.path};
        } else {
          changed := changed + [f.path];
        }
      }
    }
    assert files[..|files|] == files;
    r := Listed(changed, removed);
  }

  lemma NothingRemoved()
    ensures RemovedPaths([]) == {}
  {
  }

  lemma MoreRemoved(files: seq<ComparedFile>, i: nat)
    requires i < |files|
    ensures (var f := files[i];
             RemovedPaths(files[..i + 1])
             == RemovedPaths(files[..i])
                + (if f.previous.Some? && IsOsvPath(f.previous.value) then {f.previous.value} else {})
                + (if f.removed && IsOsvPath(f.path) then {f.path} else {}))
    ensures RemovedPaths(files[..0]) == {}
  {
    hide IsOsvPath;
    assert files[..i + 1] == files[..i] + [files[i]];
  }

  /** The response tells the whole way from one snapshot to another. */
  ghost predicate Complete(files: seq<ComparedFile>, old_: Upstream, new_: Upstream) {
    && (forall i, j :: 0 <= i < j < |files| ==> files[i].path != files[j].path)
    && (forall f :: f in files && IsOsvPath(f.path) ==> (f.removed <==> f.path !in new_.docs))
    && (forall f :: f in files && f.previous.Some? && f.previous.value in new_.docs ==>
          exists g :: g in files && g.path == f.previous.value)
    && (forall p :: p in old_.docs || p in new_.docs ==>
          IsOsvPath(p) && ((p in old_.docs && p in new_.docs && old_.docs[p] == new_.docs[p])
                           || exists f :: f in files && (f.path == p || f.previous == Some(p))))
  }

  /** The manifests fetched again are those that may differ. */
  ghost predicate ManifestsComplete(manifests: seq<Str>, old_: Upstream, new_: Upstream) {
    && (forall i, j :: 0 <= i < j < |manifests| ==> manifests[i] != manifests[j])
    && (forall e :: (e in old_.manifests || e in new_.manifests) && e !in manifests ==>
          e in old_.manifests && e in new_.manifests && old_.manifests[e] == new_.manifests[e])
  }

  function ChangeFrom(files: seq<ComparedFile>, manifests: seq<Str>): Change {
    Change(ChangedPaths(files), RemovedPaths(files), manifests)
  }

  lemma {:induction false} ChangedPathsAre(files: seq<ComparedFile>)
    ensures forall p :: p in ChangedPaths(files) <==> IsOsvPath(p) && exists f :: f in files && f.path == p && !f.removed
    ensures (forall i, j :: 0 <= i < j < |files| ==> files[i].path != files[j].path) ==>
              forall i, j :: 0 <= i < j < |ChangedPaths(files)| ==> ChangedPaths(files)[i] != ChangedPaths(files)[j]
  {
    hide IsOsvPath;
    if files != [] {
      var init, f := files[..|files| - 1], files[|files| - 1];
      assert files == init + [f];
      ChangedPathsAre(init);
      if forall i, j :: 0 <= i < j < |files| ==> files[i].path != files[j].path {
        forall g | g in init ensures g.path != f.path {
          var i :| 0 <= i < |init| && init[i] == g;
          assert files[i] == g;
        }
        assert f.path !in ChangedPaths(init);
        assert forall i, j :: 0 <= i < j < |init| ==> init[i] == files[i] && init[j] == files[j];
      }
    }
  }

  lemma FetchedMembers(c: Change)
    ensures forall p :: Osv(p) in Fetched(c) <==> p in c.changed
    ensures forall e :: Manifest(e) in Fetched(c) <==> e in c.manifests
    ensures forall s :: s in Touched(c) <==> s in Fetched(c) || (s.Osv? && s.path in c.removed)
  {
    var n := |c.changed|;
    forall p | p in c.changed ensures Osv(p) in Fetched(c) {
      var i :| 0 <= i < n && c.changed[i] == p;
      assert Fetched(c)[i] == Osv(p);
    }
    forall e | e in c.manifests ensures Manifest(e) in Fetched(c) {
      var i :| 0 <= i < |c.manifests| && c.manifests[i] == e;
      assert Fetched(c)[n + i] == Manifest(e);
    }
    forall s ensures s in Touched(c) <==> s in Fetched(c) || (s.Osv? && s.path in c.removed) {
      assert s in Elements(Fetched(c)) <==> s in Fetched(c);
    }
  }

  lemma FetchedDistinct(c: Change)
    requires forall i, j :: 0 <= i < j < |c.changed| ==> c.changed[i] != c.changed[j]
    requires forall i, j :: 0 <= i < j < |c.manifests| ==> c.manifests[i] != c.manifests[j]
    ensures Distinct(Fetched(c))
  {
  }

  lemma SameDocSameLines(old_: Upstream, new_: Upstream, p: Str)
    requires if p in old_.docs then p in new_.docs && old_.docs[p] == new_.docs[p] else p !in new_.docs
    ensures SourceLines(old_, Osv(p)) == SourceLines(new_, Osv(p))
  {
    assert ContributionsOf(old_, Osv(p)) == ContributionsOf(new_, Osv(p));
  }

  lemma SameManifestSameLines(old_: Upstream, new_: Upstream, e: Str)
    requires if e in old_.manifests then e in new_.manifests && old_.manifests[e] == new_.manifests[e]
             else e !in new_.manifests
    ensures SourceLines(old_, Manifest(e)) == SourceLines(new_, Manifest(e))
  {
    assert ContributionsOf(old_, Manifest(e)) == ContributionsOf(new_, Manifest(e));
  }

  /** A complete compare response accounts for every source. */
  lemma CompleteAccounts(files: seq<ComparedFile>, manifests: seq<Str>, old_: Upstream, new_: Upstream, s: Source)
    requires Complete(files, old_, new_) && ManifestsComplete(manifests, old_, new_)
    ensures Accounted(old_, new_, ChangeFrom(files, manifests), s)
  {
    hide SourceLines;
    hide IsOsvPath;
    hide Fetched;
    hide Touched;
    var c := ChangeFrom(files, manifests);
    ChangedPathsAre(files);
    FetchedMembers(c);
    match s
    case Manifest(e) =>
      if e !in manifests { SameManifestSameLines(old_, new_, e); }
    case Osv(p) =>
      if p !in c.changed {
        if p in c.removed {
          RemovedIsGone(files, old_, new_, p);
          NoDocNoLines(new_, p);
        } else {
          Untouched(files, old_, new_, p);
          SameDocSameLines(old_, new_, p);
        }
      }
  }

  lemma NoDocNoLines(up: Upstream, p: Str)
    requires p !in up.docs
    ensures SourceLines(up, Osv(p)) == []
  {
    assert ContributionsOf(up, Osv(p)) == [];
  }

  lemma RemovedIsGone(files: seq<ComparedFile>, old_: Upstream, new_: Upstream, p: Str)
    requires Complete(files, old_, new_) && p in RemovedPaths(files) && p !in ChangedPaths(files)
    ensures p !in new_.docs
  {
    hide IsOsvPath;
    ChangedPathsAre(files);
  }

  lemma Untouched(files: seq<ComparedFile>, old_: Upstream, new_: Upstream, p: Str)
    requires Complete(files, old_, new_) && p !in RemovedPaths(files) && p !in ChangedPaths(files)
    ensures if p in old_.docs then p in new_.docs && old_.docs[p] == new_.docs[p] else p !in new_.docs
  {
    hide IsOsvPath;
    ChangedPathsAre(files);
    if p in old_.docs || p in new_.docs {
      assert IsOsvPath(p);
      assert !(exists f :: f in files && (f.path == p || f.previous == Some(p)));
    }
  }

  // ------------------------------------------------------------------------- many ticks

  /** One tick: the snapshot it read, and what it was told about the way there. */
  datatype Tick = Tick(up: Upstream, files: seq<ComparedFile>, manifests: seq<Str>)

  /** Every tick was told the whole way from the snapshot before it. */
  ghost predicate GoodTicks(start: Upstream, ticks: seq<Tick>) {
    forall i :: 0 <= i < |ticks| ==> GoodStep(SnapshotAt(start, ticks, i), ticks[i])
  }

  function SnapshotAt(start: Upstream, ticks: seq<Tick>, i: nat): Upstream
    requires i <= |ticks|
  {
    if i == 0 then start else ticks[i - 1].up
  }

  ghost predicate GoodStep(before: Upstream, t: Tick) {
    var c := ChangeFrom(t.files, t.manifests);
    && Complete(t.files, before, t.up) && ManifestsComplete(t.manifests, before, t.up)
    && Apart(Scope(before, t.up, c)) && PlainSources(Scope(before, t.up, c))
  }

  ghost function AfterTicks(lines: seq<Str>, ticks: seq<Tick>): seq<Str> {
    if ticks == [] then lines
    else
      var t := ticks[|ticks| - 1];
      Ticked(AfterTicks(lines, ticks[..|ticks| - 1]), t.up, ChangeFrom(t.files, t.manifests))
  }

  lemma OneTick(lines: seq<Str>, before: Upstream, t: Tick)
    requires Represents(lines, before) && GoodStep(before, t)
    ensures Represents(Ticked(lines, t.up, ChangeFrom(t.files, t.manifests)), t.up)
  {
    hide Represents;
    hide Ticked;
    hide Accounted;
    hide Complete;
    hide Apart;
    hide Fetched;
    hide ChangedPaths;
    hide RemovedPaths;
    var c := ChangeFrom(t.files, t.manifests);
    CompleteDistinct(t.files, before, t.up);
    FetchedDistinct(c);
    forall s ensures Accounted(before, t.up, c, s) {
      CompleteAccounts(t.files, t.manifests, before, t.up, s);
    }
    TickIff(lines, before, t.up, c);
  }

  lemma CompleteDistinct(files: seq<ComparedFile>, old_: Upstream, new_: Upstream)
    requires Complete(files, old_, new_)
    ensures forall i, j :: 0 <= i < j < |ChangedPaths(files)| ==> ChangedPaths(files)[i] != ChangedPaths(files)[j]
  {
    hide ChangedPaths;
    ChangedPathsAre(files);
  }

  /** After any number of ticks the records file is that of a rebuild of the last snapshot. */
  lemma {:induction false} TicksRepresent(lines: seq<Str>, start: Upstream, ticks: seq<Tick>)
    requires Represents(lines, start) && GoodTicks(start, ticks)
    ensures Represents(AfterTicks(lines, ticks), SnapshotAt(start, ticks, |ticks|))
  {
    hide Represents;
    hide GoodStep;
    hide Ticked;
    if ticks != [] {
      var init := ticks[..|ticks| - 1];
      forall i | 0 <= i < |init| ensures GoodStep(SnapshotAt(start, init, i), init[i]) {
        assert GoodStep(SnapshotAt(start, ticks, i), ticks[i]);
      }
      TicksRepresent(lines, start, init);
      assert GoodStep(SnapshotAt(start, ticks, |init|), ticks[|init|]);
      OneTick(AfterTicks(lines, init), SnapshotAt(start, init, |init|), ticks[|ticks| - 1]);
    }
  }

  /** A tick wrote the records file and died before its bookmark: the file stands for `mid`, the
      next tick is told the way from `base`. It comes out right exactly when every source the new
      list leaves alone is also as `base` had it in `mid`. */
  lemma TickAfterDeadTickIff(lines: seq<Str>, base: Upstream, mid: Upstream, t: Tick)
    requires Represents(lines, mid) && Complete(t.files, base, t.up) && ManifestsComplete(t.manifests, base, t.up)
    requires var c := ChangeFrom(t.files, t.manifests);
             Apart(Scope(mid, t.up, c)) && PlainSources(Scope(mid, t.up, c))
    ensures (var c := ChangeFrom(t.files, t.manifests);
             Represents(Ticked(lines, t.up, c), t.up)
             <==> forall s :: s in Scope(mid, t.up, c) && s !in Touched(c) ==>
                    multiset(SourceLines(mid, s)) == multiset(SourceLines(base, s)))
  {
    hide Represents;
    hide Ticked;
    hide Complete;
    hide Apart;
    hide Fetched;
    hide SourceLines;
    hide ChangedPaths;
    hide RemovedPaths;
    var c := ChangeFrom(t.files, t.manifests);
    CompleteDistinct(t.files, base, t.up);
    FetchedDistinct(c);
    FetchedMembers(c);
    TickIff(lines, mid, t.up, c);
    forall s ensures Accounted(base, t.up, c, s)
             ensures Accounted(mid, t.up, c, s) <==>
                       (s !in Touched(c) ==> multiset(SourceLines(mid, s)) == multiset(SourceLines(base, s)))
    {
      CompleteAccounts(t.files, t.manifests, base, t.up, s);
    }
  }

  const ADVISORY: Str := Ascii("osv/a.json")
  const HIT := Affected(Ascii("npm"), Ascii("a"), [], [])

  /** A snapshot of one advisory, withdrawn or not. */
  function OneAdvisory(withdrawn: bool): Upstream {
    Upstream(map[ADVISORY := Some(Doc(withdrawn, [HIT]))], map[])
  }

  /** An advisory was withdrawn, came back in the dead tick, and is withdrawn again: the next
      compare says nothing of it, and its line stays in the file. */
  lemma RevertedChangeStays() returns (lines: seq<Str>)
    ensures Represents(lines, OneAdvisory(false)) && Complete([], OneAdvisory(true), OneAdvisory(true))
    ensures !Represents(Ticked(lines, OneAdvisory(true), ChangeFrom([], [])), OneAdvisory(true))
  {
    hide Represents;
    hide Ticked;
    hide Rid;
    hide SourceLines;
    hide OsvContributions;
    hide IsOsvPath;
    var base, mid := OneAdvisory(true), OneAdvisory(false);
    var s := Osv(ADVISORY);
    var t := Tick(base, [], []);
    assert Sources(mid) == {s} && Sources(base) == {s};
    lines := Rebuilt(mid, [s]);
    RebuildRepresents(mid, [s]);
    AdvisoryIsOsv();
    NothingTouched();
    assert Scope(mid, base, ChangeFrom([], [])) == {s};
    TickAfterDeadTickIff(lines, base, mid, t);
    AdvisoryLines();
    assert |multiset(SourceLines(mid, s))| == 1 && |multiset(SourceLines(base, s))| == 0;
  }

  lemma AdvisoryIsOsv()
    ensures IsOsvPath(ADVISORY)
  {
    var p, q := [47] + ADVISORY, Ascii("/osv/");
    assert forall i :: 0 <= i < 5 ==> p[i] == q[i];
    assert ADVISORY[5..] == Ascii(".json");
  }

  lemma NothingTouched()
    ensures Touched(ChangeFrom([], [])) == {}
  {
    NothingRemoved();
    FetchedMembers(ChangeFrom([], []));
  }

  lemma {:induction false} LongerIsNotIn(s: Str, part: Str)
    requires |s| < |part|
    ensures !Includes(s, part)
  {
    if s != [] {
      LongerIsNotIn(s[1..], part);
    }
  }

  lemma AdvisoryLines()
    ensures |SourceLines(OneAdvisory(false), Osv(ADVISORY))| == 1
    ensures SourceLines(OneAdvisory(true), Osv(ADVISORY)) == []
  {
    hide Rid;
    hide Clauses.Spec;
    hide Includes;
    LongerIsNotIn([47] + ADVISORY, Ascii("/osv/withdrawn/"));
    assert [HIT][..0] == [];
    assert AffectedContributions([]) == [];
  }
}
