/** The publishing half of the aggregator as it runs: methods that write to the store object
    by object, each proved to make exactly the writes its specification lists. */
module Aggregator {
  import opened Wrappers
  import opened Text
  import opened Sorting
  import opened LineOrder
  import opened Delta
  import opened MergeJoin
  import opened Wire
  import opened DeltaText
  import opened Bucket
  import opened Publisher
  import opened Runs
  import opened DeltaWindow

  /** The package wing's state while a run holds it in memory. */
  class PackageState {
    var seqNo: nat
    var artifact: Option<Name>
    var steps: seq<Step>
    var needsRebuild: bool
    var commit: Str

    function Value(): State
      reads this
    {
      State(seqNo, artifact, steps, needsRebuild, commit)
    }

    constructor (s: State)
      ensures Value() == s
    {
      seqNo, artifact, steps, needsRebuild, commit := s.seqNo, s.artifact, s.steps, s.needsRebuild, s.commit;
    }
  }

  /** `artifactLines`, joined. */
  method WriteArtifact(index: Index, generated: Str, keys: seq<Str>, seqNo: nat) returns (text: Str)
    requires keys == SortedKeys(index.Keys)
    ensures text == ArtifactText(index, generated, [seqNo])
  {
    hide ArtifactHead;
    hide EntryLine;
    hide EntryLines;
    hide SortedKeys;
    ghost var es := SortedEntries(index);
    var lines := ArtifactHead(generated, |index|, [seqNo]);
    ghost var head := lines;
    for i := 0 to |keys|
      invariant lines == head + EntryLines(es[..i])
    {
      NextEntryLine(index, i);
      lines := lines + [keys[i] + [TAB] + index[keys[i]]];
    }
    assert es[..|keys|] == es;
    text := TextOf(lines);
  }

  lemma LinesSnoc(es: seq<Entry>, i: nat)
    requires i < |es|
    ensures EntryLines(es[..i + 1]) == EntryLines(es[..i]) + [EntryLine(es[i])]
  {
    hide EntryLine;
    var a, b := EntryLines(es[..i + 1]), EntryLines(es[..i]);
    assert forall j :: 0 <= j < i ==> es[..i + 1][j] == es[j] && es[..i][j] == es[j];
    assert a == b + [EntryLine(es[i])];
  }

  lemma NextEntryLine(index: Index, i: nat)
    requires i < |SortedEntries(index)| && i < |SortedKeys(index.Keys)|
    ensures var k := SortedKeys(index.Keys)[i];
            k in index
            && EntryLines(SortedEntries(index)[..i + 1])
               == EntryLines(SortedEntries(index)[..i]) + [k + [TAB] + index[k]]
  {
    hide EntryLines;
    hide SortedKeys;
    var es := SortedEntries(index);
    var e := es[i];
    assert EntryKeys(es)[i] == e.key;
    assert e in es;
    LinesSnoc(es, i);
  }

  /** The window loop of `publish`: compose from the newest step back, one delta per old sequence. */
  method PublishDeltas(env: Store, steps: seq<Step>, to: nat) returns (deltas: map<nat, Name>)
    modifies env
    ensures deltas == ByFrom(DeltaNames(steps, to))
    ensures env.log == old(env.log) + PutAll(DeltaNames(steps, to))
    ensures env.objects == Do(old(env.objects), PutAll(DeltaNames(steps, to)))
  {
    hide Compose;
    hide Serialize;
    hide Do;
    ghost var names := DeltaNames(steps, to);
    var acc: seq<Op> := [];
    deltas := map[];
    var i: nat := |steps|;
    NothingDone(env.objects);
    while i > 0
      invariant i <= |steps|
      invariant acc == Composite(steps, i)
      invariant deltas == ByFrom(names[i..])
      invariant env.log == old(env.log) + PutAll(names[i..])
      invariant env.objects == Do(old(env.objects), PutAll(names[i..]))
    {
      i := i - 1;
      acc := ComposeOps(steps[i].ops, acc);
      var name := DeltaFile(steps[i].from, to, Serialize(steps[i].from, to, acc));
      assert name == names[i] && names[i..][0] == names[i] && names[i..][1..] == names[i + 1..];
      DoConcat(old(env.objects), PutAll(names[i + 1..]), SignedPuts(name));
      env.PutSigned(name);
      deltas := deltas[steps[i].from := name];
    }
    assert names[0..] == names;
  }

  lemma NothingDone(objects: Objects)
    ensures Do(objects, []) == objects
  {
  }

  /** `prune`: list what is stored, then delete what is doomed. */
  method Prune(env: Store, n: nat, keep: nat) returns (ghost dels: seq<Write>)
    modifies env
    ensures IsPrune(n, keep, dels)
    ensures env.log == old(env.log) + dels && env.objects == Do(old(env.objects), dels)
    ensures forall k :: k in env.objects ==> !Doomed(k, n, keep)
  {
    hide Do;
    var doomed := set k | k in env.objects && Doomed(k, n, keep);
    dels := [];
    NothingDone(env.objects);
    while doomed != {}
      invariant forall k :: k in doomed ==> Doomed(k, n, keep)
      invariant forall k :: k in env.objects && Doomed(k, n, keep) ==> k in doomed
      invariant IsPrune(n, keep, dels)
      invariant env.log == old(env.log) + dels && env.objects == Do(old(env.objects), dels)
      decreases doomed
    {
      var k :| k in doomed;
      env.Delete(k);
      DoSnoc(old(env.objects), dels, Deleted(k));
      dels := dels + [Deleted(k)];
      doomed := doomed - {k};
    }
  }

  /** The previous artifact, when it can be read, holds its entries in order. */
  ghost predicate PreviousSorted(objects: Objects, s: State) {
    s.artifact.Some? && File(s.artifact.value) in objects && objects[File(s.artifact.value)].Bytes? ==>
      SortedBy(Before, EntryKeys(Entries(LinesOf(objects[File(s.artifact.value)].text))))
  }

  /** The merge join against the previous artifact, if there is one to read. */
  method StepAgainstPrevious(env: Store, s: State, keys: seq<Str>, index: Index) returns (ops: Option<seq<Op>>)
    requires keys == SortedKeys(index.Keys) && PreviousSorted(env.objects, s)
    ensures ops == StepOps(env.objects, s, index)
  {
    if s.artifact.Some? && File(s.artifact.value) in env.objects {
      var prev := env.objects[File(s.artifact.value)];
      if prev.Bytes? {
        var diff := DiffSorted(LinesOf(prev.text), keys, index);
        return Some(diff);
      }
    }
    return None;
  }

  /** The files of a release: the artifact, then each composed delta. */
  method ReleaseFiles(env: Store, r: Release, keys: seq<Str>, steps: seq<Step>, seqNo: nat) returns (artifact: Name, deltas: map<nat, Name>)
    requires keys == SortedKeys(r.index.Keys)
    modifies env
    ensures artifact == PackagesFile(seqNo, ArtifactText(r.index, r.generated, [seqNo]))
    ensures deltas == ByFrom(DeltaNames(steps, seqNo))
    ensures env.log == old(env.log) + SignedPuts(artifact) + PutAll(DeltaNames(steps, seqNo))
    ensures env.objects == Do(old(env.objects), Files(artifact, DeltaNames(steps, seqNo)))
    ensures LoadPointer(env.objects) == LoadPointer(old(env.objects))
  {
    hide Do;
    hide ArtifactText;
    hide PutAll;
    hide DeltaNames;
    hide ByFrom;
    hide LoadPointer;
    hide SignedPuts;
    var text := WriteArtifact(r.index, r.generated, keys, seqNo);
    artifact := PackagesFile(seqNo, text);
    env.PutSigned(artifact);
    deltas := PublishDeltas(env, steps, seqNo);
    FilesWritten(old(env.objects), artifact, DeltaNames(steps, seqNo));
  }

  /** The releasing half of `publish`: files, deltas, pointer, state, prune, in that order. */
  method ReleaseIndex(env: Store, state: PackageState, r: Release, keys: seq<Str>, stepOps: Option<seq<Op>>)
    returns (ghost dels: seq<Write>)
    requires r.window > 0 && r.keep > 0 && keys == SortedKeys(r.index.Keys)
    requires stepOps == StepOps(env.objects, state.Value(), r.index) && stepOps != Some([])
    modifies env, state
    ensures IsPrune(old(state.seqNo) + 1, r.keep, dels)
    ensures var ws := PublishWrites(old(env.objects), old(state.Value()), r, dels);
            env.log == old(env.log) + ws && env.objects == Do(old(env.objects), ws)
    ensures state.Value() == NextState(old(env.objects), old(state.Value()), r)
    ensures forall k :: k in env.objects ==> !Doomed(k, old(state.seqNo) + 1, r.keep)
  {
    hide Do;
    hide ArtifactText;
    hide PutAll;
    hide DeltaNames;
    hide ByFrom;
    hide Slide;
    hide StepOps;
    hide Doomed;
    hide LoadPointer;
    hide SignedPuts;
    hide PublishWrites;
    ghost var o, s := env.objects, state.Value();
    var seqNo := state.seqNo + 1;
    var steps := if stepOps.Some? then Slide(state.steps, Step(state.seqNo, seqNo, stepOps.value), r.window) else [];
    var artifact, deltas := ReleaseFiles(env, r, keys, steps, seqNo);
    ghost var files := Files(artifact, DeltaNames(steps, seqNo));
    var current := LoadPointer(env.objects);
    var pointer := WithPackages(current, Packages(seqNo, artifact, deltas));
    env.Put(PointerKey, PointerBlob(pointer));
    state.seqNo, state.artifact, state.steps, state.needsRebuild, state.commit :=
      seqNo, Some(artifact), steps, false, r.commit;
    env.Put(StateKey, StateBlob(state.Value()));
    ghost var docs := [Wrote(PointerKey, PointerBlob(pointer)), Wrote(StateKey, StateBlob(state.Value()))];
    DocumentsWritten(o, files, docs[0], docs[1]);
    dels := Prune(env, seqNo, r.keep);
    DoConcat(o, files + docs, dels);
    ReleaseTrace(o, s, r, dels);
    LogShape(old(env.log), SignedPuts(artifact), PutAll(DeltaNames(steps, seqNo)), docs[0], docs[1], dels);
  }

  lemma LogShape(l: seq<Write>, a: seq<Write>, b: seq<Write>, v: Write, w: Write, d: seq<Write>)
    ensures l + a + b + [v] + [w] + d == l + (a + b + [v, w] + d)
  {
  }

  lemma ReleaseTrace(o: Objects, s: State, r: Release, dels: seq<Write>)
    requires !NoOp(o, s, r.index)
    ensures PublishWrites(o, s, r, dels)
         == Files(Artifact(s, r), DeltaNames(NextSteps(o, s, r), s.seqNo + 1))
            + [Wrote(PointerKey, PointerBlob(WithPackages(LoadPointer(o), NextPackages(o, s, r)))),
               Wrote(StateKey, StateBlob(NextState(o, s, r)))]
            + dels
  {
    hide Artifact;
    hide NextSteps;
    hide NextPackages;
    hide NextState;
    hide DeltaNames;
    hide PutAll;
    hide NoOp;
  }

  lemma FilesWritten(o: Objects, artifact: Name, names: seq<Name>)
    ensures var mid := Do(Do(o, SignedPuts(artifact)), PutAll(names));
            mid == Do(o, Files(artifact, names)) && LoadPointer(mid) == LoadPointer(o)
  {
    hide Do;
    hide PutAll;
    DoConcat(o, SignedPuts(artifact), PutAll(names));
    PutAllAreFilePuts(names);
    FilePutsKeep(o, Files(artifact, names));
  }

  lemma DocumentsWritten(o: Objects, files: seq<Write>, v: Write, w: Write)
    ensures DoOne(DoOne(Do(o, files), v), w) == Do(o, files + [v, w])
  {
    hide Do;
    DoTwo(Do(o, files), v, w);
    DoConcat(o, files, [v, w]);
  }

  /** `publish`: nothing when the index is unchanged, else a release. */
  method Publish(env: Store, state: PackageState, r: Release) returns (released: bool, ghost dels: seq<Write>)
    requires r.window > 0 && r.keep > 0
    requires PreviousSorted(env.objects, state.Value())
    modifies env, state
    ensures released <==> !NoOp(old(env.objects), old(state.Value()), r.index)
    ensures var ws := PublishWrites(old(env.objects), old(state.Value()), r, dels);
            env.log == old(env.log) + ws && env.objects == Do(old(env.objects), ws)
    ensures IsPrune(old(state.seqNo) + 1, r.keep, dels)
    ensures state.Value() == if released then NextState(old(env.objects), old(state.Value()), r)
                             else Touched(old(state.Value()), r)
    ensures released ==> forall k :: k in env.objects ==> !Doomed(k, old(state.seqNo) + 1, r.keep)
  {
    hide Do;
    hide StepOps;
    hide NextState;
    hide NextSteps;
    hide NextPackages;
    hide Artifact;
    hide ReleaseWrites;
    hide Doomed;
    hide PreviousSorted;
    hide SortedKeys;
    SortedKeysInOrder(r.index.Keys);
    var keys := SortSet(Before, r.index.Keys);
    var stepOps := StepAgainstPrevious(env, state.Value(), keys, r.index);
    if stepOps == Some([]) {
      dels := [];
      state.commit := r.commit;
      state.needsRebuild := state.needsRebuild && !r.rebuilt;
      OnePut(env.objects, StateKey, StateBlob(state.Value()));
      env.Put(StateKey, StateBlob(state.Value()));
      return false, dels;
    }
    dels := ReleaseIndex(env, state, r, keys, stepOps);
    released := true;
  }

  lemma OnePut(o: Objects, k: Key, b: Blob)
    ensures Do(o, [Wrote(k, b)]) == o[k := b]
  {
    NothingDone(o);
    DoSnoc(o, [], Wrote(k, b));
    assert [] + [Wrote(k, b)] == [Wrote(k, b)];
  }

  /** The domain wing's state while a run holds it in memory. */
  class DomainWing {
    var seqNo: nat
    var entries: nat
    var artifact: Option<Name>
    var contentSha: Option<Str>

    function Value(): DomainsState
      reads this
    {
      DomainsState(seqNo, entries, artifact, contentSha)
    }

    constructor (d: DomainsState)
      ensures Value() == d
    {
      seqNo, entries, artifact, contentSha := d.seqNo, d.entries, d.artifact, d.contentSha;
    }
  }

  /** `pruneDomains`. */
  method PruneDomains(env: Store, n: nat, keep: nat) returns (ghost dels: seq<Write>)
    modifies env
    ensures IsDomainsPrune(n, keep, dels)
    ensures env.log == old(env.log) + dels && env.objects == Do(old(env.objects), dels)
    ensures forall k :: k in env.objects ==> !DoomedDomains(k, n, keep)
  {
    hide Do;
    var doomed := set k | k in env.objects && DoomedDomains(k, n, keep);
    dels := [];
    NothingDone(env.objects);
    while doomed != {}
      invariant forall k :: k in doomed ==> DoomedDomains(k, n, keep)
      invariant forall k :: k in env.objects && DoomedDomains(k, n, keep) ==> k in doomed
      invariant IsDomainsPrune(n, keep, dels)
      invariant env.log == old(env.log) + dels && env.objects == Do(old(env.objects), dels)
      decreases doomed
    {
      var k :| k in doomed;
      env.Delete(k);
      DoSnoc(old(env.objects), dels, Deleted(k));
      dels := dels + [Deleted(k)];
      doomed := doomed - {k};
    }
  }

  lemma SignedPutsKeep(o: Objects, name: Name, d: Blob)
    ensures LoadPointer(DoOne(Do(o, SignedPuts(name)), Wrote(DomainsStateKey, d))) == LoadPointer(o)
  {
    hide Do;
    FilePutsKeep(o, SignedPuts(name));
  }

  /** The release half of `runDomains`: the artifact, then the state, then the pointer. */
  method ReleaseDomains(env: Store, wing: DomainWing, list: DomainList) returns (ghost dels: seq<Write>)
    requires wing.Value() == LoadDomainsState(env.objects)
    requires !Refused(wing.Value(), list) && !Unchanged(wing.Value(), list)
    modifies env, wing
    ensures env.log == old(env.log) + DomainsWrites(old(env.objects), list, dels)
    ensures env.objects == Do(old(env.objects), DomainsWrites(old(env.objects), list, dels))
    ensures IsDomainsPrune(old(wing.seqNo) + 1, list.keep, dels)
    ensures wing.Value() == DomainsState(old(wing.seqNo) + 1, list.entries, Some(DomainsName(old(wing.Value()), list)), Some(list.content))
  {
    hide Do;
    hide SignedPuts;
    hide LoadPointer;
    hide WithDomains;
    hide LoadDomainsState;
    ghost var o := env.objects;
    var seqNo := wing.seqNo + 1;
    var name := DomainsFile(seqNo, list.artifact);
    env.PutSigned(name);
    ghost var files := SignedPuts(name);
    wing.seqNo, wing.entries, wing.artifact, wing.contentSha := seqNo, list.entries, Some(name), Some(list.content);
    env.Put(DomainsStateKey, DomainsStateBlob(wing.Value()));
    SignedPutsKeep(o, name, DomainsStateBlob(wing.Value()));
    var pointer := WithDomains(LoadPointer(env.objects), Domains(seqNo, name));
    env.Put(PointerKey, PointerBlob(pointer));
    ghost var docs := [Wrote(DomainsStateKey, DomainsStateBlob(wing.Value())), Wrote(PointerKey, PointerBlob(pointer))];
    DocumentsWritten(o, files, docs[0], docs[1]);
    dels := PruneDomains(env, seqNo, list.keep);
    DoConcat(o, files + docs, dels);
    DomainsLog(old(env.log), files, docs[0], docs[1], dels);
  }

  lemma DomainsLog(l: seq<Write>, a: seq<Write>, v: Write, w: Write, d: seq<Write>)
    ensures l + a + [v] + [w] + d == l + (a + [v, w] + d)
  {
  }

  /** `runDomains`, from the gated list on. */
  method RunDomains(env: Store, wing: DomainWing, list: DomainList) returns (released: bool, ghost dels: seq<Write>)
    requires wing.Value() == LoadDomainsState(env.objects)
    modifies env, wing
    ensures released <==> !Refused(old(wing.Value()), list) && !Unchanged(old(wing.Value()), list)
    ensures env.log == old(env.log) + DomainsWrites(old(env.objects), list, dels)
    ensures env.objects == Do(old(env.objects), DomainsWrites(old(env.objects), list, dels))
    ensures IsDomainsPrune(old(wing.seqNo) + 1, list.keep, dels)
    ensures wing.Value() ==
            if released then
              DomainsState(old(wing.seqNo) + 1, list.entries, Some(DomainsName(old(wing.Value()), list)), Some(list.content))
            else old(wing.Value())
  {
    hide Do;
    hide SignedPuts;
    hide LoadPointer;
    var floor := wing.entries / 2;
    if (wing.entries > 0 && list.entries < floor) || (wing.contentSha == Some(list.content) && wing.artifact.Some?) {
      dels := [];
      NothingDone(env.objects);
      OnePut(env.objects, DomainsStateKey, DomainsStateBlob(wing.Value()));
      env.Put(DomainsStateKey, DomainsStateBlob(wing.Value()));
      return false, dels;
    }
    dels := ReleaseDomains(env, wing, list);
    released := true;
  }

  /** The store a history leaves is one `publish` may run on. */
  lemma PreviousIsSorted(events: seq<Event>)
    requires GoodHistory(events) && CleanHistory(events)
    ensures PreviousSorted(After(events), LoadState(After(events)))
  {
    hide After;
    hide RecordOf;
    hide Entries;
    hide LinesOf;
    AlwaysConsistent(events);
    var o := After(events);
    var s := LoadState(o);
    if s.artifact.Some? {
      var ix := RecordOf(events)[s.seqNo];
      ArtifactReads(s.artifact.value, s.seqNo, ix);
      SortedKeysInOrder(ix.Keys);
    }
  }
}
