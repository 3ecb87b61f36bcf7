/** The rolling delta window over whole histories of the aggregator: each delta the pointer
    offers brings a client from the index recorded for its sequence to the current index. */
module DeltaWindow {
  import opened Wrappers
  import opened Text
  import opened Delta
  import opened MergeJoin
  import opened Wire
  import opened DeltaText
  import opened Bucket
  import opened Publisher
  import opened Runs

  // ------------------------------------------------------------------- stages of a publish

  predicate FilePut(w: Write) {
    w.Wrote? && ((w.key.File? && w.blob == Bytes(w.key.name.content))
                 || (w.key.Signature? && w.blob == SignatureOf(w.key.name.content)))
  }

  predicate AllFilePuts(ws: seq<Write>) {
    forall i :: 0 <= i < |ws| ==> FilePut(ws[i])
  }

  /** What a client or a run can load is the same in both stores. */
  ghost predicate SameDocuments(a: Objects, b: Objects) {
    && LoadPointer(a) == LoadPointer(b) && LoadState(a) == LoadState(b)
    && LoadDomainsState(a) == LoadDomainsState(b)
  }

  lemma {:induction false} FilePutsKeep(objects: Objects, ws: seq<Write>)
    requires AllFilePuts(ws)
    ensures SameDocuments(objects, Do(objects, ws))
    ensures forall n :: HasFile(objects, n) ==> HasFile(Do(objects, ws), n)
  {
    if ws != [] {
      FilePutsKeep(objects, ws[..|ws| - 1]);
    }
  }

  lemma {:induction false} DeletesKeep(objects: Objects, dels: seq<Write>, n: Name)
    requires forall i :: 0 <= i < |dels| ==> dels[i].Deleted? && (dels[i].key.File? || dels[i].key.Signature?)
    requires HasFile(objects, n)
    requires forall i :: 0 <= i < |dels| ==> dels[i].key.name != n
    ensures SameDocuments(objects, Do(objects, dels))
    ensures HasFile(Do(objects, dels), n)
  {
    if dels != [] {
      DeletesKeep(objects, dels[..|dels| - 1], n);
    }
  }

  lemma {:induction false} PutAllAreFilePuts(names: seq<Name>)
    ensures AllFilePuts(PutAll(names))
  {
    if names != [] {
      PutAllAreFilePuts(names[1..]);
    }
  }

  function Files(artifact: Name, deltas: seq<Name>): seq<Write> {
    SignedPuts(artifact) + PutAll(deltas)
  }

  /** A store somewhere inside a releasing run: the pointer and the state move in that order,
      and files neither doomed nor new stay. */
  lemma ReleaseStages(objects: Objects, artifact: Name, deltas: seq<Name>, p: Pointer, s: State,
                      dels: seq<Write>, n: nat, keep: nat, cut: nat, kept: Name)
    requires IsPrune(n, keep, dels)
    requires cut <= |ReleaseWrites(artifact, deltas, p, s, dels)|
    requires HasFile(objects, kept) || kept == artifact || kept in deltas
    requires !Doomed(File(kept), n, keep)
    ensures var now := Do(objects, ReleaseWrites(artifact, deltas, p, s, dels)[..cut]);
            var f := |Files(artifact, deltas)|;
            LoadPointer(now) == (if cut <= f then LoadPointer(objects) else p)
            && LoadState(now) == (if cut <= f + 1 then LoadState(objects) else s)
            && (HasFile(objects, kept) || cut >= f ==> HasFile(now, kept))
  {
    hide Do;
    hide PutAll;
    var files := Files(artifact, deltas);
    var ws := ReleaseWrites(artifact, deltas, p, s, dels);
    var f := |files|;
    var v, w := Wrote(PointerKey, PointerBlob(p)), Wrote(StateKey, StateBlob(s));
    PutAllAreFilePuts(deltas);
    assert ws == files + [v, w] + dels;
    if cut <= f {
      assert ws[..cut] == files[..cut];
      FilePutsKeep(objects, files[..cut]);
      if cut == f {
        assert files[..cut] == files;
        FilesThere(objects, artifact, deltas, kept);
      }
    } else {
      FilePutsKeep(objects, files);
      FilesThere(objects, artifact, deltas, kept);
      var mid := Do(objects, files);
      if cut == f + 1 {
        assert ws[..cut] == files + [v];
        DoSnoc(objects, files, v);
      } else {
        assert ws[..cut] == files + [v, w] + dels[..cut - f - 2];
        DoConcat(objects, files, [v, w]);
        DoTwo(mid, v, w);
        var late := Do(objects, files + [v, w]);
        DoConcat(objects, files + [v, w], dels[..cut - f - 2]);
        DeletesKeep(late, dels[..cut - f - 2], kept);
      }
    }
  }

  lemma FilesThere(objects: Objects, artifact: Name, deltas: seq<Name>, kept: Name)
    requires HasFile(objects, kept) || kept == artifact || kept in deltas
    ensures HasFile(Do(objects, Files(artifact, deltas)), kept)
  {
    PutAllAreFilePuts(deltas);
    FilePutsKeep(objects, Files(artifact, deltas));
    if kept == artifact || kept in deltas {
      FilesCovered(artifact, deltas, kept);
      PutsGiveFile(objects, Files(artifact, deltas), kept);
    }
  }

  // ------------------------------------------------------------------------ what is recorded

  /** `name` is the artifact of index `ix` at sequence `n`. */
  ghost predicate ArtifactOf(name: Name, n: nat, ix: Index) {
    exists g :: OneLine(g) && name == PackagesFile(n, ArtifactText(ix, g, [n]))
  }

  /** The index a client reads from an artifact. */
  function IndexIn(name: Name): Index {
    ParseIndex(LinesOf(name.content))
  }

  lemma ArtifactReads(name: Name, n: nat, ix: Index)
    requires ArtifactOf(name, n, ix) && CleanIndex(ix)
    ensures name.PackagesFile? && name.seqNo == n && IndexIn(name) == ix
    ensures Entries(LinesOf(name.content)) == SortedEntries(ix)
  {
    var g :| OneLine(g) && name == PackagesFile(n, ArtifactText(ix, g, [n]));
    ArtifactLinesRead(ix, g, [n]);
  }

  type Record = map<nat, Index>

  /** The steps lead, one sequence at a time, from recorded index to recorded index. */
  ghost predicate StepsOk(steps: seq<Step>, last: nat, recorded: Record) {
    && (forall i :: 0 <= i < |steps| ==> StepOk(steps[i], recorded))
    && (forall i :: 0 <= i < |steps| - 1 ==> steps[i].to == steps[i + 1].from)
    && (steps != [] ==> steps[|steps| - 1].to == last)
  }

  ghost predicate StepOk(step: Step, recorded: Record) {
    && step.to == step.from + 1 && step.from in recorded && step.to in recorded
    && Apply(recorded[step.from], step.ops) == recorded[step.to]
    && CleanOps(step.ops)
  }

  ghost predicate StateOk(s: State, recorded: Record) {
    && (forall n :: n in recorded ==> n <= s.seqNo && CleanIndex(recorded[n]))
    && (s.artifact.None? ==> s.seqNo == 0 && s.steps == [] && recorded == map[])
    && (s.artifact.Some? ==> s.seqNo in recorded && ArtifactOf(s.artifact.value, s.seqNo, recorded[s.seqNo]))
    && StepsOk(s.steps, s.seqNo, recorded)
  }

  /** Each delta leads from its recorded index to `ix`. */
  ghost predicate DeltasReach(m: map<nat, Name>, to: nat, ix: Index, recorded: Record) {
    forall from :: from in m ==>
      && from in recorded && from < to
      && m[from].DeltaFile? && m[from].from == from && m[from].to == to
      && Parse(m[from].content).from == Given(from) && Parse(m[from].content).to == Given(to)
      && Apply(recorded[from], Parse(m[from].content).ops) == ix
  }

  /** The pointer is level with the state, or one ahead after a run that died between the two. */
  ghost predicate PointerOk(pk: Packages, seqNo: nat, recorded: Record) {
    && seqNo <= pk.seqNo <= seqNo + 1
    && pk.artifact.PackagesFile? && pk.artifact.seqNo == pk.seqNo
    && DeltasReach(pk.deltas, pk.seqNo, IndexIn(pk.artifact), recorded)
    && (pk.seqNo == seqNo ==> seqNo in recorded && IndexIn(pk.artifact) == recorded[seqNo])
  }

  ghost predicate ConsistentCore(s: State, packages: Option<Packages>, recorded: Record) {
    StateOk(s, recorded) && (packages.Some? ==> PointerOk(packages.value, s.seqNo, recorded))
  }

  ghost predicate StateBacked(objects: Objects) {
    var a := LoadState(objects).artifact;
    a.Some? ==> HasFile(objects, a.value) && a.value.PackagesFile? && a.value.seqNo == LoadState(objects).seqNo
  }

  /** State and pointer agree with the record, and the state's artifact can be read. */
  ghost predicate Consistent(objects: Objects, recorded: Record) {
    ConsistentCore(LoadState(objects), LoadPointer(objects).packages, recorded) && StateBacked(objects)
  }

  // ----------------------------------------------------------------------------- the window

  lemma {:induction false} CompositeClean(steps: seq<Step>, i: nat)
    requires i <= |steps| && forall j :: 0 <= j < |steps| ==> CleanOps(steps[j].ops)
    ensures CleanOps(Composite(steps, i))
    decreases |steps| - i
  {
    hide Compose;
    if i < |steps| {
      CompositeClean(steps, i + 1);
      ComposeClean(steps[i].ops, Composite(steps, i + 1));
    }
  }

  lemma {:induction false} EffectMembers(ops: seq<Op>)
    ensures forall k :: k in Effect(ops) ==> Effect(ops)[k] in ops
  {
    if ops != [] {
      EffectMembers(ops[..|ops| - 1]);
      assert ops == ops[..|ops| - 1] + [ops[|ops| - 1]];
    }
  }

  lemma ComposeClean(a: seq<Op>, b: seq<Op>)
    requires CleanOps(a) && CleanOps(b)
    ensures CleanOps(Compose(a, b))
  {
    var ops := Compose(a, b);
    EffectMembers(a);
    EffectMembers(b);
    OpsOfSorted(Effect(a) + Effect(b));
    DistinctEffect(ops);
    forall i | 0 <= i < |ops| ensures CleanOp(ops[i]) {
      assert ops[i] in ops;
      var e := (Effect(a) + Effect(b))[ops[i].key];
      assert e == ops[i];
      assert e in a || e in b;
    }
  }

  lemma DiffClean(old_: Index, new_: Index)
    requires CleanIndex(old_) && CleanIndex(new_)
    ensures CleanOps(Diff(old_, new_))
  {
    hide OpsOf;
    hide SortedOps;
    hide DistinctKeys;
    hide Effect;
    var ops := Diff(old_, new_);
    OpsOfSorted(Changes(old_, new_));
    DistinctEffect(ops);
    forall i | 0 <= i < |ops| ensures CleanOp(ops[i]) {
      assert ops[i] in ops;
      assert Changes(old_, new_)[ops[i].key] == ops[i];
    }
  }

  /** Applying the composed ops of the window from step `i` on reaches the last recorded index. */
  lemma {:induction false} CompositeReaches(steps: seq<Step>, i: nat, last: nat, recorded: Record)
    requires i < |steps| && StepsOk(steps, last, recorded)
    ensures Apply(recorded[steps[i].from], Composite(steps, i)) == recorded[last]
    ensures steps[i].from < last
    decreases |steps| - i
  {
    assert StepOk(steps[i], recorded);
    ComposeHomomorphism(recorded[steps[i].from], steps[i].ops, Composite(steps, i + 1));
    if i + 1 < |steps| {
      CompositeReaches(steps, i + 1, last, recorded);
    }
  }

  /** Sliding the window keeps it contiguous and no longer than its size. */
  lemma SlideOk(steps: seq<Step>, step: Step, window: nat, recorded: Record)
    requires StepsOk(steps, step.from, recorded) && StepOk(step, recorded) && window > 0
    ensures StepsOk(Slide(steps, step, window), step.to, recorded)
    ensures 0 < |Slide(steps, step, window)| <= window
  {
    var all := steps + [step];
    forall i | 0 <= i < |all| - 1 ensures all[i].to == all[i + 1].from {
      if i < |steps| - 1 {
        assert steps[i].to == steps[i + 1].from;
      }
    }
  }

  lemma StepsOkExtend(steps: seq<Step>, last: nat, recorded: Record, n: nat, ix: Index)
    requires StepsOk(steps, last, recorded) && n !in recorded
    ensures StepsOk(steps, last, recorded[n := ix])
  {
    forall i | 0 <= i < |steps| ensures StepOk(steps[i], recorded[n := ix]) {
      assert StepOk(steps[i], recorded);
    }
  }

  lemma DeltaReads(steps: seq<Step>, i: nat, last: nat, recorded: Record)
    requires i < |steps| && StepsOk(steps, last, recorded)
    ensures var c := DeltaName(steps, i, last).content;
            Parse(c) == Parsed(Given(steps[i].from), Given(last), Composite(steps, i))
  {
    forall j | 0 <= j < |steps| ensures CleanOps(steps[j].ops) {
      assert StepOk(steps[j], recorded);
    }
    CompositeClean(steps, i);
    CleanDeltaReadsBack(steps[i].from, last, Composite(steps, i));
  }

  /** Every delta a publish writes leads from its recorded index to the new one. */
  lemma NewDeltasReach(steps: seq<Step>, last: nat, recorded: Record)
    requires StepsOk(steps, last, recorded)
    requires steps != [] ==> last in recorded
    ensures var m := ByFrom(DeltaNames(steps, last));
            steps != [] ==> DeltasReach(m, last, recorded[last], recorded)
    ensures steps == [] ==> ByFrom(DeltaNames(steps, last)) == map[]
  {
    hide ByFrom;
    hide Serialize;
    hide Composite;
    hide Parse;
    hide Apply;
    var names := DeltaNames(steps, last);
    var m := ByFrom(names);
    ByFromValues(names, last);
    forall from | from in m
      ensures from in recorded && from < last && m[from].DeltaFile? && m[from].from == from && m[from].to == last
              && Parse(m[from].content).from == Given(from) && Parse(m[from].content).to == Given(last)
              && Apply(recorded[from], Parse(m[from].content).ops) == recorded[last]
    {
      var i :| 0 <= i < |names| && names[i] == m[from];
      assert StepOk(steps[i], recorded);
      DeltaReads(steps, i, last, recorded);
      CompositeReaches(steps, i, last, recorded);
    }
  }

  // ----------------------------------------------------------------------- one publish run

  /** A publish is a no-op exactly when the index did not change. */
  lemma NoOpIffUnchanged(objects: Objects, recorded: Record, r: Release)
    requires Consistent(objects, recorded) && CleanRelease(r)
    ensures var s := LoadState(objects);
            NoOp(objects, s, r.index) <==> s.artifact.Some? && r.index == recorded[s.seqNo]
    ensures var s := LoadState(objects);
            s.artifact.Some? ==> StepOps(objects, s, r.index) == Some(Diff(recorded[s.seqNo], r.index))
  {
    hide Diff;
    hide Apply;
    var s := LoadState(objects);
    if s.artifact.Some? {
      ArtifactReads(s.artifact.value, s.seqNo, recorded[s.seqNo]);
      DiffCorrect(recorded[s.seqNo], r.index);
    }
  }

  /** The record once the run has saved its state. */
  ghost function NewRecord(objects: Objects, recorded: Record, r: Release): Record {
    recorded[LoadState(objects).seqNo + 1 := r.index]
  }

  lemma NextStepsOk(objects: Objects, recorded: Record, r: Release)
    requires Consistent(objects, recorded) && GoodRelease(r) && CleanRelease(r)
    requires !NoOp(objects, LoadState(objects), r.index)
    ensures var s := LoadState(objects);
            StepsOk(NextSteps(objects, s, r), s.seqNo + 1, NewRecord(objects, recorded, r))
    ensures |NextSteps(objects, LoadState(objects), r)| <= r.window
  {
    hide PointerOk;
    hide CleanIndex;
    hide StepsOk;
    hide Diff;
    hide Slide;
    hide ParseIndex;
    hide LinesOf;
    hide ArtifactOf;
    hide HasFile;
    var s := LoadState(objects);
    NoOpIffUnchanged(objects, recorded, r);
    if s.artifact.Some? {
      SlideDiff(s.steps, s.seqNo, recorded, r.index, r.window);
    } else {
      NoSteps(s.seqNo + 1, NewRecord(objects, recorded, r));
    }
  }

  lemma NoSteps(last: nat, recorded: Record)
    ensures StepsOk([], last, recorded)
  {
  }

  lemma SlideDiff(steps: seq<Step>, n: nat, recorded: Record, ix: Index, window: nat)
    requires StepsOk(steps, n, recorded) && n in recorded && n + 1 !in recorded && window > 0
    requires CleanIndex(recorded[n]) && CleanIndex(ix)
    ensures var next := Slide(steps, Step(n, n + 1, Diff(recorded[n], ix)), window);
            StepsOk(next, n + 1, recorded[n + 1 := ix]) && |next| <= window
  {
    hide Diff;
    hide Slide;
    hide StepsOk;
    hide Apply;
    hide CleanOps;
    DiffCorrect(recorded[n], ix);
    DiffClean(recorded[n], ix);
    StepsOkExtend(steps, n, recorded, n + 1, ix);
    SlideOk(steps, Step(n, n + 1, Diff(recorded[n], ix)), window, recorded[n + 1 := ix]);
  }

  lemma ReachUnrecorded(m: map<nat, Name>, to: nat, ix: Index, recorded: Record)
    requires DeltasReach(m, to, ix, recorded[to := ix])
    ensures DeltasReach(m, to, ix, recorded)
  {
  }

  /** The documents a release writes, from its parts. */
  lemma DocumentsOk(steps: seq<Step>, name: Name, n: nat, ix: Index, recorded: Record, commit: Str)
    requires n > 0 && StepsOk(steps, n, recorded[n := ix])
    requires ArtifactOf(name, n, ix) && CleanIndex(ix)
    requires forall m :: m in recorded ==> m < n && CleanIndex(recorded[m])
    ensures var pk := Packages(n, name, ByFrom(DeltaNames(steps, n)));
            PointerOk(pk, n - 1, recorded) && PointerOk(pk, n, recorded[n := ix])
    ensures StateOk(State(n, Some(name), steps, false, commit), recorded[n := ix])
  {
    hide StepsOk;
    hide CleanIndex;
    hide ArtifactOf;
    hide DeltasReach;
    hide ByFrom;
    NewDeltasReach(steps, n, recorded[n := ix]);
    ArtifactReads(name, n, ix);
    var m := ByFrom(DeltaNames(steps, n));
    if steps == [] {
      NoDeltasReach(n, ix, recorded);
      NoDeltasReach(n, ix, recorded[n := ix]);
    } else {
      ReachUnrecorded(m, n, ix, recorded);
    }
  }

  lemma NoDeltasReach(n: nat, ix: Index, recorded: Record)
    ensures DeltasReach(map[], n, ix, recorded)
  {
  }

  lemma NewDocumentsOk(objects: Objects, recorded: Record, r: Release)
    requires Consistent(objects, recorded) && GoodRelease(r) && CleanRelease(r)
    requires !NoOp(objects, LoadState(objects), r.index)
    ensures var s := LoadState(objects);
            PointerOk(NextPackages(objects, s, r), s.seqNo, recorded)
            && PointerOk(NextPackages(objects, s, r), s.seqNo + 1, NewRecord(objects, recorded, r))
            && StateOk(NextState(objects, s, r), NewRecord(objects, recorded, r))
  {
    hide PointerOk;
    hide NextSteps;
    hide StepsOk;
    hide CleanIndex;
    hide ArtifactText;
    hide NoOp;
    var s := LoadState(objects);
    NextStepsOk(objects, recorded, r);
    assert ArtifactOf(Artifact(s, r), s.seqNo + 1, r.index);
    DocumentsOk(NextSteps(objects, s, r), Artifact(s, r), s.seqNo + 1, r.index, recorded, r.commit);
  }

  /** How many writes a release makes before it reaches the pointer. */
  ghost function FileCount(objects: Objects, r: Release): nat {
    var s := LoadState(objects);
    |Files(Artifact(s, r), DeltaNames(NextSteps(objects, s, r), s.seqNo + 1))|
  }

  /** The record after a publish that stopped after `cut` writes: it gains the new index once
      the state is saved. */
  ghost function PublishRecord(objects: Objects, recorded: Record, r: Release, cut: nat): Record {
    if NoOp(objects, LoadState(objects), r.index) || cut < FileCount(objects, r) + 2 then recorded
    else NewRecord(objects, recorded, r)
  }

  /** A run that releases, stopped anywhere. */
  lemma ReleaseKeepsConsistent(objects: Objects, recorded: Record, r: Release, dels: seq<Write>, cut: nat)
    requires Consistent(objects, recorded) && GoodRun(objects, Publish(r, dels)) && CleanRelease(r)
    requires !NoOp(objects, LoadState(objects), r.index)
    requires cut <= |PublishWrites(objects, LoadState(objects), r, dels)|
    ensures Consistent(Do(objects, PublishWrites(objects, LoadState(objects), r, dels)[..cut]),
                       PublishRecord(objects, recorded, r, cut))
  {
    hide Do;
    hide StateOk;
    hide PointerOk;
    hide ArtifactText;
    hide NextSteps;
    hide Doomed;
    hide NoOp;
    hide Files;
    hide DeltaNames;
    hide ReleaseWrites;
    hide NextPackages;
    hide IsPrune;
    var s := LoadState(objects);
    var n, name := s.seqNo + 1, Artifact(s, r);
    var deltas := DeltaNames(NextSteps(objects, s, r), n);
    var p := WithPackages(LoadPointer(objects), NextPackages(objects, s, r));
    NewDocumentsOk(objects, recorded, r);
    ArtifactStays(name, n, r.keep);
    ReleaseStages(objects, name, deltas, p, NextState(objects, s, r), dels, n, r.keep, cut, name);
    if s.artifact.Some? && cut <= |Files(name, deltas)| + 1 {
      BeforePrune(objects, name, deltas, p, NextState(objects, s, r), dels, cut, s.artifact.value);
    }
  }

  lemma ArtifactStays(name: Name, n: nat, keep: nat)
    requires name.PackagesFile? && name.seqNo == n && keep > 0
    ensures !Doomed(File(name), n, keep)
  {
  }

  lemma PublishKeepsConsistent(objects: Objects, recorded: Record, r: Release, dels: seq<Write>, cut: nat)
    requires Consistent(objects, recorded) && GoodRun(objects, Publish(r, dels)) && CleanRelease(r)
    requires cut <= |PublishWrites(objects, LoadState(objects), r, dels)|
    ensures Consistent(Do(objects, PublishWrites(objects, LoadState(objects), r, dels)[..cut]),
                       PublishRecord(objects, recorded, r, cut))
  {
    hide Consistent;
    hide Do;
    hide NoOp;
    hide ReleaseWrites;
    var s := LoadState(objects);
    if NoOp(objects, s, r.index) {
      SaveStateKeeps(objects, recorded, Touched(s, r), cut);
    } else {
      ReleaseKeepsConsistent(objects, recorded, r, dels, cut);
    }
  }

  lemma BeforePrune(objects: Objects, artifact: Name, deltas: seq<Name>, p: Pointer, s: State,
                    dels: seq<Write>, cut: nat, kept: Name)
    requires HasFile(objects, kept) && cut <= |Files(artifact, deltas)| + 1
    ensures cut <= |ReleaseWrites(artifact, deltas, p, s, dels)|
    ensures HasFile(Do(objects, ReleaseWrites(artifact, deltas, p, s, dels)[..cut]), kept)
  {
    var files := Files(artifact, deltas);
    var ws := ReleaseWrites(artifact, deltas, p, s, dels);
    PutAllAreFilePuts(deltas);
    if cut <= |files| {
      assert ws[..cut] == files[..cut];
      FilePutsKeep(objects, files[..cut]);
    } else {
      FilePutsKeep(objects, files);
      var v := Wrote(PointerKey, PointerBlob(p));
      assert ws[..cut] == files + [v];
      DoSnoc(objects, files, v);
    }
  }

  lemma SameStateOk(s: State, t: State, packages: Option<Packages>, recorded: Record)
    requires s.seqNo == t.seqNo && s.artifact == t.artifact && s.steps == t.steps
    requires ConsistentCore(s, packages, recorded)
    ensures ConsistentCore(t, packages, recorded)
  {
    hide StepsOk;
    hide ArtifactOf;
    hide PointerOk;
    hide CleanIndex;
  }

  /** Saving a state with the same sequence, artifact and steps. */
  lemma SaveStateKeeps(objects: Objects, recorded: Record, t: State, cut: nat)
    requires Consistent(objects, recorded) && cut <= 1
    requires var s := LoadState(objects); s.seqNo == t.seqNo && s.artifact == t.artifact && s.steps == t.steps
    ensures Consistent(Do(objects, [Wrote(StateKey, StateBlob(t))][..cut]), recorded)
  {
    hide ConsistentCore;
    var w := Wrote(StateKey, StateBlob(t));
    if cut == 1 {
      assert [w][..1] == [] + [w];
      DoSnoc(objects, [], w);
      SameStateOk(LoadState(objects), t, LoadPointer(objects).packages, recorded);
    } else {
      assert [w][..0] == [];
    }
  }

  // ------------------------------------------------------------------------------ histories

  /** Writes that leave the package wing alone: other documents, domain files, and a pointer
      with the same package fields. */
  ghost predicate Foreign(objects: Objects, w: Write) {
    match w
    case Wrote(k, b) =>
      if k.PointerKey? then b.PointerBlob? && b.pointer.packages == LoadPointer(objects).packages
      else FilePut(w) || k.DomainsStateKey? || k.Other?
    case Deleted(k) => (k.File? || k.Signature?) && k.name.DomainsFile?
  }

  lemma ForeignKeeps(objects: Objects, recorded: Record, w: Write)
    requires Consistent(objects, recorded) && Foreign(objects, w)
    ensures Consistent(DoOne(objects, w), recorded)
    ensures LoadPointer(DoOne(objects, w)).packages == LoadPointer(objects).packages
  {
    hide ConsistentCore;
  }

  ghost predicate AllForeign(packages: Option<Packages>, ws: seq<Write>) {
    forall i :: 0 <= i < |ws| ==>
      match ws[i]
      case Wrote(k, b) =>
        if k.PointerKey? then b.PointerBlob? && b.pointer.packages == packages
        else FilePut(ws[i]) || k.DomainsStateKey? || k.Other?
      case Deleted(k) => (k.File? || k.Signature?) && k.name.DomainsFile?
  }

  lemma {:induction false} AllForeignKeep(objects: Objects, recorded: Record, ws: seq<Write>)
    requires Consistent(objects, recorded) && AllForeign(LoadPointer(objects).packages, ws)
    ensures Consistent(Do(objects, ws), recorded)
    ensures LoadPointer(Do(objects, ws)).packages == LoadPointer(objects).packages
  {
    hide Consistent;
    if ws != [] {
      AllForeignKeep(objects, recorded, ws[..|ws| - 1]);
      ForeignKeeps(Do(objects, ws[..|ws| - 1]), recorded, ws[|ws| - 1]);
    }
  }

  lemma DomainsAreForeign(objects: Objects, list: DomainList, dels: seq<Write>, cut: nat)
    requires GoodRun(objects, PublishDomains(list, dels)) && cut <= |DomainsWrites(objects, list, dels)|
    ensures AllForeign(LoadPointer(objects).packages, DomainsWrites(objects, list, dels)[..cut])
  {
  }

  /** The record a history leaves: which index each saved sequence stands for. */
  ghost function RecordOf(events: seq<Event>): Record
    requires GoodHistory(events)
  {
    if events == [] then map[]
    else
      var before, e := events[..|events| - 1], events[|events| - 1];
      match e.run
      case Publish(r, dels) => PublishRecord(After(before), RecordOf(before), r, e.cut)
      case _ => RecordOf(before)
  }

  ghost predicate CleanRun(run: Run) {
    run.Publish? ==> CleanRelease(run.release)
  }

  /** Every index published over the history survives its artifact. */
  ghost predicate CleanHistory(events: seq<Event>) {
    forall i :: 0 <= i < |events| ==> CleanRun(events[i].run)
  }

  lemma EventKeepsConsistent(objects: Objects, recorded: Record, e: Event)
    requires Consistent(objects, recorded) && GoodEvent(objects, e) && CleanRun(e.run)
    ensures Consistent(AfterEvent(objects, e),
                       if e.run.Publish? then PublishRecord(objects, recorded, e.run.release, e.cut) else recorded)
  {
    hide Consistent;
    hide PublishRecord;
    hide Do;
    hide NoOp;
    hide ReleaseWrites;
    var ws := RunWrites(objects, e.run);
    match e.run
    case Publish(r, dels) => PublishKeepsConsistent(objects, recorded, r, dels, e.cut);
    case PublishDomains(list, dels) =>
      DomainsAreForeign(objects, list, dels, e.cut);
      AllForeignKeep(objects, recorded, ws[..e.cut]);
    case SaveState(commit, needsRebuild) =>
      SaveStateKeeps(objects, recorded, LoadState(objects).(commit := commit, needsRebuild := needsRebuild), e.cut);
    case SaveDomainsState =>
      AllForeignKeep(objects, recorded, ws[..e.cut]);
    case PutOther(path, blob) =>
      AllForeignKeep(objects, recorded, ws[..e.cut]);
  }

  lemma {:induction false} AlwaysConsistent(events: seq<Event>)
    requires GoodHistory(events) && CleanHistory(events)
    ensures Consistent(After(events), RecordOf(events))
  {
    hide Consistent;
    hide PublishRecord;
    hide AfterEvent;
    hide RunWrites;
    if events == [] {
      EmptyConsistent();
    } else {
      var before, e := events[..|events| - 1], events[|events| - 1];
      AlwaysConsistent(before);
      EventKeepsConsistent(After(before), RecordOf(before), e);
    }
  }

  lemma EmptyConsistent()
    ensures Consistent(map[], map[])
  {
  }

  /** Over every history, whatever runs died where: each delta in pointer.json reads back whole
      and brings the index recorded for its sequence to the index pointer.json stands for. */
  lemma EveryDeltaReachesCurrent(events: seq<Event>, from: nat)
    requires GoodHistory(events) && CleanHistory(events)
    requires LoadPointer(After(events)).packages.Some? && from in LoadPointer(After(events)).packages.value.deltas
    ensures from in RecordOf(events)
    ensures var pk := LoadPointer(After(events)).packages.value;
            Apply(RecordOf(events)[from], Parse(pk.deltas[from].content).ops) == IndexIn(pk.artifact)
  {
    hide Apply;
    hide Parse;
    hide IndexIn;
    hide RecordOf;
    hide After;
    AlwaysConsistent(events);
    var pk := LoadPointer(After(events)).packages.value;
    assert PointerOk(pk, LoadState(After(events)).seqNo, RecordOf(events));
  }

  /** The window over every history: steps of one sequence each, end to end, up to the state's. */
  lemma StepsStayContiguous(events: seq<Event>)
    requires GoodHistory(events) && CleanHistory(events)
    ensures StepsOk(LoadState(After(events)).steps, LoadState(After(events)).seqNo, RecordOf(events))
  {
    hide StepsOk;
    hide RecordOf;
    hide After;
    AlwaysConsistent(events);
    assert StateOk(LoadState(After(events)), RecordOf(events));
  }

  /** What one run, stopped anywhere, does to the package half of pointer and state. */
  lemma EventMoves(objects: Objects, e: Event)
    requires GoodEvent(objects, e)
    ensures var p, q := LoadPointer(objects).packages, LoadPointer(AfterEvent(objects, e)).packages;
            var s, t := LoadState(objects), LoadState(AfterEvent(objects, e));
            if e.run.Publish? && !NoOp(objects, s, e.run.release.index) then
              var f := FileCount(objects, e.run.release);
              q == (if e.cut <= f then p else Some(NextPackages(objects, s, e.run.release)))
              && t == (if e.cut <= f + 1 then s else NextState(objects, s, e.run.release))
            else q == p && t.seqNo == s.seqNo && t.artifact == s.artifact && t.steps == s.steps
  {
    hide Do;
    hide NoOp;
    hide NextSteps;
    hide NextState;
    hide NextPackages;
    hide ReleaseWrites;
    hide DeltaNames;
    hide Files;
    var s := LoadState(objects);
    var ws := RunWrites(objects, e.run);
    match e.run
    case Publish(r, dels) =>
      if NoOp(objects, s, r.index) {
        OneOrNone(objects, Wrote(StateKey, StateBlob(Touched(s, r))), e.cut);
      } else {
        var name, n := Artifact(s, r), s.seqNo + 1;
        var p := WithPackages(LoadPointer(objects), NextPackages(objects, s, r));
        ArtifactStays(name, n, r.keep);
        ReleaseStages(objects, name, DeltaNames(NextSteps(objects, s, r), n), p, NextState(objects, s, r),
                      dels, n, r.keep, e.cut, name);
      }
    case PublishDomains(list, dels) =>
      DomainsAreForeign(objects, list, dels, e.cut);
      ForeignKeepsPackages(objects, ws[..e.cut]);
    case _ => OneOrNone(objects, ws[0], e.cut);
  }

  lemma OneOrNone(objects: Objects, w: Write, cut: nat)
    requires cut <= 1
    ensures Do(objects, [w][..cut]) == if cut == 0 then objects else DoOne(objects, w)
  {
    if cut == 1 {
      assert [w][..1] == [] + [w];
      DoSnoc(objects, [], w);
    }
  }

  lemma {:induction false} ForeignKeepsPackages(objects: Objects, ws: seq<Write>)
    requires AllForeign(LoadPointer(objects).packages, ws)
    ensures LoadPointer(Do(objects, ws)).packages == LoadPointer(objects).packages
    ensures LoadState(Do(objects, ws)) == LoadState(objects)
  {
    if ws != [] {
      ForeignKeepsPackages(objects, ws[..|ws| - 1]);
    }
  }

  /** No publish of the history kept more than `w` steps. */
  predicate WindowsWithin(events: seq<Event>, w: nat) {
    forall i :: 0 <= i < |events| ==> events[i].run.Publish? ==> events[i].run.release.window <= w
  }

  lemma NextStepsWithin(objects: Objects, s: State, r: Release)
    requires r.window > 0
    ensures |NextSteps(objects, s, r)| <= r.window
  {
    hide StepOps;
  }

  /** Over every history, whatever runs died where, the window is no longer than the largest
      size any run gave it. */
  lemma {:induction false} StepsStayInWindow(events: seq<Event>, w: nat)
    requires GoodHistory(events) && WindowsWithin(events, w)
    ensures |LoadState(After(events)).steps| <= w
  {
    hide AfterEvent;
    hide RunWrites;
    hide NoOp;
    hide NextSteps;
    hide NextPackages;
    hide Artifact;
    hide FileCount;
    if events != [] {
      var before, e := events[..|events| - 1], events[|events| - 1];
      StepsStayInWindow(before, w);
      EventMoves(After(before), e);
      if e.run.Publish? {
        NextStepsWithin(After(before), LoadState(After(before)), e.run.release);
      }
    }
  }

  /** Exactly the `k` sequences right before `to`. */
  ghost predicate Spans(keys: set<nat>, to: nat, k: nat) {
    forall m: nat :: m in keys <==> m < to <= m + k
  }

  lemma {:induction false} StepFrom(steps: seq<Step>, i: nat, last: nat, recorded: Record)
    requires i < |steps| && StepsOk(steps, last, recorded)
    ensures steps[i].from + (|steps| - i) == last
    decreases |steps| - i
  {
    assert StepOk(steps[i], recorded);
    if i + 1 < |steps| {
      StepFrom(steps, i + 1, last, recorded);
    }
  }

  lemma {:induction false} ByFromKeys(names: seq<Name>, to: nat)
    requires AllDeltas(names, to)
    ensures forall i :: 0 <= i < |names| ==> names[i].from in ByFrom(names)
  {
    if names != [] {
      ByFromKeys(names[1..], to);
      forall i | 0 < i < |names| ensures names[i].from in ByFrom(names) {
        assert names[i] == names[1..][i - 1];
      }
    }
  }

  lemma DeltasOfSteps(steps: seq<Step>, last: nat, recorded: Record)
    requires StepsOk(steps, last, recorded)
    ensures Spans(ByFrom(DeltaNames(steps, last)).Keys, last, |steps|)
  {
    hide ByFrom;
    hide StepsOk;
    hide Serialize;
    hide Composite;
    var names := DeltaNames(steps, last);
    ByFromKeys(names, last);
    ByFromValues(names, last);
    forall from: nat ensures from in ByFrom(names) <==> from < last <= from + |steps| {
      if from in ByFrom(names) {
        var i :| 0 <= i < |names| && names[i] == ByFrom(names)[from];
        StepFrom(steps, i, last, recorded);
      }
      if from < last <= from + |steps| {
        var i: nat := from + |steps| - last;
        StepFrom(steps, i, last, recorded);
        assert names[i] == DeltaName(steps, i, last);
      }
    }
  }

  /** Over every history, unless a run died between pointer and state: pointer.json offers one
      delta from each of the sequences the window spans, and from no other. */
  lemma {:induction false} DeltasAreTheWindow(events: seq<Event>)
    requires GoodHistory(events) && CleanHistory(events)
    ensures var p, s := LoadPointer(After(events)).packages, LoadState(After(events));
            p.Some? && p.value.seqNo == s.seqNo ==> Spans(p.value.deltas.Keys, s.seqNo, |s.steps|)
  {
    hide AfterEvent;
    hide RunWrites;
    hide NoOp;
    hide NextSteps;
    hide StepsOk;
    hide Consistent;
    hide ByFrom;
    hide DeltaNames;
    hide Artifact;
    hide CleanRelease;
    hide FileCount;
    hide Spans;
    if events != [] {
      var before, e := events[..|events| - 1], events[|events| - 1];
      var o := After(before);
      DeltasAreTheWindow(before);
      AlwaysConsistent(before);
      EventMoves(o, e);
      if e.run.Publish? && !NoOp(o, LoadState(o), e.run.release.index) {
        var r, s := e.run.release, LoadState(o);
        assert CleanRun(events[|events| - 1].run);
        NextStepsOk(o, RecordOf(before), r);
        DeltasOfSteps(NextSteps(o, s, r), s.seqNo + 1, NewRecord(o, RecordOf(before), r));
        if LoadPointer(o).packages.Some? {
          PointerLeads(o, RecordOf(before));
        }
      }
    }
  }

  /** The pointer is never behind the state. */
  lemma PointerLeads(objects: Objects, recorded: Record)
    requires Consistent(objects, recorded) && LoadPointer(objects).packages.Some?
    ensures LoadPointer(objects).packages.value.seqNo >= LoadState(objects).seqNo
  {
    hide StateOk;
    hide DeltasReach;
    hide IndexIn;
  }
}
