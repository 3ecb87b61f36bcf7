/** Whole runs of the aggregator as lists of writes, histories of runs that may each stop
    between any two writes, and pointer closure: what pointer.json names is always there. */
module Runs {
  import opened Wrappers
  import opened Text
  import opened Wire
  import opened Bucket
  import opened Publisher

  /** What the domain wing built: the digest input of its content, its size and its artifact. */
  datatype DomainList = DomainList(content: Str, entries: nat, artifact: Str, keep: nat)

  datatype Run =
    | Publish(release: Release, dels: seq<Write>)
    | PublishDomains(list: DomainList, dels: seq<Write>)
    | SaveState(commit: Str, needsRebuild: bool)
    | SaveDomainsState
    | PutOther(path: Str, blob: Blob)

  predicate DoomedDomains(k: Key, n: nat, keep: nat) {
    (k.File? || k.Signature?) && k.name.DomainsFile? && k.name.seqNo + keep <= n
  }

  ghost predicate IsDomainsPrune(n: nat, keep: nat, dels: seq<Write>) {
    forall i :: 0 <= i < |dels| ==> dels[i].Deleted? && DoomedDomains(dels[i].key, n, keep)
  }

  /** Does the list shrink below half of what is published? */
  predicate Refused(d: DomainsState, list: DomainList) {
    d.entries > 0 && list.entries < d.entries / 2
  }

  predicate Unchanged(d: DomainsState, list: DomainList) {
    d.contentSha == Some(list.content) && d.artifact.Some?
  }

  function DomainsName(d: DomainsState, list: DomainList): Name {
    DomainsFile(d.seqNo + 1, list.artifact)
  }

  /** `runDomains`: its state goes out before the pointer does. */
  function DomainsWrites(objects: Objects, list: DomainList, dels: seq<Write>): seq<Write> {
    var d := LoadDomainsState(objects);
    if Refused(d, list) || Unchanged(d, list) then [Wrote(DomainsStateKey, DomainsStateBlob(d))]
    else
      var name := DomainsName(d, list);
      SignedPuts(name)
      + [Wrote(DomainsStateKey, DomainsStateBlob(DomainsState(d.seqNo + 1, list.entries, Some(name), Some(list.content)))),
         Wrote(PointerKey, PointerBlob(WithDomains(LoadPointer(objects), Domains(d.seqNo + 1, name))))]
      + dels
  }

  ghost predicate GoodRun(objects: Objects, run: Run) {
    match run
    case Publish(r, dels) => GoodRelease(r) && IsPrune(LoadState(objects).seqNo + 1, r.keep, dels)
    case PublishDomains(list, dels) =>
      list.keep > 0 && IsDomainsPrune(LoadDomainsState(objects).seqNo + 1, list.keep, dels)
    case _ => true
  }

  ghost function RunWrites(objects: Objects, run: Run): seq<Write> {
    match run
    case Publish(r, dels) => PublishWrites(objects, LoadState(objects), r, dels)
    case PublishDomains(list, dels) => DomainsWrites(objects, list, dels)
    case SaveState(commit, needsRebuild) =>
      [Wrote(StateKey, StateBlob(LoadState(objects).(commit := commit, needsRebuild := needsRebuild)))]
    case SaveDomainsState => [Wrote(DomainsStateKey, DomainsStateBlob(LoadDomainsState(objects)))]
    case PutOther(path, blob) => [Wrote(Other(path), blob)]
  }

  /** A run, and how many of its writes reached the store. */
  datatype Event = Event(run: Run, cut: nat)

  ghost predicate GoodEvent(objects: Objects, e: Event) {
    GoodRun(objects, e.run) && e.cut <= |RunWrites(objects, e.run)|
  }

  ghost function AfterEvent(objects: Objects, e: Event): Objects
    requires GoodEvent(objects, e)
  {
    Do(objects, RunWrites(objects, e.run)[..e.cut])
  }

  ghost predicate GoodHistory(events: seq<Event>)
    decreases |events|, 0
  {
    events == [] || (GoodHistory(events[..|events| - 1])
                     && GoodEvent(After(events[..|events| - 1]), events[|events| - 1]))
  }

  /** The store after a history that began empty. */
  ghost function After(events: seq<Event>): Objects
    requires GoodHistory(events)
    decreases |events|, 1
  {
    if events == [] then map[] else AfterEvent(After(events[..|events| - 1]), events[|events| - 1])
  }

  // --------------------------------------------------------------------------- closure

  predicate HasFile(objects: Objects, n: Name) {
    && File(n) in objects && objects[File(n)] == Bytes(n.content)
    && Signature(n) in objects && objects[Signature(n)] == SignatureOf(n.content)
  }

  /** Every file a pointer names. */
  function Names(p: Pointer): set<Name> {
    (if p.packages.Some? then {p.packages.value.artifact} + p.packages.value.deltas.Values else {})
    + (if p.domains.Some? then {p.domains.value.artifact} else {})
  }

  ghost predicate Backed(objects: Objects, names: set<Name>) {
    forall n :: n in names ==> HasFile(objects, n)
  }

  /** A pointer names package files as packages and domain files as domains. */
  ghost predicate Typed(p: Pointer) {
    (p.packages.Some? ==> TypedPackages(p.packages.value)) && (p.domains.Some? ==> TypedDomains(p.domains.value))
  }

  ghost predicate TypedPackages(pk: Packages) {
    pk.artifact.PackagesFile? && pk.artifact.seqNo == pk.seqNo && TypedDeltas(pk.deltas, pk.seqNo)
  }

  ghost predicate TypedDeltas(m: map<nat, Name>, to: nat) {
    forall from :: from in m ==> m[from].DeltaFile? && m[from].to == to
  }

  ghost predicate TypedDomains(d: Domains) {
    d.artifact.DomainsFile? && d.artifact.seqNo == d.seqNo
  }

  /** A pointer that names files of the right kinds, each there with its bytes and signature. */
  ghost predicate Sound(objects: Objects, p: Pointer) {
    Typed(p) && Backed(objects, Names(p))
  }

  /** Pointer closure. */
  ghost predicate Closed(objects: Objects) {
    Sound(objects, LoadPointer(objects))
  }

  /** A write that puts a file where its name says, or something no pointer names. */
  predicate PlainPut(w: Write) {
    w.Wrote? &&
    match w.key
    case File(n) => w.blob == Bytes(n.content)
    case Signature(n) => w.blob == SignatureOf(n.content)
    case PointerKey => false
    case _ => true
  }

  ghost predicate SafeWrite(objects: Objects, w: Write) {
    match w
    case Wrote(k, b) => if k.PointerKey? then b.PointerBlob? && Sound(objects, b.pointer) else PlainPut(w)
    case Deleted(k) => (k.File? || k.Signature?) && k.name !in Names(LoadPointer(objects))
  }

  ghost predicate AllSafe(objects: Objects, ws: seq<Write>) {
    forall i :: 0 <= i < |ws| ==> SafeWrite(Do(objects, ws[..i]), ws[i])
  }

  lemma {:induction false} SafePrefixesClosed(objects: Objects, ws: seq<Write>, cut: nat)
    requires Closed(objects) && AllSafe(objects, ws) && cut <= |ws|
    ensures Closed(Do(objects, ws[..cut]))
  {
    if cut == 0 {
      assert ws[..0] == [];
    } else {
      SafePrefixesClosed(objects, ws, cut - 1);
      assert ws[..cut] == ws[..cut - 1] + [ws[cut - 1]];
      DoSnoc(objects, ws[..cut - 1], ws[cut - 1]);
      var now, w := Do(objects, ws[..cut - 1]), ws[cut - 1];
      assert SafeWrite(now, w);
      SafeWriteKeepsClosed(now, w);
    }
  }

  lemma SafeWriteKeepsClosed(objects: Objects, w: Write)
    requires Closed(objects) && SafeWrite(objects, w)
    ensures Closed(DoOne(objects, w))
  {
    var p, q := LoadPointer(objects), LoadPointer(DoOne(objects, w));
    if w.Wrote? && w.key.PointerKey? {
      assert q == w.blob.pointer;
    } else {
      assert q == p;
    }
    forall n | n in Names(q) ensures HasFile(DoOne(objects, w), n) {
      assert HasFile(objects, n);
    }
  }

  lemma AllSafeConcat(objects: Objects, a: seq<Write>, b: seq<Write>)
    requires AllSafe(objects, a) && AllSafe(Do(objects, a), b)
    ensures AllSafe(objects, a + b)
  {
    forall i | 0 <= i < |a + b| ensures SafeWrite(Do(objects, (a + b)[..i]), (a + b)[i]) {
      if i < |a| {
        assert (a + b)[..i] == a[..i];
      } else {
        assert (a + b)[..i] == a + b[..i - |a|];
        DoConcat(objects, a, b[..i - |a|]);
      }
    }
  }

  predicate AllPlain(ws: seq<Write>) {
    forall i :: 0 <= i < |ws| ==> PlainPut(ws[i])
  }

  lemma PlainIsSafe(objects: Objects, ws: seq<Write>)
    requires AllPlain(ws)
    ensures AllSafe(objects, ws)
  {
  }

  /** Plain puts leave the pointer alone and lose no file. */
  lemma {:induction false} PlainPutsKeep(objects: Objects, ws: seq<Write>)
    requires AllPlain(ws)
    ensures LoadPointer(Do(objects, ws)) == LoadPointer(objects)
    ensures forall n :: HasFile(objects, n) ==> HasFile(Do(objects, ws), n)
  {
    if ws != [] {
      PlainPutsKeep(objects, ws[..|ws| - 1]);
    }
  }

  /** The file and signature of `n` are among the writes. */
  predicate Puts(ws: seq<Write>, n: Name) {
    Wrote(File(n), Bytes(n.content)) in ws && Wrote(Signature(n), SignatureOf(n.content)) in ws
  }

  lemma {:induction false} PutThere(objects: Objects, ws: seq<Write>, k: Key, b: Blob)
    requires AllPlain(ws) && Wrote(k, b) in ws && (k.File? || k.Signature?)
    ensures k in Do(objects, ws) && Do(objects, ws)[k] == b
  {
    var last := ws[|ws| - 1];
    if last != Wrote(k, b) {
      assert ws == ws[..|ws| - 1] + [last];
      PutThere(objects, ws[..|ws| - 1], k, b);
    }
  }

  lemma PutsGiveFile(objects: Objects, ws: seq<Write>, n: Name)
    requires AllPlain(ws) && Puts(ws, n)
    ensures HasFile(Do(objects, ws), n)
  {
    PutThere(objects, ws, File(n), Bytes(n.content));
    PutThere(objects, ws, Signature(n), SignatureOf(n.content));
  }

  lemma PutsAppend(ws: seq<Write>, n: Name, m: Name)
    ensures AllPlain(ws) ==> AllPlain(ws + SignedPuts(n))
    ensures Puts(ws + SignedPuts(n), n)
    ensures Puts(ws, m) ==> Puts(ws + SignedPuts(n), m)
  {
    var a := SignedPuts(n);
    assert (ws + a)[|ws|] == a[0] && (ws + a)[|ws| + 1] == a[1];
  }

  lemma {:induction false} PutAllCovers(names: seq<Name>)
    ensures AllPlain(PutAll(names))
    ensures forall n :: n in names ==> Puts(PutAll(names), n)
  {
    if names != [] {
      PutAllCovers(names[1..]);
      var before := PutAll(names[1..]);
      forall n | n in names ensures Puts(PutAll(names), n) {
        PutsAppend(before, names[0], n);
        if n != names[0] { assert n in names[1..]; }
      }
      PutsAppend(before, names[0], names[0]);
    }
  }

  lemma FilesCovered(artifact: Name, deltas: seq<Name>, n: Name)
    requires n == artifact || n in deltas
    ensures AllPlain(SignedPuts(artifact) + PutAll(deltas))
    ensures Puts(SignedPuts(artifact) + PutAll(deltas), n)
  {
    PutAllCovers(deltas);
    PutsAppend([], artifact, artifact);
    assert [] + SignedPuts(artifact) == SignedPuts(artifact);
  }

  lemma {:induction false} ByFromValues(names: seq<Name>, to: nat)
    requires AllDeltas(names, to)
    ensures forall from :: from in ByFrom(names) ==> ByFrom(names)[from] in names && ByFrom(names)[from].from == from
    ensures TypedDeltas(ByFrom(names), to)
  {
    if names != [] {
      ByFromValues(names[1..], to);
    }
  }

  /** Once a run's files are put, everything its new pointer names is there. */
  lemma NewPointerBacked(objects: Objects, artifact: Name, deltas: seq<Name>, n: nat)
    requires Closed(objects) && AllDeltas(deltas, n) && artifact.PackagesFile? && artifact.seqNo == n
    ensures var mid := Do(objects, SignedPuts(artifact) + PutAll(deltas));
            LoadPointer(mid) == LoadPointer(objects)
            && Sound(mid, WithPackages(LoadPointer(objects), Packages(n, artifact, ByFrom(deltas))))
  {
    var files := SignedPuts(artifact) + PutAll(deltas);
    var old_, pk := LoadPointer(objects), Packages(n, artifact, ByFrom(deltas));
    FilesCovered(artifact, deltas, artifact);
    PlainPutsKeep(objects, files);
    ByFromValues(deltas, n);
    forall m | m in Names(WithPackages(old_, pk)) ensures HasFile(Do(objects, files), m) {
      if m == artifact || m in deltas {
        FilesCovered(artifact, deltas, m);
        PutsGiveFile(objects, files, m);
      } else {
        assert m in Names(old_);
      }
    }
  }

  /** After `prune` nothing the fresh pointer names is gone. */
  lemma PruneIsSafe(objects: Objects, dels: seq<Write>, n: nat, keep: nat)
    requires keep > 0 && IsPrune(n, keep, dels)
    requires Typed(LoadPointer(objects))
    requires LoadPointer(objects).packages.Some? && LoadPointer(objects).packages.value.seqNo == n
    ensures AllSafe(objects, dels)
  {
    forall i | 0 <= i < |dels| ensures SafeWrite(Do(objects, dels[..i]), dels[i]) {
      DeletesKeepPointer(objects, dels[..i]);
    }
  }

  lemma {:induction false} DeletesKeepPointer(objects: Objects, dels: seq<Write>)
    requires forall i :: 0 <= i < |dels| ==> dels[i].Deleted? && (dels[i].key.File? || dels[i].key.Signature?)
    ensures LoadPointer(Do(objects, dels)) == LoadPointer(objects)
    ensures LoadState(Do(objects, dels)) == LoadState(objects)
  {
    if dels != [] {
      DeletesKeepPointer(objects, dels[..|dels| - 1]);
    }
  }

  /** The two document writes that end a run. */
  lemma DocumentsAreSafe(objects: Objects, p: Pointer, k: Key, b: Blob)
    requires Sound(objects, p) && (k.StateKey? || k.DomainsStateKey?)
    ensures AllSafe(objects, [Wrote(PointerKey, PointerBlob(p)), Wrote(k, b)])
    ensures AllSafe(objects, [Wrote(k, b), Wrote(PointerKey, PointerBlob(p))])
    ensures LoadPointer(Do(objects, [Wrote(PointerKey, PointerBlob(p)), Wrote(k, b)])) == p
    ensures LoadPointer(Do(objects, [Wrote(k, b), Wrote(PointerKey, PointerBlob(p))])) == p
  {
    var v, w := Wrote(PointerKey, PointerBlob(p)), Wrote(k, b);
    DoTwo(objects, v, w);
    DoTwo(objects, w, v);
    TwoSafe(objects, v, w);
    forall n | n in Names(p) ensures HasFile(DoOne(objects, w), n) {
      assert HasFile(objects, n);
    }
    TwoSafe(objects, w, v);
  }

  lemma TwoSafe(objects: Objects, v: Write, w: Write)
    requires SafeWrite(objects, v) && SafeWrite(DoOne(objects, v), w)
    ensures AllSafe(objects, [v, w])
  {
    var ws := [v, w];
    assert ws[..0] == [] && ws[..1] == [v];
    DoSnoc(objects, [], v);
    assert [] + [v] == [v];
  }

  lemma ReleaseIsSafe(objects: Objects, artifact: Name, deltas: seq<Name>, n: nat, s: State,
                      dels: seq<Write>, keep: nat)
    requires Closed(objects)
    requires artifact.PackagesFile? && artifact.seqNo == n && AllDeltas(deltas, n)
    requires keep > 0 && IsPrune(n, keep, dels)
    ensures var p := WithPackages(LoadPointer(objects), Packages(n, artifact, ByFrom(deltas)));
            AllSafe(objects, ReleaseWrites(artifact, deltas, p, s, dels))
  {
    var files := SignedPuts(artifact) + PutAll(deltas);
    var p := WithPackages(LoadPointer(objects), Packages(n, artifact, ByFrom(deltas)));
    var docs := [Wrote(PointerKey, PointerBlob(p)), Wrote(StateKey, StateBlob(s))];
    FilesCovered(artifact, deltas, artifact);
    PlainIsSafe(objects, files);
    NewPointerBacked(objects, artifact, deltas, n);
    ByFromValues(deltas, n);
    DocumentsAreSafe(Do(objects, files), p, StateKey, StateBlob(s));
    AllSafeConcat(objects, files, docs);
    DoConcat(objects, files, docs);
    PruneIsSafe(Do(objects, files + docs), dels, n, keep);
    AllSafeConcat(objects, files + docs, dels);
  }

  lemma PublishIsSafe(objects: Objects, r: Release, dels: seq<Write>)
    requires Closed(objects)
    requires GoodRun(objects, Publish(r, dels))
    ensures AllSafe(objects, PublishWrites(objects, LoadState(objects), r, dels))
  {
    hide ReleaseWrites;
    hide NextSteps;
    hide NoOp;
    hide ArtifactText;
    var s := LoadState(objects);
    if !NoOp(objects, s, r.index) {
      ReleaseIsSafe(objects, Artifact(s, r), DeltaNames(NextSteps(objects, s, r), s.seqNo + 1),
                    s.seqNo + 1, NextState(objects, s, r), dels, r.keep);
    }
  }

  lemma DomainsPruneIsSafe(objects: Objects, dels: seq<Write>, n: nat, keep: nat)
    requires keep > 0 && IsDomainsPrune(n, keep, dels)
    requires Typed(LoadPointer(objects))
    requires LoadPointer(objects).domains.Some? && LoadPointer(objects).domains.value.seqNo == n
    ensures AllSafe(objects, dels)
  {
    forall i | 0 <= i < |dels| ensures SafeWrite(Do(objects, dels[..i]), dels[i]) {
      DeletesKeepPointer(objects, dels[..i]);
    }
  }

  lemma DomainsAreSafe(objects: Objects, list: DomainList, dels: seq<Write>)
    requires Closed(objects) && GoodRun(objects, PublishDomains(list, dels))
    ensures AllSafe(objects, DomainsWrites(objects, list, dels))
  {
    var d := LoadDomainsState(objects);
    if !Refused(d, list) && !Unchanged(d, list) {
      var name, n := DomainsName(d, list), d.seqNo + 1;
      var files, p := SignedPuts(name), WithDomains(LoadPointer(objects), Domains(n, name));
      var b := DomainsStateBlob(DomainsState(n, list.entries, Some(name), Some(list.content)));
      var docs := [Wrote(DomainsStateKey, b), Wrote(PointerKey, PointerBlob(p))];
      PutsAppend([], name, name);
      assert [] + files == files;
      PlainIsSafe(objects, files);
      PlainPutsKeep(objects, files);
      PutsGiveFile(objects, files, name);
      forall m | m in Names(p) ensures HasFile(Do(objects, files), m) {
        if m != name { assert m in Names(LoadPointer(objects)); }
      }
      DocumentsAreSafe(Do(objects, files), p, DomainsStateKey, b);
      AllSafeConcat(objects, files, docs);
      DoConcat(objects, files, docs);
      DomainsPruneIsSafe(Do(objects, files + docs), dels, n, list.keep);
      AllSafeConcat(objects, files + docs, dels);
    }
  }

  lemma RunIsSafe(objects: Objects, run: Run)
    requires Closed(objects) && GoodRun(objects, run)
    ensures AllSafe(objects, RunWrites(objects, run))
  {
    match run
    case Publish(r, dels) => PublishIsSafe(objects, r, dels);
    case PublishDomains(list, dels) => DomainsAreSafe(objects, list, dels);
    case _ =>
  }

  /** Pointer closure over every history: after any runs, each stopped after any number of its
      writes, pointer.json names only files that are in the store, whole and signed. */
  lemma {:induction false} PointerNeverDangles(events: seq<Event>)
    requires GoodHistory(events)
    ensures Closed(After(events))
  {
    if events != [] {
      var before, e := After(events[..|events| - 1]), events[|events| - 1];
      PointerNeverDangles(events[..|events| - 1]);
      RunIsSafe(before, e.run);
      SafePrefixesClosed(before, RunWrites(before, e.run), e.cut);
    }
  }
}
