/** `publish`, `writePointer` and `prune` as lists of atomic writes, and what holds of the
    store after every prefix of them. */
module Publisher {
  import opened Wrappers
  import opened Text
  import opened Delta
  import opened MergeJoin
  import opened Wire
  import opened DeltaText
  import opened Bucket

  // ------------------------------------------------------------------- what is published

  /** One call of `publish`: the index to publish, where it came from, and the settings. */
  datatype Release = Release(index: Index, generated: Str, commit: Str, rebuilt: bool, window: nat, keep: nat)

  /** The settings are positive, as reading them makes sure. */
  predicate GoodRelease(r: Release) {
    r.window > 0 && r.keep > 0
  }

  /** What is published survives being written down. */
  ghost predicate CleanRelease(r: Release) {
    OneLine(r.generated) && CleanIndex(r.index)
  }

  /** The ops of steps `i` onward folded into one list, last step first as `publish` does. */
  ghost function Composite(steps: seq<Step>, i: nat): seq<Op>
    requires i <= |steps|
    decreases |steps| - i
  {
    if i == |steps| then [] else Compose(steps[i].ops, Composite(steps, i + 1))
  }

  ghost function DeltaName(steps: seq<Step>, i: nat, to: nat): Name
    requires i < |steps|
  {
    DeltaFile(steps[i].from, to, Serialize(steps[i].from, to, Composite(steps, i)))
  }

  /** One delta into `to` from each old sequence of the window. */
  ghost function DeltaNames(steps: seq<Step>, to: nat): (names: seq<Name>)
    ensures |names| == |steps| && AllDeltas(names, to)
    ensures forall i :: 0 <= i < |steps| ==> names[i] == DeltaName(steps, i, to)
  {
    seq(|steps|, i requires 0 <= i < |steps| => DeltaName(steps, i, to))
  }

  predicate AllDeltas(names: seq<Name>, to: nat) {
    forall i :: 0 <= i < |names| ==> names[i].DeltaFile? && names[i].to == to
  }

  /** Signed puts of files, the last first. */
  function PutAll(names: seq<Name>): seq<Write> {
    if names == [] then [] else PutAll(names[1..]) + SignedPuts(names[0])
  }

  /** `deltas[String(from)] = name`, filled from the last name to the first. */
  function ByFrom(names: seq<Name>): map<nat, Name>
    requires forall i :: 0 <= i < |names| ==> names[i].DeltaFile?
  {
    if names == [] then map[] else ByFrom(names[1..])[names[0].from := names[0]]
  }

  /** The delta against the previous artifact, when there is one to read. */
  ghost function StepOps(objects: Objects, s: State, index: Index): Option<seq<Op>> {
    if s.artifact.Some? && File(s.artifact.value) in objects && objects[File(s.artifact.value)].Bytes?
    then Some(Diff(ParseIndex(LinesOf(objects[File(s.artifact.value)].text)), index))
    else None
  }

  ghost predicate NoOp(objects: Objects, s: State, index: Index) {
    StepOps(objects, s, index) == Some([])
  }

  /** `[...steps, step].slice(-window)`. */
  function Slide(steps: seq<Step>, step: Step, window: nat): seq<Step> {
    var all := steps + [step];
    if |all| <= window then all else all[|all| - window..]
  }

  ghost function NextSteps(objects: Objects, s: State, r: Release): seq<Step> {
    match StepOps(objects, s, r.index)
    case None => []
    case Some(ops) => Slide(s.steps, Step(s.seqNo, s.seqNo + 1, ops), r.window)
  }

  ghost function Artifact(s: State, r: Release): Name {
    PackagesFile(s.seqNo + 1, ArtifactText(r.index, r.generated, [s.seqNo + 1]))
  }

  /** The package fields the run writes into the pointer. */
  ghost function NextPackages(objects: Objects, s: State, r: Release): Packages {
    Packages(s.seqNo + 1, Artifact(s, r), ByFrom(DeltaNames(NextSteps(objects, s, r), s.seqNo + 1)))
  }

  ghost function NextState(objects: Objects, s: State, r: Release): State {
    State(s.seqNo + 1, Some(Artifact(s, r)), NextSteps(objects, s, r), false, r.commit)
  }

  /** `writePointer`: replace one wing's part and keep the other's. */
  function WithPackages(p: Pointer, packages: Packages): Pointer {
    p.(packages := Some(packages))
  }

  function WithDomains(p: Pointer, domains: Domains): Pointer {
    p.(domains := Some(domains))
  }

  /** The writes of a run that publishes: the files, then the pointer that names them, then
      the state, then whatever `prune` removes. */
  function ReleaseWrites(artifact: Name, deltas: seq<Name>, p: Pointer, s: State, dels: seq<Write>): seq<Write> {
    SignedPuts(artifact) + PutAll(deltas)
    + [Wrote(PointerKey, PointerBlob(p)), Wrote(StateKey, StateBlob(s))]
    + dels
  }

  /** May `prune` delete this key after publishing sequence `n`? */
  predicate Doomed(k: Key, n: nat, keep: nat) {
    (k.File? || k.Signature?)
    && match k.name
       case PackagesFile(m, _) => m + keep <= n
       case DeltaFile(_, to, _) => to + 1 < n
       case DomainsFile(_, _) => false
  }

  ghost predicate IsPrune(n: nat, keep: nat, dels: seq<Write>) {
    forall i :: 0 <= i < |dels| ==> dels[i].Deleted? && Doomed(dels[i].key, n, keep)
  }

  /** The state of a run that had nothing to publish: its bookmark moves. */
  function Touched(s: State, r: Release): State {
    s.(commit := r.commit, needsRebuild := s.needsRebuild && !r.rebuilt)
  }

  /** The writes of one whole run of `publish`; `dels` is what its `prune` removed. */
  ghost function PublishWrites(objects: Objects, s: State, r: Release, dels: seq<Write>): seq<Write> {
    if NoOp(objects, s, r.index) then [Wrote(StateKey, StateBlob(Touched(s, r)))]
    else
      ReleaseWrites(Artifact(s, r), DeltaNames(NextSteps(objects, s, r), s.seqNo + 1),
                    WithPackages(LoadPointer(objects), NextPackages(objects, s, r)),
                    NextState(objects, s, r), dels)
  }
}
