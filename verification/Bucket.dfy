/** The object store the aggregator publishes into.

    A put or a delete of one object is atomic and nothing larger is, so a run that dies leaves
    the store after some prefix of its writes. The bucket keeps that list of writes. Object
    names carry a digest of their content; a digest is taken to be injective, so the content
    itself stands for it.
  */
module Bucket {
  import opened Wrappers
  import opened Text
  import opened Delta

  /** A published file, by the fields of its path under `v1/`. */
  datatype Name =
    | PackagesFile(seqNo: nat, content: Str)
    | DeltaFile(from: nat, to: nat, content: Str)
    | DomainsFile(seqNo: nat, content: Str)

  datatype Key = File(name: Name) | Signature(name: Name) | PointerKey | StateKey | DomainsStateKey | Other(path: Str)

  /** One pairwise step of the rolling delta window. */
  datatype Step = Step(from: nat, to: nat, ops: seq<Op>)

  datatype State = State(seqNo: nat, artifact: Option<Name>, steps: seq<Step>, needsRebuild: bool, commit: Str)

  datatype DomainsState = DomainsState(seqNo: nat, entries: nat, artifact: Option<Name>, contentSha: Option<Str>)

  datatype Packages = Packages(seqNo: nat, artifact: Name, deltas: map<nat, Name>)

  datatype Domains = Domains(seqNo: nat, artifact: Name)

  /** pointer.json: each wing owns its own part. */
  datatype Pointer = Pointer(packages: Option<Packages>, domains: Option<Domains>)

  datatype Blob =
    | Bytes(text: Str)
    | SignatureOf(text: Str)
    | PointerBlob(pointer: Pointer)
    | StateBlob(state: State)
    | DomainsStateBlob(domainsState: DomainsState)

  type Objects = map<Key, Blob>

  datatype Write = Wrote(key: Key, blob: Blob) | Deleted(key: Key)

  function DoOne(objects: Objects, w: Write): Objects {
    match w
    case Wrote(k, b) => objects[k := b]
    case Deleted(k) => objects - {k}
  }

  /** The store after a list of writes. */
  function Do(objects: Objects, ws: seq<Write>): Objects {
    if ws == [] then objects else DoOne(Do(objects, ws[..|ws| - 1]), ws[|ws| - 1])
  }

  lemma DoSnoc(objects: Objects, ws: seq<Write>, w: Write)
    ensures Do(objects, ws + [w]) == DoOne(Do(objects, ws), w)
  {
    assert (ws + [w])[..|ws|] == ws;
  }

  lemma {:induction false} DoConcat(objects: Objects, a: seq<Write>, b: seq<Write>)
    ensures Do(objects, a + b) == Do(Do(objects, a), b)
  {
    if b == [] {
      assert a + b == a;
    } else {
      var init, last := b[..|b| - 1], b[|b| - 1];
      DoConcat(objects, a, init);
      DoSnoc(objects, a + init, last);
      assert a + b == a + init + [last];
    }
  }

  /** The bucket: its objects now, and every write that made them so. */
  class Store {
    var objects: Objects
    ghost var log: seq<Write>

    constructor (objects: Objects)
      ensures this.objects == objects && log == []
    {
      this.objects, log := objects, [];
    }

    method Put(key: Key, blob: Blob)
      modifies this
      ensures log == old(log) + [Wrote(key, blob)]
      ensures objects == old(objects)[key := blob]
    {
      objects := objects[key := blob];
      log := log + [Wrote(key, blob)];
    }

    method Delete(key: Key)
      modifies this
      ensures log == old(log) + [Deleted(key)]
      ensures objects == old(objects) - {key}
    {
      objects := objects - {key};
      log := log + [Deleted(key)];
    }

    /** `putSigned`: the file, then its signature. */
    method PutSigned(name: Name)
      modifies this
      ensures log == old(log) + SignedPuts(name)
      ensures objects == Do(old(objects), SignedPuts(name))
    {
      Put(File(name), Bytes(name.content));
      Put(Signature(name), SignatureOf(name.content));
      DoTwo(old(objects), Wrote(File(name), Bytes(name.content)), Wrote(Signature(name), SignatureOf(name.content)));
    }
  }

  lemma DoTwo(objects: Objects, v: Write, w: Write)
    ensures Do(objects, [v, w]) == DoOne(DoOne(objects, v), w)
  {
    DoSnoc(objects, [v], w);
    assert [v] + [w] == [v, w];
    DoSnoc(objects, [], v);
    assert [] + [v] == [v];
  }

  function SignedPuts(name: Name): seq<Write> {
    [Wrote(File(name), Bytes(name.content)), Wrote(Signature(name), SignatureOf(name.content))]
  }

  function LoadState(objects: Objects): State {
    if StateKey in objects && objects[StateKey].StateBlob? then objects[StateKey].state
    else State(0, None, [], true, [])
  }

  function LoadDomainsState(objects: Objects): DomainsState {
    if DomainsStateKey in objects && objects[DomainsStateKey].DomainsStateBlob?
    then objects[DomainsStateKey].domainsState
    else DomainsState(0, 0, None, None)
  }

  function LoadPointer(objects: Objects): Pointer {
    if PointerKey in objects && objects[PointerKey].PointerBlob? then objects[PointerKey].pointer
    else Pointer(None, None)
  }
}
