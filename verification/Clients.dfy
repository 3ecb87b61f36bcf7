/** What clients and operators see over time: a client that follows pointer.json, the grace
    period of `prune`, and the two wings sharing one document. */
module Clients {
  import opened Wrappers
  import opened Text
  import opened Delta
  import opened Wire
  import opened DeltaText
  import opened Bucket
  import opened Publisher
  import opened Runs
  import opened DeltaWindow

  // ----------------------------------------------------------- a client following pointers

  /** A history, and one that goes on from it. */
  ghost predicate Continues(past: seq<Event>, events: seq<Event>) {
    past <= events && GoodHistory(past) && GoodHistory(events)
  }

  lemma NextIsUnrecorded(objects: Objects, recorded: Record)
    requires Consistent(objects, recorded)
    ensures LoadState(objects).seqNo + 1 !in recorded
  {
    hide PointerOk;
    hide StepsOk;
    hide ArtifactOf;
  }

  lemma PublishRecordGrows(objects: Objects, recorded: Record, r: Release, cut: nat, n: nat)
    requires LoadState(objects).seqNo + 1 !in recorded && n in recorded
    ensures var after := PublishRecord(objects, recorded, r, cut); n in after && after[n] == recorded[n]
  {
    hide NoOp;
    hide DeltaNames;
    hide NextSteps;
    hide Files;
    hide Artifact;
  }

  lemma RecordStep(events: seq<Event>, n: nat)
    requires GoodHistory(events) && CleanHistory(events) && events != []
    requires n in RecordOf(events[..|events| - 1])
    ensures n in RecordOf(events) && RecordOf(events)[n] == RecordOf(events[..|events| - 1])[n]
  {
    hide After;
    hide GoodEvent;
    hide Consistent;
    hide PublishRecord;
    hide CleanRun;
    var before, e := events[..|events| - 1], events[|events| - 1];
    AlwaysConsistent(before);
    NextIsUnrecorded(After(before), RecordOf(before));
    if e.run.Publish? {
      PublishRecordGrows(After(before), RecordOf(before), e.run.release, e.cut, n);
    }
  }

  /** A saved sequence keeps its index for good. */
  lemma {:induction false} RecordGrows(past: seq<Event>, events: seq<Event>, n: nat)
    requires Continues(past, events) && CleanHistory(events) && n in RecordOf(past)
    ensures n in RecordOf(events) && RecordOf(events)[n] == RecordOf(past)[n]
  {
    hide RecordOf;
    hide After;
    hide GoodEvent;
    hide CleanRun;
    if |past| < |events| {
      RecordGrows(past, events[..|events| - 1], n);
      RecordStep(events, n);
    } else {
      assert past == events;
    }
  }

  /** Pointer and state name the same sequence. */
  ghost predicate Level(objects: Objects) {
    LoadPointer(objects).packages.Some? ==> LoadPointer(objects).packages.value.seqNo == LoadState(objects).seqNo
  }

  /** The last publish to reach the pointer died before it saved its state. */
  ghost predicate Ahead(events: seq<Event>)
    requires GoodHistory(events)
  {
    if events == [] then false
    else
      var before, e := events[..|events| - 1], events[|events| - 1];
      var o := After(before);
      match e.run
      case Publish(r, dels) =>
        if NoOp(o, LoadState(o), r.index) || e.cut <= FileCount(o, r) then Ahead(before)
        else e.cut == FileCount(o, r) + 1
      case _ => Ahead(before)
  }

  /** Over every history pointer and state are level unless the last publish to reach the
      pointer died right there; then the pointer is one ahead. */
  lemma {:induction false} LevelIff(events: seq<Event>)
    requires GoodHistory(events)
    ensures Level(After(events)) <==> !Ahead(events)
    ensures var p, s := LoadPointer(After(events)).packages, LoadState(After(events));
            (Ahead(events) ==> p.Some?) && (p.Some? ==> p.value.seqNo == s.seqNo + if Ahead(events) then 1 else 0)
  {
    hide AfterEvent;
    hide RunWrites;
    hide NoOp;
    hide NextSteps;
    hide Artifact;
    hide DeltaNames;
    hide ByFrom;
    hide FileCount;
    if events != [] {
      var before, e := events[..|events| - 1], events[|events| - 1];
      LevelIff(before);
      EventMoves(After(before), e);
    }
  }

  /** A client that installed what pointer.json named after `past` and now applies the one delta
      offered for its sequence, if one is, gets the current index. */
  ghost predicate CatchesUp(past: seq<Event>, events: seq<Event>)
    requires Continues(past, events)
  {
    var p, q := LoadPointer(After(past)).packages, LoadPointer(After(events)).packages;
    p.Some? && q.Some? && p.value.seqNo in q.value.deltas ==>
      Apply(IndexIn(p.value.artifact), Parse(q.value.deltas[p.value.seqNo].content).ops) == IndexIn(q.value.artifact)
  }

  /** So it does however the history goes on, whatever runs die. */
  ghost predicate AlwaysCatchesUp(past: seq<Event>)
    requires GoodHistory(past)
  {
    forall events :: Continues(past, events) && CleanHistory(events) ==> CatchesUp(past, events)
  }

  /** Two indexes are the same after `ops` exactly when they agree on every key `ops` does not
      mention. */
  lemma SameAfterOps(x: Index, y: Index, ops: seq<Op>)
    ensures Apply(x, ops) == Apply(y, ops)
       <==> (forall k :: k !in Effect(ops) ==> (k in x <==> k in y) && (k in x ==> x[k] == y[k]))
  {
    ApplyIsOverlay(x, ops);
    ApplyIsOverlay(y, ops);
    var e := Effect(ops);
    var u, v := Overlay(x, e), Overlay(y, e);
    if u == v {
      forall k | k !in e ensures (k in x <==> k in y) && (k in x ==> x[k] == y[k]) {
        assert k in x <==> k in u;
        assert k in y <==> k in v;
      }
    }
  }

  lemma LevelCatchesUp(past: seq<Event>, events: seq<Event>)
    requires Continues(past, events) && CleanHistory(events) && Level(After(past))
    ensures CatchesUp(past, events)
  {
    hide Apply;
    hide Parse;
    hide IndexIn;
    hide RecordOf;
    hide After;
    hide CleanRun;
    hide GoodHistory;
    var p, q := LoadPointer(After(past)).packages, LoadPointer(After(events)).packages;
    if p.Some? && q.Some? && p.value.seqNo in q.value.deltas {
      AlwaysConsistent(past);
      assert PointerOk(p.value, LoadState(After(past)).seqNo, RecordOf(past));
      RecordGrows(past, events, p.value.seqNo);
      EveryDeltaReachesCurrent(events, p.value.seqNo);
    }
  }

  /** A history with one more event. */
  lemma OneMoreEvent(events: seq<Event>, e: Event)
    requires GoodHistory(events) && GoodEvent(After(events), e)
    ensures Continues(events, events + [e]) && After(events + [e]) == AfterEvent(After(events), e)
    ensures e.run.Publish? ==>
              RecordOf(events + [e]) == PublishRecord(After(events), RecordOf(events), e.run.release, e.cut)
  {
    hide AfterEvent;
    hide GoodEvent;
    hide PublishRecord;
    assert (events + [e])[..|events|] == events;
  }

  /** The history once a whole publish of `r` that prunes nothing has followed. */
  ghost function ThenPublish(events: seq<Event>, r: Release): seq<Event>
    requires GoodHistory(events)
  {
    events + [Event(Publish(r, []), |RunWrites(After(events), Publish(r, []))|)]
  }

  lemma Published(events: seq<Event>, r: Release)
    requires GoodHistory(events) && CleanHistory(events) && GoodRelease(r) && CleanRelease(r)
    requires !NoOp(After(events), LoadState(After(events)), r.index)
    ensures var o, now := After(events), ThenPublish(events, r);
            Continues(events, now) && CleanHistory(now)
            && LoadPointer(After(now)).packages == Some(NextPackages(o, LoadState(o), r))
            && LoadState(After(now)) == NextState(o, LoadState(o), r)
            && RecordOf(now) == RecordOf(events)[LoadState(o).seqNo + 1 := r.index]
  {
    hide NoOp;
    hide After;
    hide RecordOf;
    hide NextPackages;
    hide NextState;
    hide AfterEvent;
    hide GoodHistory;
    hide CleanRelease;
    hide FileCount;
    hide LoadState;
    hide LoadPointer;
    hide RunWrites;
    var o := After(events);
    var e := Event(Publish(r, []), |RunWrites(o, Publish(r, []))|);
    OneMoreEvent(events, e);
    EventMoves(o, e);
    ReleaseLength(o, r);
  }

  lemma ReleaseLength(objects: Objects, r: Release)
    requires !NoOp(objects, LoadState(objects), r.index)
    ensures |RunWrites(objects, Publish(r, []))| == FileCount(objects, r) + 2
  {
    hide NoOp;
    hide DeltaNames;
    hide PutAll;
    hide Artifact;
    hide NextSteps;
    hide NextPackages;
    hide NextState;
    hide SignedPuts;
    hide LoadPointer;
    hide LoadState;
  }

  /** With a window of one, the one delta offered is the last step. */
  lemma LastStepOffered(objects: Objects, recorded: Record, r: Release)
    requires Consistent(objects, recorded) && CleanRelease(r) && r.window == 1 && r.keep > 0
    requires LoadState(objects).artifact.Some? && LoadState(objects).seqNo in recorded
    requires r.index != recorded[LoadState(objects).seqNo]
    ensures var s := LoadState(objects);
            var m := NextPackages(objects, s, r).deltas;
            s.seqNo in m && Parse(m[s.seqNo].content).ops == Compose(Diff(recorded[s.seqNo], r.index), [])
  {
    hide Consistent;
    hide Diff;
    hide StepOps;
    hide Artifact;
    hide Parse;
    hide Serialize;
    hide StepsOk;
    hide Compose;
    hide CleanRelease;
    var s := LoadState(objects);
    NoOpIffUnchanged(objects, recorded, r);
    NextStepsOk(objects, recorded, r);
    var step := Step(s.seqNo, s.seqNo + 1, Diff(recorded[s.seqNo], r.index));
    SlideToOne(s.steps, step);
    OneDelta(step, s.seqNo + 1);
    DeltaReads([step], 0, s.seqNo + 1, NewRecord(objects, recorded, r));
  }

  lemma SlideToOne(steps: seq<Step>, step: Step)
    ensures Slide(steps, step, 1) == [step]
  {
  }

  lemma OneDelta(step: Step, to: nat)
    ensures Composite([step], 0) == Compose(step.ops, [])
    ensures ByFrom(DeltaNames([step], to)) == map[step.from := DeltaName([step], 0, to)]
  {
    hide Compose;
    hide Serialize;
    var names := DeltaNames([step], to);
    assert names == [DeltaName([step], 0, to)];
    assert names[1..] == [];
    assert Composite([step], 1) == [];
  }

  /** A delta from `b` to `c` cannot repair a key on which the client differs from `b` and
      which it does not touch. */
  lemma StaleMisses(held: Index, b: Index, c: Index, k: Str)
    requires Changed(held, b, k) && !Changed(b, c, k)
    ensures Apply(held, Compose(Diff(b, c), [])) != c
  {
    hide OpsOf;
    var ops := Compose(Diff(b, c), []);
    DiffCorrect(b, c);
    ComposeHomomorphism(b, Diff(b, c), []);
    OpsOfSorted(Changes(b, c));
    OpsOfSorted(Effect(Diff(b, c)) + Effect([]));
    assert k !in Changes(b, c);
    assert k !in Effect(ops);
    SameAfterOps(held, b, ops);
  }

  const KEYS: seq<Str> := [[110, 112, 109, TAB, 97], [110, 112, 109, TAB, 98]]
  const SPECS: seq<Str> := [[49], [50], [51]]

  /** Some index, apart from two given ones, that says nothing of `npm b`. */
  lemma ThirdIndex(x: Index, y: Index) returns (b: Index)
    ensures b != x && b != y && CleanIndex(b)
    ensures b == map[] || b == map[KEYS[0] := SPECS[0]] || b == map[KEYS[0] := SPECS[1]]
  {
    var none: Index := map[];
    var p, q := none[KEYS[0] := SPECS[0]], none[KEYS[0] := SPECS[1]];
    assert p[KEYS[0]] != q[KEYS[0]] && KEYS[0] !in none;
    b := if none != x && none != y then none else if p != x && p != y then p else q;
  }

  lemma WhereTheyDiffer(x: Index, y: Index) returns (k: Str)
    requires x != y
    ensures Changed(x, y, k)
  {
    if x.Keys <= y.Keys && y.Keys <= x.Keys {
      assert x.Keys == y.Keys;
      k :| k in x && x[k] != y[k];
    } else {
      k :| k in x.Keys + y.Keys && (k !in x || k !in y);
    }
  }

  /** What is offered once a publish with a window of one has followed. */
  lemma OfferedNext(events: seq<Event>, r: Release)
    requires GoodHistory(events) && CleanHistory(events) && CleanRelease(r) && r.window == 1 && r.keep > 0
    requires LoadState(After(events)).artifact.Some? && LoadState(After(events)).seqNo in RecordOf(events)
    requires r.index != RecordOf(events)[LoadState(After(events)).seqNo]
    ensures var now, n := ThenPublish(events, r), LoadState(After(events)).seqNo;
            Continues(events, now) && CleanHistory(now) && LoadPointer(After(now)).packages.Some?
            && (var pk := LoadPointer(After(now)).packages.value;
                n in pk.deltas && IndexIn(pk.artifact) == r.index
                && Parse(pk.deltas[n].content).ops == Compose(Diff(RecordOf(events)[n], r.index), []))
  {
    hide After;
    hide RecordOf;
    hide NoOp;
    hide GoodHistory;
    hide CleanHistory;
    hide CleanRelease;
    hide Consistent;
    hide IndexIn;
    hide Parse;
    hide Compose;
    hide Diff;
    hide ThenPublish;
    hide NextPackages;
    hide NextState;
    hide LoadState;
    hide LoadPointer;
    var o := After(events);
    AlwaysConsistent(events);
    NoOpIffUnchanged(o, RecordOf(events), r);
    Published(events, r);
    LastStepOffered(o, RecordOf(events), r);
    NextDocuments(o, LoadState(o), r);
  }

  /** The state and record once a publish of another index has followed. */
  lemma SavedNext(events: seq<Event>, r: Release)
    requires GoodHistory(events) && CleanHistory(events) && GoodRelease(r) && CleanRelease(r)
    requires var s := LoadState(After(events));
             s.artifact.Some? ==> s.seqNo in RecordOf(events) && RecordOf(events)[s.seqNo] != r.index
    ensures var now := ThenPublish(events, r);
            Continues(events, now) && CleanHistory(now)
            && LoadState(After(now)).artifact.Some?
            && LoadState(After(now)).seqNo == LoadState(After(events)).seqNo + 1
            && RecordOf(now) == RecordOf(events)[LoadState(After(events)).seqNo + 1 := r.index]
  {
    hide After;
    hide RecordOf;
    hide NoOp;
    hide GoodHistory;
    hide CleanHistory;
    hide CleanRelease;
    hide Consistent;
    hide ThenPublish;
    hide NextSteps;
    hide Artifact;
    hide LoadState;
    hide LoadPointer;
    AlwaysConsistent(events);
    NoOpIffUnchanged(After(events), RecordOf(events), r);
    Published(events, r);
  }

  /** The two publishes of `AheadMisses`. */
  function Settings(ix: Index): Release {
    Release(ix, [], [], false, 1, 1)
  }

  lemma SettingsOk(ix: Index)
    requires CleanIndex(ix)
    ensures GoodRelease(Settings(ix)) && CleanRelease(Settings(ix))
    ensures Settings(ix).index == ix && Settings(ix).window == 1
  {
  }

  lemma AppliesNot(past: seq<Event>, events: seq<Event>, n: nat, ops: seq<Op>)
    requires Continues(past, events)
    requires LoadPointer(After(past)).packages.Some? && LoadPointer(After(past)).packages.value.seqNo == n
    requires LoadPointer(After(events)).packages.Some? && n in LoadPointer(After(events)).packages.value.deltas
    requires Parse(LoadPointer(After(events)).packages.value.deltas[n].content).ops == ops
    requires Apply(IndexIn(LoadPointer(After(past)).packages.value.artifact), ops)
             != IndexIn(LoadPointer(After(events)).packages.value.artifact)
    ensures !CatchesUp(past, events)
  {
    hide Apply;
    hide Parse;
    hide IndexIn;
    hide After;
  }

  /** Once a publish has died between pointer and state, two more whole publishes can offer the
      client a delta that does not bring it level. */
  lemma AheadMisses(past: seq<Event>) returns (b: Index, c: Index, events: seq<Event>)
    requires GoodHistory(past) && CleanHistory(past) && Ahead(past)
    ensures GoodHistory(ThenPublish(past, Settings(b)))
            && events == ThenPublish(ThenPublish(past, Settings(b)), Settings(c))
    ensures Continues(past, events) && CleanHistory(events) && !CatchesUp(past, events)
  {
    hide After;
    hide RecordOf;
    hide GoodHistory;
    hide CleanHistory;
    hide CatchesUp;
    hide Ahead;
    hide Consistent;
    hide IndexIn;
    hide Apply;
    hide Parse;
    hide Compose;
    hide Diff;
    hide ThenPublish;
    hide Settings;
    hide LoadState;
    hide LoadPointer;
    LevelIff(past);
    AlwaysConsistent(past);
    var o := After(past);
    var s, held := LoadState(o), IndexIn(LoadPointer(o).packages.value.artifact);
    ArtifactIsRecorded(o, RecordOf(past));
    b := ThirdIndex(held, if s.artifact.Some? then RecordOf(past)[s.seqNo] else held);
    var k := WhereTheyDiffer(held, b);
    c := AnotherIndex(b, k);
    var first, second := Settings(b), Settings(c);
    SettingsOk(b);
    SettingsOk(c);
    SavedNext(past, first);
    var next := ThenPublish(past, first);
    OfferedNext(next, second);
    events := ThenPublish(next, second);
    StaleMisses(held, b, c, k);
    AppliesNot(past, events, s.seqNo + 1, Compose(Diff(b, c), []));
  }

  /** A change to `b` that leaves key `k` alone. */
  lemma AnotherIndex(b: Index, k: Str) returns (c: Index)
    requires b == map[] || b == map[KEYS[0] := SPECS[0]] || b == map[KEYS[0] := SPECS[1]]
    ensures c != b && CleanIndex(c) && !Changed(b, c, k)
  {
    var j := if k == KEYS[0] then KEYS[1] else KEYS[0];
    c := b[j := SPECS[2]];
    assert c[j] == SPECS[2];
  }

  /** The client is sure to catch up, however the history goes on, exactly when pointer and state
      were level as it read the pointer: when no publish had died right between writing the two. */
  lemma ClientCatchesUpIff(past: seq<Event>)
    requires GoodHistory(past) && CleanHistory(past)
    ensures AlwaysCatchesUp(past) <==> Level(After(past))
  {
    hide CatchesUp;
    hide CleanHistory;
    hide Level;
    hide GoodHistory;
    LevelIff(past);
    if Ahead(past) {
      var b, c, events := AheadMisses(past);
    } else {
      forall events | Continues(past, events) && CleanHistory(events) ensures CatchesUp(past, events) {
        LevelCatchesUp(past, events);
      }
    }
  }

  /** The publish after `past` that saved sequence `n`. */
  lemma {:induction false} WhoSaved(past: seq<Event>, events: seq<Event>, n: nat) returns (j: nat)
    requires Continues(past, events) && CleanHistory(events) && n !in RecordOf(past) && n in RecordOf(events)
    ensures |past| <= j < |events| && GoodHistory(events[..j]) && events[j].run.Publish?
    ensures LoadState(After(events[..j])).seqNo + 1 == n
    ensures RecordOf(events)[n] == events[j].run.release.index
  {
    hide After;
    hide GoodEvent;
    hide NoOp;
    hide FileCount;
    hide CleanRun;
    if past == events {
      assert false;
    } else {
      var before, e := events[..|events| - 1], events[|events| - 1];
      if n in RecordOf(before) {
        j := WhoSaved(past, before, n);
        RecordStep(events, n);
        assert before[..j] == events[..j];
      } else {
        j := |events| - 1;
      }
    }
  }

  /** A client that read the pointer right after such a death: the sequence it holds is announced
      again by a later publish, and any delta it is offered brings it level exactly when what it
      holds and what that publish put under its sequence agree on every key the delta leaves
      alone; so it does when that publish carried the same index. */
  lemma ReuseDecides(past: seq<Event>, events: seq<Event>) returns (j: nat)
    requires Continues(past, events) && CleanHistory(events) && Ahead(past)
    requires var p, q := LoadPointer(After(past)).packages, LoadPointer(After(events)).packages;
             p.Some? && q.Some? && p.value.seqNo in q.value.deltas
    ensures |past| <= j < |events| && GoodHistory(events[..j]) && events[j].run.Publish?
    ensures var held, now := LoadPointer(After(past)).packages.value, LoadPointer(After(events)).packages.value;
            var x, y := IndexIn(held.artifact), events[j].run.release.index;
            LoadState(After(events[..j])).seqNo + 1 == held.seqNo
            && (x == y ==> CatchesUp(past, events))
            && (CatchesUp(past, events) <==>
                  forall k :: Changed(x, y, k) ==> k in Effect(Parse(now.deltas[held.seqNo].content).ops))
  {
    hide Apply;
    hide Parse;
    hide IndexIn;
    hide RecordOf;
    hide After;
    hide Effect;
    hide GoodHistory;
    hide CleanRun;
    hide Ahead;
    hide Consistent;
    var held, now := LoadPointer(After(past)).packages.value, LoadPointer(After(events)).packages.value;
    LevelIff(past);
    PastIsClean(past, events);
    AlwaysConsistent(past);
    NextIsUnrecorded(After(past), RecordOf(past));
    EveryDeltaReachesCurrent(events, held.seqNo);
    j := WhoSaved(past, events, held.seqNo);
    var x, y, ops := IndexIn(held.artifact), events[j].run.release.index, Parse(now.deltas[held.seqNo].content).ops;
    SameAfterOps(x, y, ops);
    assert forall k :: k !in Effect(ops) ==> (((k in x <==> k in y) && (k in x ==> x[k] == y[k])) <==> !Changed(x, y, k));
  }

  lemma PastIsClean(past: seq<Event>, events: seq<Event>)
    requires past <= events && CleanHistory(events)
    ensures CleanHistory(past)
  {
  }

  /** A first publish that dies right after the pointer, then two whole ones with other indexes:
      the client that followed the first is offered a delta that does not bring it level. */
  lemma DeadPublishMisleads() returns (b: Index, c: Index, past: seq<Event>, events: seq<Event>)
    ensures var r := Settings(map[KEYS[0] := SPECS[0]]);
            past == [Event(Publish(r, []), FileCount(map[], r) + 1)]
    ensures GoodHistory(past) && GoodHistory(ThenPublish(past, Settings(b)))
            && events == ThenPublish(ThenPublish(past, Settings(b)), Settings(c))
    ensures Continues(past, events) && CleanHistory(events) && !CatchesUp(past, events)
  {
    hide NoOp;
    hide After;
    hide RecordOf;
    hide CatchesUp;
    hide Ahead;
    hide RunWrites;
    hide GoodEvent;
    hide GoodHistory;
    hide FileCount;
    hide LoadState;
    hide AfterEvent;
    hide ThenPublish;
    hide Settings;
    var first: Index := map[KEYS[0] := SPECS[0]];
    var r := Settings(first);
    SettingsOk(first);
    FirstIsNoNoOp(r);
    var e := Event(Publish(r, []), FileCount(map[], r) + 1);
    CutAtPointer(map[], r);
    past := [e];
    assert [] + [e] == past;
    EmptyHistory();
    OneMoreEvent([], e);
    DiesAhead([], e);
    b, c, events := AheadMisses(past);
  }

  lemma CutAtPointer(objects: Objects, r: Release)
    requires GoodRelease(r) && !NoOp(objects, LoadState(objects), r.index)
    ensures GoodEvent(objects, Event(Publish(r, []), FileCount(objects, r) + 1))
  {
    hide NoOp;
    hide FileCount;
    hide RunWrites;
    hide LoadState;
    ReleaseLength(objects, r);
  }

  lemma EmptyHistory()
    ensures GoodHistory([]) && After([]) == map[]
  {
  }

  lemma FirstIsNoNoOp(r: Release)
    ensures !NoOp(map[], LoadState(map[]), r.index)
  {
  }

  lemma DiesAhead(events: seq<Event>, e: Event)
    requires GoodHistory(events) && GoodEvent(After(events), e) && GoodHistory(events + [e])
    requires e.run.Publish? && !NoOp(After(events), LoadState(After(events)), e.run.release.index)
    requires e.cut == FileCount(After(events), e.run.release) + 1
    ensures Ahead(events + [e])
  {
    hide NoOp;
    hide FileCount;
    hide After;
    assert (events + [e])[..|events|] == events;
  }

  /** A whole run of `publish` replaces the package fields, or leaves the pointer be. */
  lemma WholePublish(objects: Objects, r: Release, dels: seq<Write>)
    requires GoodRun(objects, Publish(r, dels))
    ensures var s := LoadState(objects);
            var after := Do(objects, PublishWrites(objects, s, r, dels));
            if NoOp(objects, s, r.index) then
              LoadPointer(after) == LoadPointer(objects) && LoadState(after) == Touched(s, r)
            else
              LoadPointer(after) == WithPackages(LoadPointer(objects), NextPackages(objects, s, r))
              && LoadState(after) == NextState(objects, s, r)
  {
    hide Do;
    hide NextSteps;
    hide NextPackages;
    hide NextState;
    hide DeltaNames;
    hide NoOp;
    hide ReleaseWrites;
    var s := LoadState(objects);
    if NoOp(objects, s, r.index) {
      OneWrite(objects, Wrote(StateKey, StateBlob(Touched(s, r))));
    } else {
      var n, name := s.seqNo + 1, Artifact(s, r);
      var p := WithPackages(LoadPointer(objects), NextPackages(objects, s, r));
      WholeRelease(objects, name, DeltaNames(NextSteps(objects, s, r), n), p, NextState(objects, s, r),
                   dels, n, r.keep);
    }
  }

  lemma WholeRelease(objects: Objects, artifact: Name, deltas: seq<Name>, p: Pointer, s: State,
                     dels: seq<Write>, n: nat, keep: nat)
    requires IsPrune(n, keep, dels) && artifact.PackagesFile? && artifact.seqNo == n && keep > 0
    ensures var after := Do(objects, ReleaseWrites(artifact, deltas, p, s, dels));
            LoadPointer(after) == p && LoadState(after) == s
  {
    hide Do;
    var ws := ReleaseWrites(artifact, deltas, p, s, dels);
    ArtifactStays(artifact, n, keep);
    ReleaseStages(objects, artifact, deltas, p, s, dels, n, keep, |ws|, artifact);
    assert ws[..|ws|] == ws;
  }

  lemma FileOutlivesRelease(objects: Objects, artifact: Name, deltas: seq<Name>, p: Pointer, s: State,
                            dels: seq<Write>, n: nat, keep: nat, kept: Name)
    requires IsPrune(n, keep, dels) && HasFile(objects, kept) && !Doomed(File(kept), n, keep)
    ensures HasFile(Do(objects, ReleaseWrites(artifact, deltas, p, s, dels)), kept)
  {
    hide Do;
    var ws := ReleaseWrites(artifact, deltas, p, s, dels);
    ReleaseStages(objects, artifact, deltas, p, s, dels, n, keep, |ws|, kept);
    assert ws[..|ws|] == ws;
  }

  lemma EmptyDo(objects: Objects)
    ensures Do(objects, []) == objects
  {
  }

  /** Documents after any number of writes of a domain run. */
  lemma DomainStages(objects: Objects, list: DomainList, dels: seq<Write>, cut: nat)
    requires GoodRun(objects, PublishDomains(list, dels)) && cut <= |DomainsWrites(objects, list, dels)|
    ensures var d := LoadDomainsState(objects);
            var now := Do(objects, DomainsWrites(objects, list, dels)[..cut]);
            var name := DomainsName(d, list);
            LoadState(now) == LoadState(objects)
            && (Refused(d, list) || Unchanged(d, list) ==>
                  LoadPointer(now) == LoadPointer(objects) && LoadDomainsState(now) == d)
            && (!Refused(d, list) && !Unchanged(d, list) ==>
                  LoadDomainsState(now) == (if cut <= 2 then d
                                            else DomainsState(d.seqNo + 1, list.entries, Some(name), Some(list.content)))
                  && LoadPointer(now) == (if cut <= 3 then LoadPointer(objects)
                                          else WithDomains(LoadPointer(objects), Domains(d.seqNo + 1, name))))
  {
    hide Do;
    var d := LoadDomainsState(objects);
    var ws := DomainsWrites(objects, list, dels);
    EmptyDo(objects);
    if Refused(d, list) || Unchanged(d, list) {
      if cut == 1 {
        assert ws[..1] == [] + [ws[0]];
        DoSnoc(objects, [], ws[0]);
      } else {
        assert ws[..0] == [];
      }
    } else {
      var name := DomainsName(d, list);
      var files, v, w := SignedPuts(name), ws[2], ws[3];
      if cut <= 2 {
        assert ws[..cut] == files[..cut];
        FilePutsKeep(objects, files[..cut]);
      } else {
        FilePutsKeep(objects, files);
        if cut == 3 {
          assert ws[..3] == files + [v];
          DoSnoc(objects, files, v);
        } else {
          assert ws[..cut] == files + [v, w] + dels[..cut - 4];
          DoConcat(objects, files, [v, w]);
          DoTwo(Do(objects, files), v, w);
          DoConcat(objects, files + [v, w], dels[..cut - 4]);
          DeletesLeaveDocuments(Do(objects, files + [v, w]), dels[..cut - 4]);
        }
      }
    }
  }

  lemma {:induction false} DeletesLeaveDocuments(objects: Objects, dels: seq<Write>)
    requires forall i :: 0 <= i < |dels| ==> dels[i].Deleted? && (dels[i].key.File? || dels[i].key.Signature?)
    ensures SameDocuments(objects, Do(objects, dels))
  {
    if dels != [] {
      DeletesLeaveDocuments(objects, dels[..|dels| - 1]);
    }
  }

  lemma OneWrite(objects: Objects, w: Write)
    ensures Do(objects, [w]) == DoOne(objects, w)
  {
    EmptyDo(objects);
    DoSnoc(objects, [], w);
    assert [] + [w] == [w];
  }

  /** Writes that leave the domain wing alone. */
  ghost predicate KeepDomains(domains: Option<Domains>, ws: seq<Write>) {
    forall i :: 0 <= i < |ws| ==>
      match ws[i]
      case Wrote(k, b) =>
        !k.DomainsStateKey? && (k.PointerKey? ==> b.PointerBlob? && b.pointer.domains == domains)
      case Deleted(k) => k.File? || k.Signature?
  }

  lemma {:induction false} KeepDomainsDo(objects: Objects, ws: seq<Write>)
    requires KeepDomains(LoadPointer(objects).domains, ws)
    ensures LoadPointer(Do(objects, ws)).domains == LoadPointer(objects).domains
    ensures LoadDomainsState(Do(objects, ws)) == LoadDomainsState(objects)
  {
    if ws != [] {
      KeepDomainsDo(objects, ws[..|ws| - 1]);
    }
  }

  lemma PublishKeepsDomains(objects: Objects, r: Release, dels: seq<Write>, cut: nat)
    requires GoodRun(objects, Publish(r, dels)) && cut <= |RunWrites(objects, Publish(r, dels))|
    ensures KeepDomains(LoadPointer(objects).domains, RunWrites(objects, Publish(r, dels))[..cut])
  {
    hide NoOp;
    hide NextSteps;
    hide NextPackages;
    hide NextState;
    hide DeltaNames;
    hide Artifact;
    hide PutAll;
    var s := LoadState(objects);
    if !NoOp(objects, s, r.index) {
      PutAllAreFilePuts(DeltaNames(NextSteps(objects, s, r), s.seqNo + 1));
    }
  }

  /** What one run, stopped anywhere, does to the domain half of pointer and state. */
  lemma EventMovesDomains(objects: Objects, e: Event)
    requires GoodEvent(objects, e)
    ensures var d, d' := LoadDomainsState(objects), LoadDomainsState(AfterEvent(objects, e));
            var p, p' := LoadPointer(objects).domains, LoadPointer(AfterEvent(objects, e)).domains;
            if e.run.PublishDomains? && Releases(d, e.run.list) then
              var list := e.run.list;
              var name := DomainsName(d, list);
              d' == (if e.cut <= 2 then d else DomainsState(d.seqNo + 1, list.entries, Some(name), Some(list.content)))
              && p' == (if e.cut <= 3 then p else Some(Domains(d.seqNo + 1, name)))
            else d' == d && p' == p
  {
    hide Do;
    var ws := RunWrites(objects, e.run);
    match e.run
    case Publish(r, dels) =>
      PublishKeepsDomains(objects, r, dels, e.cut);
      KeepDomainsDo(objects, ws[..e.cut]);
    case PublishDomains(list, dels) => DomainStages(objects, list, dels, e.cut);
    case _ => OneOrNone(objects, ws[0], e.cut);
  }

  /** The package fields the last publish to reach the pointer wrote. */
  ghost function LastPackages(events: seq<Event>): Option<Packages>
    requires GoodHistory(events)
  {
    if events == [] then None
    else
      var before, e := events[..|events| - 1], events[|events| - 1];
      var o := After(before);
      match e.run
      case Publish(r, dels) =>
        if NoOp(o, LoadState(o), r.index) || e.cut <= FileCount(o, r) then LastPackages(before)
        else Some(NextPackages(o, LoadState(o), r))
      case _ => LastPackages(before)
  }

  /** The domains block the last domain run to reach the pointer wrote. */
  ghost function LastDomains(events: seq<Event>): Option<Domains>
    requires GoodHistory(events)
  {
    if events == [] then None
    else
      var before, e := events[..|events| - 1], events[|events| - 1];
      var d := LoadDomainsState(After(before));
      match e.run
      case PublishDomains(list, dels) =>
        if !Releases(d, list) || e.cut <= 3 then LastDomains(before)
        else Some(Domains(d.seqNo + 1, DomainsName(d, list)))
      case _ => LastDomains(before)
  }

  /** Two wings, one document: over every history, whatever runs died where, neither wing drops
      what the other put there. */
  lemma {:induction false} PointerIsBothHalves(events: seq<Event>)
    requires GoodHistory(events)
    ensures LoadPointer(After(events)) == Pointer(LastPackages(events), LastDomains(events))
  {
    hide NoOp;
    hide NextPackages;
    hide AfterEvent;
    hide FileCount;
    hide RunWrites;
    hide Releases;
    if events != [] {
      var before, e := events[..|events| - 1], events[|events| - 1];
      PointerIsBothHalves(before);
      EventMoves(After(before), e);
      EventMovesDomains(After(before), e);
    }
  }

  /** Publishing an unchanged index after any history keeps sequence and pointer, and publishing
      a changed one always moves on. */
  lemma SequenceMovesIffIndexMoves(events: seq<Event>, r: Release, dels: seq<Write>)
    requires GoodHistory(events) && CleanHistory(events)
    requires GoodRun(After(events), Publish(r, dels)) && CleanRelease(r)
    ensures var before := After(events);
            var after := Do(before, RunWrites(before, Publish(r, dels)));
            var s := LoadState(before);
            if s.artifact.Some? && s.seqNo in RecordOf(events) && RecordOf(events)[s.seqNo] == r.index then
              LoadState(after).seqNo == s.seqNo && LoadPointer(after) == LoadPointer(before)
            else
              LoadState(after).seqNo == s.seqNo + 1 && LoadPointer(after).packages.Some?
              && LoadPointer(after).packages.value.seqNo == s.seqNo + 1
              && IndexIn(LoadPointer(after).packages.value.artifact) == r.index
  {
    hide After;
    hide RecordOf;
    hide Do;
    hide NextSteps;
    hide NextPackages;
    hide NextState;
    hide Artifact;
    hide NoOp;
    hide IndexIn;
    hide Consistent;
    hide PublishWrites;
    hide GoodHistory;
    var before := After(events);
    var s := LoadState(before);
    AlwaysConsistent(events);
    ArtifactIsRecorded(before, RecordOf(events));
    NoOpIffUnchanged(before, RecordOf(events), r);
    WholePublish(before, r, dels);
    NextDocuments(before, s, r);
  }

  lemma ArtifactIsRecorded(objects: Objects, recorded: Record)
    requires Consistent(objects, recorded)
    ensures LoadState(objects).artifact.Some? ==> LoadState(objects).seqNo in recorded
  {
    hide StepsOk;
    hide PointerOk;
    hide ArtifactOf;
  }

  lemma NextDocuments(objects: Objects, s: State, r: Release)
    requires CleanRelease(r)
    ensures NextState(objects, s, r).seqNo == s.seqNo + 1 == NextPackages(objects, s, r).seqNo
    ensures IndexIn(NextPackages(objects, s, r).artifact) == r.index
  {
    hide NextSteps;
    hide DeltaNames;
    hide ByFrom;
    hide ArtifactText;
    hide IndexIn;
    assert ArtifactOf(Artifact(s, r), s.seqNo + 1, r.index);
    ArtifactReads(Artifact(s, r), s.seqNo + 1, r.index);
  }

  // ------------------------------------------------------------------------ grace and domains

  /** With `keep` at least two, the files of the previous pointer outlive the next publish, so a
      client half way through a download still finishes. */
  lemma PreviousFilesStay(events: seq<Event>, r: Release, dels: seq<Write>, n: Name)
    requires GoodHistory(events) && GoodRun(After(events), Publish(r, dels)) && r.keep >= 2
    requires LoadPointer(After(events)).packages.Some?
    requires var pk := LoadPointer(After(events)).packages.value; n == pk.artifact || n in pk.deltas.Values
    ensures HasFile(Do(After(events), RunWrites(After(events), Publish(r, dels))), n)
  {
    hide After;
    hide Do;
    hide IndexIn;
    hide NoOp;
    hide NextSteps;
    hide NextPackages;
    hide NextState;
    hide DeltaNames;
    hide ReleaseWrites;
    hide Ahead;
    hide Level;
    hide FileCount;
    hide ArtifactText;
    hide GoodHistory;
    hide HasFile;
    var before := After(events);
    var pk, s := LoadPointer(before).packages.value, LoadState(before);
    PointerNeverDangles(events);
    LevelIff(events);
    assert n in Names(LoadPointer(before));
    assert HasFile(before, n);
    if NoOp(before, s, r.index) {
      OneWrite(before, Wrote(StateKey, StateBlob(Touched(s, r))));
      FileOutlivesState(before, StateBlob(Touched(s, r)), n);
    } else {
      NotDoomed(pk, n, s.seqNo, r.keep);
      var p := WithPackages(LoadPointer(before), NextPackages(before, s, r));
      FileOutlivesRelease(before, Artifact(s, r), DeltaNames(NextSteps(before, s, r), s.seqNo + 1), p,
                          NextState(before, s, r), dels, s.seqNo + 1, r.keep, n);
    }
  }

  lemma FileOutlivesState(objects: Objects, b: Blob, n: Name)
    requires HasFile(objects, n)
    ensures HasFile(DoOne(objects, Wrote(StateKey, b)), n)
  {
  }

  lemma NotDoomed(pk: Packages, n: Name, seqNo: nat, keep: nat)
    requires TypedPackages(pk) && pk.seqNo >= seqNo && keep >= 2
    requires n == pk.artifact || n in pk.deltas.Values
    ensures !Doomed(File(n), seqNo + 1, keep)
  {
  }

  /** Neither below the floor nor unchanged. */
  predicate Releases(d: DomainsState, list: DomainList) {
    !Refused(d, list) && !Unchanged(d, list)
  }

  /** The pointer's domains block is what the domain wing's state says was published. */
  ghost predicate DomainsLevel(objects: Objects) {
    var d := LoadDomainsState(objects);
    LoadPointer(objects).domains == if d.artifact.Some? then Some(Domains(d.seqNo, d.artifact.value)) else None
  }

  /** The last domain run to save what it released died before it reached the pointer. */
  ghost predicate Unannounced(events: seq<Event>)
    requires GoodHistory(events)
  {
    if events == [] then false
    else
      var before, e := events[..|events| - 1], events[|events| - 1];
      match e.run
      case PublishDomains(list, dels) =>
        if !Releases(LoadDomainsState(After(before)), list) || e.cut <= 2 then Unannounced(before) else e.cut == 3
      case _ => Unannounced(before)
  }

  /** Over every history the domains block says what was last released unless the last run to
      save a release died right before announcing it. */
  lemma {:induction false} DomainsLevelIff(events: seq<Event>)
    requires GoodHistory(events)
    ensures DomainsLevel(After(events)) <==> !Unannounced(events)
    ensures var d, p := LoadDomainsState(After(events)), LoadPointer(After(events)).domains;
            p.Some? ==> p.value.seqNo <= d.seqNo
  {
    hide AfterEvent;
    hide RunWrites;
    hide Releases;
    if events != [] {
      var before, e := events[..|events| - 1], events[|events| - 1];
      DomainsLevelIff(before);
      EventMovesDomains(After(before), e);
    }
  }

  /** Every domain run from event `k` on carries this content. */
  predicate SameContent(events: seq<Event>, k: nat, content: Str) {
    forall i :: k <= i < |events| ==> events[i].run.PublishDomains? ==> events[i].run.list.content == content
  }

  /** Once the domain wing's state holds a content, runs on the same content, with any package
      runs in between and wherever any of them die, leave block and state as they are. */
  lemma {:induction false} SameContentStays(past: seq<Event>, events: seq<Event>, content: Str)
    requires Continues(past, events) && SameContent(events, |past|, content)
    requires LoadDomainsState(After(past)).contentSha == Some(content) && LoadDomainsState(After(past)).artifact.Some?
    ensures LoadDomainsState(After(events)) == LoadDomainsState(After(past))
    ensures LoadPointer(After(events)).domains == LoadPointer(After(past)).domains
  {
    hide AfterEvent;
    hide RunWrites;
    if |past| < |events| {
      var before, e := events[..|events| - 1], events[|events| - 1];
      SameContentStays(past, before, content);
      EventMovesDomains(After(before), e);
    } else {
      assert past == events;
    }
  }

  /** After a domain run that died between its state and the pointer, no later run on the same
      content ever announces it: the block stays the one from before the dead run. */
  lemma DomainsRerunNeverAnnounces(before: seq<Event>, dead: Event, events: seq<Event>)
    requires Continues(before + [dead], events) && GoodHistory(before) && GoodEvent(After(before), dead)
    requires dead.run.PublishDomains? && Releases(LoadDomainsState(After(before)), dead.run.list) && dead.cut == 3
    requires SameContent(events, |before| + 1, dead.run.list.content)
    ensures LoadPointer(After(events)).domains == LoadPointer(After(before)).domains
    ensures LoadDomainsState(After(events)).contentSha == Some(dead.run.list.content)
    ensures !DomainsLevel(After(events))
  {
    hide AfterEvent;
    hide RunWrites;
    hide GoodEvent;
    hide After;
    OneMoreEvent(before, dead);
    EventMovesDomains(After(before), dead);
    SameContentStays(before + [dead], events, dead.run.list.content);
    DomainsLevelIff(before);
  }

  /** A first domain run cut after its third write: the state has the list and pointer.json
      says nothing of it. */
  lemma FirstListUnannounced(list: DomainList)
    requires list.keep > 0
    ensures var events := [Event(PublishDomains(list, []), 3)];
            GoodHistory(events) && Unannounced(events) && !DomainsLevel(After(events))
            && LoadDomainsState(After(events)).contentSha == Some(list.content)
            && LoadPointer(After(events)).domains.None?
  {
    hide AfterEvent;
    hide RunWrites;
    hide DomainsLevel;
    var e := Event(PublishDomains(list, []), 3);
    EmptyHistory();
    FirstListReleases(list);
    OneMoreEvent([], e);
    assert [] + [e] == [e] && [e][..0] == [];
    EventMovesDomains(map[], e);
    DomainsLevelIff([e]);
  }

  lemma FirstListReleases(list: DomainList)
    requires list.keep > 0
    ensures Releases(LoadDomainsState(map[]), list) && GoodEvent(map[], Event(PublishDomains(list, []), 3))
    ensures LoadPointer(map[]).domains.None?
  {
  }
}
