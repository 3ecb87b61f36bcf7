/** Folding the alert log: records into alerts, and the closed form of the result. */
module LogFold {
  import opened Wrappers
  import opened Text
  import opened Sorting
  import opened Alerts
  import opened Updates

  /** A parsed line. A receipt is not an alert whatever else it carries. */
  datatype Record = ReceiptLine(receipt: Str) | NoId | Update(id: Str, patch: Patch) | Full(id: Str, fixed: Fixed, sent: Patch)

  /** A receipt with its number in file order. */
  datatype Receipt = Receipt(text: Str, index: nat)

  const MONITOR: Str := Ascii("monitor")

  /** `normalizeAlert`: the line's changing half with the defaults filled in. */
  function NormalLive(f: Fixed, p: Patch): Live {
    var stamp := AsSurface(p.surface);
    Live(
      Some(p.acked == Some(true)),
      Some(if p.ackedBy.Some? then p.ackedBy.value else []),
      Some(OrElse(if p.actionTaken.Some? then p.actionTaken.value else [], NONE)),
      Some(if p.count.Some? then p.count.value else Finite(1.0)),
      Some(OrElse(if p.mode.Some? then p.mode.value else [], MONITOR)),
      Some(if AsItems(p.rotate).Some? then AsItems(p.rotate).value else []),
      Some(if AsItems(p.actions).Some? then AsItems(p.actions).value else []),
      Some(if p.ts.Some? then p.ts.value else []),
      AsTriage(p.triage), AsChain(p.chain),
      Some(if stamp.Some? then stamp.value else if AtLeast(f.severity, High) && f.suppressedBy == [] then OnAlerts else OnTimeline),
      stamp.Some?)
  }

  function NormalAlert(id: Str, f: Fixed, p: Patch): Alert {
    Alert(id, f, NormalLive(f, p), IsDemotionMarker(f.suppressedBy), f.suppressedBy == [] || IsDemotionMarker(f.suppressedBy))
  }

  datatype Folded = Folded(byId: map<Str, Alert>, order: seq<Str>, pending: map<Str, Live>, receipts: seq<Receipt>)

  const EMPTY := Folded(map[], [], map[], [])

  function Updated(a: Alert, p: Patch): Alert { a.(live := Apply(a.live, p)) }

  function ParkedFor(s: Folded, id: Str): Live {
    if id in s.pending then s.pending[id] else NOTHING
  }

  /** One record: the loop body of `foldRecords` and of `foldChunk`. */
  function FoldRecord(s: Folded, r: Record): Folded {
    match r
    case ReceiptLine(text) => s.(receipts := s.receipts + [Receipt(text, |s.receipts|)])
    case NoId => s
    case Update(id, p) =>
      if id in s.byId then s.(byId := s.byId[id := Updated(s.byId[id], p)])
      else s.(pending := s.pending[id := Apply(ParkedFor(s, id), p)])
    case Full(id, f, p) =>
      var a := NormalAlert(id, f, p);
      Folded(
        s.byId[id := if id in s.pending then Updated(a, AsPatch(s.pending[id])) else a],
        if id in s.byId then s.order else s.order + [id],
        s.pending - {id},
        s.receipts)
  }

  function FoldFrom(s: Folded, rs: seq<Record>): Folded {
    if rs == [] then s else FoldRecord(FoldFrom(s, rs[..|rs| - 1]), rs[|rs| - 1])
  }

  lemma FoldNone(s: Folded)
    ensures FoldFrom(s, []) == s
  {
  }

  lemma FoldSnoc(s: Folded, rs: seq<Record>, r: Record)
    ensures FoldFrom(s, rs + [r]) == FoldRecord(FoldFrom(s, rs), r)
  {
    hide FoldRecord;
    assert (rs + [r])[..|rs|] == rs;
  }

  lemma {:induction false} FoldFromConcat(s: Folded, rs: seq<Record>, qs: seq<Record>)
    ensures FoldFrom(s, rs + qs) == FoldFrom(FoldFrom(s, rs), qs)
  {
    hide FoldRecord;
    if qs == [] {
      assert rs + qs == rs;
    } else {
      var all := rs + qs;
      assert all[..|all| - 1] == rs + qs[..|qs| - 1] && all[|all| - 1] == qs[|qs| - 1];
      FoldFromConcat(s, rs, qs[..|qs| - 1]);
    }
  }

  /** No id is both held and parked, the order lists the held ids once each, and an alert is
      filed under its own id. */
  ghost predicate Consistent(s: Folded) {
    && s.byId.Keys !! s.pending.Keys
    && Elements(s.order) == s.byId.Keys
    && (forall i, j :: 0 <= i < j < |s.order| ==> s.order[i] != s.order[j])
    && (forall id :: id in s.byId ==> s.byId[id].id == id)
  }

  lemma OrderExtends(order: seq<Str>, id: Str)
    requires id !in Elements(order) && forall i, j :: 0 <= i < j < |order| ==> order[i] != order[j]
    ensures (var o := order + [id];
             Elements(o) == Elements(order) + {id} && forall i, j :: 0 <= i < j < |o| ==> o[i] != o[j])
  {
    var o := order + [id];
    assert forall i :: 0 <= i < |order| ==> order[i] in Elements(order);
    assert o[|order|] == id;
    forall x ensures x in o <==> x in order || x == id {
    }
  }

  lemma StepConsistent(s: Folded, r: Record)
    requires Consistent(s)
    ensures Consistent(FoldRecord(s, r))
  {
    hide Apply;
    hide NormalLive;
    hide Elements;
    hide AsPatch;
    hide IsDemotionMarker;
    if r.Full? && r.id !in s.byId {
      OrderExtends(s.order, r.id);
    }
  }

  lemma ConsistentOrder(s: Folded)
    requires Consistent(s)
    ensures Elements(s.order) == s.byId.Keys && forall i, j :: 0 <= i < j < |s.order| ==> s.order[i] != s.order[j]
    ensures forall id :: id in s.byId ==> s.byId[id].id == id
  {
  }

  lemma {:induction false} FoldConsistent(s: Folded, rs: seq<Record>)
    requires Consistent(s)
    ensures Consistent(FoldFrom(s, rs))
  {
    hide FoldRecord;
    hide Consistent;
    if rs != [] {
      FoldConsistent(s, rs[..|rs| - 1]);
      StepConsistent(FoldFrom(s, rs[..|rs| - 1]), rs[|rs| - 1]);
    }
  }

  // -------------------------------------------------------------------------- closed form

  /** The updates for an alert, in log order. */
  function UpdatesFor(rs: seq<Record>, id: Str): seq<Patch> {
    if rs == [] then []
    else
      var r := rs[|rs| - 1];
      UpdatesFor(rs[..|rs| - 1], id) + (if r.Update? && r.id == id then [r.patch] else [])
  }

  predicate HasFull(rs: seq<Record>, id: Str) {
    exists i :: 0 <= i < |rs| && rs[i].Full? && rs[i].id == id
  }

  /** Is record `i` the last full record of its id? */
  predicate IsLastFull(rs: seq<Record>, id: Str, i: nat) {
    i < |rs| && rs[i].Full? && rs[i].id == id && !HasFull(rs[i + 1..], id)
  }

  /** The updates that act on the alert whose last full record is record `i`: those after it,
      and if no full record came before it, those before it first. */
  function ActingOn(rs: seq<Record>, id: Str, i: nat): seq<Patch>
    requires i < |rs|
  {
    (if HasFull(rs[..i], id) then [] else UpdatesFor(rs[..i], id)) + UpdatesFor(rs[i + 1..], id)
  }

  /** No parked verdict had a blank outcome. */
  predicate ParkedSpeaks(rs: seq<Record>, id: Str, i: nat)
    requires i < |rs|
  {
    HasFull(rs[..i], id) || !BlankOutcome(LastTriage(UpdatesFor(rs[..i], id)))
  }

  lemma {:induction false} WaitingForm(rs: seq<Record>, id: Str)
    requires !HasFull(rs, id)
    ensures (var s := FoldFrom(EMPTY, rs);
             id !in s.byId && ParkedFor(s, id) == ApplyAll(NOTHING, UpdatesFor(rs, id))
             && (id in s.pending <==> UpdatesFor(rs, id) != []))
  {
    hide Apply;
    hide NormalAlert;
    if rs != [] {
      var init, r := rs[..|rs| - 1], rs[|rs| - 1];
      assert forall i :: 0 <= i < |init| ==> rs[i] == init[i];
      WaitingForm(init, id);
      if r.Update? && r.id == id {
        ApplyAllSnoc(NOTHING, UpdatesFor(init, id), r.patch);
      } else {
        assert UpdatesFor(rs, id) == UpdatesFor(init, id);
      }
    }
  }

  lemma LaterUpdatesApply(s: Folded, rs: seq<Record>, id: Str)
    requires id in s.byId && !HasFull(rs, id)
    ensures (var t := FoldFrom(s, rs);
             id in t.byId && t.byId[id] == s.byId[id].(live := ApplyAll(s.byId[id].live, UpdatesFor(rs, id))))
  {
    hide Apply;
    hide NormalAlert;
    if rs != [] {
      var init, r := rs[..|rs| - 1], rs[|rs| - 1];
      assert forall i :: 0 <= i < |init| ==> rs[i] == init[i];
      LaterUpdatesApply(s, init, id);
      if r.Update? && r.id == id {
        ApplyAllSnoc(s.byId[id].live, UpdatesFor(init, id), r.patch);
      } else {
        assert UpdatesFor(rs, id) == UpdatesFor(init, id);
      }
    }
  }

  lemma HeldIffFull(rs: seq<Record>, id: Str)
    ensures id in FoldFrom(EMPTY, rs).byId <==> HasFull(rs, id)
  {
    hide Apply;
    hide NormalAlert;
    if rs != [] {
      var init, r := rs[..|rs| - 1], rs[|rs| - 1];
      assert forall i :: 0 <= i < |init| ==> rs[i] == init[i];
      HeldIffFull(init, id);
      assert HasFull(rs, id) <==> HasFull(init, id) || (r.Full? && r.id == id);
    }
  }

  /** What the fold holds just after a full record. */
  lemma AtFull(rs: seq<Record>, id: Str, f: Fixed, p: Patch)
    ensures (var s := FoldFrom(EMPTY, rs + [Full(id, f, p)]);
             var parked := if HasFull(rs, id) then [] else UpdatesFor(rs, id);
             var after := ApplyAll(NormalLive(f, p), parked);
             id in s.byId && s.byId[id].(live := NormalLive(f, p)) == NormalAlert(id, f, p)
             && s.byId[id].live.(triage := after.triage) == after
             && (s.byId[id].live == after <==> !BlankOutcome(LastTriage(parked))))
  {
    hide Apply;
    hide NormalLive;
    hide AsPatch;
    hide BlankOutcome;
    hide LastTriage;
    hide ApplyAll;
    hide NormalAlert;
    NoUpdates(NormalLive(f, p));
    NormalAlertLive(id, f, p);
    var all := rs + [Full(id, f, p)];
    assert all[..|all| - 1] == rs;
    var before := FoldFrom(EMPTY, rs);
    EmptyConsistent();
    FoldConsistent(EMPTY, rs);
    HeldIffFull(rs, id);
    if !HasFull(rs, id) {
      WaitingForm(rs, id);
      ParkedActsAsAfter(NormalLive(f, p), UpdatesFor(rs, id));
    }
  }

  lemma NoUpdates(t: Live)
    ensures ApplyAll(t, []) == t && !BlankOutcome(LastTriage([]))
  {
  }

  lemma NormalAlertLive(id: Str, f: Fixed, p: Patch)
    ensures NormalAlert(id, f, p).live == NormalLive(f, p)
  {
    hide NormalLive;
  }

  lemma EmptyConsistent()
    ensures Consistent(EMPTY)
  {
  }

  /** Some update carries a verdict. */
  predicate SaysVerdict(ps: seq<Patch>) {
    exists i :: 0 <= i < |ps| && AsTriage(ps[i].triage).Some?
  }

  /** Two states that differ in their verdict only stay so, until an update brings one. */
  lemma {:induction false} VerdictWashesOut(x: Live, y: Live, ps: seq<Patch>)
    requires x.(triage := y.triage) == y
    ensures var u, v := ApplyAll(x, ps), ApplyAll(y, ps);
            u.(triage := v.triage) == v && (u == v <==> x == y || SaysVerdict(ps))
    decreases |ps|
  {
    hide AsTriage;
    if ps != [] {
      var init, last := ps[..|ps| - 1], ps[|ps| - 1];
      assert ps == init + [last];
      VerdictWashesOut(x, y, init);
      ApplyAllSnoc(x, init, last);
      ApplyAllSnoc(y, init, last);
      assert SaysVerdict(ps) <==> SaysVerdict(init) || AsTriage(last.triage).Some? by {
        if i :| 0 <= i < |init| && AsTriage(init[i].triage).Some? {
          assert ps[i] == init[i];
        }
        assert ps[|init|] == last;
        if i :| 0 <= i < |ps| && AsTriage(ps[i].triage).Some? {
          assert i < |init| ==> init[i] == ps[i];
        }
      }
    }
  }

  /** The closed form: an alert is its last full record with the later updates applied in log
      order, and updates that came before its first full record act as if they had followed it.
      That is exact but for the verdict, and for that too unless the last verdict before the first
      full record has a blank outcome and no later update brings another. */
  lemma ClosedForm(rs: seq<Record>, id: Str, i: nat)
    requires IsLastFull(rs, id, i)
    ensures (var s, f, p := FoldFrom(EMPTY, rs), rs[i].fixed, rs[i].sent;
             var form := NormalAlert(id, f, p).(live := ApplyAll(NormalLive(f, p), ActingOn(rs, id, i)));
             id in s.byId && s.byId[id].(live := s.byId[id].live.(triage := form.live.triage)) == form
             && (s.byId[id] == form <==> ParkedSpeaks(rs, id, i) || SaysVerdict(UpdatesFor(rs[i + 1..], id))))
  {
    hide NormalLive;
    hide FoldFrom;
    hide ApplyAll;
    hide UpdatesFor;
    hide Trim;
    hide SaysVerdict;
    hide BlankOutcome;
    hide LastTriage;
    var f, p := rs[i].fixed, rs[i].sent;
    var before, after := rs[..i], rs[i + 1..];
    var parked := if HasFull(before, id) then [] else UpdatesFor(before, id);
    assert rs == before + [rs[i]] + after;
    FoldFromConcat(EMPTY, before + [rs[i]], after);
    AtFull(before, id, f, p);
    NoUpdates(NormalLive(f, p));
    var mid := FoldFrom(EMPTY, before + [rs[i]]);
    LaterUpdatesApply(mid, after, id);
    ApplyAllConcat(NormalLive(f, p), parked, UpdatesFor(after, id));
    VerdictWashesOut(mid.byId[id].live, ApplyAll(NormalLive(f, p), parked), UpdatesFor(after, id));
  }

  // ------------------------------------------------------------------------ newest first

  /** Ids compare by UTF-16 units; the newest, which is the largest, comes first. */
  predicate Newer(a: Str, b: Str) { Lex(a, b) > 0 }

  lemma NewerIsStrict()
    ensures StrictOrder(Newer)
  {
    forall a: Str, b: Str ensures a == b || Newer(a, b) || Newer(b, a) {
      LexZero(a, b);
      LexFlip(a, b);
    }
    forall a: Str ensures !Newer(a, a) {
      LexZero(a, a);
    }
    forall a: Str, b: Str, c: Str | Newer(a, b) && Newer(b, c) ensures Newer(a, c) {
      LexFlip(a, b);
      LexFlip(b, c);
      LexFlip(a, c);
      LexTransitive(c, b, a);
    }
  }

  /** The held ids, newest first: the order they arrived in no longer shows. */
  ghost function NewestFirst(s: Folded): (ids: seq<Str>)
    ensures Elements(ids) == s.byId.Keys
  {
    NewerIsStrict();
    Sorted(Newer, s.byId.Keys)
  }

  /** `sort(compareAlertsNewestFirst)` over the first-seen order. */
  method SortNewest(order: seq<Str>) returns (ids: seq<Str>)
    requires forall i, j :: 0 <= i < j < |order| ==> order[i] != order[j]
    ensures StrictOrder(Newer) && ids == Sorted(Newer, Elements(order))
  {
    NewerIsStrict();
    ids := [];
    for j := 0 to |order|
      invariant SortedBy(Newer, ids) && Elements(ids) == Elements(order[..j])
    {
      assert order[..j + 1] == order[..j] + [order[j]];
      assert order[j] !in Elements(order[..j]);
      InsertSorted(Newer, order[j], ids);
      ids := Insert(Newer, order[j], ids);
    }
    assert order[..|order|] == order;
    SortedUnique(Newer, ids, Sorted(Newer, Elements(order)));
  }

  lemma InElements(ids: seq<Str>)
    ensures forall i :: 0 <= i < |ids| ==> ids[i] in Elements(ids)
  {
  }

  /** `foldRecords`: the alerts of a whole list of records, newest first. */
  method FoldRecords(records: seq<Record>) returns (alerts: seq<Alert>)
    ensures (var s := FoldFrom(EMPTY, records);
             |alerts| == |NewestFirst(s)|
             && forall i :: 0 <= i < |alerts| ==> alerts[i].id == NewestFirst(s)[i] && alerts[i] == s.byId[NewestFirst(s)[i]])
  {
    hide Apply;
    hide NormalAlert;
    hide AsPatch;
    hide Updated;
    hide Consistent;
    hide Elements;
    hide FoldFrom;
    var byId: map<Str, Alert>, order: seq<Str>, pending: map<Str, Live> := map[], [], map[];
    ghost var receipts: seq<Receipt> := [];
    EmptyConsistent();
    assert FoldFrom(EMPTY, []) == EMPTY by {
      FoldNone(EMPTY);
    }
    assert records[..0] == [];
    for i := 0 to |records|
      invariant Folded(byId, order, pending, receipts) == FoldFrom(EMPTY, records[..i])
      invariant Consistent(Folded(byId, order, pending, receipts))
    {
      ghost var s := Folded(byId, order, pending, receipts);
      var record := records[i];
      match record {
        case ReceiptLine(text) => receipts := receipts + [Receipt(text, |receipts|)];
        case NoId =>
        case Update(id, patch) =>
          if id in byId {
            byId := byId[id := Updated(byId[id], patch)];
          } else {
            if id !in pending {
              pending := pending[id := NOTHING];
            }
            pending := pending[id := Apply(pending[id], patch)];
          }
        case Full(id, fixed, sent) =>
          if id !in byId {
            order := order + [id];
          }
          byId := byId[id := NormalAlert(id, fixed, sent)];
          if id in pending {
            byId := byId[id := Updated(byId[id], AsPatch(pending[id]))];
            pending := pending - {id};
          }
      }
      assert Folded(byId, order, pending, receipts) == FoldRecord(s, record);
      StepConsistent(s, record);
      FoldSnoc(EMPTY, records[..i], record);
      assert records[..i + 1] == records[..i] + [record];
    }
    assert records[..|records|] == records;
    ConsistentOrder(Folded(byId, order, pending, receipts));
    var ids := SortNewest(order);
    InElements(ids);
    alerts := seq(|ids|, i requires 0 <= i < |ids| => byId[ids[i]]);
  }
}
