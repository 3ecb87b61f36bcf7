/** The panel's incremental reader: it keeps the fold between reads and folds only the whole
    lines that were appended. */
module LogStore {
  import opened Wrappers
  import opened Text
  import opened Sorting
  import opened Alerts
  import opened Updates
  import opened LogFold

  const GUARD := 64

  /** A total line parser; a blank line parses to nothing. */
  type Parser = Str -> Option<Record>

  function Parsed(lines: seq<Str>, parse: Parser): seq<Record> {
    if lines == [] then []
    else Parsed(lines[..|lines| - 1], parse)
         + (if parse(lines[|lines| - 1]).Some? then [parse(lines[|lines| - 1]).value] else [])
  }

  /** `parseText`. */
  function Records(text: Str, parse: Parser): seq<Record> {
    Parsed(Split(text, NEWLINE), parse)
  }

  /** `bodySlice`: a range of the rotated half followed by the live half. */
  function BodySlice(prefix: Str, live: Str, start: nat, end: nat): (s: Str)
    requires start <= end <= |prefix| + |live|
    ensures s == (prefix + live)[start..end]
  {
    var cut := |prefix|;
    if end <= cut then prefix[start..end]
    else if start >= cut then live[start - cut..end - cut]
    else prefix[start..] + live[..end - cut]
  }

  /** Where the last whole line of the body ends. */
  function WholeLines(prefix: Str, live: Str): (end: nat)
    ensures |prefix| <= end <= |prefix| + |live|
  {
    |prefix| + (LastIndexOf(live, NEWLINE) + 1)
  }

  /** The last characters of a text. */
  function TailOf(text: Str): (t: Str)
    ensures |t| <= |text|
  {
    text[if |text| > GUARD then |text| - GUARD else 0..]
  }

  // ------------------------------------------------------------------------ specification

  /** The running fold: what was folded, how much of the body that was, and its tail. */
  datatype Held = Held(folded: Folded, consumed: nat, guard: Str)

  const FRESH := Held(EMPTY, 0, [])

  /** `foldIsAppendOf`. */
  predicate IsAppendOf(h: Held, body: Str)
    requires |h.guard| <= h.consumed
  {
    h.consumed == 0 || (|body| >= h.consumed && body[h.consumed - |h.guard|..h.consumed] == h.guard)
  }

  datatype LogState = LogState(prefix: Str, lastLength: int, fold: Option<Held>)

  predicate Guarded(st: LogState) {
    st.fold.Some? ==> |st.fold.value.guard| <= st.fold.value.consumed
  }

  /** Does this read continue the fold, or start over? */
  predicate Continues(st: LogState, live: Str)
    requires Guarded(st)
  {
    st.fold.Some? && !(st.lastLength >= 0 && |st.prefix| + |live| < st.lastLength)
    && IsAppendOf(st.fold.value, st.prefix + live)
  }

  function Base(st: LogState, live: Str): (h: Held)
    requires Guarded(st)
    ensures |h.guard| <= h.consumed <= |st.prefix| + |live|
  {
    if Continues(st, live) then st.fold.value else FRESH
  }

  function DecoratedAll(s: Folded, o: Options): Folded {
    s.(byId := map id | id in s.byId :: Decorated(s.byId[id], o))
  }

  /** The fold with the appended whole lines folded in. */
  function Extended(h: Held, prefix: Str, live: Str, parse: Parser): (e: Held)
    requires |h.guard| <= h.consumed <= |prefix| + |live|
    ensures |e.guard| <= e.consumed <= |prefix| + |live|
  {
    var end := WholeLines(prefix, live);
    if end <= h.consumed then h
    else Held(FoldFrom(h.folded, Records((prefix + live)[h.consumed..end], parse)), end, TailOf((prefix + live)[..end]))
  }

  /** `ingestText` up to the seen set: fold the appended whole lines, then decorate in place. */
  function ReadLog(st: LogState, live: Str, o: Options, parse: Parser): LogState
    requires Guarded(st)
  {
    var e := Extended(Base(st, live), st.prefix, live, parse);
    LogState(st.prefix, |st.prefix| + |live|, Some(e.(folded := DecoratedAll(e.folded, o))))
  }

  /** `setLogPrefix`: a different rotated half drops the fold. */
  function WithPrefix(st: LogState, text: Str): LogState {
    var prefix := if text != [] && text[|text| - 1] != NEWLINE then text + [NEWLINE] else text;
    if prefix == st.prefix then st else st.(prefix := prefix, fold := None)
  }

  lemma DecoratedConsistent(s: Folded, o: Options)
    requires Consistent(s)
    ensures Consistent(DecoratedAll(s, o)) && DecoratedAll(s, o).byId.Keys == s.byId.Keys
  {
    hide Elements;
    assert DecoratedAll(s, o).byId.Keys == s.byId.Keys;
  }

  // ------------------------------------------------------------------------ the objects

  class Fold {
    const parse: Parser
    var byId: map<Str, Alert>
    var order: seq<Str>
    var pending: map<Str, Live>
    var receipts: seq<Receipt>
    var receiptCount: nat
    var consumed: nat
    var guard: Str
    /** The folded alerts, newest first, by the id of the object each entry is. */
    var alerts: seq<Str>

    ghost predicate Valid()
      reads this
    {
      && receiptCount == |receipts|
      && |guard| <= consumed
      && Consistent(Alerts())
      && alerts == NewestFirst(Alerts())
    }

    function Alerts(): Folded
      reads this
    {
      Folded(byId, order, pending, receipts)
    }

    function Contents(): Held
      reads this
    {
      Held(Alerts(), consumed, guard)
    }

    /** `createFold`. */
    constructor (parse: Parser)
      ensures Valid() && this.parse == parse && Contents() == FRESH
    {
      this.parse := parse;
      byId, order, pending, receipts, receiptCount := map[], [], map[], [], 0;
      consumed, guard, alerts := 0, [], [];
      new;
      EmptyConsistent();
      NewestFirstEmpty();
    }

    /** The body of `foldChunk`'s loop. */
    method FoldOne(record: Record) returns (changed: bool)
      requires receiptCount == |receipts|
      modifies this`byId, this`order, this`pending, this`receipts, this`receiptCount
      ensures receiptCount == |receipts|
      ensures Alerts() == FoldRecord(old(Alerts()), record)
      ensures !changed ==> Alerts() == old(Alerts())
    {
      hide Apply;
      hide NormalAlert;
      hide AsPatch;
      hide Updated;
      changed := true;
      match record {
        case ReceiptLine(text) =>
          receipts := receipts + [Receipt(text, receiptCount)];
          receiptCount := receiptCount + 1;
        case NoId =>
          changed := false;
        case Update(id, patch) =>
          if id in byId {
            byId := byId[id := Updated(byId[id], patch)];
          } else {
            if id !in pending {
              pending := pending[id := NOTHING];
            }
            pending := pending[id := Apply(pending[id], patch)];
          }
        case Full(id, fixed, sent) =>
          if id !in byId {
            order := order + [id];
          }
          byId := byId[id := NormalAlert(id, fixed, sent)];
          if id in pending {
            byId := byId[id := Updated(byId[id], AsPatch(pending[id]))];
            pending := pending - {id};
          } else {
            assert pending - {id} == pending;
          }
      }
    }

    /** `foldChunk`. */
    method FoldChunk(chunk: Str) returns (changed: nat)
      requires receiptCount == |receipts| && Consistent(Alerts())
      modifies this`byId, this`order, this`pending, this`receipts, this`receiptCount
      ensures receiptCount == |receipts| && Consistent(Alerts())
      ensures Alerts() == FoldFrom(old(Alerts()), Records(chunk, parse))
      ensures changed == 0 ==> Alerts() == old(Alerts())
    {
      hide FoldRecord;
      hide Consistent;
      hide FoldFrom;
      var lines := Split(chunk, NEWLINE);
      changed := 0;
      FoldNone(Alerts());
      assert lines[..0] == [];
      for i := 0 to |lines|
        invariant receiptCount == |receipts| && Consistent(Alerts())
        invariant Alerts() == FoldFrom(old(Alerts()), Parsed(lines[..i], parse))
        invariant changed == 0 ==> Alerts() == old(Alerts())
      {
        assert lines[..i + 1][..i] == lines[..i];
        var record := parse(lines[i]);
        if record.Some? {
          StepConsistent(Alerts(), record.value);
          FoldSnoc(old(Alerts()), Parsed(lines[..i], parse), record.value);
          var did := FoldOne(record.value);
          changed := changed + (if did then 1 else 0);
        } else {
          assert Parsed(lines[..i], parse) + [] == Parsed(lines[..i], parse);
        }
      }
      assert lines[..|lines|] == lines;
    }

    /** The part of `ingestText` that folds the new whole lines of the body. */
    method Extend(prefix: Str, live: Str)
      requires Valid() && consumed <= |prefix| + |live|
      modifies this
      ensures Valid()
      ensures Contents() == Extended(old(Contents()), prefix, live, parse)
    {
      hide FoldFrom;
      hide Records;
      hide Consistent;
      hide NewestFirst;
      hide BodySlice;
      hide Elements;
      hide TailOf;
      hide LastIndexOf;
      hide SortedBy;
      hide StrictOrder;
      var newline := LastIndexOf(live, NEWLINE);
      var end := if newline >= 0 then |prefix| + newline + 1 else |prefix|;
      if end < consumed {
        end := consumed;
      }
      if end > consumed {
        var changed := FoldChunk(BodySlice(prefix, live, consumed, end));
        consumed := end;
        guard := BodySlice(prefix, live, if end > GUARD then end - GUARD else 0, end);
        TailSlice(prefix + live, end);
        if changed > 0 {
          SortedOrder(Alerts());
          alerts := SortNewest(order);
        }
      }
    }

    /** `decorateAlerts`: every held alert, in place. */
    method Decorate(o: Options)
      requires Valid()
      modifies this`byId
      ensures Valid() && Alerts() == DecoratedAll(old(Alerts()), o)
    {
      hide Consistent;
      hide Decorated;
      hide NewestFirst;
      hide Elements;
      hide DecoratedAll;
      ghost var was := byId;
      NewestFirstOnce(Alerts());
      for i := 0 to |alerts|
        invariant byId.Keys == was.Keys
        invariant forall j :: 0 <= j < i ==> byId[alerts[j]] == Decorated(was[alerts[j]], o)
        invariant forall j :: i <= j < |alerts| ==> byId[alerts[j]] == was[alerts[j]]
      {
        byId := byId[alerts[i] := Decorated(byId[alerts[i]], o)];
      }
      DecoratedEach(old(Alerts()), alerts, byId, o);
      DecoratedConsistent(old(Alerts()), o);
      NewestSame(old(Alerts()), Alerts());
    }
  }

  lemma TailSlice(body: Str, end: nat)
    requires end <= |body|
    ensures TailOf(body[..end]) == body[if end > GUARD then end - GUARD else 0..end]
  {
  }

  lemma NewestSame(s: Folded, t: Folded)
    requires s.byId.Keys == t.byId.Keys
    ensures NewestFirst(s) == NewestFirst(t)
  {
  }

  lemma SortedOrder(s: Folded)
    requires Consistent(s)
    ensures forall i, j :: 0 <= i < j < |s.order| ==> s.order[i] != s.order[j]
    ensures StrictOrder(Newer) ==> NewestFirst(s) == Sorted(Newer, Elements(s.order))
  {
  }

  lemma DecoratedEach(s: Folded, ids: seq<Str>, byId: map<Str, Alert>, o: Options)
    requires ids == NewestFirst(s) && byId.Keys == s.byId.Keys
    requires forall i :: 0 <= i < |ids| ==> ids[i] in s.byId && byId[ids[i]] == Decorated(s.byId[ids[i]], o)
    ensures s.(byId := byId) == DecoratedAll(s, o)
  {
    hide Decorated;
    hide NewestFirst;
    forall id | id in s.byId ensures byId[id] == Decorated(s.byId[id], o) {
      assert id in Elements(ids);
    }
  }

  lemma NewestFirstEmpty()
    ensures NewestFirst(EMPTY) == []
  {
    NoElements(NewestFirst(EMPTY));
  }

  lemma NewestFirstOnce(s: Folded)
    ensures (var ids := NewestFirst(s);
             (forall i :: 0 <= i < |ids| ==> ids[i] in s.byId) && forall i, j :: 0 <= i < j < |ids| ==> ids[i] != ids[j])
  {
    NewerIsStrict();
    var ids := NewestFirst(s);
    assert forall i :: 0 <= i < |ids| ==> ids[i] in Elements(ids);
  }

  /** The part of the panel's store that reads the log. */
  class Log {
    const parse: Parser
    var prefix: Str
    var lastLength: int
    var fold: Fold?

    ghost predicate Valid()
      reads this, fold
    {
      fold != null ==> fold.Valid() && fold.parse == parse
    }

    function Contents(): (st: LogState)
      reads this, fold
    {
      LogState(prefix, lastLength, if fold == null then None else Some(fold.Contents()))
    }

    constructor (parse: Parser)
      ensures Valid() && this.parse == parse && Contents() == LogState([], -1, None)
    {
      this.parse := parse;
      prefix, lastLength, fold := [], -1, null;
    }

    method SetLogPrefix(text: Str) returns (changed: bool)
      requires Valid()
      modifies this
      ensures Valid() && Contents() == WithPrefix(old(Contents()), text)
      ensures changed <==> prefix != old(prefix)
    {
      var p := text;
      if p != [] && p[|p| - 1] != NEWLINE {
        p := p + [NEWLINE];
      }
      if p == prefix {
        return false;
      }
      prefix, fold := p, null;
      changed := true;
    }

    /** Keep the fold for a strict append, drop it for anything else. */
    method Resume(live: Str, reloaded: bool)
      requires Valid() && (reloaded <==> lastLength >= 0 && |prefix| + |live| < lastLength)
      modifies this`fold
      ensures Valid() && fold != null && Guarded(old(Contents()))
      ensures fold.Contents() == Base(old(Contents()), live)
      ensures fold == old(fold) || fresh(fold)
    {
      hide BodySlice;
      hide NewestFirst;
      hide Consistent;
      if fold == null || reloaded {
        fold := new Fold(parse);
      } else if fold.consumed > 0 {
        if |prefix| + |live| < fold.consumed
           || BodySlice(prefix, live, fold.consumed - |fold.guard|, fold.consumed) != fold.guard {
          fold := new Fold(parse);
        }
      }
    }

    /** `ingestText` up to the seen set. The result lists the fold's own alerts. */
    method ReadText(live: Str, o: Options) returns (alerts: seq<Alert>, reloaded: bool)
      requires Valid()
      modifies this, fold
      ensures Valid() && fold != null && Guarded(old(Contents()))
      ensures Contents() == ReadLog(old(Contents()), live, o, parse)
      ensures |alerts| == |fold.alerts| && forall i :: 0 <= i < |alerts| ==> fold.alerts[i] in fold.byId && alerts[i] == fold.byId[fold.alerts[i]]
      ensures reloaded <==> old(lastLength) >= 0 && |prefix| + |live| < old(lastLength)
    {
      hide DecoratedAll;
      hide NewestFirst;
      hide Consistent;
      hide Extended;
      hide Base;
      var length := |prefix| + |live|;
      reloaded := lastLength >= 0 && length < lastLength;
      Resume(live, reloaded);
      lastLength := length;
      fold.Extend(prefix, live);
      fold.Decorate(o);
      NewestFirstOnce(fold.Alerts());
      var f := fold;
      alerts := seq(|f.alerts|, i requires 0 <= i < |f.alerts| && f.alerts[i] in f.byId reads f => f.byId[f.alerts[i]]);
    }
  }
}
