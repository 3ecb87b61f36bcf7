/** The incremental reader against one fold of the whole log, over every run of reads. */
module LogRuns {
  import opened Wrappers
  import opened Text
  import opened Alerts
  import opened Updates
  import opened LogFold
  import opened LogStore

  // ------------------------------------------------------------------------ whole lines

  predicate EndsLine(text: Str) {
    text == [] || text[|text| - 1] == NEWLINE
  }

  lemma {:induction false} ParsedConcat(a: seq<Str>, b: seq<Str>, parse: Parser)
    ensures Parsed(a + b, parse) == Parsed(a, parse) + Parsed(b, parse)
  {
    if b == [] {
      assert a + b == a;
    } else {
      var all := a + b;
      assert all[..|all| - 1] == a + b[..|b| - 1];
      ParsedConcat(a, b[..|b| - 1], parse);
    }
  }

  lemma {:induction false} SplitConcat(a: Str, b: Str)
    requires EndsLine(a)
    ensures Split(a, NEWLINE)[|Split(a, NEWLINE)| - 1] == []
    ensures Split(a + b, NEWLINE) == Split(a, NEWLINE)[..|Split(a, NEWLINE)| - 1] + Split(b, NEWLINE)
  {
    hide Split;
    hide IndexOf;
    if a == [] {
      SplitWhole(a, NEWLINE);
      assert a + b == b;
      assert Split(a, NEWLINE)[..0] + Split(b, NEWLINE) == Split(b, NEWLINE);
    } else {
      var i := IndexOf(a, NEWLINE);
      IndexOfFirst(a, NEWLINE);
      assert a[|a| - 1] in a && i >= 0;
      var head, rest := a[..i], a[i + 1..];
      assert a == head + [NEWLINE] + rest;
      assert a + b == head + [NEWLINE] + (rest + b);
      SplitHead(head, NEWLINE, rest);
      SplitHead(head, NEWLINE, rest + b);
      SplitConcat(rest, b);
    }
  }

  lemma BlankParses(parse: Parser)
    requires parse([]).None?
    ensures Parsed([[]], parse) == []
  {
    var blank: seq<Str> := [[]];
    assert blank[..0] == [] && blank[0] == [];
  }

  /** Whole lines parse the same in pieces. */
  lemma RecordsConcat(a: Str, b: Str, parse: Parser)
    requires EndsLine(a) && parse([]).None?
    ensures Records(a + b, parse) == Records(a, parse) + Records(b, parse)
  {
    hide Split;
    hide Parsed;
    var parts := Split(a, NEWLINE);
    SplitConcat(a, b);
    assert parts == parts[..|parts| - 1] + [[]];
    ParsedConcat(parts[..|parts| - 1], [[]], parse);
    ParsedConcat(parts[..|parts| - 1], Split(b, NEWLINE), parse);
    BlankParses(parse);
  }

  // ----------------------------------------------------------------- up to decoration

  /** An alert without what decoration writes on it. */
  function Plain(a: Alert): Alert {
    a.(demoted := false, visible := false, live := a.live.(surface := None))
  }

  /** Two folds that agree on everything but what decoration writes. */
  ghost predicate SameLog(s: Folded, t: Folded) {
    && s.order == t.order && s.pending == t.pending && s.receipts == t.receipts
    && s.byId.Keys == t.byId.Keys
    && forall id :: id in s.byId ==> Plain(s.byId[id]) == Plain(t.byId[id])
  }

  lemma PlainUpdated(a: Alert, b: Alert, p: Patch)
    requires Plain(a) == Plain(b)
    ensures Plain(Updated(a, p)) == Plain(Updated(b, p))
  {
  }

  lemma RecordKeepsSame(s: Folded, t: Folded, r: Record)
    requires SameLog(s, t)
    ensures SameLog(FoldRecord(s, r), FoldRecord(t, r))
  {
    hide NormalAlert;
    hide AsPatch;
    hide Updated;
    hide Plain;
    if r.Update? && r.id in s.byId {
      PlainUpdated(s.byId[r.id], t.byId[r.id], r.patch);
    }
  }

  lemma {:induction false} FoldKeepsSame(s: Folded, t: Folded, rs: seq<Record>)
    requires SameLog(s, t)
    ensures SameLog(FoldFrom(s, rs), FoldFrom(t, rs))
  {
    hide FoldRecord;
    hide SameLog;
    if rs != [] {
      FoldKeepsSame(s, t, rs[..|rs| - 1]);
      RecordKeepsSame(FoldFrom(s, rs[..|rs| - 1]), FoldFrom(t, rs[..|rs| - 1]), rs[|rs| - 1]);
    }
  }

  // ---------------------------------------------------------------------- runs of reads

  datatype Event = Rotated(text: Str) | Read(live: Str, options: Options)

  /** The reader, and the text its fold stands for. */
  datatype Reader = Reader(log: LogState, text: Str)

  const CREATED := Reader(LogState([], -1, None), [])

  /** One event, and how the text held grows with it. */
  function On(r: Reader, e: Event, parse: Parser): Reader
    requires Guarded(r.log)
  {
    match e
    case Rotated(text) =>
      var st := WithPrefix(r.log, text);
      Reader(st, if st.fold.None? then [] else r.text)
    case Read(live, o) =>
      var body, h := r.log.prefix + live, Base(r.log, live);
      var end := WholeLines(r.log.prefix, live);
      Reader(ReadLog(r.log, live, o, parse),
             (if Continues(r.log, live) then r.text else []) + (if end <= h.consumed then [] else body[h.consumed..end]))
  }

  function After(es: seq<Event>, parse: Parser): (r: Reader)
    ensures Guarded(r.log)
  {
    if es == [] then CREATED else On(After(es[..|es| - 1], parse), es[|es| - 1], parse)
  }

  /** The fold is the one fold of the text it stands for, all of it whole lines. */
  ghost predicate Faithful(r: Reader, parse: Parser) {
    && EndsLine(r.log.prefix)
    && (r.log.fold.None? ==> r.text == [])
    && EndsLine(r.text)
    && (r.log.fold.Some? ==>
          var h := r.log.fold.value;
          h.consumed == |r.text| && h.guard == TailOf(r.text) && SameLog(h.folded, FoldFrom(EMPTY, Records(r.text, parse))))
  }

  lemma SameDecorated(s: Folded, t: Folded, o: Options)
    requires SameLog(s, t)
    ensures SameLog(DecoratedAll(s, o), t)
  {
    hide SurfaceOf;
    assert DecoratedAll(s, o).byId.Keys == s.byId.Keys;
  }

  lemma WholeLinesEnd(prefix: Str, live: Str)
    requires EndsLine(prefix)
    ensures EndsLine((prefix + live)[..WholeLines(prefix, live)])
  {
    LastIndexOfLast(live, NEWLINE);
  }

  lemma ExtendFaithful(text: Str, chunk: Str, folded: Folded, parse: Parser)
    requires parse([]).None? && EndsLine(text)
    requires SameLog(folded, FoldFrom(EMPTY, Records(text, parse)))
    ensures SameLog(FoldFrom(folded, Records(chunk, parse)), FoldFrom(EMPTY, Records(text + chunk, parse)))
  {
    hide FoldFrom;
    hide Records;
    hide SameLog;
    FoldKeepsSame(folded, FoldFrom(EMPTY, Records(text, parse)), Records(chunk, parse));
    FoldFromConcat(EMPTY, Records(text, parse), Records(chunk, parse));
    RecordsConcat(text, chunk, parse);
  }

  /** The read was a continuation of the text held. */
  predicate TrueAppend(r: Reader, live: Str)
    requires Guarded(r.log)
  {
    Continues(r.log, live) ==> r.text <= r.log.prefix + live
  }

  lemma NothingFolded(parse: Parser)
    requires parse([]).None?
    ensures SameLog(EMPTY, FoldFrom(EMPTY, Records([], parse)))
  {
    assert Split([], NEWLINE) == [[]];
    BlankParses(parse);
    FoldNone(EMPTY);
  }

  lemma ReadFaithful(r: Reader, live: Str, o: Options, parse: Parser)
    requires Guarded(r.log) && Faithful(r, parse) && parse([]).None? && TrueAppend(r, live)
    ensures Faithful(On(r, Read(live, o), parse), parse)
    ensures On(r, Read(live, o), parse).text == (r.log.prefix + live)[..WholeLines(r.log.prefix, live)]
  {
    hide FoldFrom;
    hide Records;
    hide SameLog;
    hide DecoratedAll;
    hide WholeLines;
    hide TailOf;
    var body, h, end := r.log.prefix + live, Base(r.log, live), WholeLines(r.log.prefix, live);
    var text := if Continues(r.log, live) then r.text else [];
    NothingFolded(parse);
    EmptyTail();
    WholeLinesEnd(r.log.prefix, live);
    LinesHeldFit(r.log.prefix, live, text);
    assert h.consumed == |text| && h.guard == TailOf(text) && text == body[..|text|];
    if end <= h.consumed {
      SameDecorated(h.folded, FoldFrom(EMPTY, Records(text, parse)), o);
      assert text + [] == text;
    } else {
      var chunk := body[h.consumed..end];
      assert text + chunk == body[..end];
      ExtendFaithful(text, chunk, h.folded, parse);
      SameDecorated(FoldFrom(h.folded, Records(chunk, parse)), FoldFrom(EMPTY, Records(text + chunk, parse)), o);
    }
  }

  /** After a read the text folded is the whole lines of the body exactly when the read was a true
      append or started over. */
  lemma ReadIsWholeLinesIff(r: Reader, live: Str, o: Options, parse: Parser)
    requires Guarded(r.log) && Faithful(r, parse) && parse([]).None?
    ensures On(r, Read(live, o), parse).text == (r.log.prefix + live)[..WholeLines(r.log.prefix, live)]
       <==> TrueAppend(r, live)
  {
    hide Faithful;
    hide WholeLines;
    hide Continues;
    hide Base;
    hide ReadLog;
    if TrueAppend(r, live) {
      ReadFaithful(r, live, o, parse);
    }
  }

  lemma EmptyTail()
    ensures TailOf([]) == []
  {
  }

  lemma {:induction false} LastIndexNoEarlier(s: Str, u: Unit, k: nat)
    requires k < |s| && s[k] == u
    ensures k <= LastIndexOf(s, u)
  {
    if s[|s| - 1] != u {
      LastIndexNoEarlier(s[..|s| - 1], u, k);
    }
  }

  /** Whole lines that begin the body reach no further than its last whole line. */
  lemma LinesHeldFit(prefix: Str, live: Str, text: Str)
    requires EndsLine(text) && text <= prefix + live
    ensures |text| <= WholeLines(prefix, live)
  {
    if |text| > |prefix| {
      assert text[|text| - 1] == live[|text| - |prefix| - 1];
      LastIndexNoEarlier(live, NEWLINE, |text| - |prefix| - 1);
    }
  }

  lemma RotatedFaithful(r: Reader, text: Str, parse: Parser)
    requires Guarded(r.log) && Faithful(r, parse)
    ensures Faithful(On(r, Rotated(text), parse), parse)
  {
    hide FoldFrom;
    hide Records;
    hide SameLog;
  }

  /** Every read of the run was a true append or was refused by the guard or by the length. */
  ghost predicate Honest(es: seq<Event>, parse: Parser) {
    forall i :: 0 <= i < |es| && es[i].Read? ==> TrueAppend(After(es[..i], parse), es[i].live)
  }

  lemma {:induction false} AlwaysFaithful(es: seq<Event>, parse: Parser)
    requires parse([]).None? && Honest(es, parse)
    ensures Faithful(After(es, parse), parse)
  {
    hide Faithful;
    hide On;
    if es == [] {
      CreatedFaithful(parse);
    } else {
      var init, e := es[..|es| - 1], es[|es| - 1];
      assert forall i :: 0 <= i < |init| ==> init[i] == es[i] && init[..i] == es[..i];
      AlwaysFaithful(init, parse);
      if e.Read? {
        ReadFaithful(After(init, parse), e.live, e.options, parse);
      } else {
        RotatedFaithful(After(init, parse), e.text, parse);
      }
    }
  }

  lemma CreatedFaithful(parse: Parser)
    ensures Faithful(CREATED, parse)
  {
  }

  lemma ReadKeepsPrefix(r: Reader, e: Event, parse: Parser)
    requires Guarded(r.log) && e.Read?
    ensures On(r, e, parse).log.prefix == r.log.prefix && On(r, e, parse).log.fold.Some?
  {
    hide Base;
    hide Continues;
    hide Extended;
    hide WholeLines;
  }

  lemma HonestInit(es: seq<Event>, parse: Parser)
    requires es != [] && Honest(es, parse)
    ensures Honest(es[..|es| - 1], parse)
    ensures es[|es| - 1].Read? ==> TrueAppend(After(es[..|es| - 1], parse), es[|es| - 1].live)
  {
    hide TrueAppend;
    hide After;
    var init := es[..|es| - 1];
    assert forall i :: 0 <= i < |init| ==> init[i] == es[i] && init[..i] == es[..i];
  }

  /** After any run of reads and rotations, cut anywhere, the fold holds what folding all the
      whole lines of the current body at once would. */
  lemma IncrementalIsBatch(es: seq<Event>, parse: Parser)
    requires parse([]).None? && Honest(es, parse)
    requires es != [] && es[|es| - 1].Read?
    ensures (var r := After(es, parse);
             var body := r.log.prefix + es[|es| - 1].live;
             r.log.fold.Some?
             && SameLog(r.log.fold.value.folded, FoldFrom(EMPTY, Records(body[..WholeLines(r.log.prefix, es[|es| - 1].live)], parse))))
  {
    hide FoldFrom;
    hide Records;
    hide SameLog;
    hide On;
    hide WholeLines;
    hide Honest;
    hide TrueAppend;
    var init, e := es[..|es| - 1], es[|es| - 1];
    HonestInit(es, parse);
    AlwaysFaithful(init, parse);
    ReadKeepsPrefix(After(init, parse), e, parse);
    ReadFaithful(After(init, parse), e.live, e.options, parse);
  }

  /** Reads of one log that only grows. */
  predicate Growing(es: seq<Event>) {
    (forall i :: 0 <= i < |es| ==> es[i].Read?)
    && forall i, j :: 0 <= i < j < |es| ==> es[i].live <= es[j].live
  }

  lemma {:induction false} GrowingText(es: seq<Event>, parse: Parser)
    requires Growing(es) && Honest(es, parse) && parse([]).None?
    ensures (var r := After(es, parse);
             r.log.prefix == [] && (if es == [] then r.text == [] else r.text <= es[|es| - 1].live))
  {
    hide Faithful;
    hide Honest;
    hide On;
    hide TrueAppend;
    hide WholeLines;
    if es != [] {
      var init, e := es[..|es| - 1], es[|es| - 1];
      HonestInit(es, parse);
      GrowingText(init, parse);
      AlwaysFaithful(init, parse);
      ReadKeepsPrefix(After(init, parse), e, parse);
      ReadFaithful(After(init, parse), e.live, e.options, parse);
      assert [] + e.live == e.live;
    }
  }

  lemma LastReadIsTrue(es: seq<Event>, parse: Parser)
    requires Growing(es) && es != [] && Honest(es[..|es| - 1], parse) && parse([]).None?
    ensures TrueAppend(After(es[..|es| - 1], parse), es[|es| - 1].live)
  {
    hide After;
    hide Honest;
    hide Continues;
    var init, e := es[..|es| - 1], es[|es| - 1];
    assert forall i :: 0 <= i < |init| ==> init[i] == es[i];
    GrowingText(init, parse);
    assert [] + e.live == e.live;
  }

  /** A log that only grows needs no luck from the guard. */
  lemma {:induction false} GrowingIsHonest(es: seq<Event>, parse: Parser)
    requires Growing(es) && parse([]).None?
    ensures Honest(es, parse)
  {
    hide On;
    hide TrueAppend;
    hide After;
    if es != [] {
      var init, e := es[..|es| - 1], es[|es| - 1];
      assert forall i :: 0 <= i < |init| ==> init[i] == es[i] && init[..i] == es[..i];
      GrowingIsHonest(init, parse);
      LastReadIsTrue(es, parse);
    }
  }

  /** A body of the same length with the same tail looks like no change. */
  lemma LooksUnchanged(r: Reader, live: Str, o: Options, parse: Parser)
    requires r.log.prefix == [] && r.log.lastLength == |live| && live != [] && r.log.fold.Some?
    requires r.log.fold.value.consumed == |live| && r.log.fold.value.guard == TailOf(live)
    ensures Continues(r.log, live) && On(r, Read(live, o), parse).text == r.text
  {
    hide FoldFrom;
    hide Records;
    hide DecoratedAll;
    assert [] + live == live;
    assert live[|live| - |TailOf(live)|..|live|] == TailOf(live);
  }

  lemma SameTail(a: Str, b: Str, tail: Str)
    requires |a| == |b| && |tail| >= GUARD
    ensures TailOf(a + tail) == TailOf(b + tail)
  {
    assert TailOf(a + tail) == tail[|tail| - GUARD..] == TailOf(b + tail);
  }

  /** The guard compares only the last characters: a rewrite above them goes unseen, so that a
      read is a true append has to be assumed. */
  lemma GuardMissesRewrite(a: Str, b: Str, tail: Str, o: Options, parse: Parser)
    requires |a| == |b| && a != b && |tail| >= GUARD && tail[|tail| - 1] == NEWLINE && parse([]).None?
    ensures (var es := [Read(a + tail, o), Read(b + tail, o)];
             After(es, parse).text == a + tail && !Honest(es, parse))
  {
    hide On;
    hide Continues;
    hide TailOf;
    var es := [Read(a + tail, o), Read(b + tail, o)];
    assert es[..1] == [Read(a + tail, o)];
    var r := After(es[..1], parse);
    ReadWhole(a + tail, o, parse);
    SameTail(a, b, tail);
    LooksUnchanged(r, b + tail, o, parse);
    assert [] + (b + tail) == b + tail;
    assert (a + tail)[..|a|] == a && (b + tail)[..|a|] == b;
    assert !TrueAppend(r, es[1].live);
  }

  /** The first read of a log of whole lines takes all of it. */
  lemma ReadWhole(text: Str, o: Options, parse: Parser)
    requires text != [] && text[|text| - 1] == NEWLINE
    ensures (var r := After([Read(text, o)], parse);
             r.log.prefix == [] && r.log.lastLength == |text| && r.log.fold.Some? && r.text == text
             && r.log.fold.value.consumed == |text| && r.log.fold.value.guard == TailOf(text))
  {
    hide FoldFrom;
    hide Records;
    hide DecoratedAll;
    var es := [Read(text, o)];
    assert es[..0] == [];
    assert After([], parse) == CREATED;
    LastIndexNoEarlier(text, NEWLINE, |text| - 1);
    assert [] + text == text && text[0..|text|] == text && text[..|text|] == text;
  }
}
