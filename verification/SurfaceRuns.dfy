/** Decoration writes on the fold's own alerts, and a stamped alert's surface is read back at
    the next read. Once a verdict has put such an alert on the timeline it stays there until a
    line stamps it again, whatever the log then says. This module says exactly when. */
module SurfaceRuns {
  import opened Wrappers
  import opened Text
  import opened Alerts
  import opened Updates
  import opened LogFold
  import opened LogStore
  import opened LogRuns

  /** What one read adds, and the settings it decorates under. */
  datatype Chunk = Chunk(records: seq<Record>, options: Options)

  /** The fold after reads without a restart. */
  function Shown(cs: seq<Chunk>): Folded {
    if cs == [] then EMPTY
    else DecoratedAll(FoldFrom(Shown(cs[..|cs| - 1]), cs[|cs| - 1].records), cs[|cs| - 1].options)
  }

  function AllRecords(cs: seq<Chunk>): seq<Record> {
    if cs == [] then [] else AllRecords(cs[..|cs| - 1]) + cs[|cs| - 1].records
  }

  /** The log folded at once. */
  function Whole(cs: seq<Chunk>): Folded { FoldFrom(EMPTY, AllRecords(cs)) }

  /** A line that says where the alert belongs, or says the alert anew. */
  predicate Stamps(r: Record, id: Str) {
    (r.Full? && r.id == id) || (r.Update? && r.id == id && AsSurface(r.patch.surface).Some?)
  }

  predicate Restamped(rs: seq<Record>, id: Str) {
    exists i :: 0 <= i < |rs| && Stamps(rs[i], id)
  }

  /** A stamped alert that the log, read up to here, keeps on the timeline. */
  predicate Quiet(s: Folded, id: Str) {
    id in s.byId && s.byId[id].live.stamped && SurfaceOf(s.byId[id], {}) == OnTimeline
  }

  /** Was it quiet at an earlier read, with no stamp since? */
  predicate StuckQuiet(cs: seq<Chunk>, id: Str) {
    cs != [] && !Restamped(cs[|cs| - 1].records, id)
    && (StuckQuiet(cs[..|cs| - 1], id) || Quiet(Whole(cs[..|cs| - 1]), id))
  }

  lemma ShownSame(cs: seq<Chunk>)
    ensures SameLog(Shown(cs), Whole(cs))
  {
    hide SameLog;
    hide FoldFrom;
    hide DecoratedAll;
    if cs == [] {
      EmptySame();
    } else {
      var init, c := cs[..|cs| - 1], cs[|cs| - 1];
      ShownSame(init);
      FoldKeepsSame(Shown(init), Whole(init), c.records);
      FoldFromConcat(EMPTY, AllRecords(init), c.records);
      SameDecorated(FoldFrom(Shown(init), c.records), Whole(cs), c.options);
    }
  }

  lemma EmptySame()
    ensures SameLog(EMPTY, FoldFrom(EMPTY, []))
  {
  }

  /** Records without a stamp leave surface and stamp alone. */
  lemma {:induction false} UnstampedKeeps(s: Folded, rs: seq<Record>, id: Str)
    requires !Restamped(rs, id)
    ensures (var t := FoldFrom(s, rs);
             (id in t.byId <==> id in s.byId)
             && (id in s.byId ==> t.byId[id].live.surface == s.byId[id].live.surface && t.byId[id].live.stamped == s.byId[id].live.stamped))
  {
    hide NormalAlert;
    hide AsPatch;
    hide AsTriage;
    hide AsChain;
    if rs != [] {
      var init, r := rs[..|rs| - 1], rs[|rs| - 1];
      assert forall i :: 0 <= i < |init| ==> rs[i] == init[i];
      assert !Stamps(r, id);
      UnstampedKeeps(s, init, id);
    }
  }

  /** After a stamp, two folds of the same log agree on the surface again. */
  lemma {:induction false} StampAgrees(s: Folded, t: Folded, rs: seq<Record>, id: Str)
    requires SameLog(s, t) && Restamped(rs, id)
    ensures (var u, v := FoldFrom(s, rs), FoldFrom(t, rs);
             id in u.byId && id in v.byId ==> u.byId[id].live.surface == v.byId[id].live.surface)
  {
    hide NormalAlert;
    hide AsPatch;
    hide AsTriage;
    hide AsChain;
    hide SameLog;
    if rs != [] {
      var init, r := rs[..|rs| - 1], rs[|rs| - 1];
      FoldKeepsSame(s, t, init);
      SamePending(FoldFrom(s, init), FoldFrom(t, init));
      if !Stamps(r, id) {
        var i :| 0 <= i < |rs| && Stamps(rs[i], id);
        assert Stamps(init[i], id);
        StampAgrees(s, t, init, id);
      }
    }
  }

  lemma SamePending(s: Folded, t: Folded)
    requires SameLog(s, t)
    ensures s.pending == t.pending && s.byId.Keys == t.byId.Keys
  {
  }

  /** The one thing the two surfaces depend on besides what the folds share. */
  lemma SurfaceFromStamp(a: Alert, b: Alert, d: set<Str>)
    requires Plain(a) == Plain(b)
    ensures !a.live.stamped ==> SurfaceOf(a, d) == SurfaceOf(b, d)
    ensures a.live.surface == b.live.surface ==> SurfaceOf(a, d) == SurfaceOf(b, d)
    ensures a.live.stamped ==> SurfaceOf(a, d) == SurfaceOf(a, {})
    ensures a.live.stamped && a.live.surface == Some(OnTimeline) ==> SurfaceOf(a, d) == OnTimeline
    ensures a.live.stamped && SurfaceOf(a, d) == OnAlerts ==> a.live.surface == Some(OnAlerts)
  {
  }

  lemma ShownIsSettled(cs: seq<Chunk>, id: Str)
    requires cs != [] && id in Shown(cs).byId && Shown(cs).byId[id].live.stamped
    ensures Shown(cs).byId[id].live.surface == Some(SurfaceOf(Shown(cs).byId[id], {}))
  {
    hide FoldFrom;
  }

  lemma PlainAt(s: Folded, t: Folded, id: Str)
    requires SameLog(s, t)
    ensures (id in s.byId <==> id in t.byId) && (id in s.byId ==> Plain(s.byId[id]) == Plain(t.byId[id]))
  {
  }

  /** Where the reader shows an alert: on the timeline if it was quiet at an earlier read and
      has not been stamped since, and otherwise where the log folded at once would. */
  ghost predicate ShowsRight(cs: seq<Chunk>, id: Str) {
    && (id in Shown(cs).byId <==> id in Whole(cs).byId)
    && (id in Whole(cs).byId ==>
          (StuckQuiet(cs, id) ==> Whole(cs).byId[id].live.stamped)
          && forall d: set<Str> :: SurfaceOf(Shown(cs).byId[id], d) == (if StuckQuiet(cs, id) then OnTimeline else SurfaceOf(Whole(cs).byId[id], d)))
  }

  lemma WholeSnoc(cs: seq<Chunk>)
    requires cs != []
    ensures Whole(cs) == FoldFrom(Whole(cs[..|cs| - 1]), cs[|cs| - 1].records)
  {
    FoldFromConcat(EMPTY, AllRecords(cs[..|cs| - 1]), cs[|cs| - 1].records);
  }

  lemma DecoratedShows(s: Folded, o: Options, id: Str, d: set<Str>)
    requires id in s.byId
    ensures id in DecoratedAll(s, o).byId
    ensures DecoratedAll(s, o).byId[id].live.stamped == s.byId[id].live.stamped
    ensures SurfaceOf(DecoratedAll(s, o).byId[id], d) == SurfaceOf(s.byId[id], d)
  {
    DecorationSettles(s.byId[id], o, Options(d, false));
  }

  /** One read moves an alert's surface only by a stamp. */
  lemma ReadShows(cs: seq<Chunk>, id: Str, d: set<Str>)
    requires cs != [] && id in Whole(cs).byId && ShowsRight(cs[..|cs| - 1], id)
    ensures id in Shown(cs).byId && (StuckQuiet(cs, id) ==> Whole(cs).byId[id].live.stamped)
    ensures SurfaceOf(Shown(cs).byId[id], d) == (if StuckQuiet(cs, id) then OnTimeline else SurfaceOf(Whole(cs).byId[id], d))
  {
    hide FoldFrom;
    hide SameLog;
    hide SurfaceOf;
    hide Plain;
    hide AllRecords;
    hide Whole;
    hide Restamped;
    hide DecoratedAll;
    var init, c := cs[..|cs| - 1], cs[|cs| - 1];
    var h, b := FoldFrom(Shown(init), c.records), Whole(cs);
    WholeSnoc(cs);
    ShownSame(init);
    FoldKeepsSame(Shown(init), Whole(init), c.records);
    PlainAt(h, b, id);
    DecoratedShows(h, c.options, id, d);
    SurfaceFromStamp(h.byId[id], b.byId[id], d);
    if Restamped(c.records, id) {
      StampAgrees(Shown(init), Whole(init), c.records, id);
    } else {
      UnstampedKeeps(Shown(init), c.records, id);
      UnstampedKeeps(Whole(init), c.records, id);
      PlainAt(Shown(init), Whole(init), id);
      SurfaceFromStamp(Shown(init).byId[id], Whole(init).byId[id], {});
      SurfaceFromStamp(Whole(init).byId[id], Shown(init).byId[id], {});
      StampKept(h.byId[id], b.byId[id]);
      if b.byId[id].live.stamped {
        NothingShown(init, id);
        ShownIsSettled(init, id);
      }
    }
  }

  lemma StampKept(a: Alert, b: Alert)
    requires Plain(a) == Plain(b)
    ensures a.live.stamped == b.live.stamped
  {
  }

  lemma NothingShown(cs: seq<Chunk>, id: Str)
    requires id in Shown(cs).byId
    ensures cs != []
  {
  }

  /** This holds at every read of every log. */
  lemma {:induction false} QuietStaysQuiet(cs: seq<Chunk>, id: Str)
    ensures ShowsRight(cs, id)
    decreases |cs|
  {
    hide FoldFrom;
    hide SurfaceOf;
    hide DecoratedAll;
    hide AllRecords;
    ShownSame(cs);
    PlainAt(Shown(cs), Whole(cs), id);
    if cs != [] {
      QuietStaysQuiet(cs[..|cs| - 1], id);
      if id in Whole(cs).byId {
        forall d: set<Str> ensures SurfaceOf(Shown(cs).byId[id], d) == (if StuckQuiet(cs, id) then OnTimeline else SurfaceOf(Whole(cs).byId[id], d)) {
          ReadShows(cs, id, d);
        }
        ReadShows(cs, id, {});
      }
    }
  }

  /** The incremental reader shows an alert where the whole log would, exactly when it is not a
      surfaced alert that was quiet at an earlier read and has not been stamped since. */
  lemma ShownWhereTheLogSays(cs: seq<Chunk>, id: Str, d: set<Str>)
    requires id in Whole(cs).byId
    ensures id in Shown(cs).byId
    ensures SurfaceOf(Shown(cs).byId[id], d) == SurfaceOf(Whole(cs).byId[id], d)
       <==> !(StuckQuiet(cs, id) && SurfaceOf(Whole(cs).byId[id], d) == OnAlerts)
  {
    hide SurfaceOf;
    hide Whole;
    hide Shown;
    QuietStaysQuiet(cs, id);
  }

  const SURFACED := Full([65], Fixed(High, [], [], None, [], [], [], false, []), AsPatch(NOTHING).(surface := Some(Known(OnAlerts))))

  /** A verdict on that alert with the given outcome. */
  function VerdictLine(outcome: Str): Record {
    Update([65], AsPatch(NOTHING).(triage := Some(TriageObject(None, [65], [], outcome))))
  }

  lemma VerdictLands(s: Folded, outcome: Str)
    requires [65] in s.byId && Trim(outcome) == outcome && outcome != []
    ensures (var t := FoldRecord(s, VerdictLine(outcome));
             [65] in t.byId && t.byId[[65]] == s.byId[[65]].(live := s.byId[[65]].live.(triage := Some(Triage(Unclear, [65], [], outcome)))))
  {
    assert TrimStart([65]) == [65] && TrimEnd([65]) == [65] && Trim([]) == [];
    hide Trim;
  }

  lemma SurfacedLands()
    ensures (var s := FoldRecord(EMPTY, SURFACED);
             [65] in s.byId && s.byId[[65]].live.stamped && s.byId[[65]].live.surface == Some(OnAlerts)
             && s.byId[[65]].fixed == SURFACED.fixed)
  {
  }

  /** The exception happens: a surfaced alert is demoted by a verdict, read, and then given
      another verdict. The log surfaces it again and the reader does not. */
  lemma DemotionOutlivesItsVerdict(o: Options)
    ensures (var cs := [Chunk([SURFACED], o), Chunk([VerdictLine(DEMOTED)], o), Chunk([VerdictLine([65])], o)];
             [65] in Whole(cs).byId && [65] in Shown(cs).byId
             && SurfaceOf(Whole(cs).byId[[65]], {}) == OnAlerts && SurfaceOf(Shown(cs).byId[[65]], {}) == OnTimeline)
  {
    hide Trim;
    hide FoldRecord;
    hide Whole;
    hide Shown;
    var one := [Chunk([SURFACED], o)];
    SurfacedLands();
    var two := one + [Chunk([VerdictLine(DEMOTED)], o)];
    var three := two + [Chunk([VerdictLine([65])], o)];
    OneRecord(one, EMPTY, SURFACED);
    OneRecord(two, Whole(one), VerdictLine(DEMOTED));
    OneRecord(three, Whole(two), VerdictLine([65]));
    VerdictWords();
    VerdictLands(Whole(one), DEMOTED);
    VerdictLands(Whole(two), [65]);
    assert two[..1] == one && three[..2] == two;
    assert Quiet(Whole(two), [65]);
    assert !Stamps(VerdictLine([65]), [65]);
    QuietStaysQuiet(three, [65]);
    assert three == [Chunk([SURFACED], o), Chunk([VerdictLine(DEMOTED)], o), Chunk([VerdictLine([65])], o)];
  }

  lemma VerdictWords()
    ensures Trim(DEMOTED) == DEMOTED && Trim([65]) == [65] && DEMOTED != [65]
  {
    assert DEMOTED[0] == 100 && DEMOTED[6] == 100;
    assert TrimStart(DEMOTED) == DEMOTED;
  }

  lemma OneRecord(cs: seq<Chunk>, before: Folded, r: Record)
    requires cs != [] && cs[|cs| - 1].records == [r]
    requires before == if |cs| == 1 then EMPTY else Whole(cs[..|cs| - 1])
    ensures Whole(cs) == FoldRecord(before, r)
  {
    hide FoldRecord;
    WholeSnoc(cs);
    assert [r][..0] == [];
    FoldNone(before);
    FoldSnoc(before, [], r);
    assert [] + [r] == [r];
  }

  // ------------------------------------------------------------------- the reader's chunks

  /** What a read folds: the whole lines past what it continues from. */
  function Added(st: LogState, live: Str, parse: Parser): seq<Record>
    requires Guarded(st)
  {
    var from, end := Base(st, live).consumed, WholeLines(st.prefix, live);
    if end <= from then [] else Records((st.prefix + live)[from..end], parse)
  }

  /** The chunks folded since the reader last started over: at a rotation to a different half,
      or at a read that does not continue the fold. */
  function Chunks(es: seq<Event>, parse: Parser): seq<Chunk> {
    if es == [] then []
    else
      var init, e := es[..|es| - 1], es[|es| - 1];
      var st := After(init, parse).log;
      match e
      case Rotated(text) => if WithPrefix(st, text).fold.None? then [] else Chunks(init, parse)
      case Read(live, o) =>
        (if Continues(st, live) then Chunks(init, parse) else []) + [Chunk(Added(st, live, parse), o)]
  }

  lemma ReadFolds(st: LogState, live: Str, o: Options, parse: Parser)
    requires Guarded(st)
    ensures ReadLog(st, live, o, parse).fold.Some?
    ensures ReadLog(st, live, o, parse).fold.value.folded
         == DecoratedAll(FoldFrom(Base(st, live).folded, Added(st, live, parse)), o)
  {
    hide FoldFrom;
    hide Records;
    hide DecoratedAll;
    hide WholeLines;
    hide TailOf;
    hide Continues;
    FoldNone(Base(st, live).folded);
  }

  lemma ShownSnoc(cs: seq<Chunk>, c: Chunk)
    ensures Shown(cs + [c]) == DecoratedAll(FoldFrom(Shown(cs), c.records), c.options)
  {
    hide FoldFrom;
    hide DecoratedAll;
    assert (cs + [c])[..|cs|] == cs;
  }

  /** Over any reads and rotations, whatever each one saw, the reader's fold is the fold of its
      chunks, decorated read by read. */
  lemma {:induction false} ReaderShowsChunks(es: seq<Event>, parse: Parser)
    ensures (var fold := After(es, parse).log.fold;
             if fold.None? then Chunks(es, parse) == [] else fold.value.folded == Shown(Chunks(es, parse)))
  {
    hide FoldFrom;
    hide DecoratedAll;
    hide Added;
    hide ReadLog;
    hide IsAppendOf;
    hide Shown;
    hide WholeLines;
    if es != [] {
      var init, e := es[..|es| - 1], es[|es| - 1];
      ReaderShowsChunks(init, parse);
      match e
      case Rotated(text) =>
      case Read(live, o) =>
        var st := After(init, parse).log;
        ReadFolds(st, live, o, parse);
        ShownSnoc(if Continues(st, live) then Chunks(init, parse) else [], Chunk(Added(st, live, parse), o));
        NoneShown();
    }
  }

  lemma NoneShown()
    ensures Shown([]) == EMPTY == FRESH.folded
  {
  }

  lemma AllRecordsSnoc(cs: seq<Chunk>, c: Chunk)
    ensures AllRecords(cs + [c]) == AllRecords(cs) + c.records
  {
    assert (cs + [c])[..|cs|] == cs;
  }

  /** What a read adds to the text held, it adds to the records. */
  lemma AddedReads(r: Reader, live: Str, o: Options, parse: Parser)
    requires Guarded(r.log) && EndsLine(r.text) && parse([]).None?
    ensures Records(On(r, Read(live, o), parse).text, parse)
         == (if Continues(r.log, live) then Records(r.text, parse) else []) + Added(r.log, live, parse)
  {
    hide Records;
    hide Continues;
    hide WholeLines;
    hide Base;
    hide ReadLog;
    var body, from, end := r.log.prefix + live, Base(r.log, live).consumed, WholeLines(r.log.prefix, live);
    var text := if Continues(r.log, live) then r.text else [];
    var piece := if end <= from then [] else body[from..end];
    NoRecords(parse);
    RecordsConcat(text, piece, parse);
    assert On(r, Read(live, o), parse).text == text + piece;
  }

  lemma NoRecords(parse: Parser)
    requires parse([]).None?
    ensures Records([], parse) == []
  {
    assert Split([], NEWLINE) == [[]];
    BlankParses(parse);
  }

  /** After reads that were true appends or were refused, and any rotations, the chunks hold
      exactly the records of the text folded: of all whole lines of the body, after a read. */
  lemma {:induction false} ChunksAreTheLog(es: seq<Event>, parse: Parser)
    requires parse([]).None? && Honest(es, parse)
    ensures AllRecords(Chunks(es, parse)) == Records(After(es, parse).text, parse)
    ensures Whole(Chunks(es, parse)) == FoldFrom(EMPTY, Records(After(es, parse).text, parse))
  {
    hide FoldFrom;
    hide Records;
    hide Added;
    hide On;
    hide Continues;
    hide Honest;
    hide AllRecords;
    NoRecords(parse);
    NoneRecorded();
    if es != [] {
      var init, e := es[..|es| - 1], es[|es| - 1];
      HonestInit(es, parse);
      ChunksAreTheLog(init, parse);
      AlwaysFaithful(init, parse);
      FaithfulEnds(After(init, parse), parse);
      var r := After(init, parse);
      match e
      case Rotated(text) => RotatedText(r, text, parse);
      case Read(live, o) =>
        AddedReads(r, live, o, parse);
        AllRecordsSnoc(if Continues(r.log, live) then Chunks(init, parse) else [], Chunk(Added(r.log, live, parse), o));
    }
  }

  lemma RotatedText(r: Reader, text: Str, parse: Parser)
    requires Guarded(r.log)
    ensures On(r, Rotated(text), parse).text == if WithPrefix(r.log, text).fold.None? then [] else r.text
  {
  }

  lemma NoneRecorded()
    ensures AllRecords([]) == []
  {
  }

  lemma FaithfulEnds(r: Reader, parse: Parser)
    requires Faithful(r, parse)
    ensures EndsLine(r.text)
  {
    hide FoldFrom;
    hide Records;
    hide SameLog;
  }

  /** After any such run that ends in a read, the reader shows an alert where folding all whole
      lines of the body at once would, exactly when it is not an alert left on the timeline that
      the log now surfaces. */
  lemma ReaderShownWhereTheLogSays(es: seq<Event>, parse: Parser, id: Str, d: set<Str>)
    requires parse([]).None? && Honest(es, parse) && es != [] && es[|es| - 1].Read?
    requires id in FoldFrom(EMPTY, Records(LinesNow(es, parse), parse)).byId
    ensures (var fold, batch := After(es, parse).log.fold, FoldFrom(EMPTY, Records(LinesNow(es, parse), parse));
             fold.Some? && id in fold.value.folded.byId
             && (SurfaceOf(fold.value.folded.byId[id], d) == SurfaceOf(batch.byId[id], d)
                 <==> !(StuckQuiet(Chunks(es, parse), id) && SurfaceOf(batch.byId[id], d) == OnAlerts)))
  {
    hide FoldFrom;
    hide Records;
    hide On;
    hide Honest;
    hide Chunks;
    hide Shown;
    hide SurfaceOf;
    hide StuckQuiet;
    hide WholeLines;
    hide Faithful;
    hide TrueAppend;
    var init, e := es[..|es| - 1], es[|es| - 1];
    HonestInit(es, parse);
    AlwaysFaithful(init, parse);
    ReadFaithful(After(init, parse), e.live, e.options, parse);
    ReadKeepsPrefix(After(init, parse), e, parse);
    ReaderShowsChunks(es, parse);
    ChunksAreTheLog(es, parse);
    ShownWhereTheLogSays(Chunks(es, parse), id, d);
  }

  /** The whole lines of the body at the last read. */
  function LinesNow(es: seq<Event>, parse: Parser): Str
    requires es != [] && es[|es| - 1].Read?
  {
    var prefix, live := After(es, parse).log.prefix, es[|es| - 1].live;
    (prefix + live)[..WholeLines(prefix, live)]
  }

  lemma LastLength(es: seq<Event>, parse: Parser)
    requires Growing(es)
    ensures After(es, parse).log.lastLength == if es == [] then -1 else |After(es, parse).log.prefix| + |es[|es| - 1].live|
  {
    hide Base;
    hide Extended;
    hide Continues;
    hide WholeLines;
  }

  /** A growing log continues the fold held. */
  lemma GrowingBase(st: LogState, text: Str, live: Str)
    requires Guarded(st) && st.prefix == [] && st.lastLength <= |live| && text <= live
    requires if st.fold.Some? then st.fold.value.consumed == |text| && st.fold.value.guard == TailOf(text) else text == []
    ensures Base(st, live) == (if st.fold.Some? then st.fold.value else FRESH)
    ensures Continues(st, live) <==> st.fold.Some?
  {
    assert [] + live == live;
    if st.fold.Some? {
      var h := st.fold.value;
      assert live[..|text|] == text;
      assert live[h.consumed - |h.guard|..h.consumed] == TailOf(text);
    }
  }

  /** Reads of a log that only grows never start over: there is a chunk for each. */
  lemma {:induction false} GrowingNeverRestarts(es: seq<Event>, parse: Parser)
    requires Growing(es) && parse([]).None?
    ensures |Chunks(es, parse)| == |es|
  {
    hide On;
    hide Faithful;
    hide Honest;
    hide After;
    hide Added;
    hide Continues;
    if es != [] {
      var init, e := es[..|es| - 1], es[|es| - 1];
      assert forall i :: 0 <= i < |init| ==> init[i] == es[i];
      GrowingNeverRestarts(init, parse);
      GrowingIsHonest(init, parse);
      AlwaysFaithful(init, parse);
      GrowingText(init, parse);
      LastLength(init, parse);
      assert init != [] ==> init[|init| - 1] == es[|es| - 2];
      FaithfulHeld(After(init, parse), parse);
      GrowingBase(After(init, parse).log, After(init, parse).text, e.live);
      if init == [] {
        NothingYet(parse);
      } else {
        LastReadHolds(init, parse);
      }
    }
  }

  lemma NothingYet(parse: Parser)
    ensures After([], parse) == CREATED
  {
  }

  lemma LastReadHolds(es: seq<Event>, parse: Parser)
    requires es != [] && es[|es| - 1].Read?
    ensures After(es, parse).log.fold.Some?
  {
    hide On;
    ReadKeepsPrefix(After(es[..|es| - 1], parse), es[|es| - 1], parse);
  }

  lemma FaithfulHeld(r: Reader, parse: Parser)
    requires Faithful(r, parse)
    ensures if r.log.fold.Some? then r.log.fold.value.consumed == |r.text| && r.log.fold.value.guard == TailOf(r.text)
            else r.text == []
  {
    hide FoldFrom;
    hide Records;
    hide SameLog;
  }
}
