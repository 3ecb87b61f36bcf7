/** The live feed's row cache: a row the daemon did not change keeps the object it had, with
    everything this side has written on it, and still shows what a fresh one would. */
module RowCache {
  import opened Wrappers
  import opened Text
  import opened Alerts

  datatype Json = Null | Bool(flag: bool) | Num(value: real) | Words(text: Str) | Arr(items: seq<Json>) | Obj(fields: Fields)

  type Fields = map<Str, Json>

  /** `deepEqual`. */
  predicate DeepEqual(a: Json, b: Json) {
    match a
    case Arr(x) => b.Arr? && |x| == |b.items| && forall i :: 0 <= i < |x| ==> DeepEqual(x[i], b.items[i])
    case Obj(x) => b.Obj? && |x.Keys| == |b.fields.Keys| && forall k :: k in x.Keys ==> k in b.fields && DeepEqual(x[k], b.fields[k])
    case _ => a == b
  }

  lemma SameSize(a: set<Str>, b: set<Str>)
    requires a <= b && |a| == |b|
    ensures a == b
  {
    assert b == a + (b - a);
  }

  /** Deep equality is equality of values. */
  lemma {:induction false} DeepEqualIsEqual(a: Json, b: Json)
    ensures DeepEqual(a, b) <==> a == b
    decreases a
  {
    match a
    case Arr(x) =>
      if b.Arr? && |x| == |b.items| {
        forall i | 0 <= i < |x| ensures DeepEqual(x[i], b.items[i]) <==> x[i] == b.items[i] {
          DeepEqualIsEqual(x[i], b.items[i]);
        }
        assert DeepEqual(a, b) ==> x == b.items;
      }
    case Obj(x) =>
      if b.Obj? {
        var y := b.fields;
        forall k | k in x && k in y ensures DeepEqual(x[k], y[k]) <==> x[k] == y[k] {
          DeepEqualIsEqual(x[k], y[k]);
        }
        if DeepEqual(a, b) {
          SameSize(x.Keys, y.Keys);
          assert x == y;
        }
      }
    case _ =>
  }

  const IMMUTABLE: set<Str> :=
    {Ascii("process"), Ascii("file"), Ascii("net"), Ascii("ioc"), Ascii("actor"), Ascii("context")}

  predicate IsImmutable(k: Str) { k in IMMUTABLE }

  predicate IsObject(j: Json) { j.Arr? || j.Obj? }

  /** One key of `sameFeedRow`: equal, or both objects and either not walked or deep-equal. */
  predicate SameField(k: Str, s: Json, v: Json) {
    (!IsObject(v) && v == s) || (IsObject(v) && IsObject(s) && (IsImmutable(k) || DeepEqual(v, s)))
  }

  /** `sameFeedRow`. */
  predicate SameFeedRow(snap: Fields, next: Fields) {
    |next.Keys| == |snap.Keys| && forall k :: k in next.Keys ==> k in snap && SameField(k, snap[k], next[k])
  }

  /** The subtrees captured when the alert was raised are what they were. */
  predicate SameImmutables(snap: Fields, next: Fields) {
    forall k :: k in snap && IsImmutable(k) && k in next && IsObject(snap[k]) && IsObject(next[k]) ==> snap[k] == next[k]
  }

  lemma SameFieldMeans(k: Str, s: Json, v: Json)
    ensures SameField(k, s, v) && (IsImmutable(k) && IsObject(s) && IsObject(v) ==> s == v) ==> v == s
    ensures v == s ==> SameField(k, s, v)
  {
    hide DeepEqual;
    hide IsImmutable;
    DeepEqualIsEqual(v, s);
  }

  /** Rows that compare as the same are the same rows, exactly when the skipped subtrees are. */
  lemma SameRowIsSame(snap: Fields, next: Fields)
    ensures SameFeedRow(snap, next) ==> (snap == next <==> SameImmutables(snap, next))
    ensures snap == next ==> SameFeedRow(snap, next)
  {
    hide SameField;
    hide IsObject;
    hide IsImmutable;
    forall k | k in next && k in snap
      ensures SameField(k, snap[k], next[k]) && (IsImmutable(k) && IsObject(snap[k]) && IsObject(next[k]) ==> snap[k] == next[k]) ==> next[k] == snap[k]
      ensures next[k] == snap[k] ==> SameField(k, snap[k], next[k]) {
      SameFieldMeans(k, snap[k], next[k]);
    }
    if SameFeedRow(snap, next) && SameImmutables(snap, next) {
      SameSize(next.Keys, snap.Keys);
      assert snap == next;
    }
  }

  // ------------------------------------------------------------------ reading a raw row

  function Field(f: Fields, name: Str): Json {
    if name in f then f[name] else Null
  }

  predicate Truthy(j: Json) {
    match j
    case Null => false
    case Bool(b) => b
    case Num(n) => n != 0.0
    case Words(t) => t != []
    case _ => true
  }

  function TextOf(j: Json): Str {
    if j.Words? then j.text else []
  }

  const ALERTS_NAME: Str := Ascii("alerts")
  const TIMELINE_NAME: Str := Ascii("timeline")

  function IdOf(f: Fields): Str { TextOf(Field(f, Ascii("id"))) }

  function ChainIdOf(f: Fields): Str { TextOf(Field(f, Ascii("chain_id"))) }

  function LowerUnit(u: Unit): Unit { if 65 <= u <= 90 then u + 32 else u }

  function Lower(s: Str): Str { seq(|s|, i requires 0 <= i < |s| => LowerUnit(s[i])) }

  function SeverityOf(f: Fields): Severity {
    var s := Lower(TextOf(Field(f, Ascii("severity"))));
    if s == Ascii("low") then Low
    else if s == Ascii("medium") then MediumSeverity
    else if s == Ascii("high") then High
    else if s == Ascii("critical") then Critical
    else Unrecognised
  }

  function TriageDemoted(f: Fields): Json {
    var t := Field(f, Ascii("triage"));
    if t.Obj? then Field(t.fields, Ascii("demoted")) else Null
  }

  predicate TriageDemotes(f: Fields) { Truthy(TriageDemoted(f)) }

  /** A live row object: the daemon's fields as they came, and what this side writes. */
  datatype FeedAlert = FeedAlert(
    fields: Fields, chain: Json, surfaceStamped: bool, surface: Json, demoted: bool, visible: bool)

  predicate StampedBy(f: Fields) {
    Field(f, Ascii("surface")) == Words(ALERTS_NAME) || Field(f, Ascii("surface")) == Words(TIMELINE_NAME)
  }

  /** A row as it arrives. */
  function Arrived(f: Fields): FeedAlert {
    FeedAlert(f, Field(f, Ascii("chain")), StampedBy(f), Field(f, Ascii("surface")), false, false)
  }

  /** `alertSurface` on a live row: it reads back what decoration wrote. */
  function FeedSurface(a: FeedAlert, demotedRules: set<Str>): Surface {
    if Truthy(Field(a.fields, Ascii("suppressed_by"))) || TriageDemotes(a.fields) then OnTimeline
    else if a.surfaceStamped then (if a.surface == Words(ALERTS_NAME) then OnAlerts else OnTimeline)
    else if IsDemotedRule(TextOf(Field(a.fields, Ascii("rule"))), demotedRules) then OnTimeline
    else if AtLeast(SeverityOf(a.fields), High) then OnAlerts
    else OnTimeline
  }

  /** `decorateAlerts` on a live row. */
  function DecoratedRow(a: FeedAlert, o: Options): FeedAlert {
    var mark := TextOf(Field(a.fields, Ascii("suppressed_by")));
    a.(demoted := IsDemotedRule(TextOf(Field(a.fields, Ascii("rule"))), o.demotedRules) || IsDemotionMarker(mark) || TriageDemoted(a.fields) == Bool(true),
       surface := Words(if FeedSurface(a, o.demotedRules) == OnAlerts then ALERTS_NAME else TIMELINE_NAME),
       visible := Truthy(Field(a.fields, Ascii("suppressed_by"))) && !IsDemotionMarker(mark) ==> o.showSuppressed)
  }

  /** What a kept row's chain link becomes: a stale one is dropped, when the payload has chains at all. */
  function Dropped(chain: Json, id: Str, chains: Option<Fields>): Json {
    if chains.Some? && id != [] && !(id in chains.value && chain == chains.value[id]) then Null else chain
  }

  /** What `rehydrateChains` makes of a chain. */
  function Rehydrated(chain: Json, id: Str, chains: Option<Fields>): Json {
    if chains.Some? && id != [] && !Truthy(chain) && id in chains.value && Truthy(chains.value[id]) then chains.value[id]
    else chain
  }

  function Relinked(a: FeedAlert, chains: Option<Fields>): FeedAlert {
    a.(chain := Dropped(a.chain, ChainIdOf(a.fields), chains))
  }

  /** `rehydrateChains` on one row. */
  function Hydrated(a: FeedAlert, chains: Option<Fields>): FeedAlert {
    a.(chain := Rehydrated(a.chain, ChainIdOf(a.fields), chains))
  }

  // ------------------------------------------------------------------------------- polls

  datatype Row = Row(alert: FeedAlert, snap: Fields)

  type Rows = map<Str, Row>

  /** One poll's payload and the settings in force. */
  datatype Poll = Poll(alerts: seq<Fields>, chains: Option<Fields>, options: Options)

  predicate Reuses(rows: Rows, next: Fields) {
    IdOf(next) in rows && SameFeedRow(rows[IdOf(next)].snap, next)
  }

  /** The row object an entry ends up as. */
  function Shown(rows: Rows, next: Fields, p: Poll): FeedAlert {
    Hydrated(DecoratedRow(if Reuses(rows, next) then Relinked(rows[IdOf(next)].alert, p.chains) else Arrived(next), p.options), p.chains)
  }

  /** The entries in the order they are taken: newest first. */
  function Taken(p: Poll): (s: seq<Fields>)
    ensures |s| == |p.alerts| && forall i :: 0 <= i < |s| ==> s[i] == p.alerts[|s| - 1 - i]
  {
    seq(|p.alerts|, i requires 0 <= i < |p.alerts| => p.alerts[|p.alerts| - 1 - i])
  }

  function KeptFrom(rows: Rows, taken: seq<Fields>, p: Poll): Rows {
    if taken == [] then map[]
    else
      var next := taken[|taken| - 1];
      KeptFrom(rows, taken[..|taken| - 1], p)
        [IdOf(next) := Row(Shown(rows, next, p), if Reuses(rows, next) then rows[IdOf(next)].snap else next)]
  }

  function ShownAll(rows: Rows, p: Poll): (alerts: seq<FeedAlert>)
    ensures |alerts| == |p.alerts|
  {
    seq(|p.alerts|, i requires 0 <= i < |p.alerts| => Shown(rows, Taken(p)[i], p))
  }

  /** Is the row unacknowledged and on the Alerts surface? */
  predicate Waits(a: FeedAlert, demotedRules: set<Str>) {
    Field(a.fields, Ascii("acked")) != Bool(true) && FeedSurface(a, demotedRules) == OnAlerts
  }

  /** How many waiting rows have a severity. */
  function WaitingAt(alerts: seq<FeedAlert>, severity: Severity, demotedRules: set<Str>): nat {
    if alerts == [] then 0
    else
      var a := alerts[|alerts| - 1];
      WaitingAt(alerts[..|alerts| - 1], severity, demotedRules)
      + if Waits(a, demotedRules) && SeverityOf(a.fields) == severity then 1 else 0
  }

  datatype Counts = Counts(critical: nat, high: nat, medium: nat, low: nat, total: nat, badge: nat)

  /** `unackedCounts`: the four counts are the waiting rows by severity, and the total and the
      badge are their sum. */
  method UnackedCounts(alerts: seq<FeedAlert>, demotedRules: set<Str>) returns (counts: Counts)
    ensures counts.critical == WaitingAt(alerts, Critical, demotedRules)
    ensures counts.high == WaitingAt(alerts, High, demotedRules)
    ensures counts.medium == WaitingAt(alerts, MediumSeverity, demotedRules)
    ensures counts.low == WaitingAt(alerts, Low, demotedRules)
    ensures counts.total == counts.badge == counts.critical + counts.high + counts.medium + counts.low
  {
    hide FeedSurface;
    hide SeverityOf;
    hide Field;
    counts := Counts(0, 0, 0, 0, 0, 0);
    for i := 0 to |alerts|
      invariant counts.critical == WaitingAt(alerts[..i], Critical, demotedRules)
      invariant counts.high == WaitingAt(alerts[..i], High, demotedRules)
      invariant counts.medium == WaitingAt(alerts[..i], MediumSeverity, demotedRules)
      invariant counts.low == WaitingAt(alerts[..i], Low, demotedRules)
      invariant counts.total == counts.badge == counts.critical + counts.high + counts.medium + counts.low
    {
      assert alerts[..i + 1][..i] == alerts[..i];
      var a := alerts[i];
      if Field(a.fields, Ascii("acked")) == Bool(true) || FeedSurface(a, demotedRules) != OnAlerts {
        continue;
      }
      match SeverityOf(a.fields) {
        case Critical => counts := counts.(critical := counts.critical + 1);
        case High => counts := counts.(high := counts.high + 1);
        case MediumSeverity => counts := counts.(medium := counts.medium + 1);
        case Low => counts := counts.(low := counts.low + 1);
        case Unrecognised => continue;
      }
      counts := counts.(total := counts.total + 1, badge := counts.badge + 1);
    }
    assert alerts[..|alerts|] == alerts;
  }

  class FeedCache {
    var feedRows: Rows

    constructor ()
      ensures feedRows == map[]
    {
      feedRows := map[];
    }

    /** `ingestFeed` with the linking of chains after it: a kept object stays as it was left,
        is decorated again, and takes the current chain. */
    method IngestFeed(p: Poll) returns (alerts: seq<FeedAlert>, reused: nat)
      modifies this
      ensures alerts == ShownAll(old(feedRows), p)
      ensures feedRows == KeptFrom(old(feedRows), Taken(p), p)
      ensures reused <= |alerts|
    {
      hide SameFeedRow;
      hide Relinked;
      hide DecoratedRow;
      hide Hydrated;
      hide Arrived;
      hide IdOf;
      ghost var taken := Taken(p);
      var kept: Rows := map[];
      alerts, reused := [], 0;
      assert taken[..0] == [];
      var r := |p.alerts|;
      while r > 0
        invariant 0 <= r <= |p.alerts| && |alerts| == |p.alerts| - r && reused <= |alerts|
        invariant forall i :: 0 <= i < |alerts| ==> alerts[i] == Shown(feedRows, taken[i], p)
        invariant kept == KeptFrom(feedRows, taken[..|alerts|], p)
      {
        r := r - 1;
        var next := p.alerts[r];
        assert taken[|alerts|] == next && taken[..|alerts| + 1][..|alerts|] == taken[..|alerts|];
        var id, alert, snap := IdOf(next), Arrived(next), next;
        if id in feedRows && SameFeedRow(feedRows[id].snap, next) {
          alert, snap := Relinked(feedRows[id].alert, p.chains), feedRows[id].snap;
          reused := reused + 1;
        }
        alert := Hydrated(DecoratedRow(alert, p.options), p.chains);
        kept := kept[id := Row(alert, snap)];
        alerts := alerts + [alert];
      }
      assert taken[..|alerts|] == taken;
      feedRows := kept;
    }
  }

  // ---------------------------------------------------------------------------- agreement

  /** A cached row: some arrival, decorated under some settings, perhaps linked to a chain. */
  ghost predicate GoodRow(row: Row) {
    exists o: Options :: row.alert == DecoratedRow(Arrived(row.snap), o).(chain := row.alert.chain)
      && ChainKept(row)
  }

  /** The chain is the daemon's own, or a link, or a link that was dropped. */
  predicate ChainKept(row: Row) {
    row.alert.chain == Field(row.snap, Ascii("chain"))
    || (ChainIdOf(row.snap) != [] && (row.alert.chain == Null || Truthy(row.alert.chain)))
  }

  ghost predicate GoodRows(rows: Rows) {
    forall id :: id in rows ==> GoodRow(rows[id]) && IdOf(rows[id].snap) == id
  }

  /** A payload that sends shared chains when a row has a chain id, and never inlines one beside it. */
  predicate ChainsSent(p: Poll) {
    forall i :: 0 <= i < |p.alerts| && ChainIdOf(p.alerts[i]) != [] ==> p.chains.Some? && Field(p.alerts[i], Ascii("chain")) == Null
  }

  /** What was captured when an alert was raised is what the rows remember of it. */
  predicate Unrewritten(rows: Rows, p: Poll) {
    forall i :: 0 <= i < |p.alerts| && IdOf(p.alerts[i]) in rows ==> SameImmutables(rows[IdOf(p.alerts[i])].snap, p.alerts[i])
  }

  /** Decorating again under other settings forgets the first. */
  lemma RowDecorationSettles(a: FeedAlert, o: Options, c: Json, p: Options)
    ensures DecoratedRow(DecoratedRow(a, o).(chain := c), p) == DecoratedRow(a, p).(chain := c)
  {
    assert ALERTS_NAME[0] == 97 && TIMELINE_NAME[0] == 116;
    hide SeverityOf;
    hide TriageDemoted;
    hide Truthy;
    hide Field;
  }

  /** Fresh or kept, a row is its arrival decorated, with the chain its link leads to. */
  lemma ShownForm(rows: Rows, next: Fields, p: Poll)
    requires GoodRows(rows)
    requires IdOf(next) in rows ==> SameImmutables(rows[IdOf(next)].snap, next)
    ensures var base, id := DecoratedRow(Arrived(next), p.options), ChainIdOf(next);
            var own := Field(next, Ascii("chain"));
            Shown(map[], next, p) == base.(chain := Rehydrated(own, id, p.chains))
            && (Reuses(rows, next) ==>
                  rows[IdOf(next)].snap == next && ChainKept(rows[IdOf(next)])
                  && Shown(rows, next, p)
                     == base.(chain := Rehydrated(Dropped(rows[IdOf(next)].alert.chain, id, p.chains), id, p.chains)))
  {
    hide SameFeedRow;
    hide SameImmutables;
    hide DecoratedRow;
    hide IdOf;
    hide ChainIdOf;
    hide Field;
    hide Dropped;
    hide Rehydrated;
    hide ChainKept;
    DecoratedFields(Arrived(next), p.options);
    if Reuses(rows, next) {
      var row := rows[IdOf(next)];
      SameRowIsSame(row.snap, next);
      assert GoodRow(row);
      var o: Options :| row.alert == DecoratedRow(Arrived(row.snap), o).(chain := row.alert.chain) && ChainKept(row);
      DecoratedFields(Arrived(next), o);
      RowDecorationSettles(Arrived(next), o, Dropped(row.alert.chain, ChainIdOf(next), p.chains), p.options);
    }
  }

  /** A kept row is a fresh one up to its chain. */
  lemma ShownUpToChain(rows: Rows, next: Fields, p: Poll)
    requires GoodRows(rows)
    requires IdOf(next) in rows ==> SameImmutables(rows[IdOf(next)].snap, next)
    ensures Shown(rows, next, p).(chain := Null) == Shown(map[], next, p).(chain := Null)
  {
    hide SameFeedRow;
    hide SameImmutables;
    hide DecoratedRow;
    hide IdOf;
    hide ChainIdOf;
    hide Field;
    hide Relinked;
    hide Hydrated;
    hide Dropped;
    hide Rehydrated;
    hide GoodRow;
    ShownForm(rows, next, p);
  }

  /** When a kept row that holds chain `kept` shows the chain a fresh one would: without shared
      chains, or without a chain id, when it holds the row's own; else when the row inlines none
      but the shared one. */
  predicate ChainAgrees(kept: Json, next: Fields, chains: Option<Fields>) {
    var id, own := ChainIdOf(next), Field(next, Ascii("chain"));
    if chains.None? || id == [] then kept == own
    else if id in chains.value && Truthy(chains.value[id]) then !Truthy(own) || own == chains.value[id]
    else own == if id in chains.value && kept == chains.value[id] then kept else Null
  }

  /** A kept row shows exactly what a fresh one would just when the chains agree. */
  lemma KeptRowAgreesIff(rows: Rows, next: Fields, p: Poll)
    requires GoodRows(rows) && Reuses(rows, next) && SameImmutables(rows[IdOf(next)].snap, next)
    ensures Shown(rows, next, p) == Shown(map[], next, p) <==> ChainAgrees(rows[IdOf(next)].alert.chain, next, p.chains)
  {
    hide SameFeedRow;
    hide SameImmutables;
    hide DecoratedRow;
    hide IdOf;
    hide ChainIdOf;
    hide Field;
    hide Shown;
    hide GoodRow;
    ShownForm(rows, next, p);
  }

  /** With shared chains sent for every chain id and none inlined beside one, they agree. */
  lemma SentChainsAgree(rows: Rows, next: Fields, p: Poll)
    requires GoodRows(rows) && Reuses(rows, next) && SameImmutables(rows[IdOf(next)].snap, next)
    requires ChainIdOf(next) != [] ==> p.chains.Some? && Field(next, Ascii("chain")) == Null
    ensures ChainAgrees(rows[IdOf(next)].alert.chain, next, p.chains)
  {
    hide SameFeedRow;
    hide SameImmutables;
    hide DecoratedRow;
    hide IdOf;
    hide ChainIdOf;
    hide Field;
    SameRowIsSame(rows[IdOf(next)].snap, next);
  }

  lemma DecoratedFields(a: FeedAlert, o: Options)
    ensures DecoratedRow(a, o).fields == a.fields && DecoratedRow(a, o).chain == a.chain
  {
  }

  /** The rows without their chains. */
  function Unlinked(alerts: seq<FeedAlert>): (r: seq<FeedAlert>)
    ensures |r| == |alerts| && forall i :: 0 <= i < |r| ==> r[i] == alerts[i].(chain := Null)
  {
    seq(|alerts|, i requires 0 <= i < |alerts| => alerts[i].(chain := Null))
  }

  /** Every kept row of the payload agrees on its chain. */
  predicate ChainsAgree(rows: Rows, p: Poll) {
    forall i :: 0 <= i < |p.alerts| && Reuses(rows, p.alerts[i]) ==>
      ChainAgrees(rows[IdOf(p.alerts[i])].alert.chain, p.alerts[i], p.chains)
  }

  /** One poll through the cache shows what a fresh panel would, chains aside; and the chains too
      exactly when every kept row agrees on its own. */
  lemma PollAgrees(rows: Rows, p: Poll)
    requires GoodRows(rows) && Unrewritten(rows, p)
    ensures Unlinked(ShownAll(rows, p)) == Unlinked(ShownAll(map[], p))
    ensures ShownAll(rows, p) == ShownAll(map[], p) <==> ChainsAgree(rows, p)
    ensures ChainsSent(p) ==> ChainsAgree(rows, p)
  {
    hide GoodRows;
    hide Shown;
    hide SameImmutables;
    hide ChainAgrees;
    hide Reuses;
    hide IdOf;
    hide ChainIdOf;
    var kept, anew := ShownAll(rows, p), ShownAll(map[], p);
    var n := |p.alerts|;
    forall i | 0 <= i < n
      ensures Reuses(rows, p.alerts[i]) ==> IdOf(p.alerts[i]) in rows
      ensures kept[n - 1 - i].(chain := Null) == anew[n - 1 - i].(chain := Null)
      ensures kept[n - 1 - i] == anew[n - 1 - i]
         <==> (Reuses(rows, p.alerts[i]) ==> ChainAgrees(rows[IdOf(p.alerts[i])].alert.chain, p.alerts[i], p.chains))
      ensures ChainsSent(p) && Reuses(rows, p.alerts[i]) ==>
                ChainAgrees(rows[IdOf(p.alerts[i])].alert.chain, p.alerts[i], p.chains)
    {
      RowAgrees(rows, p.alerts[i], p);
      assert Taken(p)[n - 1 - i] == p.alerts[i];
    }
    assert forall j :: 0 <= j < n ==> kept[j] == kept[n - 1 - (n - 1 - j)];
  }

  lemma RowAgrees(rows: Rows, next: Fields, p: Poll)
    requires GoodRows(rows) && (IdOf(next) in rows ==> SameImmutables(rows[IdOf(next)].snap, next))
    ensures Reuses(rows, next) ==> IdOf(next) in rows
    ensures Shown(rows, next, p).(chain := Null) == Shown(map[], next, p).(chain := Null)
    ensures Shown(rows, next, p) == Shown(map[], next, p)
       <==> (Reuses(rows, next) ==> ChainAgrees(rows[IdOf(next)].alert.chain, next, p.chains))
    ensures (ChainIdOf(next) != [] ==> p.chains.Some? && Field(next, Ascii("chain")) == Null) && Reuses(rows, next) ==>
              ChainAgrees(rows[IdOf(next)].alert.chain, next, p.chains)
  {
    hide SameFeedRow;
    hide SameImmutables;
    hide ChainAgrees;
    hide DecoratedRow;
    hide Hydrated;
    hide Arrived;
    hide IdOf;
    hide ChainIdOf;
    hide GoodRow;
    ShownUpToChain(rows, next, p);
    if Reuses(rows, next) {
      KeptRowAgreesIff(rows, next, p);
      if ChainIdOf(next) != [] ==> p.chains.Some? && Field(next, Ascii("chain")) == Null {
        SentChainsAgree(rows, next, p);
      }
    }
  }

  /** Counting does not look at chains. */
  lemma {:induction false} CountsIgnoreChains(a: seq<FeedAlert>, b: seq<FeedAlert>, severity: Severity, demotedRules: set<Str>)
    requires Unlinked(a) == Unlinked(b)
    ensures WaitingAt(a, severity, demotedRules) == WaitingAt(b, severity, demotedRules)
  {
    hide Field;
    hide SeverityOf;
    assert |a| == |Unlinked(a)| == |Unlinked(b)| == |b|;
    if a != [] {
      var n := |a| - 1;
      forall i | 0 <= i <= n ensures a[i].(chain := Null) == b[i].(chain := Null) {
        assert Unlinked(a)[i] == Unlinked(b)[i];
      }
      assert Unlinked(a[..n]) == Unlinked(b[..n]);
      CountsIgnoreChains(a[..n], b[..n], severity, demotedRules);
    }
  }

  /** Linking writes nothing but the chain. */
  lemma LinkingWritesChain(a: FeedAlert, chains: Option<Fields>)
    ensures (var r, h := Relinked(a, chains), Hydrated(a, chains);
             r == a.(chain := r.chain) && h == a.(chain := h.chain)
             && (r.chain == a.chain || (ChainIdOf(a.fields) != [] && r.chain == Null))
             && (h.chain == a.chain || (ChainIdOf(a.fields) != [] && Truthy(h.chain))))
  {
    hide ChainIdOf;
    hide Truthy;
  }

  lemma ShownIsGood(rows: Rows, next: Fields, p: Poll)
    requires GoodRows(rows)
    ensures GoodRow(Row(Shown(rows, next, p), if Reuses(rows, next) then rows[IdOf(next)].snap else next))
  {
    hide SameFeedRow;
    hide DecoratedRow;
    hide IdOf;
    hide ChainIdOf;
    hide Field;
    hide Truthy;
    hide Relinked;
    hide Hydrated;
    var r := Shown(rows, next, p);
    if Reuses(rows, next) {
      var row := rows[IdOf(next)];
      var o: Options :| row.alert == DecoratedRow(Arrived(row.snap), o).(chain := row.alert.chain) && ChainKept(row);
      var a := Relinked(row.alert, p.chains);
      LinkingWritesChain(row.alert, p.chains);
      DecoratedFields(Arrived(row.snap), o);
      DecoratedFields(Arrived(row.snap), p.options);
      DecoratedFields(a, p.options);
      LinkingWritesChain(DecoratedRow(a, p.options), p.chains);
      RowDecorationSettles(Arrived(row.snap), o, a.chain, p.options);
      assert r == DecoratedRow(Arrived(row.snap), p.options).(chain := r.chain);
    } else {
      DecoratedFields(Arrived(next), p.options);
      LinkingWritesChain(DecoratedRow(Arrived(next), p.options), p.chains);
      assert r == DecoratedRow(Arrived(next), p.options).(chain := r.chain);
    }
  }

  lemma {:induction false} KeptIsGood(rows: Rows, taken: seq<Fields>, p: Poll)
    requires GoodRows(rows)
    ensures GoodRows(KeptFrom(rows, taken, p))
  {
    hide Shown;
    hide GoodRow;
    hide SameFeedRow;
    hide IdOf;
    if taken != [] {
      KeptIsGood(rows, taken[..|taken| - 1], p);
      ShownIsGood(rows, taken[|taken| - 1], p);
    }
  }

  /** The rows after a run of polls. */
  function RowsAfter(ps: seq<Poll>): Rows {
    if ps == [] then map[] else KeptFrom(RowsAfter(ps[..|ps| - 1]), Taken(ps[|ps| - 1]), ps[|ps| - 1])
  }

  lemma {:induction false} AlwaysGood(ps: seq<Poll>)
    ensures GoodRows(RowsAfter(ps))
  {
    hide GoodRow;
    hide KeptFrom;
    if ps != [] {
      AlwaysGood(ps[..|ps| - 1]);
      KeptIsGood(RowsAfter(ps[..|ps| - 1]), Taken(ps[|ps| - 1]), ps[|ps| - 1]);
    }
  }

  /** In every payload, whatever an id's rows captured at first they still say. */
  ghost predicate NeverRewritten(ps: seq<Poll>) {
    forall i, j, m, n :: 0 <= i < j < |ps| && 0 <= m < |ps[i].alerts| && 0 <= n < |ps[j].alerts| && IdOf(ps[i].alerts[m]) == IdOf(ps[j].alerts[n])
      ==> SameImmutables(ps[i].alerts[m], ps[j].alerts[n])
  }

  /** A remembered row came in some payload. */
  ghost predicate CameIn(ps: seq<Poll>, snap: Fields) {
    exists i, m :: 0 <= i < |ps| && 0 <= m < |ps[i].alerts| && ps[i].alerts[m] == snap
  }

  lemma {:induction false} KeptCame(rows: Rows, taken: seq<Fields>, p: Poll, ps: seq<Poll>)
    requires forall id :: id in rows ==> CameIn(ps, rows[id].snap)
    requires forall i :: 0 <= i < |taken| ==> CameIn(ps, taken[i])
    ensures forall id :: id in KeptFrom(rows, taken, p) ==> CameIn(ps, KeptFrom(rows, taken, p)[id].snap)
    decreases |taken|
  {
    hide Shown;
    hide CameIn;
    hide SameFeedRow;
    if taken != [] {
      KeptCame(rows, taken[..|taken| - 1], p, ps);
    }
  }

  lemma {:induction false} RowsCame(ps: seq<Poll>)
    ensures forall id :: id in RowsAfter(ps) ==> CameIn(ps, RowsAfter(ps)[id].snap)
    decreases |ps|
  {
    hide KeptFrom;
    if ps != [] {
      var init, p := ps[..|ps| - 1], ps[|ps| - 1];
      RowsCame(init);
      forall id | id in RowsAfter(init) ensures CameIn(ps, RowsAfter(init)[id].snap) {
        var i, m :| 0 <= i < |init| && 0 <= m < |init[i].alerts| && init[i].alerts[m] == RowsAfter(init)[id].snap;
        assert ps[i] == init[i] && ps[i].alerts[m] == RowsAfter(init)[id].snap;
      }
      forall i | 0 <= i < |p.alerts| ensures CameIn(ps, Taken(p)[i]) {
        assert ps[|ps| - 1].alerts[|p.alerts| - 1 - i] == Taken(p)[i];
      }
      KeptCame(RowsAfter(init), Taken(p), p, ps);
    }
  }

  /** After any run of polls, whatever settings changed between them, the cache shows every row
      of the last payload as a fresh panel would, chains aside, and counts the same by severity
      and in all. The chains are the same too exactly when every kept row agrees on its own, as
      when shared chains are sent for every chain id. */
  lemma CacheAgreesWithFresh(ps: seq<Poll>, p: Poll, severity: Severity)
    requires NeverRewritten(ps + [p])
    ensures var kept, anew, rules := ShownAll(RowsAfter(ps), p), ShownAll(map[], p), p.options.demotedRules;
            Unlinked(kept) == Unlinked(anew)
            && WaitingAt(kept, severity, rules) == WaitingAt(anew, severity, rules)
            && (kept == anew <==> ChainsAgree(RowsAfter(ps), p))
    ensures ChainsSent(p) ==> ChainsAgree(RowsAfter(ps), p)
  {
    hide SameImmutables;
    hide ShownAll;
    hide WaitingAt;
    hide ChainsAgree;
    hide Unlinked;
    AlwaysGood(ps);
    RowsCame(ps);
    var all := ps + [p];
    forall n | 0 <= n < |p.alerts| && IdOf(p.alerts[n]) in RowsAfter(ps)
      ensures SameImmutables(RowsAfter(ps)[IdOf(p.alerts[n])].snap, p.alerts[n]) {
      var row := RowsAfter(ps)[IdOf(p.alerts[n])];
      var i, m :| 0 <= i < |ps| && 0 <= m < |ps[i].alerts| && ps[i].alerts[m] == row.snap;
      assert all[i] == ps[i] && all[|ps|] == p;
      assert IdOf(all[i].alerts[m]) == IdOf(all[|ps|].alerts[n]);
    }
    PollAgrees(RowsAfter(ps), p);
    CountsIgnoreChains(ShownAll(RowsAfter(ps), p), ShownAll(map[], p), severity, p.options.demotedRules);
  }

  const LINKED: Fields := map[Ascii("id") := Words(Ascii("a")), Ascii("chain_id") := Words(Ascii("c"))]
  const SHARED: Fields := map[Ascii("c") := Words(Ascii("steps"))]

  /** One row polled twice, the second time without the shared chains: the kept row still shows
      the chain of the first poll and a fresh one would show none. */
  lemma LinkOutlivesItsPayload(o: Options)
    ensures var p, q := Poll([LINKED], Some(SHARED), o), Poll([LINKED], None, o);
            NeverRewritten([p, q])
            && ShownAll(RowsAfter([p]), q)[0].chain == SHARED[Ascii("c")]
            && ShownAll(map[], q)[0].chain == Null
  {
    hide DecoratedRow;
    hide SameFeedRow;
    hide SameImmutables;
    hide IdOf;
    hide ChainIdOf;
    hide Field;
    hide GoodRow;
    hide Shown;
    hide KeptFrom;
    hide RowsAfter;
    hide Arrived;
    hide NeverRewritten;
    var p, q := Poll([LINKED], Some(SHARED), o), Poll([LINKED], None, o);
    LinkedFields();
    assert Taken(p) == [LINKED] && Taken(q) == [LINKED];
    SelfSame(LINKED);
    OneRowTwice(p, q);
    NoRowsGood();
    ShownForm(map[], LINKED, p);
    ShownForm(map[], LINKED, q);
    OneRow(p);
    AlwaysGood([p]);
    SameRowIsSame(LINKED, LINKED);
    ShownForm(RowsAfter([p]), LINKED, q);
  }

  lemma OneRowTwice(p: Poll, q: Poll)
    requires p.alerts == q.alerts && |p.alerts| == 1
    ensures NeverRewritten([p, q])
  {
    hide SameImmutables;
    SelfSame(p.alerts[0]);
  }

  lemma NoRowsGood()
    ensures GoodRows(map[])
  {
  }

  lemma OneRow(p: Poll)
    requires |p.alerts| == 1
    ensures RowsAfter([p]) == map[IdOf(p.alerts[0]) := Row(Shown(map[], p.alerts[0], p), p.alerts[0])]
  {
    hide Shown;
    hide IdOf;
    var before: seq<Poll> := [p][..0];
    assert before == [] && RowsAfter(before) == map[];
    var taken := Taken(p);
    assert taken == [p.alerts[0]] && taken[..0] == [];
    assert KeptFrom(map[], taken[..0], p) == map[];
    assert RowsAfter([p]) == KeptFrom(map[], taken, p);
  }

  lemma LinkedFields()
    ensures IdOf(LINKED) == Ascii("a") && ChainIdOf(LINKED) == Ascii("c") != []
    ensures Field(LINKED, Ascii("chain")) == Null
    ensures Ascii("c") in SHARED && Truthy(SHARED[Ascii("c")])
  {
    assert |Ascii("id")| == 2 && |Ascii("chain_id")| == 8 && |Ascii("chain")| == 5 && |Ascii("steps")| == 5;
    assert Ascii("chain") !in LINKED;
    assert Ascii("id") in LINKED && LINKED[Ascii("id")] == Words(Ascii("a"));
    assert Ascii("chain_id") in LINKED && LINKED[Ascii("chain_id")] == Words(Ascii("c"));
    assert SHARED[Ascii("c")] == Words(Ascii("steps"));
  }

  lemma SelfSame(f: Fields)
    ensures SameImmutables(f, f)
  {
  }
}
