/** Laws of the notifier over every run: nothing swallowed is lost or told twice, toasts of one
    rule keep their distance, and an unresolved incident interrupts at most four times. */
module NotifyRuns {
  import opened Wrappers
  import opened Text
  import opened Sorting
  import opened Alerts
  import opened Notify

  datatype Event =
    | Arrived(alert: Alert, now: int, settings: Settings)
    | Flush(now: int)
    | Sync(alerts: seq<Alert>, initialLoad: bool)

  ghost function On(d: Desk, e: Event): Desk {
    match e
    case Arrived(a, now, o) => Decide(d, a, now, o).0
    case Flush(now) => Flushed(d, now).0
    case Sync(alerts, initial) => d.(incidents := Synced(d.incidents, alerts, initial))
  }

  ghost function After(d: Desk, es: seq<Event>): Desk {
    if es == [] then d else On(After(d, es[..|es| - 1]), es[|es| - 1])
  }

  /** The decision event `i` of a run brought. */
  ghost function DecisionAt(d: Desk, es: seq<Event>, i: nat): Decision
    requires i < |es| && es[i].Arrived?
  {
    Decide(After(d, es[..i]), es[i].alert, es[i].now, es[i].settings).1
  }

  /** Windows are filed by rule, have toasted, and last at least a minute. */
  predicate Sound(windows: map<Str, Window>) {
    forall r :: r in windows ==> windows[r].rule == r && windows[r].toasted && windows[r].span >= MINUTE_MS
  }

  lemma CredentialsAside(d: Desk, c: map<CredentialKey, int>, a: Alert, now: int, o: Settings)
    ensures (var (x, said), (y, told) := Windowed(d, a, now, o), Windowed(d.(credentials := c), a, now, o);
             x.windows == y.windows && x.pending == y.pending && said == told && y.incidents == d.incidents && y.chains == d.chains)
  {
    hide Opened;
    hide Owed;
    hide Expired;
    hide Bypasses;
    hide Stamped;
    hide CredentialOf;
  }

  /** Did the rule's window have no part in a decision? */
  predicate WindowAside(r: Reason) {
    !r.Cooldown? && !r.First? && !r.WindowReset?
  }

  /** Either the incident decided and nothing else moved, or the cooldown did. */
  lemma IncidentOrCooldown(d: Desk, a: Alert, now: int, o: Settings)
    ensures (var (after, dec) := Decide(d, a, now, o);
             var (cooled, said) := Cooled(d, a, now, o);
             (after == d.(incidents := after.incidents) && (dec.reason.IncidentUnresolved? || dec.reason.IncidentEscalated?))
             || (after == cooled.(incidents := after.incidents) && dec == said))
  {
    hide ShouldNotify;
    hide NotificationKey;
    hide NotificationRank;
    hide Cooled;
  }

  /** Either the windows and debts are left alone, or the rule's window decided. */
  lemma WindowDecidesOrNot(d: Desk, a: Alert, now: int, o: Settings)
    ensures (var (after, dec) := Decide(d, a, now, o);
             var (wd, said) := Windowed(d, a, now, o);
             (after.windows == d.windows && after.pending == d.pending && WindowAside(dec.reason))
             || (after.windows == wd.windows && after.pending == wd.pending && dec == said))
  {
    hide ShouldNotify;
    hide CredentialOf;
    hide Decide;
    hide Windowed;
    hide Purged;
    hide Recent;
    IncidentOrCooldown(d, a, now, o);
    CredentialsAside(d, Purged(d.credentials, now), a, now, o);
  }

  lemma OnSound(d: Desk, e: Event)
    requires Sound(d.windows)
    ensures Sound(On(d, e).windows)
  {
    hide Decide;
    hide Expired;
    hide Bypasses;
    hide Stamped;
    hide Titled;
    hide ProgramOf;
    hide OwedBy;
    if e.Arrived? {
      WindowDecidesOrNot(d, e.alert, e.now, e.settings);
    }
  }

  lemma {:induction false} AfterSound(d: Desk, es: seq<Event>)
    requires Sound(d.windows)
    ensures Sound(After(d, es).windows)
  {
    hide On;
    hide Sound;
    if es != [] {
      AfterSound(d, es[..|es| - 1]);
      OnSound(After(d, es[..|es| - 1]), es[|es| - 1]);
    }
  }

  // -------------------------------------------------------------------------- conservation

  /** The alerts of a rule that a list of summaries accounts for. */
  function Told(summaries: seq<Summary>, rule: Str): nat {
    if summaries == [] then 0
    else
      Told(summaries[..|summaries| - 1], rule)
      + (if summaries[|summaries| - 1].rule == rule then summaries[|summaries| - 1].count else 0)
  }

  lemma {:induction false} ToldConcat(a: seq<Summary>, b: seq<Summary>, rule: Str)
    ensures Told(a + b, rule) == Told(a, rule) + Told(b, rule)
  {
    if b == [] {
      assert a + b == a;
    } else {
      var all := a + b;
      assert all[..|all| - 1] == a + b[..|b| - 1];
      ToldConcat(a, b[..|b| - 1], rule);
    }
  }

  lemma ToldOwed(w: Window, rule: Str)
    ensures Told(Owed(w), rule) == if w.rule == rule then w.swallowed else 0
  {
    if w.swallowed > 0 {
      assert Owed(w)[..0] == [];
    }
  }

  /** What the desk still owes for a rule. */
  function Owing(d: Desk, rule: Str): nat {
    Told(d.pending, rule) + (if rule in d.windows then d.windows[rule].swallowed else 0)
  }

  /** Cooldown decisions for a rule over a run, and alerts told about in its flushes. */
  ghost function Swallowed(d: Desk, es: seq<Event>, rule: Str): nat {
    if es == [] then 0
    else
      var e := es[|es| - 1];
      Swallowed(d, es[..|es| - 1], rule)
      + (if e.Arrived? && e.alert.fixed.rule == rule && DecisionAt(d, es, |es| - 1).reason == Cooldown then 1 else 0)
  }

  ghost function FlushedOut(d: Desk, es: seq<Event>, rule: Str): nat {
    if es == [] then 0
    else
      var e := es[|es| - 1];
      FlushedOut(d, es[..|es| - 1], rule)
      + (if e.Flush? then Told(Flushed(After(d, es[..|es| - 1]), e.now).1, rule) else 0)
  }

  lemma {:induction false} ToldOwedBy(windows: map<Str, Window>, due: seq<Due>, now: int, rule: Str)
    requires Sound(windows) && (forall i :: 0 <= i < |due| ==> due[i].rule in windows)
    requires forall i, j :: 0 <= i < j < |due| ==> due[i].rule != due[j].rule
    ensures Told(OwedBy(windows, due), rule)
         == if exists i :: 0 <= i < |due| && due[i].rule == rule then windows[rule].swallowed else 0
    decreases |due|
  {
    hide Owed;
    if due != [] {
      var init, last := due[..|due| - 1], due[|due| - 1];
      ToldOwedBy(windows, init, now, rule);
      ToldConcat(OwedBy(windows, init), Owed(windows[last.rule]), rule);
      ToldOwed(windows[last.rule], rule);
      assert forall i :: 0 <= i < |init| ==> init[i] == due[i];
      assert (exists i :: 0 <= i < |due| && due[i].rule == rule) <==> (exists i :: 0 <= i < |init| && init[i].rule == rule) || last.rule == rule;
    }
  }

  /** A flush tells everything pending and everything of the windows that are over, once. */
  lemma FlushTells(d: Desk, now: int, rule: Str)
    requires Sound(d.windows)
    ensures (var (after, out) := Flushed(d, now); Told(out, rule) + Owing(after, rule) == Owing(d, rule))
  {
    hide OwedBy;
    hide Elements;
    hide Sooner;
    hide Owed;
    SoonerIsStrict();
    var due := Sorted(Sooner, DueSet(d.windows, now));
    DueListed(d.windows, now, due);
    DueHeld(d.windows, now, due);
    ToldOwedBy(d.windows, due, now, rule);
    ToldConcat(d.pending, OwedBy(d.windows, due), rule);
    NothingTold(rule);
    if rule in d.windows && Expired(d.windows[rule], now) {
      assert Due(d.windows[rule].start, rule) in due;
    }
  }

  lemma NothingTold(rule: Str)
    ensures Told([], rule) == 0
  {
  }

  lemma ArrivalOwes(d: Desk, a: Alert, now: int, o: Settings, rule: Str)
    requires Sound(d.windows)
    ensures (var (after, decision) := Decide(d, a, now, o);
             Owing(after, rule) == Owing(d, rule) + if a.fixed.rule == rule && decision.reason == Cooldown then 1 else 0)
  {
    hide Decide;
    hide Expired;
    hide Bypasses;
    hide Stamped;
    hide Opened;
    hide Told;
    hide Owed;
    WindowDecidesOrNot(d, a, now, o);
    if a.fixed.rule in d.windows {
      ToldConcat(d.pending, Owed(d.windows[a.fixed.rule]), rule);
      ToldOwed(d.windows[a.fixed.rule], rule);
    }
    OpenedEmpty(a, now, o);
  }

  lemma OpenedEmpty(a: Alert, now: int, o: Settings)
    ensures Opened(a, now, o).swallowed == 0
  {
  }

  /** Conservation over every run, whatever the clock does: the alerts a rule's cooldown has
      swallowed are those its summaries have told about and those still owed. */
  lemma {:induction false} Conservation(es: seq<Event>, rule: Str)
    ensures Swallowed(EMPTY_DESK, es, rule) == FlushedOut(EMPTY_DESK, es, rule) + Owing(After(EMPTY_DESK, es), rule)
  {
    hide Decide;
    hide Flushed;
    hide Synced;
    hide Sound;
    hide Told;
    if es == [] {
      NothingTold(rule);
    } else {
      var init, e := es[..|es| - 1], es[|es| - 1];
      var d := After(EMPTY_DESK, init);
      Conservation(init, rule);
      NothingOpen();
      AfterSound(EMPTY_DESK, init);
      match e {
        case Arrived(a, now, o) => ArrivalOwes(d, a, now, o, rule);
        case Flush(now) => FlushTells(d, now, rule);
        case Sync(_, _) =>
      }
    }
  }

  lemma NothingOpen()
    ensures Sound(EMPTY_DESK.windows)
  {
  }

  /** A second flush at the same moment has nothing to say. */
  lemma FlushedTwiceSaysNothing(d: Desk, now: int)
    ensures Flushed(Flushed(d, now).0, now).1 == []
  {
    hide Sooner;
    SoonerIsStrict();
    assert DueSet(Open(d.windows, now), now) == {};
    NoElements(Sorted(Sooner, {}));
  }

  // -------------------------------------------------------------------------------- spacing

  /** The time of an event; a sync has none and takes the time before it. */
  function Clock(es: seq<Event>, before: int): int {
    if es == [] then before
    else if es[|es| - 1].Sync? then Clock(es[..|es| - 1], before)
    else es[|es| - 1].now
  }

  predicate Monotone(es: seq<Event>, before: int) {
    forall i :: 0 <= i < |es| && !es[i].Sync? ==> Clock(es[..i], before) <= es[i].now
  }

  /** A toast that opened a window. */
  predicate Opens(dec: Decision) { dec.toast && (dec.reason == First || dec.reason == WindowReset) }

  /** The window opened at `at` for `span` is still there, or its time is over. */
  predicate Kept(d: Desk, rule: Str, at: int, span: int, now: int) {
    (rule in d.windows && d.windows[rule].start == at && d.windows[rule].span == span) || now >= at + span
  }

  lemma StepKeeps(d: Desk, e: Event, rule: Str, at: int, span: int, clock: int)
    requires Sound(d.windows) && Kept(d, rule, at, span, clock) && at <= clock
    requires e.Sync? || clock <= e.now
    ensures Kept(On(d, e), rule, at, span, if e.Sync? then clock else e.now)
    ensures e.Arrived? && e.alert.fixed.rule == rule && Opens(Decide(d, e.alert, e.now, e.settings).1) ==> e.now >= at + span
  {
    hide Decide;
    hide Bypasses;
    hide Stamped;
    hide OwedBy;
    hide Synced;
    hide CooldownMs;
    if e.Arrived? {
      WindowDecidesOrNot(d, e.alert, e.now, e.settings);
    }
  }

  lemma OpenedIsKept(d: Desk, e: Event)
    requires Sound(d.windows) && e.Arrived? && Opens(Decide(d, e.alert, e.now, e.settings).1)
    ensures Kept(On(d, e), e.alert.fixed.rule, e.now, CooldownMs(e.settings), e.now)
  {
    hide Decide;
    hide Bypasses;
    hide Stamped;
    hide CooldownMs;
    WindowDecidesOrNot(d, e.alert, e.now, e.settings);
  }

  lemma {:induction false} RunKeeps(d: Desk, es: seq<Event>, rule: Str, at: int, span: int, before: int)
    requires Sound(d.windows) && Kept(d, rule, at, span, before) && at <= before && Monotone(es, before)
    ensures Kept(After(d, es), rule, at, span, Clock(es, before)) && at <= Clock(es, before)
  {
    hide On;
    hide Sound;
    hide Kept;
    if es != [] {
      var init, e := es[..|es| - 1], es[|es| - 1];
      assert forall i :: 0 <= i < |init| ==> init[i] == es[i] && init[..i] == es[..i];
      RunKeeps(d, init, rule, at, span, before);
      AfterSound(d, init);
      StepKeeps(After(d, init), e, rule, at, span, Clock(init, before));
    }
  }

  lemma {:induction false} AfterSplit(d: Desk, es: seq<Event>, i: nat, j: nat)
    requires i <= j <= |es|
    ensures After(d, es[..j]) == After(After(d, es[..i]), es[i..j])
    decreases j
  {
    hide On;
    if i == j {
      assert es[i..j] == [];
    } else {
      assert es[..j][..j - 1] == es[..j - 1] && es[i..j][..j - 1 - i] == es[i..j - 1];
      AfterSplit(d, es, i, j - 1);
    }
  }

  lemma {:induction false} ClockSplit(es: seq<Event>, i: nat, j: nat, before: int)
    requires i <= j <= |es|
    ensures Clock(es[..j], before) == Clock(es[i..j], Clock(es[..i], before))
    decreases j
  {
    if i == j {
      assert es[i..j] == [];
    } else {
      assert es[..j][..j - 1] == es[..j - 1] && es[i..j][..j - 1 - i] == es[i..j - 1];
      ClockSplit(es, i, j - 1, before);
    }
  }

  lemma MonotoneSplit(es: seq<Event>, i: nat, j: nat, before: int)
    requires i <= j <= |es| && Monotone(es, before)
    ensures Monotone(es[i..j], Clock(es[..i], before))
  {
    hide Clock;
    var part := es[i..j];
    forall k | 0 <= k < |part| && !part[k].Sync? ensures Clock(part[..k], Clock(es[..i], before)) <= part[k].now {
      assert part[..k] == es[i..i + k] && part[k] == es[i + k];
      ClockSplit(es, i, i + k, before);
    }
  }

  /** The clock just after a timed event. */
  lemma ClockAt(es: seq<Event>, i: nat, before: int)
    requires i < |es| && !es[i].Sync?
    ensures Clock(es[..i + 1], before) == es[i].now
  {
    assert es[..i + 1][i] == es[i];
  }

  /** What holds between event `i` and event `j` of a run. */
  lemma Between(d: Desk, es: seq<Event>, i: nat, j: nat, before: int)
    requires Sound(d.windows) && Monotone(es, before) && i < j < |es| && !es[i].Sync? && !es[j].Sync?
    ensures (var d0, part := After(d, es[..i]), es[i + 1..j];
             Sound(d0.windows) && Monotone(part, es[i].now) && Clock(part, es[i].now) <= es[j].now
             && After(d, es[..j]) == After(On(d0, es[i]), part) && Sound(On(d0, es[i]).windows) && Sound(After(d, es[..j]).windows))
  {
    hide On;
    hide Sound;
    hide Clock;
    AfterSound(d, es[..i]);
    AfterSound(d, es[..i + 1]);
    AfterSound(d, es[..j]);
    assert es[..i + 1][..i] == es[..i];
    AfterSplit(d, es, i + 1, j);
    ClockAt(es, i, before);
    MonotoneSplit(es, i + 1, j, before);
    ClockSplit(es, i + 1, j, before);
  }

  /** Spacing: while the clock does not go backwards, two toasts that open windows of one rule are
      at least the earlier window apart, and so at least a minute. */
  lemma ToastsKeepTheirDistance(es: seq<Event>, i: nat, j: nat, before: int)
    requires Monotone(es, before) && i < j < |es|
    requires es[i].Arrived? && es[j].Arrived? && es[i].alert.fixed.rule == es[j].alert.fixed.rule
    requires Opens(DecisionAt(EMPTY_DESK, es, i)) && Opens(DecisionAt(EMPTY_DESK, es, j))
    ensures es[j].now - es[i].now >= CooldownMs(es[i].settings) >= MINUTE_MS
  {
    hide Decide;
    hide Sound;
    hide Kept;
    hide Opens;
    hide After;
    hide Monotone;
    hide On;
    var rule, at, span := es[i].alert.fixed.rule, es[i].now, CooldownMs(es[i].settings);
    NothingOpen();
    Between(EMPTY_DESK, es, i, j, before);
    var d1 := On(After(EMPTY_DESK, es[..i]), es[i]);
    OpenedIsKept(After(EMPTY_DESK, es[..i]), es[i]);
    RunKeeps(d1, es[i + 1..j], rule, at, span, at);
    StepKeeps(After(EMPTY_DESK, es[..j]), es[j], rule, at, span, Clock(es[i + 1..j], at));
  }

  // ------------------------------------------------------------------ credential repeats

  predicate Remembered(d: Desk, key: CredentialKey, at: int, now: int) {
    (key in d.credentials && d.credentials[key] == at) || now >= at + HOUR_MS
  }

  /** What a decision does to the memory of credential investigations. */
  lemma CredentialStep(d: Desk, a: Alert, now: int, o: Settings)
    requires Sound(d.windows)
    ensures (var (after, dec) := Decide(d, a, now, o);
             var key := CredentialOf(a);
             (Opens(dec) && key.Some? ==> !(key.value in d.credentials && Recent(d.credentials[key.value], now)))
             && after.credentials == (if Opens(dec) && key.Some? then Purged(d.credentials, now)[key.value := now]
                                      else if after.credentials == d.credentials then d.credentials
                                      else Purged(d.credentials, now)))
  {
    hide ShouldNotify;
    hide CredentialOf;
    hide Decide;
    hide Windowed;
    hide Purged;
    hide Recent;
    IncidentOrCooldown(d, a, now, o);
    WindowStamps(d, a, now, o);
    WindowStamps(d.(credentials := Purged(d.credentials, now)), a, now, o);
  }

  /** A window stamps the credential of a toast that opens it, and nothing else. */
  lemma WindowStamps(d: Desk, a: Alert, now: int, o: Settings)
    requires Sound(d.windows)
    ensures (var (after, dec) := Windowed(d, a, now, o);
             after.credentials == if Opens(dec) then Stamped(d.credentials, CredentialOf(a), now) else d.credentials)
  {
    hide CredentialOf;
    hide Opened;
    hide Owed;
    hide Expired;
    hide Bypasses;
    hide Stamped;
  }

  lemma StepRemembers(d: Desk, e: Event, key: CredentialKey, at: int, clock: int)
    requires Sound(d.windows) && Remembered(d, key, at, clock) && at <= clock && (e.Sync? || clock <= e.now)
    ensures Remembered(On(d, e), key, at, if e.Sync? then clock else e.now)
    ensures e.Arrived? && CredentialOf(e.alert) == Some(key) && Opens(Decide(d, e.alert, e.now, e.settings).1) ==> e.now >= at + HOUR_MS
  {
    hide Decide;
    hide OwedBy;
    hide Synced;
    hide Opens;
    hide Sound;
    if e.Arrived? {
      CredentialStep(d, e.alert, e.now, e.settings);
    }
  }

  lemma {:induction false} RunRemembers(d: Desk, es: seq<Event>, key: CredentialKey, at: int, before: int)
    requires Sound(d.windows) && Remembered(d, key, at, before) && at <= before && Monotone(es, before)
    ensures Remembered(After(d, es), key, at, Clock(es, before)) && at <= Clock(es, before)
  {
    hide On;
    hide Sound;
    hide Remembered;
    if es != [] {
      var init, e := es[..|es| - 1], es[|es| - 1];
      assert forall i :: 0 <= i < |init| ==> init[i] == es[i] && init[..i] == es[..i];
      RunRemembers(d, init, key, at, before);
      AfterSound(d, init);
      StepRemembers(After(d, init), e, key, at, Clock(init, before));
    }
  }

  /** Two window-opening toasts about one credential investigation are at least an hour apart. */
  lemma CredentialToastsHourly(es: seq<Event>, i: nat, j: nat, before: int)
    requires Monotone(es, before) && i < j < |es| && es[i].Arrived? && es[j].Arrived?
    requires CredentialOf(es[i].alert).Some? && CredentialOf(es[i].alert) == CredentialOf(es[j].alert)
    requires Opens(DecisionAt(EMPTY_DESK, es, i)) && Opens(DecisionAt(EMPTY_DESK, es, j))
    ensures es[j].now - es[i].now >= HOUR_MS
  {
    hide Sound;
    hide Opens;
    hide After;
    hide Monotone;
    hide CredentialOf;
    hide Decide;
    hide Purged;
    var key, at := CredentialOf(es[i].alert).value, es[i].now;
    NothingOpen();
    Between(EMPTY_DESK, es, i, j, before);
    var d0 := After(EMPTY_DESK, es[..i]);
    CredentialStep(d0, es[i].alert, at, es[i].settings);
    RunRemembers(On(d0, es[i]), es[i + 1..j], key, at, at);
    StepRemembers(After(EMPTY_DESK, es[..j]), es[j], key, at, Clock(es[i + 1..j], at));
  }

  // ----------------------------------------------------------------- unresolved incidents

  /** Every sync of the run still has an unacknowledged alert of the incident. */
  predicate StaysUnresolved(es: seq<Event>, key: Str) {
    forall i :: 0 <= i < |es| && es[i].Sync? ==> HasOpen(es[i].alerts, key)
  }

  predicate HasOpen(alerts: seq<Alert>, key: Str) {
    exists k :: 0 <= k < |alerts| && !alerts[k].Acked() && NotificationKey(alerts[k]) == Some(key)
  }

  /** Toasts for an incident over a run. */
  ghost function ToastsFor(d: Desk, es: seq<Event>, key: Str): nat {
    if es == [] then 0
    else
      var e := es[|es| - 1];
      ToastsFor(d, es[..|es| - 1], key)
      + (if e.Arrived? && NotificationKey(e.alert) == Some(key) && DecisionAt(d, es, |es| - 1).toast then 1 else 0)
  }

  lemma {:induction false} SyncedKeeps(prior: map<Str, int>, alerts: seq<Alert>, initialLoad: bool, key: Str)
    ensures key in prior ==> (key in Synced(prior, alerts, initialLoad) <==> HasOpen(alerts, key))
    ensures key in prior && HasOpen(alerts, key) ==> Synced(prior, alerts, initialLoad)[key] == prior[key]
    ensures key !in prior && !initialLoad ==> key !in Synced(prior, alerts, initialLoad)
    ensures key !in prior && key in Synced(prior, alerts, initialLoad) ==> 0 <= Synced(prior, alerts, initialLoad)[key] <= 3
  {
    hide NotificationKey;
    hide NotificationRank;
    if alerts != [] {
      var init := alerts[..|alerts| - 1];
      SyncedKeeps(prior, init, initialLoad, key);
      assert forall k :: 0 <= k < |init| ==> init[k] == alerts[k];
      assert HasOpen(alerts, key) <==>
        HasOpen(init, key) || (!alerts[|alerts| - 1].Acked() && NotificationKey(alerts[|alerts| - 1]) == Some(key));
    }
  }

  /** A toast for an incident is of a higher rank than it was known at, and is remembered. */
  lemma ToastRaises(d: Desk, a: Alert, now: int, o: Settings, key: Str)
    ensures (var (after, dec) := Decide(d, a, now, o);
             if NotificationKey(a) == Some(key) && dec.toast then
               key in after.incidents && after.incidents[key] == NotificationRank(a) >= 0
               && (key in d.incidents ==> d.incidents[key] < NotificationRank(a))
             else (key in after.incidents <==> key in d.incidents) && (key in d.incidents ==> after.incidents[key] == d.incidents[key]))
  {
    hide CredentialOf;
    hide NotificationKey;
    hide Windowed;
    hide Purged;
    hide Recent;
    hide IncidentKey;
    hide StateOf;
    CredentialsAside(d, Purged(d.credentials, now), a, now, o);
    CredentialsAside(d, d.credentials, a, now, o);
    assert d.(credentials := d.credentials) == d;
  }

  /** What an incident was last known at bounds how often it has interrupted. */
  lemma {:induction false} ToastsBoundedByRank(d: Desk, es: seq<Event>, key: Str)
    requires StaysUnresolved(es, key) && (key in d.incidents ==> -1 <= d.incidents[key] <= 3)
    ensures (var known := After(d, es).incidents;
             if key in known then -1 <= known[key] <= 3 && ToastsFor(d, es, key) <= known[key] + 1 else ToastsFor(d, es, key) == 0)
  {
    hide Decide;
    hide Flushed;
    hide Synced;
    hide HasOpen;
    hide NotificationKey;
    hide NotificationRank;
    if es != [] {
      var init, e := es[..|es| - 1], es[|es| - 1];
      assert forall i :: 0 <= i < |init| ==> init[i] == es[i];
      ToastsBoundedByRank(d, init, key);
      match e {
        case Arrived(a, now, o) => ToastRaises(After(d, init), a, now, o, key);
        case Flush(now) => FlushKeepsIncidents(After(d, init), now);
        case Sync(alerts, initial) => SyncedKeeps(After(d, init).incidents, alerts, initial, key);
      }
    }
  }

  lemma FlushKeepsIncidents(d: Desk, now: int)
    ensures Flushed(d, now).0.incidents == d.incidents && Flushed(d, now).0.chains == d.chains
  {
  }

  lemma {:induction false} RanksStayInRange(es: seq<Event>, key: Str)
    ensures (var known := After(EMPTY_DESK, es).incidents; key in known ==> -1 <= known[key] <= 3)
  {
    hide Decide;
    hide Flushed;
    hide Synced;
    hide HasOpen;
    hide NotificationKey;
    hide NotificationRank;
    if es != [] {
      var init, e := es[..|es| - 1], es[|es| - 1];
      RanksStayInRange(init, key);
      match e {
        case Arrived(a, now, o) => ToastRaises(After(EMPTY_DESK, init), a, now, o, key);
        case Flush(now) => FlushKeepsIncidents(After(EMPTY_DESK, init), now);
        case Sync(alerts, initial) => SyncedKeeps(After(EMPTY_DESK, init).incidents, alerts, initial, key);
      }
    }
  }

  /** Over any stretch of any run in which it stays unresolved, an incident interrupts at most
      four times. */
  lemma AtMostFourToasts(es: seq<Event>, i: nat, j: nat, key: Str)
    requires i <= j <= |es| && StaysUnresolved(es[i..j], key)
    ensures ToastsFor(After(EMPTY_DESK, es[..i]), es[i..j], key) <= 4
  {
    hide After;
    hide ToastsFor;
    RanksStayInRange(es[..i], key);
    ToastsBoundedByRank(After(EMPTY_DESK, es[..i]), es[i..j], key);
  }

  /** And each of its toasts outranks the ones before. */
  lemma {:induction false} RankStaysKnown(d: Desk, es: seq<Event>, key: Str, rank: int)
    requires StaysUnresolved(es, key) && key in d.incidents && d.incidents[key] >= rank
    ensures (var known := After(d, es).incidents; key in known && known[key] >= rank)
  {
    hide Decide;
    hide Flushed;
    hide Synced;
    hide HasOpen;
    hide NotificationKey;
    hide NotificationRank;
    if es != [] {
      var init, e := es[..|es| - 1], es[|es| - 1];
      assert forall i :: 0 <= i < |init| ==> init[i] == es[i];
      RankStaysKnown(d, init, key, rank);
      match e {
        case Arrived(a, now, o) => ToastRaises(After(d, init), a, now, o, key);
        case Flush(now) => FlushKeepsIncidents(After(d, init), now);
        case Sync(alerts, initial) => SyncedKeeps(After(d, init).incidents, alerts, initial, key);
      }
    }
  }

  lemma ToastsOutrank(es: seq<Event>, i: nat, j: nat, key: Str)
    requires i < j < |es| && StaysUnresolved(es[i + 1..j], key) && es[i].Arrived? && es[j].Arrived?
    requires NotificationKey(es[i].alert) == Some(key) && NotificationKey(es[j].alert) == Some(key)
    requires DecisionAt(EMPTY_DESK, es, i).toast && DecisionAt(EMPTY_DESK, es, j).toast
    ensures 0 <= NotificationRank(es[i].alert) < NotificationRank(es[j].alert)
  {
    hide Decide;
    hide NotificationKey;
    hide NotificationRank;
    hide StaysUnresolved;
    var d0, part := After(EMPTY_DESK, es[..i]), es[i + 1..j];
    assert es[..i + 1][..i] == es[..i];
    AfterSplit(EMPTY_DESK, es, i + 1, j);
    ToastRaises(d0, es[i].alert, es[i].now, es[i].settings, key);
    RankStaysKnown(On(d0, es[i]), part, key, NotificationRank(es[i].alert));
    ToastRaises(After(EMPTY_DESK, es[..j]), es[j].alert, es[j].now, es[j].settings, key);
  }

  // -------------------------------------------------------------------------------- chains

  predicate OfChain(a: Alert, id: Str) {
    a.live.chain.Some? && a.live.chain.value.id == id
  }

  /** Toasts for the members of a chain, the noise guard's own alerts aside. */
  ghost function ChainToasts(d: Desk, es: seq<Event>, id: Str): nat {
    if es == [] then 0
    else
      var e := es[|es| - 1];
      ChainToasts(d, es[..|es| - 1], id)
      + (if e.Arrived? && OfChain(e.alert, id) && e.alert.fixed.rule != NOISY_RULE && DecisionAt(d, es, |es| - 1).toast then 1 else 0)
  }

  lemma ChainStep(d: Desk, a: Alert, now: int, o: Settings, id: Str)
    requires id != []
    ensures (var (after, dec) := Decide(d, a, now, o);
             if OfChain(a, id) && a.fixed.rule != NOISY_RULE && dec.toast then id !in d.chains && id in after.chains
             else (id in after.chains <==> id in d.chains))
  {
    hide ShouldNotify;
    hide CredentialOf;
    hide NotificationRank;
    hide Windowed;
    hide Purged;
    hide Recent;
    CredentialsAside(d, Purged(d.credentials, now), a, now, o);
    CredentialsAside(d, d.credentials, a, now, o);
    assert d.(credentials := d.credentials) == d;
  }

  /** A chain interrupts once, however many members it has and however it grows. */
  lemma {:induction false} ChainToastsOnce(es: seq<Event>, id: Str)
    requires id != []
    ensures ChainToasts(EMPTY_DESK, es, id) == if id in After(EMPTY_DESK, es).chains then 1 else 0
  {
    hide Decide;
    hide Flushed;
    hide Synced;
    hide OfChain;
    if es != [] {
      var init, e := es[..|es| - 1], es[|es| - 1];
      ChainToastsOnce(init, id);
      match e {
        case Arrived(a, now, o) => ChainStep(After(EMPTY_DESK, init), a, now, o, id);
        case Flush(now) => FlushKeepsIncidents(After(EMPTY_DESK, init), now);
        case Sync(_, _) =>
      }
    }
  }
}
