/** The panel's notifier: which new alerts interrupt, what a rule's cooldown swallows, and the
    summaries it owes. */
module Notify {
  import opened Wrappers
  import opened Text
  import opened Sorting
  import opened Alerts

  /** The settings and the moment a decision is made under. */
  datatype Settings = Settings(minSeverity: Severity, muted: bool, initialLoad: bool, cooldownMinutes: Number, demotedRules: set<Str>)

  const DEFAULT_MINUTES := 10
  const MINUTE_MS := 60000
  const HOUR_MS := 3600000

  /** `notifyCooldownMinutes`: rounded half up; what is no number means the default, and what is
      out of range means the nearer end of it. */
  function CooldownMinutes(v: Number): (m: int)
    ensures 1 <= m <= 120
    ensures v.NotFinite? ==> m == DEFAULT_MINUTES
    ensures v.Finite? && v.value < 1.0 ==> m == 1
    ensures v.Finite? && v.value > 120.0 ==> m == 120
    ensures v.Finite? && 1.0 <= v.value <= 120.0 ==> -0.5 < m as real - v.value <= 0.5
  {
    if v.NotFinite? then DEFAULT_MINUTES
    else
      var n := (v.value + 0.5).Floor;
      if n < 1 then 1 else if n > 120 then 120 else n
  }

  function CooldownMs(o: Settings): (ms: int)
    ensures ms >= MINUTE_MS
  {
    CooldownMinutes(o.cooldownMinutes) * MINUTE_MS
  }

  /** The larger of an alert's own severity and its chain's. */
  function Effective(a: Alert): Severity {
    if a.live.chain.Some? && Rank(a.live.chain.value.severity) > Rank(a.fixed.severity) then a.live.chain.value.severity
    else a.fixed.severity
  }

  predicate ShouldNotify(a: Alert, o: Settings) {
    !o.initialLoad && a.id != [] && !a.Acked() && !o.muted && !a.Suppressed()
    && StateOf(a, o.demotedRules) == NeedsYou
    && AtLeast(Effective(a), o.minSeverity)
  }

  /** One rule's open cooldown window. */
  datatype Window = Window(rule: Str, title: Str, program: Str, start: int, span: int, toasted: bool, swallowed: nat)

  datatype Summary = Summary(rule: Str, title: Str, program: Str, count: nat)

  datatype CredentialKey = CredentialKey(rule: Str, exe: Str, uid: int, cwd: Str, path: Str)

  datatype Reason =
    | Filtered | NoisyRule | NewChain | ChainToasted | CredentialRepeat
    | First | WindowReset | CriticalFirstSeen | Cooldown | IncidentUnresolved | IncidentEscalated

  datatype Decision = Decision(toast: bool, collapsed: nat, reason: Reason)

  /** The notifier's part of the store. */
  datatype Desk = Desk(
    windows: map<Str, Window>, pending: seq<Summary>, incidents: map<Str, int>,
    chains: set<Str>, credentials: map<CredentialKey, int>)

  const EMPTY_DESK := Desk(map[], [], map[], {}, map[])

  /** A clock that went backwards reads as expired. */
  predicate Expired(w: Window, now: int) {
    now < w.start || now - w.start >= w.span
  }

  function Owed(w: Window): seq<Summary> {
    if w.swallowed > 0 then [Summary(w.rule, w.title, w.program, w.swallowed)] else []
  }

  predicate Bypasses(a: Alert) {
    a.fixed.severity == Critical && a.fixed.firstSeen
  }

  const NOISY_RULE: Str := Ascii("moat-x-noisy-rule")
  const CRED_PREFIX: Str := Ascii("moat-cred-")

  /** The credential investigation an alert belongs to, if its repeats are limited. */
  function CredentialOf(a: Alert): Option<CredentialKey> {
    if CRED_PREFIX <= a.fixed.rule && a.fixed.file != [] && ExeOf(a) != [] && !Bypasses(a) then
      Some(CredentialKey(a.fixed.rule, ExeOf(a), a.fixed.process.value.uid, a.fixed.process.value.cwd, a.fixed.file))
    else None
  }

  predicate Recent(at: int, now: int) {
    at <= now && now - at < HOUR_MS
  }

  function Purged(credentials: map<CredentialKey, int>, now: int): map<CredentialKey, int> {
    map k | k in credentials && Recent(credentials[k], now) :: credentials[k]
  }

  function Stamped(credentials: map<CredentialKey, int>, key: Option<CredentialKey>, now: int): map<CredentialKey, int> {
    if key.Some? then credentials[key.value := now] else credentials
  }

  function Titled(a: Alert): Str {
    if a.fixed.title != [] then a.fixed.title
    else if a.fixed.rule != [] then a.fixed.rule
    else Ascii("Moat alert")
  }

  function Opened(a: Alert, now: int, o: Settings): Window {
    Window(a.fixed.rule, Titled(a), ProgramOf(a), now, CooldownMs(o), true, 0)
  }

  /** The rule's window decides. */
  function Windowed(d: Desk, a: Alert, now: int, o: Settings): (Desk, Decision) {
    var rule, key := a.fixed.rule, CredentialOf(a);
    if rule in d.windows && !Expired(d.windows[rule], now) then
      var w := d.windows[rule];
      if !w.toasted then
        (d.(windows := d.windows[rule := w.(toasted := true)], credentials := Stamped(d.credentials, key, now)), Decision(true, 0, First))
      else if Bypasses(a) then (d, Decision(true, w.swallowed, CriticalFirstSeen))
      else
        (d.(windows := d.windows[rule := w.(swallowed := w.swallowed + 1)]), Decision(false, w.swallowed + 1, Cooldown))
    else
      (d.(windows := d.windows[rule := Opened(a, now, o)],
          pending := if rule in d.windows then d.pending + Owed(d.windows[rule]) else d.pending,
          credentials := Stamped(d.credentials, key, now)),
       Decision(true, 0, if rule in d.windows then WindowReset else First))
  }

  /** `notificationCooldownDecision`. */
  function Cooled(d: Desk, a: Alert, now: int, o: Settings): (Desk, Decision) {
    var key := CredentialOf(a);
    if !ShouldNotify(a, o) then (d, Decision(false, 0, Filtered))
    else if a.fixed.rule == NOISY_RULE then (d, Decision(true, 0, NoisyRule))
    else if a.live.chain.Some? && a.live.chain.value.id != [] then
      if a.live.chain.value.id in d.chains then (d, Decision(false, 0, ChainToasted))
      else (d.(chains := d.chains + {a.live.chain.value.id}), Decision(true, 0, NewChain))
    else if key.Some? && key.value in d.credentials && Recent(d.credentials[key.value], now) then
      (d, Decision(false, 0, CredentialRepeat))
    else Windowed(if key.Some? then d.(credentials := Purged(d.credentials, now)) else d, a, now, o)
  }

  /** The incident an alert would interrupt for; chains keep their own identity. */
  function NotificationKey(a: Alert): Option<Str> {
    if a.live.chain.Some? || ExeOf(a) == [] then None else Some(IncidentKey(a))
  }

  function NotificationRank(a: Alert): (r: int)
    ensures -1 <= r <= 3
  {
    Rank(Effective(a))
  }

  /** `notifyDecision`. */
  function Decide(d: Desk, a: Alert, now: int, o: Settings): (Desk, Decision) {
    var key, rank := NotificationKey(a), NotificationRank(a);
    if key.Some? && key.value in d.incidents && ShouldNotify(a, o) then
      if rank <= d.incidents[key.value] then (d, Decision(false, 0, IncidentUnresolved))
      else (d.(incidents := d.incidents[key.value := rank]), Decision(true, 0, IncidentEscalated))
    else
      var (after, decision) := Cooled(d, a, now, o);
      (if decision.toast && key.Some? then after.(incidents := after.incidents[key.value := rank]) else after, decision)
  }

  function MaxInt(a: int, b: int): int { if a < b then b else a }

  /** `syncNotificationIncidents`, after the first alerts of the list. */
  function Synced(prior: map<Str, int>, alerts: seq<Alert>, initialLoad: bool): map<Str, int> {
    if alerts == [] then map[]
    else
      var active, a := Synced(prior, alerts[..|alerts| - 1], initialLoad), alerts[|alerts| - 1];
      var key := NotificationKey(a);
      if a.Acked() || key.None? then active
      else if key.value in prior then active[key.value := prior[key.value]]
      else if initialLoad then
        active[key.value := MaxInt(if key.value in active then active[key.value] else 0, NotificationRank(a))]
      else active
  }

  // ---------------------------------------------------------------------------- flushing

  /** A window's place in a flush: oldest first, then by rule. */
  datatype Due = Due(start: int, rule: Str)

  predicate Sooner(a: Due, b: Due) {
    a.start < b.start || (a.start == b.start && Lex(a.rule, b.rule) < 0)
  }

  lemma SoonerIsStrict()
    ensures StrictOrder(Sooner)
  {
    forall a: Due, b: Due ensures a == b || Sooner(a, b) || Sooner(b, a) {
      LexZero(a.rule, b.rule);
      LexFlip(a.rule, b.rule);
    }
    forall a: Due ensures !Sooner(a, a) {
      LexZero(a.rule, a.rule);
    }
    forall a: Due, b: Due, c: Due | Sooner(a, b) && Sooner(b, c) ensures Sooner(a, c) {
      if Lex(a.rule, b.rule) < 0 && Lex(b.rule, c.rule) < 0 {
        LexTransitive(a.rule, b.rule, c.rule);
      }
    }
  }

  /** Each window is filed under its own rule. */
  predicate Filed(windows: map<Str, Window>) {
    forall r :: r in windows ==> windows[r].rule == r
  }

  function DueSet(windows: map<Str, Window>, now: int): (s: set<Due>) {
    set r | r in windows && Expired(windows[r], now) :: Due(windows[r].start, r)
  }

  function OwedBy(windows: map<Str, Window>, due: seq<Due>): seq<Summary> {
    if due == [] then []
    else
      OwedBy(windows, due[..|due| - 1])
      + (if due[|due| - 1].rule in windows then Owed(windows[due[|due| - 1].rule]) else [])
  }

  function Open(windows: map<Str, Window>, now: int): map<Str, Window> {
    map r | r in windows && !Expired(windows[r], now) :: windows[r]
  }

  /** `flushCollapsed`: the debts of replaced windows, then those of the windows now over. */
  ghost function Flushed(d: Desk, now: int): (Desk, seq<Summary>) {
    SoonerIsStrict();
    (d.(windows := Open(d.windows, now), pending := []),
     d.pending + OwedBy(d.windows, Sorted(Sooner, DueSet(d.windows, now))))
  }

  class Notifier {
    var notifyWindows: map<Str, Window>
    var notifyPending: seq<Summary>
    var notifiedIncidents: map<Str, int>
    var notifiedChains: set<Str>
    var notifiedCredentials: map<CredentialKey, int>

    function Contents(): Desk
      reads this
    {
      Desk(notifyWindows, notifyPending, notifiedIncidents, notifiedChains, notifiedCredentials)
    }

    /** Each window is filed under its own rule. */
    ghost predicate Valid()
      reads this
    {
      Filed(notifyWindows)
    }

    constructor ()
      ensures Valid() && Contents() == EMPTY_DESK
    {
      notifyWindows, notifyPending, notifiedIncidents, notifiedChains, notifiedCredentials := map[], [], map[], {}, map[];
    }

    method RetireWindow(window: Window)
      requires window.rule in notifyWindows
      modifies this`notifyWindows, this`notifyPending
      ensures notifyWindows == old(notifyWindows) - {window.rule}
      ensures notifyPending == old(notifyPending) + Owed(window)
    {
      notifyWindows := notifyWindows - {window.rule};
      if window.swallowed > 0 {
        notifyPending := notifyPending + [Summary(window.rule, window.title, window.program, window.swallowed)];
      }
    }

    method NotificationCooldownDecision(alert: Alert, now: int, o: Settings) returns (decision: Decision)
      requires Valid()
      modifies this
      ensures Valid()
      ensures (Contents(), decision) == Cooled(old(Contents()), alert, now, o)
    {
      hide ShouldNotify;
      hide CooldownMs;
      if !ShouldNotify(alert, o) {
        return Decision(false, 0, Filtered);
      }
      var rule := alert.fixed.rule;
      if rule == NOISY_RULE {
        return Decision(true, 0, NoisyRule);
      }
      if alert.live.chain.Some? && alert.live.chain.value.id != [] {
        var chainId := alert.live.chain.value.id;
        if chainId in notifiedChains {
          return Decision(false, 0, ChainToasted);
        }
        notifiedChains := notifiedChains + {chainId};
        return Decision(true, 0, NewChain);
      }
      var key := CredentialOf(alert);
      if key.Some? {
        if key.value in notifiedCredentials && Recent(notifiedCredentials[key.value], now) {
          return Decision(false, 0, CredentialRepeat);
        }
        notifiedCredentials := Purged(notifiedCredentials, now);
      }
      decision := WindowDecision(alert, now, o);
    }

    method WindowDecision(alert: Alert, now: int, o: Settings) returns (decision: Decision)
      requires Valid()
      modifies this`notifyWindows, this`notifyPending, this`notifiedCredentials
      ensures Valid()
      ensures (Contents(), decision) == Windowed(old(Contents()), alert, now, o)
    {
      hide CredentialOf;
      hide Bypasses;
      hide Titled;
      hide ProgramOf;
      hide CooldownMs;
      var rule, key := alert.fixed.rule, CredentialOf(alert);
      var reset, open := false, rule in notifyWindows;
      if open && Expired(notifyWindows[rule], now) {
        RetireWindow(notifyWindows[rule]);
        open, reset := false, true;
      }
      if !open || !notifyWindows[rule].toasted {
        if !open {
          notifyWindows := notifyWindows[rule := Window(rule, Titled(alert), ProgramOf(alert), now, CooldownMs(o), true, 0)];
        } else {
          notifyWindows := notifyWindows[rule := notifyWindows[rule].(toasted := true)];
        }
        if key.Some? {
          notifiedCredentials := notifiedCredentials[key.value := now];
        }
        assert reset ==> notifyWindows == old(notifyWindows)[rule := Opened(alert, now, o)];
        return Decision(true, 0, if reset then WindowReset else First);
      }
      var window := notifyWindows[rule];
      if Bypasses(alert) {
        return Decision(true, window.swallowed, CriticalFirstSeen);
      }
      notifyWindows := notifyWindows[rule := window.(swallowed := window.swallowed + 1)];
      decision := Decision(false, window.swallowed + 1, Cooldown);
    }

    method NotifyDecision(alert: Alert, now: int, o: Settings) returns (decision: Decision)
      requires Valid()
      modifies this
      ensures Valid()
      ensures (Contents(), decision) == Decide(old(Contents()), alert, now, o)
    {
      hide ShouldNotify;
      hide Cooled;
      hide NotificationRank;
      hide IncidentKey;
      var key := NotificationKey(alert);
      if key.Some? && key.value in notifiedIncidents && ShouldNotify(alert, o) {
        var rank := NotificationRank(alert);
        if rank <= notifiedIncidents[key.value] {
          return Decision(false, 0, IncidentUnresolved);
        }
        notifiedIncidents := notifiedIncidents[key.value := rank];
        return Decision(true, 0, IncidentEscalated);
      }
      decision := NotificationCooldownDecision(alert, now, o);
      if decision.toast && key.Some? {
        notifiedIncidents := notifiedIncidents[key.value := NotificationRank(alert)];
      }
    }

    method SyncNotificationIncidents(alerts: seq<Alert>, initialLoad: bool)
      modifies this`notifiedIncidents
      ensures notifiedIncidents == Synced(old(notifiedIncidents), alerts, initialLoad)
    {
      hide NotificationRank;
      hide NotificationKey;
      var prior, active := notifiedIncidents, map[];
      assert alerts[..0] == [];
      for i := 0 to |alerts|
        invariant active == Synced(prior, alerts[..i], initialLoad)
      {
        assert alerts[..i + 1][..i] == alerts[..i];
        var a := alerts[i];
        var key := NotificationKey(a);
        if !a.Acked() && key.Some? {
          if key.value in prior {
            active := active[key.value := prior[key.value]];
          } else if initialLoad {
            active := active[key.value := MaxInt(if key.value in active then active[key.value] else 0, NotificationRank(a))];
          }
        }
      }
      assert alerts[..|alerts|] == alerts;
      notifiedIncidents := active;
    }

    /** The windows whose time is up, in the order their summaries are read. */
    method DueNow(now: int) returns (due: seq<Due>)
      ensures StrictOrder(Sooner) && due == Sorted(Sooner, DueSet(notifyWindows, now))
      ensures AllDue(notifyWindows, now, due)
    {
      SoonerIsStrict();
      due := SortSet(Sooner, DueSet(notifyWindows, now));
      DueListed(notifyWindows, now, due);
    }

    /** Delete the windows that are over, adding what each owes to the summaries. */
    method DropDue(now: int, due: seq<Due>, pending: seq<Summary>) returns (out: seq<Summary>)
      requires AllDue(notifyWindows, now, due)
      modifies this`notifyWindows
      ensures notifyWindows == Open(old(notifyWindows), now)
      ensures out == pending + OwedBy(old(notifyWindows), due)
    {
      hide RulesOf;
      hide Open;
      hide OwedBy;
      hide AllDue;
      DueHeld(notifyWindows, now, due);
      ghost var windows := notifyWindows;
      out := pending;
      NoRules(windows);
      assert due[..0] == [];
      for i := 0 to |due|
        invariant notifyWindows == windows - RulesOf(due[..i])
        invariant out == pending + OwedBy(windows, due[..i])
        invariant forall j :: i <= j < |due| ==> due[j].rule in notifyWindows && notifyWindows[due[j].rule] == windows[due[j].rule]
      {
        RulesSnoc(due, i);
        AtDue(windows, now, due, i);
        OwedSnoc(windows, due, i);
        var window := notifyWindows[due[i].rule];
        notifyWindows := notifyWindows - {due[i].rule};
        if window.swallowed > 0 {
          out := out + [Summary(window.rule, window.title, window.program, window.swallowed)];
        }
      }
      assert due[..|due|] == due;
      FlushLeavesOpen(windows, now, due);
    }

    method FlushCollapsed(now: int) returns (out: seq<Summary>)
      requires Valid()
      modifies this`notifyWindows, this`notifyPending
      ensures Valid()
      ensures (Contents(), out) == Flushed(old(Contents()), now)
    {
      hide AllDue;
      hide OwedBy;
      out := notifyPending;
      notifyPending := [];
      var due := DueNow(now);
      out := DropDue(now, due, out);
    }
  }

  function RulesOf(due: seq<Due>): set<Str> {
    set i | 0 <= i < |due| :: due[i].rule
  }

  lemma NoRules(windows: map<Str, Window>)
    ensures RulesOf([]) == {} && OwedBy(windows, []) == []
  {
  }

  lemma OwedSnoc(windows: map<Str, Window>, due: seq<Due>, i: nat)
    requires i < |due| && due[i].rule in windows
    ensures OwedBy(windows, due[..i + 1]) == OwedBy(windows, due[..i]) + Owed(windows[due[i].rule])
  {
    hide Owed;
    assert due[..i + 1][..i] == due[..i];
  }

  lemma RulesSnoc(due: seq<Due>, i: nat)
    requires i < |due|
    ensures RulesOf(due[..i + 1]) == RulesOf(due[..i]) + {due[i].rule}
  {
    var more := due[..i + 1];
    assert forall j :: 0 <= j < i ==> more[j] == due[..i][j];
    assert more[i] == due[i];
    forall r ensures r in RulesOf(more) <==> r in RulesOf(due[..i]) || r == due[i].rule {
      if r in RulesOf(due[..i]) {
        var j :| 0 <= j < i && due[..i][j].rule == r;
        assert more[j].rule == r;
      }
    }
  }

  /** The list holds exactly the expired windows. */
  predicate AllDue(windows: map<Str, Window>, now: int, due: seq<Due>) {
    && (forall i :: 0 <= i < |due| ==>
          due[i].rule in windows && Expired(windows[due[i].rule], now) && due[i].start == windows[due[i].rule].start)
    && (forall i, j :: 0 <= i < j < |due| ==> due[i].rule != due[j].rule)
    && forall r :: r in windows && Expired(windows[r], now) ==> Due(windows[r].start, r) in due
  }

  lemma DueListed(windows: map<Str, Window>, now: int, due: seq<Due>)
    requires Elements(due) == DueSet(windows, now) && StrictOrder(Sooner) && SortedBy(Sooner, due)
    ensures AllDue(windows, now, due)
  {
    hide Expired;
    forall i | 0 <= i < |due| ensures due[i] in DueSet(windows, now) {
      assert due[i] in Elements(due);
    }
    forall r | r in windows && Expired(windows[r], now) ensures Due(windows[r].start, r) in due {
      assert Due(windows[r].start, r) in Elements(due);
    }
  }

  lemma DueHeld(windows: map<Str, Window>, now: int, due: seq<Due>)
    requires AllDue(windows, now, due)
    ensures forall j :: 0 <= j < |due| ==> due[j].rule in windows
  {
  }

  lemma AtDue(windows: map<Str, Window>, now: int, due: seq<Due>, i: nat)
    requires AllDue(windows, now, due) && i < |due|
    ensures due[i].rule in windows && forall j :: i < j < |due| ==> due[j].rule in windows && due[j].rule != due[i].rule
  {
  }

  lemma FlushLeavesOpen(windows: map<Str, Window>, now: int, due: seq<Due>)
    requires AllDue(windows, now, due)
    ensures windows - RulesOf(due) == Open(windows, now)
  {
    hide Expired;
    forall r | r in windows ensures r in RulesOf(due) <==> Expired(windows[r], now) {
      if Expired(windows[r], now) {
        var i :| 0 <= i < |due| && due[i] == Due(windows[r].start, r);
        assert due[i].rule == r;
      }
    }
  }
}
