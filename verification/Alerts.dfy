/** Alerts as the panel holds them, and the one decision every surface of it reads. */
module Alerts {
  import opened Wrappers
  import opened Text

  /** `Number(value)`: NaN and the infinities are all the code tells apart from a number. */
  datatype Number = Finite(value: real) | NotFinite

  /** The recognised severities, and anything else. */
  datatype Severity = Low | MediumSeverity | High | Critical | Unrecognised

  function Rank(s: Severity): (r: int)
    ensures -1 <= r <= 3
  {
    match s
    case Low => 0
    case MediumSeverity => 1
    case High => 2
    case Critical => 3
    case Unrecognised => -1
  }

  /** `severityAtLeast`: an unrecognised severity is never at least anything, and an
      unrecognised threshold means high. */
  predicate AtLeast(s: Severity, threshold: Severity) {
    Rank(s) >= 0 && Rank(s) >= (if Rank(threshold) < 0 then Rank(High) else Rank(threshold))
  }

  datatype Surface = OnAlerts | OnTimeline

  datatype ChainStep = ChainStep(alert: Str, rule: Str, severity: Severity)

  /** A sequence the daemon correlated; `total` counts steps the list may leave out. */
  datatype Chain = Chain(id: Str, severity: Severity, steps: seq<ChainStep>, total: real)

  datatype Verdict = Benign | Suspicious | Malicious | Unclear

  datatype Triage = Triage(verdict: Verdict, summary: Str, reasoning: Str, outcome: Str)

  const DEMOTED: Str := Ascii("demoted")

  predicate Demotes(t: Option<Triage>) {
    t.Some? && t.value.outcome == DEMOTED
  }

  datatype Process = Process(exe: Str, uid: int, cwd: Str)

  /** What no update line may change. */
  datatype Fixed = Fixed(
    severity: Severity, rule: Str, title: Str, process: Option<Process>, script: Str, file: Str,
    suppressedBy: Str, firstSeen: bool, chainId: Str)

  /** What an update line may change. On an alert every field but the last three is present;
      on an update that waits for its alert only the fields it carried are. */
  datatype Live = Live(
    acked: Option<bool>, ackedBy: Option<Str>, actionTaken: Option<Str>, count: Option<Number>,
    mode: Option<Str>, rotate: Option<seq<Str>>, actions: Option<seq<Str>>, ts: Option<Str>,
    triage: Option<Triage>, chain: Option<Chain>, surface: Option<Surface>, stamped: bool)

  datatype Alert = Alert(id: Str, fixed: Fixed, live: Live, demoted: bool, visible: bool) {
    predicate Acked() { live.acked == Some(true) }

    predicate Suppressed() { fixed.suppressedBy != [] }

    function Action(): Str { if live.actionTaken.Some? then live.actionTaken.value else [] }

    function Ts(): Str { if live.ts.Some? then live.ts.value else [] }
  }

  const NONE: Str := Ascii("none")
  const RESTORED: Str := Ascii("restored")
  const CONTAINED: Str := Ascii("contained")
  const KILLED: Str := Ascii("killed")
  const BLOCKED: Str := Ascii("blocked")
  const ENFORCE: Str := Ascii("enforce")
  const DEMOTED_MARK: Str := Ascii("demoted:")

  predicate IsDemotionMarker(suppressedBy: Str) {
    DEMOTED_MARK <= suppressedBy
  }

  predicate IsDemotedRule(rule: Str, demotedRules: set<Str>) {
    rule != [] && rule in demotedRules
  }

  /** `alertSurface`: does this alert want something from the user? */
  function SurfaceOf(a: Alert, demotedRules: set<Str>): Surface {
    if a.Suppressed() || Demotes(a.live.triage) then OnTimeline
    else if a.live.stamped then (if a.live.surface == Some(OnAlerts) then OnAlerts else OnTimeline)
    else if IsDemotedRule(a.fixed.rule, demotedRules) then OnTimeline
    else if AtLeast(a.fixed.severity, High) then OnAlerts
    else OnTimeline
  }

  predicate Visible(a: Alert, showSuppressed: bool) {
    a.Suppressed() && !IsDemotionMarker(a.fixed.suppressedBy) ==> showSuppressed
  }

  datatype AlertState = NeedsYou | Contained | Explained | Expected | Closed

  /** `alertState`: what is wanted from the user. */
  function StateOf(a: Alert, demotedRules: set<Str>): AlertState {
    if a.Acked() || a.Action() == RESTORED then Closed
    else if a.Action() != [] && a.Action() != NONE then Contained
    else if a.Suppressed() then Expected
    else if Demotes(a.live.triage) then Explained
    else if SurfaceOf(a, demotedRules) != OnAlerts then Expected
    else NeedsYou
  }

  /** The display settings a decoration reads. */
  datatype Options = Options(demotedRules: set<Str>, showSuppressed: bool)

  /** `decorateAlerts` on one alert, in place: `surface` overwrites what was there. */
  function Decorated(a: Alert, o: Options): Alert {
    a.(demoted := IsDemotedRule(a.fixed.rule, o.demotedRules) || IsDemotionMarker(a.fixed.suppressedBy) || Demotes(a.live.triage),
       live := a.live.(surface := Some(SurfaceOf(a, o.demotedRules))),
       visible := Visible(a, o.showSuppressed))
  }

  /** An alert that waits for the user is on the alerts surface, unacknowledged and shown
      whatever the settings. */
  lemma NeedsYouIsSurfaced(a: Alert, demotedRules: set<Str>)
    ensures StateOf(a, demotedRules) == NeedsYou <==>
      !a.Acked() && (a.Action() == [] || a.Action() == NONE) && SurfaceOf(a, demotedRules) == OnAlerts
    ensures StateOf(a, demotedRules) == NeedsYou ==> forall show :: Visible(a, show)
  {
  }

  /** Decorating twice is decorating once, under the later settings, for everything that
      still says the same. */
  lemma DecorationSettles(a: Alert, o: Options, p: Options)
    ensures Decorated(Decorated(a, o), p) == Decorated(a, p)
  {
  }

  // --------------------------------------------------------------------- incident identity

  const SLASH: Unit := 47
  const CHAIN_MARK: Str := Ascii("chain")

  function Basename(path: Str): Str {
    path[LastIndexOf(path, SLASH) + 1..]
  }

  function ExeOf(a: Alert): Str {
    if a.fixed.process.Some? then a.fixed.process.value.exe else []
  }

  /** The program an incident is about: the script when an interpreter runs one. */
  function ProgramOf(a: Alert): Str {
    Basename(if a.fixed.script != [] then a.fixed.script else ExeOf(a))
  }

  /** `incidentKey`: the chain if there is one, else rule and program. */
  function IncidentKey(a: Alert): Str {
    if a.live.chain.Some? && a.live.chain.value.id != [] then CHAIN_MARK + [0] + a.live.chain.value.id
    else if a.fixed.chainId != [] then CHAIN_MARK + [0] + a.fixed.chainId
    else a.fixed.rule + [0] + ProgramOf(a)
  }
}
