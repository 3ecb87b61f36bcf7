/** What the incidents keep of the alerts, and what the verdict line says about them. */
module VerdictLine {
  import opened Wrappers
  import opened Text
  import opened Alerts
  import opened Incidents

  // -------------------------------------------------------------------------- conservation

  function TotalCount(incs: seq<Incident>): real {
    if incs == [] then 0.0 else TotalCount(incs[..|incs| - 1]) + incs[|incs| - 1].count
  }

  function AllMembers(incs: seq<Incident>): multiset<Alert> {
    if incs == [] then multiset{} else AllMembers(incs[..|incs| - 1]) + multiset(incs[|incs| - 1].members)
  }

  /** Per incident, what the first alerts of the list give it. */
  ghost function WeightOver(incs: seq<Incident>, alerts: seq<Alert>, show: bool): real {
    if incs == [] then 0.0
    else WeightOver(incs[..|incs| - 1], alerts, show) + TotalWeight(Members(alerts, show, incs[|incs| - 1].key))
  }

  ghost function BagOver(incs: seq<Incident>, alerts: seq<Alert>, show: bool): multiset<Alert> {
    if incs == [] then multiset{}
    else BagOver(incs[..|incs| - 1], alerts, show) + multiset(Members(alerts, show, incs[|incs| - 1].key))
  }

  predicate HasKey(incs: seq<Incident>, key: Str) {
    exists i :: 0 <= i < |incs| && incs[i].key == key
  }

  /** A list that grew by an alert weighs and holds as much more. */
  lemma MembersGrow(alerts: seq<Alert>, show: bool, a: Alert, key: Str)
    ensures (var before, after := Members(alerts, show, key), Members(alerts + [a], show, key);
             var joins := Visible(a, show) && IncidentKey(a) == key;
             TotalWeight(after) == TotalWeight(before) + (if joins then Weight(a) else 0.0)
             && multiset(after) == multiset(before) + (if joins then multiset{a} else multiset{}))
  {
    hide Members;
    hide Weight;
    hide TotalWeight;
    hide Visible;
    hide IncidentKey;
    var before := Members(alerts, show, key);
    MembersSnoc(alerts, show, a, key);
    TotalWeightSnoc(before, a);
    assert before + [] == before;
  }

  lemma {:induction false} OneMore(incs: seq<Incident>, alerts: seq<Alert>, show: bool, a: Alert)
    requires KeysApart(incs)
    ensures WeightOver(incs, alerts + [a], show)
         == WeightOver(incs, alerts, show) + (if Visible(a, show) && HasKey(incs, IncidentKey(a)) then Weight(a) else 0.0)
    ensures BagOver(incs, alerts + [a], show)
         == BagOver(incs, alerts, show) + (if Visible(a, show) && HasKey(incs, IncidentKey(a)) then multiset{a} else multiset{})
    decreases |incs|
  {
    hide Members;
    hide Weight;
    hide TotalWeight;
    hide Visible;
    hide IncidentKey;
    hide HasKey;
    if incs == [] {
      NoKeys(IncidentKey(a));
    } else {
      var init, last := incs[..|incs| - 1], incs[|incs| - 1];
      OneMore(init, alerts, show, a);
      MembersGrow(alerts, show, a, last.key);
      KeysSnoc(incs, IncidentKey(a));
    }
  }

  lemma NoKeys(key: Str)
    ensures !HasKey([], key)
  {
  }

  lemma KeysSnoc(incs: seq<Incident>, key: Str)
    requires incs != [] && KeysApart(incs)
    ensures (var init, last := incs[..|incs| - 1], incs[|incs| - 1];
             KeysApart(init) && (HasKey(incs, key) <==> HasKey(init, key) || last.key == key) && !(HasKey(init, key) && last.key == key))
  {
    var init := incs[..|incs| - 1];
    assert forall i :: 0 <= i < |init| ==> init[i] == incs[i];
  }

  lemma {:induction false} NothingOver(incs: seq<Incident>, show: bool)
    ensures WeightOver(incs, [], show) == 0.0 && BagOver(incs, [], show) == multiset{}
    decreases |incs|
  {
    if incs != [] {
      NothingOver(incs[..|incs| - 1], show);
    }
  }

  lemma ShownGrow(alerts: seq<Alert>, show: bool)
    requires alerts != []
    ensures (var before, after, a := Shown(alerts[..|alerts| - 1], show), Shown(alerts, show), alerts[|alerts| - 1];
             TotalWeight(after) == TotalWeight(before) + (if Visible(a, show) then Weight(a) else 0.0)
             && multiset(after) == multiset(before) + (if Visible(a, show) then multiset{a} else multiset{}))
  {
    hide Weight;
    hide TotalWeight;
    hide Visible;
    var before := Shown(alerts[..|alerts| - 1], show);
    TotalWeightSnoc(before, alerts[|alerts| - 1]);
    assert before + [] == before;
  }

  lemma {:induction false} OverAll(incs: seq<Incident>, alerts: seq<Alert>, show: bool)
    requires KeysApart(incs) && forall i :: 0 <= i < |alerts| && Visible(alerts[i], show) ==> HasKey(incs, IncidentKey(alerts[i]))
    ensures WeightOver(incs, alerts, show) == TotalWeight(Shown(alerts, show))
    ensures BagOver(incs, alerts, show) == multiset(Shown(alerts, show))
    decreases |alerts|
  {
    hide KeysApart;
    hide HasKey;
    hide Visible;
    hide IncidentKey;
    hide Weight;
    hide TotalWeight;
    hide WeightOver;
    hide BagOver;
    NoWeight();
    if alerts == [] {
      NothingOver(incs, show);
    } else {
      var init, a := alerts[..|alerts| - 1], alerts[|alerts| - 1];
      assert alerts == init + [a];
      assert forall i :: 0 <= i < |init| ==> init[i] == alerts[i];
      OverAll(incs, init, show);
      OneMore(incs, init, show, a);
      ShownGrow(alerts, show);
      assert Visible(a, show) ==> HasKey(incs, IncidentKey(alerts[|alerts| - 1]));
    }
  }

  lemma {:induction false} SumsAreOver(incs: seq<Incident>, alerts: seq<Alert>, o: Options)
    requires forall i :: 0 <= i < |incs| ==> Finished(incs[i], alerts, o)
    ensures TotalCount(incs) == WeightOver(incs, alerts, o.showSuppressed)
    ensures AllMembers(incs) == BagOver(incs, alerts, o.showSuppressed)
    decreases |incs|
  {
    if incs != [] {
      SumsAreOver(incs[..|incs| - 1], alerts, o);
    }
  }

  lemma ShownHaveKeys(incs: seq<Incident>, alerts: seq<Alert>, o: Options)
    requires IncidentsOf(incs, alerts, o)
    ensures KeysApart(incs)
    ensures forall i :: 0 <= i < |alerts| && Visible(alerts[i], o.showSuppressed) ==> HasKey(incs, IncidentKey(alerts[i]))
  {
    hide Finished;
    hide Members;
    forall i | 0 <= i < |alerts| && Visible(alerts[i], o.showSuppressed) ensures HasKey(incs, IncidentKey(alerts[i])) {
      MembersBelong(alerts, o.showSuppressed, IncidentKey(alerts[i]));
      assert Members(alerts, o.showSuppressed, IncidentKey(alerts[i])) != [];
    }
  }

  /** Every shown alert is in exactly one incident, and the counts add up to what was shown. */
  lemma IncidentsPartition(incs: seq<Incident>, alerts: seq<Alert>, o: Options)
    requires IncidentsOf(incs, alerts, o)
    ensures AllMembers(incs) == multiset(Shown(alerts, o.showSuppressed))
    ensures TotalCount(incs) == TotalWeight(Shown(alerts, o.showSuppressed))
    ensures forall i, j :: 0 <= i < |incs| && 0 <= j < |incs[i].members| ==> IncidentKey(incs[i].members[j]) == incs[i].key
  {
    hide Shown;
    hide IsHead;
    hide IsChain;
    hide IsState;
    hide IncidentKey;
    ShownHaveKeys(incs, alerts, o);
    SumsAreOver(incs, alerts, o);
    OverAll(incs, alerts, o.showSuppressed);
    forall i, j | 0 <= i < |incs| && 0 <= j < |incs[i].members| ensures IncidentKey(incs[i].members[j]) == incs[i].key {
      InOneIncident(incs[i], alerts, o);
    }
  }

  /** The members of a finished incident, as elements. */
  lemma InOneIncident(inc: Incident, alerts: seq<Alert>, o: Options)
    requires Finished(inc, alerts, o)
    ensures forall j :: 0 <= j < |inc.members| ==>
      IncidentKey(inc.members[j]) == inc.key && Visible(inc.members[j], o.showSuppressed) && inc.members[j] in alerts
    ensures forall a :: a in alerts && Visible(a, o.showSuppressed) && IncidentKey(a) == inc.key ==> a in inc.members
  {
    hide IsHead;
    hide IsChain;
    hide IsState;
    hide IncidentKey;
    hide Visible;
    hide Members;
    var members := Members(alerts, o.showSuppressed, inc.key);
    MembersBelong(alerts, o.showSuppressed, inc.key);
    forall j | 0 <= j < |inc.members| ensures inc.members[j] in members {
      assert inc.members[j] in multiset(inc.members);
    }
    forall a | a in alerts && Visible(a, o.showSuppressed) && IncidentKey(a) == inc.key ensures a in inc.members {
      var i :| 0 <= i < |alerts| && alerts[i] == a;
      assert a in multiset(members);
    }
  }

  // ---------------------------------------------------------------------------- the verdict

  /** The daemon's status, as far as the sensor gate reads it. */
  datatype Status = Status(unhealthy: bool, tetragon: Str, loaded: Number, policies: Number)

  const RUNNING: Str := Ascii("running")

  /** `sensorHealthy`: is the sensor provably watching? */
  predicate SensorHealthy(status: Option<Status>) {
    match status
    case None => false
    case Some(s) =>
      !s.unhealthy && (s.tetragon == [] || s.tetragon == RUNNING)
      && !(s.loaded.Finite? && s.policies.Finite? && s.policies.value > 0.0 && s.loaded.value < s.policies.value)
  }

  /** `alertStopped`: did Moat stop this, with nobody having said they saw it? */
  predicate Stopped(a: Alert) {
    !a.Acked()
    && (a.Action() == CONTAINED || (a.live.mode == Some(ENFORCE) && (a.Action() == KILLED || a.Action() == BLOCKED)))
  }

  datatype VerdictState = ChainVerdict | NeedsVerdict | GapVerdict | StoppedVerdict | QuietVerdict

  function NeedsYouIncidents(incs: seq<Incident>): seq<Incident> {
    if incs == [] then []
    else NeedsYouIncidents(incs[..|incs| - 1]) + (if incs[|incs| - 1].state == NeedsYou then [incs[|incs| - 1]] else [])
  }

  function StoppedIncidents(incs: seq<Incident>): seq<Incident> {
    if incs == [] then []
    else
      StoppedIncidents(incs[..|incs| - 1])
      + (if AnyStopped(incs[|incs| - 1].members) then [incs[|incs| - 1]] else [])
  }

  predicate AnyStopped(members: seq<Alert>) {
    exists m :: 0 <= m < |members| && Stopped(members[m])
  }

  predicate IsSequence(inc: Incident) {
    inc.chain.Some? && inc.chain.value.total > 1.0
  }

  /** `verdictState`. */
  method DeriveVerdict(incs: seq<Incident>, status: Option<Status>) returns (v: VerdictState)
    ensures v == ChainVerdict <==> exists i :: 0 <= i < |incs| && incs[i].state == NeedsYou && IsSequence(incs[i])
    ensures v == ChainVerdict || v == NeedsVerdict <==> exists i :: 0 <= i < |incs| && incs[i].state == NeedsYou
    ensures v == QuietVerdict || v == StoppedVerdict ==> SensorHealthy(status)
    ensures v == GapVerdict ==> !SensorHealthy(status)
    ensures v == StoppedVerdict ==> StoppedIncidents(incs) != []
    ensures v == QuietVerdict ==> StoppedIncidents(incs) == []
  {
    var needs := NeedsYouIncidents(incs);
    NeedsYouFound(incs);
    for i := 0 to |needs|
      invariant forall k :: 0 <= k < i ==> !IsSequence(needs[k])
    {
      if IsSequence(needs[i]) {
        return ChainVerdict;
      }
    }
    if |needs| > 0 {
      assert needs[0] in needs;
      return NeedsVerdict;
    }
    if !SensorHealthy(status) {
      return GapVerdict;
    }
    v := if |StoppedIncidents(incs)| > 0 then StoppedVerdict else QuietVerdict;
  }

  lemma {:induction false} NeedsYouFound(incs: seq<Incident>)
    ensures forall x :: x in NeedsYouIncidents(incs) <==> x in incs && x.state == NeedsYou
    decreases |incs|
  {
    if incs != [] {
      var init := incs[..|incs| - 1];
      NeedsYouFound(init);
      assert incs == init + [incs[|incs| - 1]];
    }
  }

  lemma {:induction false} StoppedFound(incs: seq<Incident>)
    ensures StoppedIncidents(incs) == [] <==> forall i, m :: 0 <= i < |incs| && 0 <= m < |incs[i].members| ==> !Stopped(incs[i].members[m])
    decreases |incs|
  {
    hide Stopped;
    if incs != [] {
      var init := incs[..|incs| - 1];
      StoppedFound(init);
      assert forall i :: 0 <= i < |init| ==> init[i] == incs[i];
    }
  }

  /** An incident needs the user exactly when some member does. */
  lemma NeedsYouIffMember(inc: Incident, alerts: seq<Alert>, o: Options)
    requires Finished(inc, alerts, o)
    ensures inc.state == NeedsYou <==> exists m :: 0 <= m < |inc.members| && StateOf(inc.members[m], o.demotedRules) == NeedsYou
  {
    hide StateOf;
    hide Members;
    hide IsHead;
    hide IsChain;
    hide Ordered;
    hide IsTime;
    hide IsWorst;
  }

  /** Some incident needs the user exactly when some alert does, shown or not. */
  lemma NeedsYouIffAlert(incs: seq<Incident>, alerts: seq<Alert>, o: Options)
    requires IncidentsOf(incs, alerts, o)
    ensures (exists i :: 0 <= i < |incs| && incs[i].state == NeedsYou)
       <==> (exists a :: a in alerts && StateOf(a, o.demotedRules) == NeedsYou)
  {
    hide StateOf;
    hide Finished;
    hide Members;
    hide IncidentKey;
    ShownHaveKeys(incs, alerts, o);
    if i :| 0 <= i < |incs| && incs[i].state == NeedsYou {
      NeedsYouIffMember(incs[i], alerts, o);
      InOneIncident(incs[i], alerts, o);
      var m :| 0 <= m < |incs[i].members| && StateOf(incs[i].members[m], o.demotedRules) == NeedsYou;
      assert incs[i].members[m] in alerts;
    }
    if a :| a in alerts && StateOf(a, o.demotedRules) == NeedsYou {
      NeedsYouIsSurfaced(a, o.demotedRules);
      assert Visible(a, o.showSuppressed);
      var k :| 0 <= k < |alerts| && alerts[k] == a;
      var i :| 0 <= i < |incs| && incs[i].key == IncidentKey(a);
      InOneIncident(incs[i], alerts, o);
      var m :| 0 <= m < |incs[i].members| && incs[i].members[m] == a;
      NeedsYouIffMember(incs[i], alerts, o);
    }
  }

  /** A stopped alert that is shown is a member of an incident. */
  lemma StoppedIffAlert(incs: seq<Incident>, alerts: seq<Alert>, o: Options)
    requires IncidentsOf(incs, alerts, o)
    ensures StoppedIncidents(incs) == [] <==> forall a :: a in alerts && Visible(a, o.showSuppressed) ==> !Stopped(a)
  {
    hide Stopped;
    hide Finished;
    hide Members;
    hide IncidentKey;
    hide Visible;
    StoppedFound(incs);
    ShownHaveKeys(incs, alerts, o);
    forall i | 0 <= i < |incs| ensures
        forall m :: 0 <= m < |incs[i].members| ==> incs[i].members[m] in alerts && Visible(incs[i].members[m], o.showSuppressed) {
      InOneIncident(incs[i], alerts, o);
    }
    forall a | a in alerts && Visible(a, o.showSuppressed) ensures exists i, m :: 0 <= i < |incs| && 0 <= m < |incs[i].members| && incs[i].members[m] == a {
      var k :| 0 <= k < |alerts| && alerts[k] == a;
      var i :| 0 <= i < |incs| && incs[i].key == IncidentKey(a);
      InOneIncident(incs[i], alerts, o);
      var m :| 0 <= m < |incs[i].members| && incs[i].members[m] == a;
    }
  }

  /** From alerts to the line on top: it is calm exactly when no alert waits for the user, the
      sensor is provably watching, and no shown intervention is unseen. */
  method VerdictOf(alerts: seq<Alert>, o: Options, status: Option<Status>) returns (v: VerdictState)
    ensures v == ChainVerdict || v == NeedsVerdict <==> exists a :: a in alerts && StateOf(a, o.demotedRules) == NeedsYou
    ensures v == QuietVerdict <==>
      && (forall a :: a in alerts ==> StateOf(a, o.demotedRules) != NeedsYou)
      && SensorHealthy(status)
      && (forall a :: a in alerts && Visible(a, o.showSuppressed) ==> !Stopped(a))
    ensures v == GapVerdict ==> !SensorHealthy(status)
  {
    hide StateOf;
    hide Stopped;
    hide Visible;
    hide SensorHealthy;
    hide IncidentsOf;
    hide StoppedIncidents;
    hide IsSequence;
    var incs := BuildIncidents(alerts, o);
    NeedsYouIffAlert(incs, alerts, o);
    StoppedIffAlert(incs, alerts, o);
    v := DeriveVerdict(incs, status);
  }
}
