/** Grouping alerts into incidents, and the one line on top that is derived from them. */
module Incidents {
  import opened Wrappers
  import opened Text
  import opened Sorting
  import opened Alerts

  /** What an alert adds to its incident's count. */
  function Weight(a: Alert): real {
    match a.live.count
    case Some(Finite(n)) => if n == 0.0 then 1.0 else n
    case _ => 1.0
  }

  function TotalWeight(alerts: seq<Alert>): real {
    if alerts == [] then 0.0 else TotalWeight(alerts[..|alerts| - 1]) + Weight(alerts[|alerts| - 1])
  }

  /** The alerts the settings show. */
  function Shown(alerts: seq<Alert>, show: bool): seq<Alert> {
    if alerts == [] then []
    else
      var a := alerts[|alerts| - 1];
      Shown(alerts[..|alerts| - 1], show) + (if Visible(a, show) then [a] else [])
  }

  /** The shown alerts of one incident, as listed. */
  function Members(alerts: seq<Alert>, show: bool, key: Str): seq<Alert> {
    if alerts == [] then []
    else
      var a := alerts[|alerts| - 1];
      Members(alerts[..|alerts| - 1], show, key) + (if Visible(a, show) && IncidentKey(a) == key then [a] else [])
  }

  // ------------------------------------------------------------------------------ grouping

  /** An incident being built. */
  datatype Group = Group(key: Str, alerts: seq<Alert>, count: real, firstSeen: Str, lastSeen: Str, severity: Severity)

  function Started(a: Alert): Group {
    Group(IncidentKey(a), [], 0.0, a.Ts(), a.Ts(), a.fixed.severity)
  }

  function Joined(g: Group, a: Alert): Group {
    Group(
      g.key, g.alerts + [a], g.count + Weight(a),
      if Lex(a.Ts(), g.firstSeen) < 0 then a.Ts() else g.firstSeen,
      if Lex(a.Ts(), g.lastSeen) > 0 then a.Ts() else g.lastSeen,
      if Rank(a.fixed.severity) > Rank(g.severity) then a.fixed.severity else g.severity)
  }

  /** Each key is the key of the group filed at its index, and every group is filed. */
  predicate Indexed(order: seq<Group>, byKey: map<Str, nat>) {
    && (forall k :: k in byKey ==> byKey[k] < |order| && order[byKey[k]].key == k)
    && (forall i :: 0 <= i < |order| ==> order[i].key in byKey && byKey[order[i].key] == i)
  }

  /** `bound` is the earliest or the latest time among the alerts. */
  ghost predicate IsTime(bound: Str, alerts: seq<Alert>, latest: bool) {
    && (exists i :: 0 <= i < |alerts| && alerts[i].Ts() == bound)
    && forall i :: 0 <= i < |alerts| ==> if latest then Lex(alerts[i].Ts(), bound) <= 0 else Lex(alerts[i].Ts(), bound) >= 0
  }

  ghost predicate IsWorst(severity: Severity, alerts: seq<Alert>) {
    && (exists i :: 0 <= i < |alerts| && alerts[i].fixed.severity == severity)
    && forall i :: 0 <= i < |alerts| ==> Rank(alerts[i].fixed.severity) <= Rank(severity)
  }

  /** First and last times and the worst severity are the members'. */
  ghost predicate Summed(g: Group) {
    IsTime(g.firstSeen, g.alerts, false) && IsTime(g.lastSeen, g.alerts, true) && IsWorst(g.severity, g.alerts)
  }

  lemma LexAtMost(x: Str, y: Str, z: Str)
    ensures Lex(x, x) == 0 && Lex(y, x) == -Lex(x, y)
    ensures Lex(x, y) <= 0 && Lex(y, z) <= 0 ==> Lex(x, z) <= 0
  {
    LexZero(x, x);
    LexFlip(x, y);
    LexZero(x, y);
    LexZero(y, z);
    if Lex(x, y) < 0 && Lex(y, z) < 0 {
      LexTransitive(x, y, z);
    }
  }

  lemma TimeJoins(bound: Str, alerts: seq<Alert>, latest: bool, a: Alert)
    requires if alerts == [] then bound == a.Ts() else IsTime(bound, alerts, latest)
    ensures (var c := Lex(a.Ts(), bound);
             IsTime(if (if latest then c > 0 else c < 0) then a.Ts() else bound, alerts + [a], latest))
  {
    var all := alerts + [a];
    var c := Lex(a.Ts(), bound);
    var now := if (if latest then c > 0 else c < 0) then a.Ts() else bound;
    LexAtMost(a.Ts(), bound, bound);
    forall i | 0 <= i < |all| ensures if latest then Lex(all[i].Ts(), now) <= 0 else Lex(all[i].Ts(), now) >= 0 {
      if i < |alerts| {
        assert all[i] == alerts[i];
        LexAtMost(alerts[i].Ts(), bound, a.Ts());
        LexAtMost(bound, a.Ts(), alerts[i].Ts());
        LexAtMost(a.Ts(), bound, alerts[i].Ts());
        LexAtMost(a.Ts(), alerts[i].Ts(), bound);
        LexAtMost(bound, alerts[i].Ts(), bound);
      }
    }
    if now == a.Ts() {
      assert all[|alerts|].Ts() == now;
    } else {
      var i :| 0 <= i < |alerts| && alerts[i].Ts() == bound;
      assert all[i].Ts() == now;
    }
  }

  lemma SummedHasMembers(g: Group)
    ensures Summed(g) ==> g.alerts != []
  {
  }

  lemma JoinSums(g: Group, a: Alert)
    requires g == Started(a) || Summed(g)
    ensures Summed(Joined(g, a))
  {
    hide IsTime;
    hide IsWorst;
    SummedHasMembers(g);
    TimeJoins(g.firstSeen, g.alerts, false, a);
    TimeJoins(g.lastSeen, g.alerts, true, a);
    WorstJoins(g.severity, g.alerts, a);
  }

  lemma WorstJoins(severity: Severity, alerts: seq<Alert>, a: Alert)
    requires if alerts == [] then severity == a.fixed.severity else IsWorst(severity, alerts)
    ensures IsWorst(if Rank(a.fixed.severity) > Rank(severity) then a.fixed.severity else severity, alerts + [a])
  {
    var all := alerts + [a];
    assert all[|alerts|] == a && forall i :: 0 <= i < |alerts| ==> all[i] == alerts[i];
    if alerts != [] {
      var i :| 0 <= i < |alerts| && alerts[i].fixed.severity == severity;
      assert all[i].fixed.severity == severity;
    }
  }

  /** A group holds the shown alerts of its key and says what they sum to. */
  ghost predicate GroupOk(g: Group, alerts: seq<Alert>, show: bool) {
    g.alerts == Members(alerts, show, g.key) && g.alerts != [] && g.count == TotalWeight(g.alerts) && Summed(g)
  }

  ghost predicate Covered(order: seq<Group>, alerts: seq<Alert>, show: bool) {
    forall key :: Members(alerts, show, key) != [] ==> exists i :: 0 <= i < |order| && order[i].key == key
  }

  /** The groups hold the shown alerts, each where it belongs. */
  ghost predicate Grouped(order: seq<Group>, alerts: seq<Alert>, show: bool) {
    && (forall i, j :: 0 <= i < j < |order| ==> order[i].key != order[j].key)
    && (forall i :: 0 <= i < |order| ==> GroupOk(order[i], alerts, show))
    && Covered(order, alerts, show)
  }

  lemma MembersBelong(alerts: seq<Alert>, show: bool, key: Str)
    ensures forall i :: 0 <= i < |Members(alerts, show, key)| ==>
      IncidentKey(Members(alerts, show, key)[i]) == key && Visible(Members(alerts, show, key)[i], show) && Members(alerts, show, key)[i] in alerts
    ensures forall i :: 0 <= i < |alerts| && Visible(alerts[i], show) ==> alerts[i] in Members(alerts, show, IncidentKey(alerts[i]))
  {
    hide IncidentKey;
    hide Visible;
    if alerts != [] {
      var init := alerts[..|alerts| - 1];
      MembersBelong(init, show, key);
      forall i | 0 <= i < |alerts| && Visible(alerts[i], show) ensures alerts[i] in Members(alerts, show, IncidentKey(alerts[i])) {
        MembersBelong(init, show, IncidentKey(alerts[i]));
        if i < |init| {
          assert init[i] == alerts[i];
        }
      }
    }
  }

  lemma TotalWeightSnoc(alerts: seq<Alert>, a: Alert)
    ensures TotalWeight(alerts + [a]) == TotalWeight(alerts) + Weight(a)
  {
    assert (alerts + [a])[..|alerts|] == alerts;
  }

  lemma MembersSnoc(alerts: seq<Alert>, show: bool, a: Alert, k: Str)
    ensures Members(alerts + [a], show, k) == Members(alerts, show, k) + (if Visible(a, show) && IncidentKey(a) == k then [a] else [])
  {
    assert (alerts + [a])[..|alerts|] == alerts;
  }

  lemma JoinedParts(g: Group, a: Alert)
    ensures Joined(g, a).key == g.key && Joined(g, a).alerts == g.alerts + [a] && Joined(g, a).count == g.count + Weight(a)
    ensures Started(a).key == IncidentKey(a)
  {
  }

  /** A group that an alert joins stays right. */
  lemma JoinOk(g: Group, alerts: seq<Alert>, show: bool, a: Alert)
    requires Visible(a, show) && g.key == IncidentKey(a)
    requires if g == Started(a) then Members(alerts, show, g.key) == [] else GroupOk(g, alerts, show)
    ensures GroupOk(Joined(g, a), alerts + [a], show)
  {
    hide IncidentKey;
    hide Visible;
    hide Weight;
    hide TotalWeight;
    hide Members;
    hide Joined;
    hide Summed;
    JoinedParts(g, a);
    JoinSums(g, a);
    NoWeight();
    MembersSnoc(alerts, show, a, g.key);
    TotalWeightSnoc(g.alerts, a);
  }

  /** So does a group it does not join. */
  lemma OtherOk(g: Group, alerts: seq<Alert>, show: bool, a: Alert)
    requires GroupOk(g, alerts, show) && !(Visible(a, show) && IncidentKey(a) == g.key)
    ensures GroupOk(g, alerts + [a], show)
  {
    hide Members;
    MembersSnoc(alerts, show, a, g.key);
  }

  lemma CoveredStill(order: seq<Group>, after: seq<Group>, alerts: seq<Alert>, show: bool, a: Alert)
    requires Covered(order, alerts, show) && |order| <= |after| && forall i :: 0 <= i < |order| ==> after[i].key == order[i].key
    requires Visible(a, show) ==> exists i :: 0 <= i < |after| && after[i].key == IncidentKey(a)
    ensures Covered(after, alerts + [a], show)
  {
    hide Members;
    hide Visible;
    hide IncidentKey;
    forall key | Members(alerts + [a], show, key) != [] ensures exists i :: 0 <= i < |after| && after[i].key == key {
      MembersSnoc(alerts, show, a, key);
      if Members(alerts, show, key) != [] {
        var i :| 0 <= i < |order| && order[i].key == key;
        assert after[i].key == key;
      }
    }
  }

  /** An alert of a known incident keeps the groups right. */
  lemma JoinKeepsGrouped(order: seq<Group>, alerts: seq<Alert>, show: bool, a: Alert, i: nat)
    requires Grouped(order, alerts, show) && Visible(a, show) && i < |order| && order[i].key == IncidentKey(a)
    ensures Grouped(order[i := Joined(order[i], a)], alerts + [a], show)
  {
    hide GroupOk;
    hide Covered;
    hide Joined;
    hide IncidentKey;
    hide Visible;
    var after := order[i := Joined(order[i], a)];
    JoinedParts(order[i], a);
    JoinsOnce(order[i], alerts, show, a);
    forall j | 0 <= j < |order| && j != i ensures GroupOk(after[j], alerts + [a], show) {
      OtherOk(order[j], alerts, show, a);
    }
    assert after[i].key == IncidentKey(a);
    CoveredStill(order, after, alerts, show, a);
  }

  lemma JoinsOnce(g: Group, alerts: seq<Alert>, show: bool, a: Alert)
    requires GroupOk(g, alerts, show) && Visible(a, show) && g.key == IncidentKey(a)
    ensures GroupOk(Joined(g, a), alerts + [a], show)
  {
    hide Summed;
    hide TotalWeight;
    JoinOk(g, alerts, show, a);
  }

  /** An alert of a new incident does too. */
  lemma StartKeepsGrouped(order: seq<Group>, alerts: seq<Alert>, show: bool, a: Alert)
    requires Grouped(order, alerts, show) && Visible(a, show)
    requires forall j :: 0 <= j < |order| ==> order[j].key != IncidentKey(a)
    ensures Grouped(order + [Joined(Started(a), a)], alerts + [a], show)
  {
    hide GroupOk;
    hide Joined;
    hide IncidentKey;
    hide Visible;
    hide Members;
    var g := Joined(Started(a), a);
    var after := order + [g];
    JoinedParts(Started(a), a);
    assert Members(alerts, show, g.key) == [];
    JoinOk(Started(a), alerts, show, a);
    forall j | 0 <= j < |order| ensures GroupOk(after[j], alerts + [a], show) {
      OtherOk(order[j], alerts, show, a);
    }
    assert after[|order|].key == IncidentKey(a);
    CoveredStill(order, after, alerts, show, a);
  }

  lemma NoWeight()
    ensures TotalWeight([]) == 0.0
  {
  }

  lemma HiddenKeepsGrouped(order: seq<Group>, alerts: seq<Alert>, show: bool, a: Alert)
    requires Grouped(order, alerts, show) && !Visible(a, show)
    ensures Grouped(order, alerts + [a], show)
  {
    hide GroupOk;
    hide Covered;
    hide Visible;
    forall j | 0 <= j < |order| ensures GroupOk(order[j], alerts + [a], show) {
      OtherOk(order[j], alerts, show, a);
    }
    CoveredStill(order, order, alerts, show, a);
  }

  /** The grouping loop of `buildIncidents`. */
  method GroupAlerts(alerts: seq<Alert>, show: bool) returns (order: seq<Group>)
    ensures Grouped(order, alerts, show)
  {
    hide IncidentKey;
    hide Visible;
    hide Joined;
    hide Grouped;
    order := [];
    var byKey: map<Str, nat> := map[];
    NothingGrouped(show);
    assert alerts[..0] == [];
    for i := 0 to |alerts|
      invariant Grouped(order, alerts[..i], show) && Indexed(order, byKey)
    {
      var a := alerts[i];
      assert alerts[..i + 1] == alerts[..i] + [a];
      if Visible(a, show) {
        var key := IncidentKey(a);
        var before := order;
        if key !in byKey {
          StartKeepsGrouped(before, alerts[..i], show, a);
          byKey := byKey[key := |order|];
          order := order + [Joined(Started(a), a)];
        } else {
          JoinKeepsGrouped(before, alerts[..i], show, a, byKey[key]);
          order := order[byKey[key] := Joined(order[byKey[key]], a)];
        }
        JoinKeys(a);
        assert forall g :: Joined(g, a).key == g.key;
      } else {
        HiddenKeepsGrouped(order, alerts[..i], show, a);
      }
    }
    assert alerts[..|alerts|] == alerts;
  }

  lemma JoinKeys(a: Alert)
    ensures forall g :: Joined(g, a).key == g.key
    ensures Started(a).key == IncidentKey(a)
  {
  }

  lemma NothingGrouped(show: bool)
    ensures Grouped([], [], show)
  {
  }

  // ------------------------------------------------------------------------------ finishing

  /** `compareAlertsNewestFirst`: does `a` come before `b`? */
  predicate Later(a: Alert, b: Alert) {
    Lex(a.id, b.id) > 0 || (a.id == b.id && Lex(a.Ts(), b.Ts()) > 0)
  }

  /** No later element stands behind an earlier one. */
  ghost predicate Ordered(s: seq<Alert>) {
    forall i, j :: 0 <= i < j < |s| ==> !Later(s[j], s[i])
  }

  function StateRank(st: AlertState): (r: nat)
    ensures r <= 4
  {
    match st
    case NeedsYou => 0
    case Contained => 1
    case Explained => 2
    case Expected => 3
    case Closed => 4
  }

  datatype Incident = Incident(
    key: Str, members: seq<Alert>, count: real, firstSeen: Str, lastSeen: Str, severity: Severity,
    head: Alert, chain: Option<Chain>, state: AlertState)

  /** The newest member that waits for the user, else the newest. */
  ghost predicate IsHead(head: Alert, members: seq<Alert>, d: set<Str>) {
    exists h :: 0 <= h < |members| && members[h] == head
      && (forall i :: 0 <= i < h ==> StateOf(members[i], d) != NeedsYou)
      && (StateOf(head, d) == NeedsYou || (h == 0 && forall i :: 0 <= i < |members| ==> StateOf(members[i], d) != NeedsYou))
  }

  /** The largest chain any member carries. */
  ghost predicate IsChain(chain: Option<Chain>, members: seq<Alert>) {
    && (chain.None? ==> forall i :: 0 <= i < |members| ==> members[i].live.chain.None?)
    && (chain.Some? ==>
          (exists i :: 0 <= i < |members| && members[i].live.chain == chain)
          && forall i :: 0 <= i < |members| && members[i].live.chain.Some? ==> members[i].live.chain.value.total <= chain.value.total)
  }

  /** The state of the member that asks for most. */
  ghost predicate IsState(state: AlertState, members: seq<Alert>, d: set<Str>) {
    && (exists i :: 0 <= i < |members| && StateOf(members[i], d) == state)
    && forall i :: 0 <= i < |members| ==> StateRank(state) <= StateRank(StateOf(members[i], d))
  }

  ghost predicate Finished(inc: Incident, alerts: seq<Alert>, o: Options) {
    var members := Members(alerts, o.showSuppressed, inc.key);
    && multiset(inc.members) == multiset(members) && members != [] && Ordered(inc.members)
    && inc.count == TotalWeight(members)
    && IsTime(inc.firstSeen, members, false) && IsTime(inc.lastSeen, members, true)
    && (if inc.chain.Some? && inc.chain.value.severity != Unrecognised then inc.severity == inc.chain.value.severity
        else IsWorst(inc.severity, members))
    && IsHead(inc.head, inc.members, o.demotedRules)
    && IsChain(inc.chain, inc.members)
    && IsState(inc.state, inc.members, o.demotedRules)
  }

  lemma {:induction false} InsertKeepsBag<T(!new)>(lt: (T, T) -> bool, x: T, s: seq<T>)
    ensures multiset(Insert(lt, x, s)) == multiset(s) + multiset{x}
  {
    if s != [] && !lt(x, s[0]) {
      InsertKeepsBag(lt, x, s[1..]);
      assert s == [s[0]] + s[1..];
    }
  }

  lemma LaterIsWeak(a: Alert, b: Alert, c: Alert)
    requires Later(a, b)
    ensures !Later(b, a) && (Later(c, b) || Later(a, c))
  {
    LexFlip(a.id, b.id);
    LexFlip(a.Ts(), b.Ts());
    LexFlip(c.id, b.id);
    LexFlip(a.id, c.id);
    LexZero(b.id, c.id);
    LexZero(a.id, b.id);
    LexFlip(c.Ts(), b.Ts());
    LexFlip(a.Ts(), c.Ts());
    LexZero(b.Ts(), c.Ts());
    if Lex(c.id, b.id) < 0 && Lex(b.id, a.id) < 0 {
      LexTransitive(c.id, b.id, a.id);
    }
    if Lex(c.Ts(), b.Ts()) < 0 && Lex(b.Ts(), a.Ts()) < 0 {
      LexTransitive(c.Ts(), b.Ts(), a.Ts());
    }
  }

  lemma {:induction false} InsertOrdered(x: Alert, s: seq<Alert>)
    requires Ordered(s)
    ensures Ordered(Insert(Later, x, s))
  {
    hide Later;
    if s == [] {
    } else if Later(x, s[0]) {
      LaterIsWeak(x, s[0], x);
      forall j | 0 <= j < |s| ensures !Later(s[j], x) {
        LaterIsWeak(x, s[0], s[j]);
        if Later(x, s[j]) {
          LaterIsWeak(x, s[j], x);
        }
        if j == 0 {
        } else {
          assert !Later(s[j], s[0]);
        }
      }
    } else {
      InsertOrdered(x, s[1..]);
      var r := Insert(Later, x, s[1..]);
      forall y | y in r ensures !Later(y, s[0]) {
        assert y in Elements(r);
        if y != x {
          assert y in s[1..];
          var i :| 0 <= i < |s[1..]| && s[1..][i] == y;
          assert s[i + 1] == y;
        }
      }
    }
  }

  /** `sort(compareAlertsNewestFirst)`, which keeps equals in order. */
  method SortAlerts(alerts: seq<Alert>) returns (s: seq<Alert>)
    ensures multiset(s) == multiset(alerts) && Ordered(s)
  {
    hide Later;
    s := [];
    for i := 0 to |alerts|
      invariant multiset(s) == multiset(alerts[..i]) && Ordered(s)
    {
      assert alerts[..i + 1] == alerts[..i] + [alerts[i]];
      InsertKeepsBag(Later, alerts[i], s);
      InsertOrdered(alerts[i], s);
      s := Insert(Later, alerts[i], s);
    }
    assert alerts[..|alerts|] == alerts;
  }

  method FindHead(members: seq<Alert>, d: set<Str>) returns (head: Alert)
    requires members != []
    ensures IsHead(head, members, d)
  {
    hide StateOf;
    head := members[0];
    for h := 0 to |members|
      invariant head == members[0]
      invariant forall i :: 0 <= i < h ==> StateOf(members[i], d) != NeedsYou
    {
      if StateOf(members[h], d) == NeedsYou {
        head := members[h];
        return;
      }
    }
  }

  method FindChain(members: seq<Alert>) returns (chain: Option<Chain>)
    ensures IsChain(chain, members)
  {
    chain := None;
    assert members[..0] == [];
    for c := 0 to |members|
      invariant IsChain(chain, members[..c])
    {
      assert members[..c + 1] == members[..c] + [members[c]];
      var cc := members[c].live.chain;
      if cc.Some? && (chain.None? || cc.value.total > chain.value.total) {
        chain := cc;
        assert members[..c + 1][c].live.chain == cc;
      } else if chain.Some? {
        var i :| 0 <= i < c && members[..c][i].live.chain == chain;
        assert members[..c + 1][i].live.chain == chain;
      }
    }
    assert members[..|members|] == members;
  }

  method FindState(members: seq<Alert>, d: set<Str>) returns (state: AlertState)
    requires members != []
    ensures IsState(state, members, d)
  {
    hide StateOf;
    state := Closed;
    var worst := 5;
    for k := 0 to |members|
      invariant k == 0 <==> worst == 5
      invariant k > 0 ==> worst == StateRank(state) && IsState(state, members[..k], d)
    {
      assert members[..k + 1] == members[..k] + [members[k]];
      var st := StateOf(members[k], d);
      var rank := StateRank(st);
      if rank < worst {
        worst, state := rank, st;
        assert StateOf(members[..k + 1][k], d) == state;
      } else {
        var i :| 0 <= i < k && StateOf(members[..k][i], d) == state;
        assert StateOf(members[..k + 1][i], d) == state;
      }
    }
    assert members[..|members|] == members;
  }

  /** `compareIncidentsNewestFirst`. */
  predicate MoreRecent(a: Incident, b: Incident) {
    if a.lastSeen == b.lastSeen then Lex(a.key, b.key) >= 0 else Lex(a.lastSeen, b.lastSeen) > 0
  }

  /** What `buildIncidents` answers. */
  ghost predicate IncidentsOf(incs: seq<Incident>, alerts: seq<Alert>, o: Options) {
    && (forall i, j :: 0 <= i < j < |incs| ==> incs[i].key != incs[j].key && MoreRecent(incs[i], incs[j]))
    && (forall i :: 0 <= i < |incs| ==> Finished(incs[i], alerts, o))
    && (forall key :: Members(alerts, o.showSuppressed, key) != [] ==> exists i :: 0 <= i < |incs| && incs[i].key == key)
  }

  /** The finishing loop's body. */
  method FinishGroup(g: Group, o: Options) returns (inc: Incident)
    requires g.alerts != []
    ensures inc.key == g.key && multiset(inc.members) == multiset(g.alerts) && Ordered(inc.members) && inc.count == g.count
    ensures IsHead(inc.head, inc.members, o.demotedRules) && IsChain(inc.chain, inc.members) && IsState(inc.state, inc.members, o.demotedRules)
    ensures inc.firstSeen == g.firstSeen && inc.lastSeen == g.lastSeen
    ensures inc.severity == if inc.chain.Some? && inc.chain.value.severity != Unrecognised then inc.chain.value.severity else g.severity
  {
    var members := SortAlerts(g.alerts);
    assert |members| == |multiset(members)| == |g.alerts|;
    var head := FindHead(members, o.demotedRules);
    var chain := FindChain(members);
    var state := FindState(members, o.demotedRules);
    var severity := if chain.Some? && chain.value.severity != Unrecognised then chain.value.severity else g.severity;
    inc := Incident(g.key, members, g.count, g.firstSeen, g.lastSeen, severity, head, chain, state);
  }

  predicate NewestActivityFirst(incs: seq<Incident>) {
    forall i, k :: 0 <= i < k < |incs| ==> MoreRecent(incs[i], incs[k])
  }

  predicate KeysApart(incs: seq<Incident>) {
    forall i, k :: 0 <= i < k < |incs| ==> incs[i].key != incs[k].key
  }

  /** `sort(compareIncidentsNewestFirst)`. */
  method SortIncidents(done: seq<Incident>) returns (incs: seq<Incident>)
    requires KeysApart(done)
    ensures KeysApart(incs) && NewestActivityFirst(incs) && Elements(incs) == Elements(done) && |incs| == |done|
  {
    incs := [];
    for i := 0 to |done|
      invariant KeysApart(incs) && NewestActivityFirst(incs) && Elements(incs) == Elements(done[..i]) && |incs| == i
    {
      assert done[..i + 1] == done[..i] + [done[i]];
      assert Elements(done[..i + 1]) == Elements(done[..i]) + {done[i]};
      assert forall j :: 0 <= j < |incs| ==> incs[j] in Elements(incs);
      PlacedApart(incs, done[i]);
      PlacedInOrder(incs, done[i]);
      incs := Insert(MoreRecent, done[i], incs);
    }
    assert done[..|done|] == done;
  }

  lemma FinishedFrom(g: Group, inc: Incident, alerts: seq<Alert>, o: Options)
    requires GroupOk(g, alerts, o.showSuppressed)
    requires inc.key == g.key && multiset(inc.members) == multiset(g.alerts) && Ordered(inc.members) && inc.count == g.count
    requires IsHead(inc.head, inc.members, o.demotedRules) && IsChain(inc.chain, inc.members) && IsState(inc.state, inc.members, o.demotedRules)
    requires inc.firstSeen == g.firstSeen && inc.lastSeen == g.lastSeen
    requires inc.severity == if inc.chain.Some? && inc.chain.value.severity != Unrecognised then inc.chain.value.severity else g.severity
    ensures Finished(inc, alerts, o)
  {
    hide IsHead;
    hide IsChain;
    hide IsState;
    hide Ordered;
    hide Members;
    hide TotalWeight;
    hide IsTime;
    hide IsWorst;
  }

  lemma GroupsRight(order: seq<Group>, alerts: seq<Alert>, show: bool)
    requires Grouped(order, alerts, show)
    ensures forall i :: 0 <= i < |order| ==> order[i].alerts != [] && GroupOk(order[i], alerts, show)
    ensures forall i, j :: 0 <= i < j < |order| ==> order[i].key != order[j].key
    ensures Covered(order, alerts, show)
  {
    hide Members;
    hide Covered;
    hide TotalWeight;
    hide Summed;
  }

  /** `buildIncidents`, without a memo. */
  method BuildIncidents(alerts: seq<Alert>, o: Options) returns (incs: seq<Incident>)
    ensures IncidentsOf(incs, alerts, o)
  {
    hide IsHead;
    hide IsChain;
    hide IsState;
    hide Ordered;
    hide Finished;
    hide Grouped;
    hide GroupOk;
    hide Covered;
    hide NewestActivityFirst;
    hide IncidentsOf;
    hide Elements;
    var order := GroupAlerts(alerts, o.showSuppressed);
    GroupsRight(order, alerts, o.showSuppressed);
    var done: seq<Incident> := [];
    for j := 0 to |order|
      invariant |done| == j
      invariant forall i :: 0 <= i < j ==> done[i].key == order[i].key && Finished(done[i], alerts, o)
    {
      var inc := FinishGroup(order[j], o);
      FinishedFrom(order[j], inc, alerts, o);
      done := done + [inc];
    }
    incs := SortIncidents(done);
    SameElementsSameIncidents(done, incs, order, alerts, o);
  }

  lemma SameElementsSameIncidents(done: seq<Incident>, incs: seq<Incident>, order: seq<Group>, alerts: seq<Alert>, o: Options)
    requires KeysApart(incs) && NewestActivityFirst(incs) && Elements(incs) == Elements(done) && |done| == |order|
    requires Covered(order, alerts, o.showSuppressed)
    requires forall i :: 0 <= i < |done| ==> done[i].key == order[i].key && Finished(done[i], alerts, o)
    ensures IncidentsOf(incs, alerts, o)
  {
    hide Finished;
    hide Members;
    hide MoreRecent;
    forall i | 0 <= i < |incs| ensures Finished(incs[i], alerts, o) {
      assert incs[i] in Elements(done);
    }
    forall key | Members(alerts, o.showSuppressed, key) != [] ensures exists i :: 0 <= i < |incs| && incs[i].key == key {
      var k :| 0 <= k < |order| && order[k].key == key;
      assert done[k] in Elements(incs);
    }
  }

  lemma MoreRecentOrder(a: Incident, b: Incident, c: Incident)
    ensures MoreRecent(a, b) && MoreRecent(b, c) ==> MoreRecent(a, c)
    ensures MoreRecent(a, b) || MoreRecent(b, a)
  {
    LexAtMost(b.lastSeen, a.lastSeen, a.lastSeen);
    LexZero(a.lastSeen, b.lastSeen);
    LexZero(b.lastSeen, c.lastSeen);
    LexZero(a.lastSeen, c.lastSeen);
    LexFlip(a.lastSeen, b.lastSeen);
    LexFlip(b.lastSeen, c.lastSeen);
    LexFlip(a.lastSeen, c.lastSeen);
    LexFlip(a.key, b.key);
    LexFlip(b.key, c.key);
    LexFlip(a.key, c.key);
    LexAtMost(c.key, b.key, a.key);
    LexAtMost(c.lastSeen, b.lastSeen, a.lastSeen);
  }

  /** Placing a new incident keeps the keys apart. */
  lemma PlacedApart(incs: seq<Incident>, inc: Incident)
    requires KeysApart(incs) && forall i :: 0 <= i < |incs| ==> incs[i].key != inc.key
    ensures KeysApart(Insert(MoreRecent, inc, incs))
  {
    hide MoreRecent;
    if incs != [] && !MoreRecent(inc, incs[0]) {
      PlacedApart(incs[1..], inc);
      var r := Insert(MoreRecent, inc, incs[1..]);
      forall x | x in r ensures x.key != incs[0].key {
        assert x in Elements(r);
      }
    }
  }

  /** And the newest activity first. */
  lemma PlacedInOrder(incs: seq<Incident>, inc: Incident)
    requires NewestActivityFirst(incs)
    ensures NewestActivityFirst(Insert(MoreRecent, inc, incs))
  {
    hide MoreRecent;
    if incs == [] {
    } else if MoreRecent(inc, incs[0]) {
      forall k | 0 <= k < |incs| ensures MoreRecent(inc, incs[k]) {
        MoreRecentOrder(inc, incs[0], incs[k]);
      }
    } else {
      PlacedInOrder(incs[1..], inc);
      var r := Insert(MoreRecent, inc, incs[1..]);
      MoreRecentOrder(inc, incs[0], inc);
      forall x | x in r ensures MoreRecent(incs[0], x) {
        assert x in Elements(r);
        if x != inc {
          var k :| 0 <= k < |incs[1..]| && incs[1..][k] == x;
          assert incs[k + 1] == x;
        }
      }
    }
  }
}
