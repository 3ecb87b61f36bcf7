/** The ids the panel has seen, and how an id can be reported as new a second time. */
module SeenSet {
  import opened Text
  import opened Sorting

  const SEEN_LIMIT := 4096

  predicate NoRepeats(s: seq<Str>) {
    forall i, j :: 0 <= i < j < |s| ==> s[i] != s[j]
  }

  /** The last `n` entries. */
  function Newest(s: seq<Str>, n: nat): (r: seq<Str>)
    ensures |r| == if |s| < n then |s| else n
  {
    if |s| > n then s[|s| - n..] else s
  }

  /** `rememberSeen` with `folded` alerts in the fold. */
  function Remember(order: seq<Str>, id: Str, folded: nat): seq<Str> {
    if id in order then order else Newest(order + [id], SEEN_LIMIT + folded)
  }

  /** One step of the walk over an ingest's alerts: the id it stands on, and what is folded. */
  datatype Visit = Visit(id: Str, folded: set<Str>)

  predicate WellVisited(vs: seq<Visit>) {
    forall i :: 0 <= i < |vs| ==> vs[i].id in vs[i].folded
  }

  /** The order held after the visits, starting from `order`. */
  function OrderFrom(order: seq<Str>, vs: seq<Visit>): seq<Str> {
    if vs == [] then order
    else Remember(OrderFrom(order, vs[..|vs| - 1]), vs[|vs| - 1].id, |vs[|vs| - 1].folded|)
  }

  /** The ids the visits found missing, in order. */
  function Found(order: seq<Str>, vs: seq<Visit>): seq<Str> {
    if vs == [] then []
    else
      var init, v := vs[..|vs| - 1], vs[|vs| - 1];
      Found(order, init) + (if v.id in OrderFrom(order, init) then [] else [v.id])
  }

  /** The visits of one ingest: oldest first. */
  function VisitsOf(alerts: seq<Str>): (vs: seq<Visit>)
    ensures |vs| == |alerts| && forall i :: 0 <= i < |vs| ==> vs[i] == Visit(alerts[|alerts| - 1 - i], Elements(alerts))
  {
    seq(|alerts|, i requires 0 <= i < |alerts| => Visit(alerts[|alerts| - 1 - i], Elements(alerts)))
  }

  /** Ingest after ingest is one run of visits. */
  lemma {:induction false} VisitsCompose(order: seq<Str>, vs: seq<Visit>, ws: seq<Visit>)
    ensures OrderFrom(order, vs + ws) == OrderFrom(OrderFrom(order, vs), ws)
    ensures Found(order, vs + ws) == Found(order, vs) + Found(OrderFrom(order, vs), ws)
  {
    hide Remember;
    if ws == [] {
      assert vs + ws == vs;
    } else {
      var all := vs + ws;
      assert all[..|all| - 1] == vs + ws[..|ws| - 1] && all[|all| - 1] == ws[|ws| - 1];
      VisitsCompose(order, vs, ws[..|ws| - 1]);
    }
  }

  class Seen {
    var seen: set<Str>
    var seenOrder: seq<Str>
    var primed: bool

    ghost predicate Valid()
      reads this
    {
      NoRepeats(seenOrder) && seen == Elements(seenOrder)
    }

    constructor ()
      ensures Valid() && seenOrder == [] && !primed
    {
      seen, seenOrder, primed := {}, [], false;
    }

    /** `rememberSeen`. */
    method RememberSeen(id: Str, folded: nat)
      requires Valid()
      modifies this`seen, this`seenOrder
      ensures Valid() && seenOrder == Remember(old(seenOrder), id, folded)
    {
      hide Elements;
      ElementsIn(seenOrder);
      if id in seen {
        return;
      }
      seen := seen + {id};
      Appended(seenOrder, id);
      seenOrder := seenOrder + [id];
      var limit := SEEN_LIMIT + folded;
      ghost var all := seenOrder;
      while |seenOrder| > limit
        invariant Valid()
        invariant |seenOrder| <= |all| && seenOrder == all[|all| - |seenOrder|..]
        invariant |seenOrder| >= limit || seenOrder == all
      {
        var dropped := seenOrder[0];
        Dropped(seenOrder);
        seenOrder := seenOrder[1..];
        seen := seen - {dropped};
      }
    }

    /** The end of `ingestText` and of `ingestFeed`: the ids to notify for. */
    method Report(alerts: seq<Str>) returns (newIds: seq<Str>)
      requires Valid() && NoRepeats(alerts)
      modifies this
      ensures Valid() && primed
      ensures seenOrder == OrderFrom(old(seenOrder), VisitsOf(alerts))
      ensures newIds == if old(primed) then Found(old(seenOrder), VisitsOf(alerts)) else []
    {
      hide Elements;
      hide Remember;
      hide NoRepeats;
      var initialLoad := !primed;
      ghost var vs := VisitsOf(alerts);
      newIds := [];
      var i := |alerts|;
      CountDistinct(alerts);
      assert vs[..0] == [];
      while i > 0
        invariant 0 <= i <= |alerts| && Valid()
        invariant seenOrder == OrderFrom(old(seenOrder), vs[..|alerts| - i])
        invariant newIds == if initialLoad then [] else Found(old(seenOrder), vs[..|alerts| - i])
      {
        i := i - 1;
        var id := alerts[i];
        assert vs[..|alerts| - i][..|alerts| - i - 1] == vs[..|alerts| - i - 1];
        assert vs[|alerts| - i - 1].id == id;
        ElementsIn(seenOrder);
        if id !in seen && !initialLoad {
          newIds := newIds + [id];
        }
        RememberSeen(id, |alerts|);
      }
      assert vs[..|alerts|] == vs;
      primed := true;
    }
  }

  lemma ElementsIn(s: seq<Str>)
    ensures forall x :: x in Elements(s) <==> x in s
  {
  }

  lemma AppendedElements(s: seq<Str>, x: Str)
    ensures Elements(s + [x]) == Elements(s) + {x}
  {
    assert (s + [x])[|s|] == x;
    forall y: Str ensures y in Elements(s + [x]) <==> y in Elements(s) || y == x {
    }
  }

  lemma Appended(s: seq<Str>, x: Str)
    requires x !in s && NoRepeats(s)
    ensures NoRepeats(s + [x]) && Elements(s + [x]) == Elements(s) + {x}
  {
    AppendedElements(s, x);
  }

  lemma Dropped(s: seq<Str>)
    requires s != [] && NoRepeats(s)
    ensures NoRepeats(s[1..]) && Elements(s[1..]) == Elements(s) - {s[0]}
  {
    forall y ensures y in s[1..] <==> y in s && y != s[0] {
      if y in s && y != s[0] {
        var i :| 0 <= i < |s| && s[i] == y;
        assert s[1..][i - 1] == y;
      }
    }
  }

  lemma {:induction false} CountDistinct(s: seq<Str>)
    requires NoRepeats(s)
    ensures |Elements(s)| == |s|
  {
    if s == [] {
      assert Elements(s) == {};
    } else {
      var init, last := s[..|s| - 1], s[|s| - 1];
      CountDistinct(init);
      assert last !in init;
      forall y ensures y in s <==> y in init || y == last {
        if y in s {
          var i :| 0 <= i < |s| && s[i] == y;
          assert i < |init| ==> init[i] == y;
        }
        assert s[|s| - 1] == last;
        assert forall i :: 0 <= i < |init| ==> s[i] == init[i];
      }
      assert Elements(s) == Elements(init) + {last};
    }
  }

  // ------------------------------------------------------------------- the eviction bound

  /** Every id that was ever appended to the order, with its returns. */
  function Ever(vs: seq<Visit>): seq<Str> {
    Found([], vs)
  }

  ghost predicate IsEndOf(s: seq<Str>, all: seq<Str>) {
    |s| <= |all| && s == all[|all| - |s|..]
  }

  lemma RememberEnds(order: seq<Str>, ever: seq<Str>, id: Str, folded: nat)
    requires IsEndOf(order, ever) && NoRepeats(order)
    ensures NoRepeats(Remember(order, id, folded))
    ensures IsEndOf(Remember(order, id, folded), if id in order then ever else ever + [id])
  {
    hide Elements;
    if id !in order {
      Appended(order, id);
      assert order + [id] == (ever + [id])[|ever| - |order|..];
    }
  }

  lemma {:induction false} OrderEndsEver(vs: seq<Visit>)
    ensures IsEndOf(OrderFrom([], vs), Ever(vs)) && NoRepeats(OrderFrom([], vs))
  {
    hide IsEndOf;
    hide NoRepeats;
    hide Remember;
    NothingEnds();
    if vs != [] {
      var init, v := vs[..|vs| - 1], vs[|vs| - 1];
      OrderEndsEver(init);
      RememberEnds(OrderFrom([], init), Ever(init), v.id, |v.folded|);
      assert Ever(init) + [] == Ever(init);
    } else {
      NoneRepeats();
    }
  }

  /** The ids appended after the last time `x` was. */
  function LaterThan(ever: seq<Str>, x: Str): set<Str> {
    if ever == [] || ever[|ever| - 1] == x then {} else LaterThan(ever[..|ever| - 1], x) + {ever[|ever| - 1]}
  }

  lemma {:induction false} LaterIsTail(ever: seq<Str>, x: Str, p: nat)
    requires p < |ever| && ever[p] == x && x !in ever[p + 1..]
    ensures LaterThan(ever, x) == Elements(ever[p + 1..])
    decreases |ever|
  {
    var last := ever[|ever| - 1];
    if p == |ever| - 1 {
      assert ever[p + 1..] == [];
    } else {
      var init := ever[..|ever| - 1];
      assert ever[p + 1..] == init[p + 1..] + [last];
      assert ever[p + 1..][|ever| - p - 2] == last;
      LaterIsTail(init, x, p);
      AppendedElements(init[p + 1..], last);
    }
  }

  /** An id is dropped exactly when a new one comes and at least the limit stand behind it. */
  lemma DroppedIff(order: seq<Str>, id: Str, folded: nat, p: nat)
    requires p < |order| && NoRepeats(order)
    ensures order[p] !in Remember(order, id, folded) <==> id !in order && |order| - p >= SEEN_LIMIT + folded
  {
    if id !in order {
      Appended(order, id);
      var o := order + [id];
      var r := Newest(o, SEEN_LIMIT + folded);
      var d := |o| - |r|;
      assert r == o[d..];
      assert p >= d ==> r[p - d] == order[p];
      assert order[p] in r ==> exists k :: d <= k < |o| && o[k] == order[p];
    }
  }

  /** The ids behind a dropped one are all the ids remembered since it was. */
  lemma BehindDropped(vs: seq<Visit>, v: Visit, p: nat)
    requires p < |OrderFrom([], vs)| && v.id !in OrderFrom([], vs)
    ensures (var order := OrderFrom([], vs);
             var tail := order[p + 1..] + [v.id];
             NoRepeats(tail) && order[p] !in tail && LaterThan(Ever(vs + [v]), order[p]) == Elements(tail))
  {
    hide Elements;
    hide LaterThan;
    var order, all := OrderFrom([], vs), vs + [v];
    assert all[..|vs|] == vs;
    OrderEndsEver(vs);
    var tail, ever := order[p + 1..] + [v.id], Ever(vs) + [v.id];
    assert Ever(all) == ever;
    Appended(order, v.id);
    assert tail == (order + [v.id])[p + 1..];
    var q := |ever| - |tail| - 1;
    assert ever[q] == order[p] && ever[q + 1..] == tail;
    LaterIsTail(ever, order[p], q);
  }

  /** Over every run, a visit drops a remembered id exactly when it brings an id not in the order
      and at least the limit and the folded count of ids were remembered after it. */
  lemma ForgottenIff(vs: seq<Visit>, v: Visit, x: Str)
    requires x in OrderFrom([], vs)
    ensures x !in OrderFrom([], vs + [v])
       <==> v.id !in OrderFrom([], vs) && |LaterThan(Ever(vs + [v]), x)| >= SEEN_LIMIT + |v.folded|
  {
    hide Elements;
    hide LaterThan;
    hide Ever;
    hide Remember;
    var order := OrderFrom([], vs);
    assert (vs + [v])[..|vs|] == vs;
    OrderEndsEver(vs);
    var p :| 0 <= p < |order| && order[p] == x;
    DroppedIff(order, v.id, |v.folded|, p);
    if v.id !in order {
      BehindDropped(vs, v, p);
      CountDistinct(order[p + 1..] + [v.id]);
    }
  }

  /** A folded id that is dropped has more than the limit of later ids that are not folded. */
  lemma DroppedPastTheLimit(vs: seq<Visit>, v: Visit, x: Str)
    requires x in OrderFrom([], vs) && x !in OrderFrom([], vs + [v]) && x in v.folded
    ensures |LaterThan(Ever(vs + [v]), x) - v.folded| > SEEN_LIMIT
  {
    hide Elements;
    hide LaterThan;
    hide Ever;
    hide Remember;
    var order := OrderFrom([], vs);
    assert (vs + [v])[..|vs|] == vs;
    OrderEndsEver(vs);
    var p :| 0 <= p < |order| && order[p] == x;
    DroppedIff(order, v.id, |v.folded|, p);
    BehindDropped(vs, v, p);
    var tail := order[p + 1..] + [v.id];
    CountDistinct(tail);
    ElementsIn(tail);
    Outnumbered(Elements(tail), v.folded, x);
  }

  lemma Outnumbered(later: set<Str>, folded: set<Str>, x: Str)
    requires x in folded && x !in later
    ensures |later - folded| > |later| - |folded|
  {
    var both := later * folded;
    assert later == (later - folded) + both && (later - folded) !! both;
    assert both <= folded - {x};
    CardMonotone(both, folded - {x});
  }

  lemma {:induction false} CardMonotone(a: set<Str>, b: set<Str>)
    requires a <= b
    ensures |a| <= |b|
  {
    assert b == a + (b - a);
  }

  /** The eviction bound over every run: an id that stays folded and is found missing again was
      dropped at a visit where more than the limit of ids remembered after it had left the fold. */
  lemma {:induction false} FoundAgainPastTheLimit(vs: seq<Visit>, a: nat, x: Str)
    requires a <= |vs|
    requires x in OrderFrom([], vs[..a]) && x !in OrderFrom([], vs)
    requires forall m :: a <= m < |vs| ==> x in vs[m].folded
    ensures exists m :: a <= m < |vs| && |LaterThan(Ever(vs[..m + 1]), x) - vs[m].folded| > SEEN_LIMIT
    decreases |vs|
  {
    hide OrderFrom;
    hide LaterThan;
    assert vs[..|vs|] == vs;
    if a < |vs| {
      var init, v := vs[..|vs| - 1], vs[|vs| - 1];
      assert vs == init + [v];
      if x in OrderFrom([], init) {
        DroppedPastTheLimit(init, v, x);
        assert vs[..|vs| - 1 + 1] == vs;
      } else {
        assert init[..a] == vs[..a];
        FoundAgainPastTheLimit(init, a, x);
        var m :| a <= m < |init| && |LaterThan(Ever(init[..m + 1]), x) - init[m].folded| > SEEN_LIMIT;
        assert init[..m + 1] == vs[..m + 1] && init[m] == vs[m];
      }
    }
  }

  // ------------------------------------------------------------------ forgotten while folded

  function Ids(vs: seq<Visit>): (ids: seq<Str>)
    ensures |ids| == |vs| && forall i :: 0 <= i < |vs| ==> ids[i] == vs[i].id
  {
    seq(|vs|, i requires 0 <= i < |vs| => vs[i].id)
  }

  /** Visits to distinct ids within the limit are all remembered, in order. */
  lemma {:induction false} FreshVisits(vs: seq<Visit>)
    requires NoRepeats(Ids(vs)) && forall i :: 0 <= i < |vs| ==> |vs| <= SEEN_LIMIT + |vs[i].folded|
    ensures OrderFrom([], vs) == Ids(vs)
  {
    if vs != [] {
      var init, v := vs[..|vs| - 1], vs[|vs| - 1];
      assert forall i :: 0 <= i < |init| ==> Ids(init)[i] == Ids(vs)[i];
      FreshVisits(init);
      assert Ids(vs) == Ids(init) + [v.id];
      assert Ids(vs)[|init|] == v.id;
    }
  }

  /** One ingest of distinct alerts, oldest last, into an empty set remembers them all. */
  lemma FirstIngest(alerts: seq<Str>)
    requires NoRepeats(alerts)
    ensures OrderFrom([], VisitsOf(alerts)) == Ids(VisitsOf(alerts))
  {
    hide Elements;
    var vs := VisitsOf(alerts);
    CountDistinct(alerts);
    assert NoRepeats(Ids(vs)) by {
      forall i, j | 0 <= i < j < |vs| ensures Ids(vs)[i] != Ids(vs)[j] {
        assert alerts[|alerts| - 1 - j] != alerts[|alerts| - 1 - i];
      }
    }
    FreshVisits(vs);
  }

  /** The two visits of an ingest of a new alert and an old one. */
  lemma TwoVisits(order: seq<Str>, z: Str, x: Str)
    requires z != x
    ensures VisitsOf([z, x]) == [Visit(x, {z, x}), Visit(z, {z, x})]
    ensures var first := Remember(order, x, 2);
            OrderFrom(order, VisitsOf([z, x])) == Remember(first, z, 2)
            && Found(order, VisitsOf([z, x]))
               == (if x in order then [] else [x]) + (if z in first then [] else [z])
  {
    hide Remember;
    assert Elements([z, x]) == {z, x};
    assert |{z, x}| == 2;
    var vs := VisitsOf([z, x]);
    assert vs[..1] == [vs[0]] && vs[..1][..0] == [];
    assert vs == [Visit(x, {z, x}), Visit(z, {z, x})];
    assert OrderFrom(order, vs[..1][..0]) == order;
    assert OrderFrom(order, vs[..1]) == Remember(order, x, 2);
    assert Found(order, vs[..1]) == if x in order then [] else [x];
  }

  /** The order after a full fold shrinks to two: the oldest id, still folded, has gone. */
  lemma ShrunkOrder(order: seq<Str>, z: Str)
    requires NoRepeats(order) && |order| >= SEEN_LIMIT + 2 && z !in order
    ensures var next := Remember(order, z, 2);
            order[0] !in next && |next| == SEEN_LIMIT + 2 && next[|next| - 1] == z
  {
    DroppedIff(order, z, 2, 0);
  }

  /** An ingest of more than the limit, then one in which only its oldest alert is still folded
      beside a new one: that alert is no longer remembered, and the next ingest reports it again. */
  lemma FoldedYetForgotten(ys: seq<Str>, x: Str, z: Str)
    requires NoRepeats(ys + [x]) && z !in ys + [x] && |ys| > SEEN_LIMIT
    ensures var vs := VisitsOf(ys + [x]) + VisitsOf([z, x]);
            x in Elements([z, x]) && x !in OrderFrom([], vs)
            && Found(OrderFrom([], vs), VisitsOf([z, x])) == [x]
  {
    hide Remember;
    hide OrderFrom;
    hide Found;
    var alerts := ys + [x];
    var order := Ids(VisitsOf(alerts));
    FirstIngest(alerts);
    OrderEndsEver(VisitsOf(alerts));
    assert order[0] == alerts[|alerts| - 1] == x;
    assert forall i :: 0 <= i < |order| ==> order[i] == alerts[|alerts| - 1 - i];
    VisitsCompose([], VisitsOf(alerts), VisitsOf([z, x]));
    TwoVisits(order, z, x);
    KnownStays(order, x);
    ShrunkOrder(order, z);
    var next := Remember(order, z, 2);
    TwoVisits(next, z, x);
    LastStays(next, x, z);
    assert [z, x][1] == x;
  }

  lemma KnownStays(order: seq<Str>, x: Str)
    requires x in order
    ensures Remember(order, x, 2) == order
  {
  }

  lemma LastStays(order: seq<Str>, x: Str, z: Str)
    requires order != [] && order[|order| - 1] == z
    ensures z in Remember(order, x, 2)
  {
    if x !in order {
      var r := Newest(order + [x], SEEN_LIMIT + 2);
      assert r[|r| - 2] == z;
    }
  }

  // ---------------------------------------------------------------------- leaving in order

  /** At this visit, of the ids remembered so far exactly those from position `cut` are folded. */
  predicate FoldedFrom(ever: seq<Str>, folded: set<Str>, cut: nat) {
    forall i :: 0 <= i < |ever| ==> (ever[i] in folded <==> i >= cut)
  }

  /** Ids leave the fold in the order they were first seen, and for good. */
  ghost predicate LeaveInOrder(vs: seq<Visit>, cuts: seq<nat>) {
    && |cuts| == |vs|
    && (forall i, j :: 0 <= i < j < |cuts| ==> cuts[i] <= cuts[j])
    && forall m :: 0 <= m < |vs| ==> cuts[m] <= |Ever(vs[..m])| && FoldedFrom(Ever(vs[..m]), vs[m].folded, cuts[m])
  }

  lemma EndHolds(order: seq<Str>, ever: seq<Str>)
    requires IsEndOf(order, ever)
    ensures forall i :: |ever| - |order| <= i < |ever| ==> ever[i] in order
  {
    forall i | |ever| - |order| <= i < |ever| ensures ever[i] in order {
      assert order[i - (|ever| - |order|)] == ever[i];
    }
  }

  /** One visit while ids leave in order. */
  lemma InOrderStep(ever: seq<Str>, order: seq<Str>, v: Visit, cut: nat)
    requires NoRepeats(ever) && IsEndOf(order, ever) && |order| >= |ever| - cut && cut <= |ever|
    requires FoldedFrom(ever, v.folded, cut) && v.id in v.folded
    ensures v.id !in order ==> NoRepeats(ever + [v.id])
    ensures |Remember(order, v.id, |v.folded|)| >= |ever| + (if v.id in order then 0 else 1) - cut
  {
    hide Elements;
    if v.id !in order {
      EndHolds(order, ever);
      Appended(ever, v.id);
      FoldedTail(ever + [v.id], v.folded, cut);
    }
  }

  lemma LeftInOrderBefore(vs: seq<Visit>, cuts: seq<nat>)
    requires LeaveInOrder(vs, cuts) && vs != []
    ensures (var init, before, cut := vs[..|vs| - 1], cuts[..|cuts| - 1], cuts[|cuts| - 1];
             LeaveInOrder(init, before) && (before != [] ==> before[|before| - 1] <= cut)
             && cut <= |Ever(init)| && FoldedFrom(Ever(init), vs[|vs| - 1].folded, cut))
  {
    hide Ever;
    hide FoldedFrom;
    var init := vs[..|vs| - 1];
    assert forall m :: 0 <= m < |init| ==> init[..m] == vs[..m] && init[m] == vs[m];
    assert vs[..|init|] == init;
  }

  /** Then no id is ever reported twice. */
  lemma {:induction false} InOrderNeverTwice(vs: seq<Visit>, cuts: seq<nat>)
    requires |cuts| == |vs| && WellVisited(vs) && LeaveInOrder(vs, cuts)
    ensures NoRepeats(Ever(vs))
    ensures vs != [] ==> |OrderFrom([], vs)| >= |Ever(vs)| - cuts[|cuts| - 1]
    decreases |vs|
  {
    hide IsEndOf;
    hide Remember;
    hide NoRepeats;
    hide FoldedFrom;
    hide LeaveInOrder;
    if vs == [] {
      NoneRepeats();
    } else {
      var init, v, cut := vs[..|vs| - 1], vs[|vs| - 1], cuts[|cuts| - 1];
      LeftInOrderBefore(vs, cuts);
      InOrderNeverTwice(init, cuts[..|cuts| - 1]);
      OrderEndsEver(init);
      InOrderStep(Ever(init), OrderFrom([], init), v, cut);
      assert v.id in OrderFrom([], init) ==> Ever(vs) == Ever(init);
    }
  }

  lemma NothingEnds()
    ensures IsEndOf([], [])
  {
  }

  lemma NoneRepeats()
    ensures NoRepeats([])
  {
  }

  lemma FoldedTail(ever: seq<Str>, folded: set<Str>, cut: nat)
    requires NoRepeats(ever) && cut <= |ever| && forall i :: cut <= i < |ever| ==> ever[i] in folded
    ensures |ever| - cut <= |folded|
  {
    var tail := ever[cut..];
    CountDistinct(tail);
    CardMonotone(Elements(tail), folded);
  }
}
