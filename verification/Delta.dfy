/** Deltas between package indexes: what a list of ops does, how lists compose, and the two
    ways of computing one. */
module Delta {
  import opened Text
  import opened Sorting
  import opened LineOrder

  /** The package index: key `eco\tname` to spec. */
  type Index = map<Str, Str>

  datatype Op = Put(key: Str, spec: Str) | Del(key: Str)

  function Step(m: Index, o: Op): Index {
    match o
    case Put(k, spec) => m[k := spec]
    case Del(k) => m - {k}
  }

  /** The index after a list of ops, taken in order. */
  function Apply(m: Index, ops: seq<Op>): Index {
    if ops == [] then m else Step(Apply(m, ops[..|ops| - 1]), ops[|ops| - 1])
  }

  /** An index that is changed in place. */
  class PackageIndex {
    var entries: Index

    constructor (entries: Index)
      ensures this.entries == entries
    {
      this.entries := entries;
    }

    /** `applyOps`. */
    method ApplyOps(ops: seq<Op>)
      modifies this
      ensures entries == Apply(old(entries), ops)
    {
      for i := 0 to |ops|
        invariant entries == Apply(old(entries), ops[..i])
      {
        assert ops[..i + 1][..i] == ops[..i];
        match ops[i]
        case Del(k) => entries := entries - {k};
        case Put(k, spec) => entries := entries[k := spec];
      }
      assert ops[..|ops|] == ops;
    }
  }

  // ------------------------------------------------------------------ what ops amount to

  /** The last op of each key. */
  function Effect(ops: seq<Op>): (e: map<Str, Op>)
    ensures Keyed(e)
  {
    if ops == [] then map[]
    else Effect(ops[..|ops| - 1])[ops[|ops| - 1].key := ops[|ops| - 1]]
  }

  predicate Keyed(e: map<Str, Op>) {
    forall k :: k in e ==> e[k].key == k
  }

  /** The index `m` with every key of `e` decided by `e`. */
  function Overlay(m: Index, e: map<Str, Op>): Index {
    map k | k in m.Keys + e.Keys && (k in e ==> e[k].Put?) :: if k in e then e[k].spec else m[k]
  }

  lemma {:induction false} ApplyIsOverlay(m: Index, ops: seq<Op>)
    ensures Apply(m, ops) == Overlay(m, Effect(ops))
  {
    if ops != [] {
      ApplyIsOverlay(m, ops[..|ops| - 1]);
    }
  }

  function KeysOf(ops: seq<Op>): seq<Str> {
    seq(|ops|, i requires 0 <= i < |ops| => ops[i].key)
  }

  predicate DistinctKeys(ops: seq<Op>) {
    forall i, j :: 0 <= i < j < |ops| ==> ops[i].key != ops[j].key
  }

  /** The keys of a delta file are in artifact order, each at most once. */
  ghost predicate SortedOps(ops: seq<Op>) {
    SortedBy(Before, KeysOf(ops))
  }

  lemma SortedOpsDistinct(ops: seq<Op>)
    requires SortedOps(ops)
    ensures DistinctKeys(ops)
  {
    BeforeIsStrictOrder();
    forall i, j | 0 <= i < j < |ops| ensures ops[i].key != ops[j].key {
      assert Before(KeysOf(ops)[i], KeysOf(ops)[j]);
    }
  }

  /** With distinct keys every op counts, and nothing else does. */
  lemma {:induction false} DistinctEffect(ops: seq<Op>)
    requires DistinctKeys(ops)
    ensures forall o :: o in ops <==> o.key in Effect(ops) && Effect(ops)[o.key] == o
  {
    if ops != [] {
      var init, last := ops[..|ops| - 1], ops[|ops| - 1];
      DistinctEffect(init);
      assert ops == init + [last];
      assert forall o :: o in init ==> o.key != last.key;
    }
  }

  ghost predicate Holds(ops: seq<Op>, e: map<Str, Op>) {
    forall o :: o in ops <==> o.key in e && e[o.key] == o
  }

  lemma EffectFromMembers(ops: seq<Op>, e: map<Str, Op>)
    requires DistinctKeys(ops) && Keyed(e) && Holds(ops, e)
    ensures Effect(ops) == e
  {
    DistinctEffect(ops);
    var f := Effect(ops);
    forall k | k in e ensures k in f && f[k] == e[k] {
      assert e[k] in ops;
    }
    forall k | k in f ensures k in e {
      assert f[k] in ops;
    }
  }

  ghost function Listed(e: map<Str, Op>, ks: seq<Str>): (ops: seq<Op>)
    requires Keyed(e) && Elements(ks) == e.Keys
    ensures KeysOf(ops) == ks
    ensures Holds(ops, e)
  {
    assert forall i :: 0 <= i < |ks| ==> ks[i] in Elements(ks);
    var ops := seq(|ks|, i requires 0 <= i < |ks| => e[ks[i]]);
    assert KeysOf(ops) == ks;
    forall o: Op | o.key in e && e[o.key] == o ensures o in ops {
      assert o.key in Elements(ks);
      var i :| 0 <= i < |ks| && ks[i] == o.key;
      assert ops[i] == o;
    }
    ops
  }

  /** The ops of a map of last ops, in artifact order: `sortOps([...m.values()])`. */
  ghost function OpsOf(e: map<Str, Op>): (ops: seq<Op>)
    requires Keyed(e)
  {
    Listed(e, SortedKeys(e.Keys))
  }

  lemma OpsOfSorted(e: map<Str, Op>)
    requires Keyed(e)
    ensures SortedOps(OpsOf(e)) && DistinctKeys(OpsOf(e)) && Effect(OpsOf(e)) == e
  {
    SortedKeysInOrder(e.Keys);
    SortedOpsDistinct(OpsOf(e));
    EffectFromMembers(OpsOf(e), e);
  }

  /** A sorted list of ops is the one list with that effect. */
  lemma SortedOpsUnique(ops: seq<Op>)
    requires SortedOps(ops)
    ensures ops == OpsOf(Effect(ops))
  {
    var e := Effect(ops);
    var other := OpsOf(e);
    OpsOfSorted(e);
    SortedOpsDistinct(ops);
    DistinctEffect(ops);
    DistinctEffect(other);
    KeysAreEffectKeys(ops);
    KeysAreEffectKeys(other);
    BeforeIsStrictOrder();
    SortedUnique(Before, KeysOf(ops), KeysOf(other));
    forall i | 0 <= i < |ops| ensures ops[i] == other[i] {
      assert KeysOf(ops)[i] == KeysOf(other)[i];
      assert ops[i] in ops && other[i] in other;
    }
  }

  lemma KeysAreEffectKeys(ops: seq<Op>)
    requires DistinctKeys(ops)
    ensures Elements(KeysOf(ops)) == Effect(ops).Keys
  {
    DistinctEffect(ops);
    forall k ensures k in Elements(KeysOf(ops)) <==> k in Effect(ops) {
      if k in Elements(KeysOf(ops)) {
        var i :| 0 <= i < |ops| && KeysOf(ops)[i] == k;
        assert ops[i] in ops;
      }
      if k in Effect(ops) {
        var i :| 0 <= i < |ops| && ops[i] == Effect(ops)[k];
        assert KeysOf(ops)[i] == k;
      }
    }
  }

  // ------------------------------------------------------------------------- composition

  /** `composeOps`: later ops win, sorted. */
  ghost function Compose(a: seq<Op>, b: seq<Op>): seq<Op> {
    OpsOf(Effect(a) + Effect(b))
  }

  method ComposeOps(a: seq<Op>, b: seq<Op>) returns (ops: seq<Op>)
    ensures ops == Compose(a, b)
  {
    var m: map<Str, Op> := map[];
    for i := 0 to |a|
      invariant m == Effect(a[..i])
    {
      assert a[..i + 1][..i] == a[..i];
      m := m[a[i].key := a[i]];
    }
    assert a[..|a|] == a;
    for i := 0 to |b|
      invariant m == Effect(a) + Effect(b[..i])
    {
      assert b[..i + 1][..i] == b[..i];
      m := m[b[i].key := b[i]];
    }
    assert b[..|b|] == b;
    ops := SortValues(m);
  }

  method SortValues(m: map<Str, Op>) returns (ops: seq<Op>)
    requires Keyed(m)
    ensures ops == OpsOf(m)
  {
    SortedKeysInOrder(m.Keys);
    var ks := SortSet(Before, m.Keys);
    assert forall i :: 0 <= i < |ks| ==> ks[i] in Elements(ks);
    ops := seq(|ks|, i requires 0 <= i < |ks| => m[ks[i]]);
  }

  /** Applying a composed delta is applying the two deltas in turn, even when either list
      repeats a key. */
  lemma ComposeHomomorphism(m: Index, a: seq<Op>, b: seq<Op>)
    ensures Apply(m, Compose(a, b)) == Apply(Apply(m, a), b)
  {
    OpsOfSorted(Effect(a) + Effect(b));
    ApplyIsOverlay(m, Compose(a, b));
    ApplyIsOverlay(m, a);
    ApplyIsOverlay(Apply(m, a), b);
    OverlayTwice(m, Effect(a), Effect(b));
  }

  lemma OverlayTwice(m: Index, e: map<Str, Op>, f: map<Str, Op>)
    ensures Overlay(Overlay(m, e), f) == Overlay(m, e + f)
  {
  }

  /** Composition is associative, list for list. */
  lemma ComposeAssociative(a: seq<Op>, b: seq<Op>, c: seq<Op>)
    ensures Compose(Compose(a, b), c) == Compose(a, Compose(b, c))
  {
    hide OpsOf;
    hide SortedOps;
    hide DistinctKeys;
    hide Effect;
    hide Keyed;
    var x, y, z := Effect(a), Effect(b), Effect(c);
    KeyedSum(x, y);
    KeyedSum(y, z);
    OpsOfSorted(x + y);
    OpsOfSorted(y + z);
    assert x + y + z == x + (y + z);
  }

  lemma KeyedSum(e: map<Str, Op>, f: map<Str, Op>)
    requires Keyed(e) && Keyed(f)
    ensures Keyed(e + f)
  {
  }

  /** A list with distinct keys may be applied in any order, and again, with the same result;
      every composed list is one. */
  lemma AnyOrderAnyTimes(m: Index, ops: seq<Op>, shuffled: seq<Op>)
    requires DistinctKeys(ops) && multiset(shuffled) == multiset(ops)
    ensures Apply(m, shuffled) == Apply(m, ops)
    ensures Apply(Apply(m, ops), shuffled) == Apply(m, ops)
  {
    DistinctEffect(ops);
    ShuffledDistinct(ops, shuffled);
    SameMembers(ops, shuffled);
    EffectFromMembers(shuffled, Effect(ops));
    ApplyIsOverlay(m, shuffled);
    ApplyIsOverlay(m, ops);
    ApplyIsOverlay(Apply(m, ops), shuffled);
    OverlayTwice(m, Effect(ops), Effect(ops));
    assert Effect(ops) + Effect(ops) == Effect(ops);
  }

  lemma SameMembers(ops: seq<Op>, shuffled: seq<Op>)
    requires multiset(shuffled) == multiset(ops)
    ensures forall o :: o in shuffled <==> o in ops
  {
    assert forall o :: o in shuffled <==> o in multiset(shuffled);
    assert forall o :: o in ops <==> o in multiset(ops);
  }

  lemma ShuffledDistinct(ops: seq<Op>, shuffled: seq<Op>)
    requires DistinctKeys(ops) && multiset(shuffled) == multiset(ops)
    ensures DistinctKeys(shuffled)
  {
    forall i, j | 0 <= i < j < |shuffled| ensures shuffled[i].key != shuffled[j].key {
      var x, y := shuffled[i], shuffled[j];
      if x.key == y.key {
        assert x in multiset(ops) && y in multiset(ops) by {
          assert x in multiset(shuffled) && y in multiset(shuffled);
        }
        assert x == y;
        TwiceInMultiset(shuffled, i, j);
        OnceInMultiset(ops, x);
      }
    }
  }

  lemma TwiceInMultiset<T>(s: seq<T>, i: nat, j: nat)
    requires i < j < |s| && s[i] == s[j]
    ensures multiset(s)[s[i]] >= 2
  {
    assert s == s[..i] + [s[i]] + s[i + 1..j] + [s[j]] + s[j + 1..];
  }

  lemma {:induction false} OnceInMultiset(ops: seq<Op>, o: Op)
    requires DistinctKeys(ops)
    ensures multiset(ops)[o] <= 1
  {
    if ops != [] {
      assert ops == ops[..|ops| - 1] + [ops[|ops| - 1]];
      OnceInMultiset(ops[..|ops| - 1], o);
      if ops[|ops| - 1] == o {
        assert o !in ops[..|ops| - 1];
      }
    }
  }

  // ----------------------------------------------------------------------------- diffing

  predicate Changed(old_: Index, new_: Index, k: Str) {
    (k in old_) != (k in new_) || (k in old_ && k in new_ && old_[k] != new_[k])
  }

  /** The one op that brings key `k` to its new state. */
  function Change(new_: Index, k: Str): Op {
    if k in new_ then Put(k, new_[k]) else Del(k)
  }

  /** The changes among some keys. */
  function ChangesIn(old_: Index, new_: Index, keys: set<Str>): (e: map<Str, Op>)
    ensures Keyed(e)
  {
    map k | k in keys && Changed(old_, new_, k) :: Change(new_, k)
  }

  function Changes(old_: Index, new_: Index): (e: map<Str, Op>)
    ensures Keyed(e)
  {
    ChangesIn(old_, new_, old_.Keys + new_.Keys)
  }

  /** The delta between two indexes. */
  ghost function Diff(old_: Index, new_: Index): seq<Op> {
    OpsOf(Changes(old_, new_))
  }

  /** A delta brings the old index to the new one, in strictly increasing key order, and
      touches exactly the keys whose spec differs. */
  lemma DiffCorrect(old_: Index, new_: Index)
    ensures Apply(old_, Diff(old_, new_)) == new_
    ensures SortedOps(Diff(old_, new_))
    ensures forall k :: (exists o :: o in Diff(old_, new_) && o.key == k) <==> Changed(old_, new_, k)
    ensures Diff(old_, new_) == [] <==> old_ == new_
  {
    var ops := Diff(old_, new_);
    OpsOfSorted(Changes(old_, new_));
    ApplyIsOverlay(old_, ops);
    OverlayChanges(old_, new_);
    DistinctEffect(ops);
    forall k | Changed(old_, new_, k) ensures exists o :: o in ops && o.key == k {
      assert Changes(old_, new_)[k] in ops;
    }
    assert ops != [] ==> ops[0] in ops;
  }

  lemma OverlayChanges(old_: Index, new_: Index)
    ensures Overlay(old_, Changes(old_, new_)) == new_
  {
  }

  lemma OneMoreChange(old_: Index, new_: Index, keys: set<Str>, k: Str)
    ensures ChangesIn(old_, new_, keys + {k})
         == if Changed(old_, new_, k) then ChangesIn(old_, new_, keys)[k := Change(new_, k)]
            else ChangesIn(old_, new_, keys)
  {
  }

  lemma NoChangesIn(old_: Index, new_: Index)
    ensures ChangesIn(old_, new_, {}) == map[]
  {
  }

  /** `diffIndexes`, over two indexes in memory. */
  method DiffIndexes(old_: Index, new_: Index) returns (ops: seq<Op>)
    ensures ops == Diff(old_, new_)
  {
    hide ChangesIn;
    NoChangesIn(old_, new_);
    var m: map<Str, Op> := map[];
    var todo := new_.Keys;
    assert new_.Keys - todo == {};
    while todo != {}
      invariant todo <= new_.Keys
      invariant m == ChangesIn(old_, new_, new_.Keys - todo)
    {
      var k :| k in todo;
      OneMoreChange(old_, new_, new_.Keys - todo, k);
      assert new_.Keys - (todo - {k}) == new_.Keys - todo + {k};
      if k !in old_ || old_[k] != new_[k] {
        m := m[k := Put(k, new_[k])];
      }
      todo := todo - {k};
    }
    assert new_.Keys - todo == new_.Keys + (old_.Keys - old_.Keys);
    todo := old_.Keys;
    while todo != {}
      invariant todo <= old_.Keys
      invariant m == ChangesIn(old_, new_, new_.Keys + (old_.Keys - todo))
    {
      var k :| k in todo;
      OneMoreChange(old_, new_, new_.Keys + (old_.Keys - todo), k);
      assert new_.Keys + (old_.Keys - (todo - {k})) == new_.Keys + (old_.Keys - todo) + {k};
      assert k in new_ ==> new_.Keys + (old_.Keys - todo) + {k} == new_.Keys + (old_.Keys - todo);
      if k !in new_ {
        m := m[k := Del(k)];
      }
      todo := todo - {k};
    }
    assert new_.Keys + (old_.Keys - todo) == old_.Keys + new_.Keys;
    ops := SortValues(m);
  }
}
