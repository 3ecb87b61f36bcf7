/** `diffSorted`: the delta by a merge join of old artifact lines against the new keys. */
module MergeJoin {
  import opened Text
  import opened Sorting
  import opened LineOrder
  import opened Delta

  datatype Entry = Entry(key: Str, spec: Str)
  datatype Maybe = Nothing | Just(entry: Entry)

  /** One artifact line: blank and `#` lines and lines without a tab are passed over, and the
      last tab parts key from spec. */
  function ParseEntry(line: Str): Maybe {
    if line == [] || line[0] == HASH then Nothing
    else
      var t := LastIndexOf(line, TAB);
      if t < 0 then Nothing else Just(Entry(line[..t], line[t + 1..]))
  }

  function OneEntry(line: Str): seq<Entry> {
    if ParseEntry(line).Just? then [ParseEntry(line).entry] else []
  }

  function Entries(lines: seq<Str>): seq<Entry> {
    if lines == [] then []
    else
      Entries(lines[..|lines| - 1]) + OneEntry(lines[|lines| - 1])
  }

  lemma {:induction false} EntriesConcat(a: seq<Str>, b: seq<Str>)
    ensures Entries(a + b) == Entries(a) + Entries(b)
  {
    hide OneEntry;
    if b == [] {
      assert a + b == a;
    } else {
      var all, n := a + b, |b| - 1;
      EntriesConcat(a, b[..n]);
      assert all[..|all| - 1] == a + b[..n] && all[|all| - 1] == b[n];
      assert Entries(a) + (Entries(b[..n]) + OneEntry(b[n])) == Entries(a) + Entries(b[..n]) + OneEntry(b[n]);
    }
  }

  function EntryKeys(es: seq<Entry>): (keys: seq<Str>)
    ensures |keys| == |es|
  {
    seq(|es|, i requires 0 <= i < |es| => es[i].key)
  }

  /** The index of a list of entries, later ones winning. */
  function IndexFrom(es: seq<Entry>): Index {
    if es == [] then map[] else IndexFrom(es[..|es| - 1])[es[|es| - 1].key := es[|es| - 1].spec]
  }

  function ParseIndex(lines: seq<Str>): Index {
    IndexFrom(Entries(lines))
  }

  predicate Unique(es: seq<Entry>) {
    forall i, j :: 0 <= i < j < |es| ==> es[i].key != es[j].key
  }

  lemma {:induction false} IndexFromUnique(es: seq<Entry>)
    requires Unique(es)
    ensures IndexFrom(es).Keys == set e | e in es :: e.key
    ensures forall e :: e in es ==> e.key in IndexFrom(es) && IndexFrom(es)[e.key] == e.spec
  {
    if es != [] {
      var init, last := es[..|es| - 1], es[|es| - 1];
      InitUnique(es);
      hide Unique;
      IndexFromUnique(init);
      EntrySetSnoc(init, last);
    }
  }

  lemma InitUnique(es: seq<Entry>)
    requires Unique(es) && es != []
    ensures Unique(es[..|es| - 1]) && es == es[..|es| - 1] + [es[|es| - 1]]
    ensures forall e :: e in es[..|es| - 1] ==> e.key != es[|es| - 1].key
  {
  }

  lemma EntrySetSnoc(init: seq<Entry>, last: Entry)
    ensures (set e | e in init + [last] :: e.key) == (set e | e in init :: e.key) + {last.key}
    ensures forall e :: e in init + [last] <==> e in init || e == last
  {
    assert (init + [last])[|init|] == last;
    assert forall i :: 0 <= i < |init| ==> (init + [last])[i] == init[i];
  }

  lemma SortedIsUnique(es: seq<Entry>)
    requires SortedBy(Before, EntryKeys(es))
    ensures Unique(es)
  {
    BeforeIsStrictOrder();
    forall i, j | 0 <= i < j < |es| ensures es[i].key != es[j].key {
      assert Before(EntryKeys(es)[i], EntryKeys(es)[j]);
    }
  }

  lemma IndexFromSorted(es: seq<Entry>)
    requires SortedBy(Before, EntryKeys(es))
    ensures IndexFrom(es).Keys == Elements(EntryKeys(es))
    ensures forall i :: 0 <= i < |es| ==> es[i].key in IndexFrom(es) && IndexFrom(es)[es[i].key] == es[i].spec
  {
    hide IndexFrom;
    hide SortedBy;
    hide Before;
    SortedIsUnique(es);
    IndexFromUnique(es);
    EntrySetKeys(es);
    assert forall i :: 0 <= i < |es| ==> es[i] in es;
  }

  lemma EntrySetKeys(es: seq<Entry>)
    ensures (set e | e in es :: e.key) == Elements(EntryKeys(es))
  {
    var keys := EntryKeys(es);
    forall k ensures k in Elements(keys) <==> exists e :: e in es && e.key == k {
      if k in keys {
        var i :| 0 <= i < |keys| && keys[i] == k;
        assert es[i] in es;
      }
      if e :| e in es && e.key == k {
        var i :| 0 <= i < |es| && es[i] == e;
        assert keys[i] == k;
      }
    }
  }

  // ---------------------------------------------------------------------- the merge's state

  /** `ops` says everything, in order, about the keys already passed. */
  ghost predicate Merged(old_: Index, new_: Index, done: set<Str>, ops: seq<Op>) {
    && SortedOps(ops)
    && (forall o :: o in ops ==> o.key in done && Changed(old_, new_, o.key) && o == Change(new_, o.key))
    && (forall k :: k in done && Changed(old_, new_, k) ==> Change(new_, k) in ops)
  }

  lemma PassKey(old_: Index, new_: Index, done: set<Str>, ops: seq<Op>, k: Str) returns (ops': seq<Op>)
    requires Merged(old_, new_, done, ops)
    requires forall d :: d in done ==> Before(d, k)
    ensures ops' == if Changed(old_, new_, k) then ops + [Change(new_, k)] else ops
    ensures Merged(old_, new_, done + {k}, ops')
  {
    ops' := ops;
    if Changed(old_, new_, k) {
      ops' := ops + [Change(new_, k)];
      assert KeysOf(ops') == KeysOf(ops) + [k];
      assert forall i :: 0 <= i < |ops| ==> ops[i] in ops && KeysOf(ops)[i] == ops[i].key;
    }
  }

  lemma MergedAll(old_: Index, new_: Index, done: set<Str>, ops: seq<Op>)
    requires Merged(old_, new_, done, ops)
    requires old_.Keys + new_.Keys <= done
    ensures ops == Diff(old_, new_)
  {
    SortedOpsDistinct(ops);
    EffectFromMembers(ops, Changes(old_, new_));
    SortedOpsUnique(ops);
  }

  /** Every passed key sorts before everything still ahead. */
  ghost predicate Ahead(done: set<Str>, keys: seq<Str>, from: nat) {
    forall d, q :: d in done && from <= q < |keys| ==> Before(d, keys[q])
  }

  ghost predicate Behind(done: set<Str>, keys: seq<Str>, upto: nat) {
    forall q :: 0 <= q < upto && q < |keys| ==> keys[q] in done
  }

  /** The merge between two steps: `j` new keys and `n` old entries behind it. */
  ghost predicate Midway(old_: Index, new_: Index, keys: seq<Str>, newKeys: seq<Str>,
                         n: nat, j: nat, done: set<Str>, ops: seq<Op>) {
    && n <= |keys| && j <= |newKeys|
    && Merged(old_, new_, done, ops)
    && Ahead(done, newKeys, j) && Behind(done, newKeys, j)
    && Ahead(done, keys, n) && Behind(done, keys, n)
  }

  ghost predicate Inputs(old_: Index, new_: Index, keys: seq<Str>, newKeys: seq<Str>) {
    && SortedBy(Before, keys) && Elements(keys) == old_.Keys
    && SortedBy(Before, newKeys) && Elements(newKeys) == new_.Keys
  }

  /** Passing the key `s[i]` keeps it behind and the rest ahead. */
  lemma PassHead(done: set<Str>, s: seq<Str>, i: nat)
    requires i < |s| && SortedBy(Before, s) && Ahead(done, s, i) && Behind(done, s, i)
    ensures Ahead(done + {s[i]}, s, i + 1) && Behind(done + {s[i]}, s, i + 1)
  {
  }

  /** Passing a key that sorts before `s[i]` and is not in `s`. */
  lemma PassOther(done: set<Str>, k: Str, s: seq<Str>, i: nat)
    requires SortedBy(Before, s) && Ahead(done, s, i) && Behind(done, s, i) && i <= |s|
    requires forall d :: d in done ==> Before(d, k)
    requires i < |s| ==> Before(k, s[i])
    ensures Ahead(done + {k}, s, i) && Behind(done + {k}, s, i)
    ensures k !in s
  {
    BeforeIsStrictOrder();
    forall q | 0 <= q < |s| ensures s[q] != k {
      if q < i {
        assert s[q] in done;
      } else {
        assert q == i || Before(s[i], s[q]);
      }
    }
  }

  /** A new key sorting before the next old one is an insertion. */
  lemma TakeNew(old_: Index, new_: Index, keys: seq<Str>, newKeys: seq<Str>,
                n: nat, j: nat, done: set<Str>, ops: seq<Op>)
    requires Inputs(old_, new_, keys, newKeys) && Midway(old_, new_, keys, newKeys, n, j, done, ops)
    requires j < |newKeys| && (n < |keys| ==> Before(newKeys[j], keys[n]))
    ensures newKeys[j] in new_
    ensures Midway(old_, new_, keys, newKeys, n, j + 1, done + {newKeys[j]},
                   ops + [Put(newKeys[j], new_[newKeys[j]])])
  {
    var k := newKeys[j];
    assert k in Elements(newKeys);
    PassHead(done, newKeys, j);
    PassOther(done, k, keys, n);
    assert k !in Elements(keys);
    var after := PassKey(old_, new_, done, ops, k);
  }

  /** An old key with no new counterpart is a removal. */
  lemma TakeOld(old_: Index, new_: Index, keys: seq<Str>, newKeys: seq<Str>,
                n: nat, j: nat, done: set<Str>, ops: seq<Op>)
    requires Inputs(old_, new_, keys, newKeys) && Midway(old_, new_, keys, newKeys, n, j, done, ops)
    requires n < |keys| && (j < |newKeys| ==> Before(keys[n], newKeys[j]))
    ensures Midway(old_, new_, keys, newKeys, n + 1, j, done + {keys[n]}, ops + [Del(keys[n])])
  {
    var k := keys[n];
    assert k in Elements(keys);
    PassHead(done, keys, n);
    PassOther(done, k, newKeys, j);
    assert k !in Elements(newKeys);
    var after := PassKey(old_, new_, done, ops, k);
  }

  /** A key on both sides is an op only when its spec moved. */
  lemma TakeBoth(old_: Index, new_: Index, keys: seq<Str>, newKeys: seq<Str>,
                 n: nat, j: nat, done: set<Str>, ops: seq<Op>)
    requires Inputs(old_, new_, keys, newKeys) && Midway(old_, new_, keys, newKeys, n, j, done, ops)
    requires n < |keys| && j < |newKeys| && keys[n] == newKeys[j]
    ensures keys[n] in old_ && keys[n] in new_
    ensures Midway(old_, new_, keys, newKeys, n + 1, j + 1, done + {keys[n]},
                   if old_[keys[n]] == new_[keys[n]] then ops else ops + [Put(keys[n], new_[keys[n]])])
  {
    var k := keys[n];
    assert k in Elements(keys) && k in Elements(newKeys);
    PassHead(done, keys, n);
    PassHead(done, newKeys, j);
    var after := PassKey(old_, new_, done, ops, k);
  }

  /** `n` entries come from the first `i` lines. */
  ghost predicate Read(lines: seq<Str>, i: nat, n: nat) {
    i <= |lines| && n <= |Entries(lines)| && Entries(lines)[..n] == Entries(lines[..i])
  }

  /** Reading one more line either passes it over or reads the next entry. */
  lemma NextEntry(lines: seq<Str>, i: nat, n: nat)
    requires i < |lines| && Read(lines, i, n)
    requires SortedBy(Before, EntryKeys(Entries(lines)))
    ensures var p := ParseEntry(lines[i]);
            if p.Nothing? then Read(lines, i + 1, n)
            else Read(lines, i + 1, n + 1) && n < |EntryKeys(Entries(lines))|
                 && EntryKeys(Entries(lines))[n] == p.entry.key
                 && p.entry.key in ParseIndex(lines) && ParseIndex(lines)[p.entry.key] == p.entry.spec
  {
    hide SortedBy;
    hide Before;
    hide IndexFrom;
    hide ParseEntry;
    assert lines[..i + 1][..i] == lines[..i];
    assert lines == lines[..i + 1] + lines[i + 1..];
    EntriesConcat(lines[..i + 1], lines[i + 1..]);
    IndexFromSorted(Entries(lines));
    var upto := Entries(lines[..i + 1]);
    assert upto == Entries(lines[..i]) + OneEntry(lines[i]);
    hide Entries;
    assert Entries(lines)[..|upto|] == upto;
    if ParseEntry(lines[i]).Just? {
      assert Entries(lines)[n] == ParseEntry(lines[i]).entry;
    }
  }

  lemma ReadNone(lines: seq<Str>)
    ensures Read(lines, 0, 0)
  {
    assert lines[..0] == [];
  }

  lemma ReadAll(lines: seq<Str>, n: nat)
    requires Read(lines, |lines|, n)
    ensures n == |Entries(lines)|
  {
    assert lines[..|lines|] == lines;
  }

  lemma Start(old_: Index, new_: Index, es: seq<Entry>, newKeys: seq<Str>)
    requires newKeys == SortedKeys(new_.Keys) && old_ == IndexFrom(es)
    requires SortedBy(Before, EntryKeys(es))
    ensures Inputs(old_, new_, EntryKeys(es), newKeys)
    ensures Midway(old_, new_, EntryKeys(es), newKeys, 0, 0, {}, [])
  {
    SortedKeysInOrder(new_.Keys);
    IndexFromSorted(es);
  }

  lemma Finish(old_: Index, new_: Index, keys: seq<Str>, newKeys: seq<Str>, done: set<Str>, ops: seq<Op>)
    requires Inputs(old_, new_, keys, newKeys)
    requires Midway(old_, new_, keys, newKeys, |keys|, |newKeys|, done, ops)
    ensures ops == Diff(old_, new_)
  {
    AllPassed(done, keys);
    AllPassed(done, newKeys);
    MergedAll(old_, new_, done, ops);
  }

  /** Emit every new key that sorts before `key`, or every one left when `bounded` is false. */
  method EmitBefore(newKeys: seq<Str>, newIndex: Index, bounded: bool, key: Str, ops0: seq<Op>, j0: nat,
                    ghost old_: Index, ghost keys: seq<Str>, ghost n: nat, ghost done0: set<Str>)
    returns (ops: seq<Op>, j: nat, ghost done: set<Str>)
    requires Inputs(old_, newIndex, keys, newKeys) && Midway(old_, newIndex, keys, newKeys, n, j0, done0, ops0)
    requires if bounded then n < |keys| && keys[n] == key else n == |keys|
    ensures Midway(old_, newIndex, keys, newKeys, n, j, done, ops)
    ensures j == |newKeys| || (bounded && CmpLineKeys(newKeys[j], key) >= 0)
  {
    ops, j, done := ops0, j0, done0;
    while j < |newKeys| && (!bounded || CmpLineKeys(newKeys[j], key) < 0)
      invariant Midway(old_, newIndex, keys, newKeys, n, j, done, ops)
    {
      TakeNew(old_, newIndex, keys, newKeys, n, j, done, ops);
      var k := newKeys[j];
      ops := ops + [Put(k, newIndex[k])];
      done := done + {k};
      j := j + 1;
    }
  }

  /** The body of the merge loop: one old entry against the new keys. */
  method MergeEntry(newKeys: seq<Str>, newIndex: Index, key: Str, spec: Str, ops0: seq<Op>, j0: nat,
                    ghost old_: Index, ghost keys: seq<Str>, ghost n: nat, ghost done0: set<Str>)
    returns (ops: seq<Op>, j: nat, ghost done: set<Str>)
    requires Inputs(old_, newIndex, keys, newKeys) && Midway(old_, newIndex, keys, newKeys, n, j0, done0, ops0)
    requires n < |keys| && keys[n] == key && key in old_ && old_[key] == spec
    ensures Midway(old_, newIndex, keys, newKeys, n + 1, j, done, ops)
  {
    ops, j, done := EmitBefore(newKeys, newIndex, true, key, ops0, j0, old_, keys, n, done0);
    if j < |newKeys| && newKeys[j] == key {
      TakeBoth(old_, newIndex, keys, newKeys, n, j, done, ops);
      var newSpec := newIndex[key];
      if newSpec != spec {
        ops := ops + [Put(key, newSpec)];
      }
      j := j + 1;
    } else {
      if j < |newKeys| { LineKeysTotal(newKeys[j], key); }
      TakeOld(old_, newIndex, keys, newKeys, n, j, done, ops);
      ops := ops + [Del(key)];
    }
    done := done + {key};
  }

  method DiffSorted(oldLines: seq<Str>, newKeys: seq<Str>, newIndex: Index) returns (ops: seq<Op>)
    requires newKeys == SortedKeys(newIndex.Keys)
    requires SortedBy(Before, EntryKeys(Entries(oldLines)))
    ensures ops == Diff(ParseIndex(oldLines), newIndex)
  {
    hide Midway;
    hide Read;
    hide Entries;
    hide IndexFrom;
    hide EntryKeys;
    hide Diff;
    hide LastIndexOf;
    hide SortedBy;
    hide Before;
    hide SortedKeys;
    ReadNone(oldLines);
    ghost var keys := EntryKeys(Entries(oldLines));
    ghost var old_ := ParseIndex(oldLines);
    ghost var done: set<Str>, n: nat := {}, 0;
    Start(old_, newIndex, Entries(oldLines), newKeys);
    ops := [];
    var j: nat := 0;
    for i := 0 to |oldLines|
      invariant Read(oldLines, i, n)
      invariant Midway(old_, newIndex, keys, newKeys, n, j, done, ops)
    {
      var line := oldLines[i];
      NextEntry(oldLines, i, n);
      if line == [] || line[0] == HASH {
        continue;
      }
      var t := LastIndexOf(line, TAB);
      if t < 0 {
        continue;
      }
      ops, j, done := MergeEntry(newKeys, newIndex, line[..t], line[t + 1..], ops, j, old_, keys, n, done);
      n := n + 1;
    }
    ReadAll(oldLines, n);
    ops, j, done := EmitBefore(newKeys, newIndex, false, [], ops, j, old_, keys, n, done);
    Finish(old_, newIndex, keys, newKeys, done, ops);
  }

  lemma AllPassed(done: set<Str>, s: seq<Str>)
    requires Behind(done, s, |s|)
    ensures Elements(s) <= done
  {
  }
}
