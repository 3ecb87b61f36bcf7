/** Specs as clause sets: `collapse`, `mergeSpecs`, `foldInto` and the fold of record lines,
    with the closed form that makes the fold independent of order and repetition. */
module Clauses {
  import opened Text
  import opened Sorting
  import opened LineOrder
  import opened Delta
  import opened MergeJoin

  const ANY: Str := [STAR]

  /** The order clauses are joined in: `sort(cmpBytes)`. */
  predicate Earlier(a: Str, b: Str) {
    CmpBytes(a, b) < 0
  }

  lemma EarlierIsStrictOrder()
    ensures StrictOrder(Earlier)
  {
    forall a, b ensures !Earlier(a, a) && (a == b || Earlier(a, b) || Earlier(b, a)) {
      CmpBytesIsCodePointOrder(a, b);
      CmpBytesIsCodePointOrder(b, a);
      LexFlip(CodePoints(a), CodePoints(b));
    }
    forall a, b, c | Earlier(a, b) && Earlier(b, c) ensures Earlier(a, c) {
      CmpBytesIsCodePointOrder(a, b);
      CmpBytesIsCodePointOrder(b, c);
      CmpBytesIsCodePointOrder(a, c);
      LexTransitive(CodePoints(a), CodePoints(b), CodePoints(c));
    }
  }

  ghost function SortedClauses(clauses: set<Str>): (r: seq<Str>)
    ensures Elements(r) == clauses
  {
    EarlierIsStrictOrder();
    Sorted(Earlier, clauses)
  }

  /** The spec a set of clauses collapses to: `*` absorbs everything. */
  ghost function Spec(clauses: set<Str>): Str {
    if ANY in clauses then ANY else Join(SortedClauses(clauses), PIPE)
  }

  /** `collapse`. */
  method Collapse(clauses: seq<Str>) returns (spec: Str)
    ensures spec == Spec(Elements(clauses))
  {
    for i := 0 to |clauses|
      invariant ANY !in clauses[..i]
    {
      if clauses[i] == ANY {
        return ANY;
      }
    }
    assert clauses[..|clauses|] == clauses;
    EarlierIsStrictOrder();
    var sorted := SortSet(Earlier, set c | c in clauses);
    spec := Join(sorted, PIPE);
  }

  /** No clause holds the separator. */
  predicate Separate(clauses: set<Str>) {
    forall c :: c in clauses ==> PIPE !in c
  }

  function Pieces(spec: Str): (p: set<Str>)
    ensures p != {} && Separate(p)
  {
    var parts := Split(spec, PIPE);
    SplitParts(spec, PIPE);
    assert parts[0] in Elements(parts);
    Elements(parts)
  }

  ghost function Merge(a: Str, b: Str): Str {
    if a == ANY || b == ANY then ANY else Spec(Pieces(a) + Pieces(b))
  }

  /** `mergeSpecs`. */
  method MergeSpecs(a: Str, b: Str) returns (spec: Str)
    ensures spec == Merge(a, b)
  {
    if a == ANY || b == ANY {
      return ANY;
    }
    var x, y := Split(a, PIPE), Split(b, PIPE);
    assert Elements(x + y) == Elements(x) + Elements(y);
    spec := Collapse(x + y);
  }

  ghost function FoldStep(index: Index, key: Str, spec: Str): Index {
    if key !in index then index[key := spec]
    else if index[key] == ANY || spec == ANY then index[key := ANY]
    else if index[key] != spec then index[key := Merge(index[key], spec)]
    else index
  }

  /** `foldInto`, on an index that is changed in place. */
  method FoldInto(index: PackageIndex, key: Str, spec: Str)
    modifies index
    ensures index.entries == FoldStep(old(index.entries), key, spec)
  {
    if key !in index.entries {
      index.entries := index.entries[key := spec];
    } else {
      var prev := index.entries[key];
      if prev == ANY || spec == ANY {
        index.entries := index.entries[key := ANY];
      } else if prev != spec {
        var merged := MergeSpecs(prev, spec);
        index.entries := index.entries[key := merged];
      }
    }
  }

  /** The index folded from contributions in order. */
  ghost function Folded(es: seq<Entry>): Index {
    if es == [] then map[]
    else FoldStep(Folded(es[..|es| - 1]), es[|es| - 1].key, es[|es| - 1].spec)
  }

  // ------------------------------------------------------------------------- closed form

  /** The specs contributed to a key. */
  function SpecsOf(es: seq<Entry>, key: Str): set<Str> {
    set e | e in es && e.key == key :: e.spec
  }

  ghost function PiecesOf(specs: set<Str>): set<Str> {
    set s, c | s in specs && c in Pieces(s) :: c
  }

  /** What a key's contributed specs come to: one spec is kept as it is, several are taken
      apart into clauses and collapsed. */
  ghost function Canon(specs: set<Str>): Str
    requires specs != {}
  {
    var s :| s in specs;
    if specs == {s} then s else Spec(PiecesOf(specs))
  }

  /** Splitting a collapsed spec gives its clauses back. */
  lemma PiecesOfSpec(clauses: set<Str>)
    requires clauses != {} && ANY !in clauses
    requires Separate(clauses)
    ensures Pieces(Spec(clauses)) == clauses
    ensures Spec(clauses) != ANY
  {
    var sorted := SortedClauses(clauses);
    assert sorted != [];
    assert forall i :: 0 <= i < |sorted| ==> sorted[i] in Elements(sorted);
    SplitJoin(sorted, PIPE);
    AnyIsOnePiece();
  }

  lemma AnyIsOnePiece()
    ensures Pieces(ANY) == {ANY}
  {
    IndexOfFirst(ANY, PIPE);
    assert Split(ANY, PIPE) == [ANY];
  }

  lemma CanonOne(s: Str)
    ensures Canon({s}) == s
  {
  }

  lemma CanonMany(specs: set<Str>, p: Str, q: Str)
    requires p in specs && q in specs && p != q
    ensures Canon(specs) == Spec(PiecesOf(specs))
  {
  }

  lemma PiecesGrow(specs: set<Str>, s: Str)
    ensures PiecesOf(specs + {s}) == PiecesOf(specs) + Pieces(s)
    ensures Separate(PiecesOf(specs)) && (specs != {} ==> PiecesOf(specs) != {})
    ensures PiecesOf({s}) == Pieces(s)
  {
    hide Pieces;
    if p :| p in specs {
      var c :| c in Pieces(p);
      assert c in PiecesOf(specs);
    }
  }

  /** A second spec joins the first. */
  lemma CanonSecond(p: Str, s: Str)
    requires p != s
    ensures Canon({p} + {s}) == if p == ANY || s == ANY then ANY else Merge(p, s)
  {
    hide Canon;
    hide Pieces;
    hide PiecesOf;
    hide SortedClauses;
    AnyIsOnePiece();
    CanonMany({p} + {s}, p, s);
    PiecesGrow({p}, s);
    PiecesGrow({}, p);
  }

  lemma CanonStep(specs: set<Str>, s: Str)
    requires specs != {}
    ensures Canon(specs + {s})
         == if Canon(specs) == ANY || s == ANY then ANY
            else if Canon(specs) != s then Merge(Canon(specs), s)
            else Canon(specs)
  {
    hide Canon;
    hide Pieces;
    hide PiecesOf;
    hide Spec;
    hide Merge;
    hide Separate;
    var p :| p in specs;
    if specs == {p} {
      CanonOne(p);
      if p != s {
        CanonSecond(p, s);
      } else {
        assert specs + {s} == {p};
      }
    } else {
      var q :| q in specs && q != p;
      CanonMany(specs, p, q);
      CanonMany(specs + {s}, p, q);
      PiecesGrow(specs, s);
      CollapsedStep(PiecesOf(specs), s);
    }
  }

  lemma CollapsedStep(u: set<Str>, s: Str)
    requires u != {} && Separate(u)
    ensures Spec(u + Pieces(s))
         == if Spec(u) == ANY || s == ANY then ANY
            else if Spec(u) != s then Merge(Spec(u), s)
            else Spec(u)
  {
    AnyIsOnePiece();
    if ANY !in u {
      PiecesOfSpec(u);
      if Spec(u) == s {
        assert u + Pieces(s) == u;
      }
    }
  }

  lemma SpecsOfAppend(init: seq<Entry>, last: Entry, k: Str)
    ensures SpecsOf(init + [last], k) == if k == last.key then SpecsOf(init, k) + {last.spec} else SpecsOf(init, k)
  {
  }

  /** The fold's closed form, for all strings whatever separators they hold. */
  lemma {:induction false} FoldCanonical(es: seq<Entry>, k: Str)
    ensures k in Folded(es) <==> SpecsOf(es, k) != {}
    ensures k in Folded(es) ==> Folded(es)[k] == Canon(SpecsOf(es, k))
  {
    if es != [] {
      var init, last := es[..|es| - 1], es[|es| - 1];
      FoldCanonical(init, k);
      SpecsOfAppend(init, last, k);
      assert es == init + [last];
      if k == last.key {
        if k in Folded(init) {
          CanonStep(SpecsOf(init, k), last.spec);
        } else {
          assert SpecsOf(es, k) == {last.spec};
          CanonOne(last.spec);
        }
      }
    }
  }

  /** Only which contributions there are matters, not their order or how often they repeat. */
  lemma FoldOrderFree(es: seq<Entry>, fs: seq<Entry>)
    requires Elements(es) == Elements(fs)
    ensures Folded(es) == Folded(fs)
  {
    forall k ensures k in Folded(es) <==> k in Folded(fs)
             ensures k in Folded(es) ==> Folded(es)[k] == Folded(fs)[k] {
      FoldCanonical(es, k);
      FoldCanonical(fs, k);
      assert forall e :: e in es <==> e in Elements(es);
      assert forall e :: e in fs <==> e in Elements(fs);
      assert SpecsOf(es, k) == SpecsOf(fs, k);
    }
  }

  /** Clause sets as records carry them: non-empty, no separator inside a clause. */
  predicate ClauseSets(sets: set<set<Str>>) {
    forall cs :: cs in sets ==> cs != {} && Separate(cs)
  }

  ghost function Union(sets: set<set<Str>>): set<Str> {
    set cs, c | cs in sets && c in cs :: c
  }

  /** When every contributed spec is a collapsed clause set, the key's spec is the collapse of
      all clauses together: `*` if any clause is `*`, else their sorted join without repeats. */
  lemma SpecIsUnionOfClauses(sets: set<set<Str>>)
    requires sets != {} && ClauseSets(sets)
    ensures SpecsFrom(sets) != {} && Canon(SpecsFrom(sets)) == Spec(Union(sets))
  {
    var specs := SpecsFrom(sets);
    var one :| one in sets;
    assert Spec(one) in specs;
    AnyIsOnePiece();
    forall cs | cs in sets
      ensures if ANY in cs then Spec(cs) == ANY else Pieces(Spec(cs)) == cs && Spec(cs) != ANY
    {
      if ANY !in cs { PiecesOfSpec(cs); }
    }
    if specs == {Spec(one)} {
      CanonOne(Spec(one));
      OneSpec(sets, one);
    } else {
      var q :| q in specs && q != Spec(one);
      CanonMany(specs, Spec(one), q);
      UnionPieces(sets);
    }
  }

  lemma OneSpec(sets: set<set<Str>>, one: set<Str>)
    requires one in sets && SpecsFrom(sets) == {Spec(one)}
    requires forall cs :: cs in sets ==>
               if ANY in cs then Spec(cs) == ANY else Pieces(Spec(cs)) == cs && Spec(cs) != ANY
    ensures Spec(Union(sets)) == Spec(one)
  {
    forall cs | cs in sets ensures Spec(cs) == Spec(one) {
      assert Spec(cs) in SpecsFrom(sets);
    }
    if ANY in one {
      assert ANY in Union(sets);
    } else {
      assert forall cs :: cs in sets ==> cs == one;
      assert Union(sets) == one;
    }
  }

  ghost function SpecsFrom(sets: set<set<Str>>): set<Str> {
    set cs | cs in sets :: Spec(cs)
  }

  lemma UnionPieces(sets: set<set<Str>>)
    requires forall cs :: cs in sets ==>
               if ANY in cs then Spec(cs) == ANY else Pieces(Spec(cs)) == cs
    ensures Spec(PiecesOf(SpecsFrom(sets))) == Spec(Union(sets))
  {
    hide Pieces;
    hide SortedClauses;
    AnyIsOnePiece();
    var u := PiecesOf(SpecsFrom(sets));
    if cs :| cs in sets && ANY in cs {
      assert Spec(cs) in SpecsFrom(sets);
      assert ANY in u && ANY in Union(sets);
    } else {
      PlainUnion(sets);
    }
  }

  lemma PlainUnion(sets: set<set<Str>>)
    requires forall cs :: cs in sets ==> ANY !in cs && Pieces(Spec(cs)) == cs
    ensures PiecesOf(SpecsFrom(sets)) == Union(sets)
  {
    hide Pieces;
    hide Spec;
    forall cs, c | cs in sets && c in cs ensures c in PiecesOf(SpecsFrom(sets)) {
      assert Spec(cs) in SpecsFrom(sets);
    }
  }
}
