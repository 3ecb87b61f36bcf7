/** Sorting the elements of a set by a strict total order. A strictly sorted sequence is
    determined by its elements, which is what makes every sorted output of the program
    independent of the order its maps and sets are walked in. */
module Sorting {
  ghost predicate StrictOrder<T(!new)>(lt: (T, T) -> bool) {
    && (forall a :: !lt(a, a))
    && (forall a, b :: a == b || lt(a, b) || lt(b, a))
    && (forall a, b, c :: lt(a, b) && lt(b, c) ==> lt(a, c))
  }

  ghost predicate SortedBy<T(!new)>(lt: (T, T) -> bool, s: seq<T>) {
    forall i, j :: 0 <= i < j < |s| ==> lt(s[i], s[j])
  }

  function Elements<T(!new)>(s: seq<T>): set<T> {
    set x | x in s
  }

  lemma ElementsCons<T(!new)>(x: T, s: seq<T>)
    ensures Elements([x] + s) == {x} + Elements(s)
  {
    forall y ensures y in Elements([x] + s) <==> y in {x} + Elements(s) {
      if y in s {
        var i :| 0 <= i < |s| && s[i] == y;
        assert ([x] + s)[i + 1] == y;
      }
      assert ([x] + s)[0] == x;
    }
  }

  lemma NoElements<T(!new)>(s: seq<T>)
    ensures Elements(s) == {} ==> s == []
  {
    if s != [] {
      assert s[0] in Elements(s);
    }
  }

  /** Place `x` before the first element it precedes. */
  function Insert<T(!new)>(lt: (T, T) -> bool, x: T, s: seq<T>): (r: seq<T>)
    ensures |r| == |s| + 1
    ensures Elements(r) == Elements(s) + {x}
  {
    if s == [] then [x]
    else if lt(x, s[0]) then [x] + s
    else
      ElementsCons(s[0], s[1..]);
      ElementsCons(s[0], Insert(lt, x, s[1..]));
      assert s == [s[0]] + s[1..];
      [s[0]] + Insert(lt, x, s[1..])
  }

  lemma {:induction false} InsertSorted<T(!new)>(lt: (T, T) -> bool, x: T, s: seq<T>)
    requires StrictOrder(lt) && SortedBy(lt, s) && x !in s
    ensures SortedBy(lt, Insert(lt, x, s))
  {
    if s != [] && !lt(x, s[0]) {
      InsertSorted(lt, x, s[1..]);
      var r := Insert(lt, x, s[1..]);
      forall y | y in r ensures lt(s[0], y) {
        assert y in Elements(r);
        if y != x {
          assert y in s[1..];
        }
      }
    }
  }

  /** The elements of a set in order. */
  ghost function Sorted<T(!new)>(lt: (T, T) -> bool, s: set<T>): (r: seq<T>)
    requires StrictOrder(lt)
    ensures SortedBy(lt, r) && Elements(r) == s && |r| == |s|
  {
    if s == {} then []
    else
      var x :| x in s;
      var rest := Sorted(lt, s - {x});
      assert x !in Elements(rest);
      InsertSorted(lt, x, rest);
      Insert(lt, x, rest)
  }

  /** There is only one way to sort. */
  lemma {:induction false} SortedUnique<T(!new)>(lt: (T, T) -> bool, s: seq<T>, t: seq<T>)
    requires StrictOrder(lt) && SortedBy(lt, s) && SortedBy(lt, t)
    requires Elements(s) == Elements(t)
    ensures s == t
  {
    if s == [] {
      NoElements(t);
    } else {
      assert s[0] in Elements(t) && t != [];
      assert t[0] in Elements(s);
      assert s[0] == t[0];
      assert s == [s[0]] + s[1..] && t == [t[0]] + t[1..];
      assert Elements(s[1..]) == Elements(s) - {s[0]};
      assert Elements(t[1..]) == Elements(t) - {t[0]};
      SortedUnique(lt, s[1..], t[1..]);
    }
  }

  /** The sort of a set's elements, step by step. */
  method SortSet<T(!new, ==)>(lt: (T, T) -> bool, s: set<T>) returns (r: seq<T>)
    requires StrictOrder(lt)
    ensures r == Sorted(lt, s)
  {
    r := [];
    var left := s;
    while left != {}
      invariant left <= s && Elements(r) == s - left && SortedBy(lt, r)
      decreases left
    {
      var x :| x in left;
      assert x !in Elements(r);
      InsertSorted(lt, x, r);
      r := Insert(lt, x, r);
      left := left - {x};
    }
    SortedUnique(lt, r, Sorted(lt, s));
  }
}
