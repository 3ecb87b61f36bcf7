/** The order of the package index: `cmpBytes` and `cmpLineKeys`.

    Keys are compared as if each were followed by the tab that separates it from the spec,
    so that sorting keys sorts the UTF-8 bytes of whole artifact lines.
  */
module LineOrder {
  import opened Text
  import opened Sorting
  import Utf8

  predicate SurrogateFree(s: Str) {
    forall u :: u in s ==> !IsSurrogate(u)
  }

  /** `cmpBytes`: code units when no surrogate is involved, code points otherwise. */
  function CmpBytes(a: Str, b: Str): int {
    if a == b then 0
    else if SurrogateFree(a) && SurrogateFree(b) then (if Lex(a, b) < 0 then -1 else 1)
    else Lex(CodePoints(a), CodePoints(b))
  }

  predicate IsPrefix(p: Str, s: Str) {
    |p| <= |s| && s[..|p|] == p
  }

  /** `cmpLineKeys`. */
  function CmpLineKeys(a: Str, b: Str): int {
    var c := CmpBytes(a, b);
    if c < 0 && |b| > |a| && IsPrefix(a, b) then (if b[|a|] < 9 then 1 else -1)
    else if c > 0 && |a| > |b| && IsPrefix(b, a) then (if a[|b|] < 9 then -1 else 1)
    else c
  }

  // ----------------------------------------------------------- the two-iterator walk

  /** The loop of `cmpBytes`: two string iterators advanced together. */
  method CompareBytes(a: Str, b: Str) returns (c: int)
    ensures c == Lex(CodePoints(a), CodePoints(b))
  {
    CmpBytesIsCodePointOrder(a, b);
    if a == b {
      return 0;
    }
    if SurrogateFree(a) && SurrogateFree(b) {
      return if Lex(a, b) < 0 then -1 else 1;
    }
    var i, j := 0, 0;
    while true
      invariant i <= |a| && j <= |b|
      invariant Lex(CodePoints(a), CodePoints(b)) == Lex(CodePoints(a[i..]), CodePoints(b[j..]))
      decreases |a| - i
    {
      if i == |a| {
        return if j == |b| then 0 else -1;
      }
      if j == |b| {
        return 1;
      }
      var cx := if PairAhead(a[i..]) then Pair(a[i], a[i + 1]) else a[i];
      var cy := if PairAhead(b[j..]) then Pair(b[j], b[j + 1]) else b[j];
      if cx != cy {
        return if cx < cy then -1 else 1;
      }
      var di := if PairAhead(a[i..]) then 2 else 1;
      var dj := if PairAhead(b[j..]) then 2 else 1;
      assert a[i..][di..] == a[i + di..] && b[j..][dj..] == b[j + dj..];
      i, j := i + di, j + dj;
    }
  }

  lemma {:induction false} PlainCodePoints(s: Str)
    requires SurrogateFree(s)
    ensures CodePoints(s) == s
  {
    if s != [] {
      assert s[0] in s && !PairAhead(s) && s == [s[0]] + s[1..];
      PlainCodePoints(s[1..]);
    }
  }

  /** Code points determine the string: the iterator loses nothing. */
  lemma {:induction false} CodePointsInjective(a: Str, b: Str)
    requires CodePoints(a) == CodePoints(b)
    ensures a == b
  {
    if a != [] && b != [] {
      assert CodePoints(a)[0] == CodePoints(b)[0];
      assert PairAhead(a) == PairAhead(b);
      var n := if PairAhead(a) then 2 else 1;
      assert CodePoints(a)[1..] == CodePoints(a[n..]) && CodePoints(b)[1..] == CodePoints(b[n..]);
      CodePointsInjective(a[n..], b[n..]);
      assert a[..n] == b[..n];
      assert a == a[..n] + a[n..] && b == b[..n] + b[n..];
    }
  }

  /** The surrogate-free shortcut changes nothing, and only equal strings compare equal. */
  lemma CmpBytesIsCodePointOrder(a: Str, b: Str)
    ensures CmpBytes(a, b) == Lex(CodePoints(a), CodePoints(b))
    ensures CmpBytes(a, b) == 0 <==> a == b
  {
    LexZero(CodePoints(a), CodePoints(b));
    if a != b && CodePoints(a) == CodePoints(b) {
      CodePointsInjective(a, b);
    }
    if SurrogateFree(a) && SurrogateFree(b) {
      PlainCodePoints(a);
      PlainCodePoints(b);
    }
  }

  // ---------------------------------------------------------------- keys as line heads

  /** A unit that is no surrogate is a code point of its own, wherever it stands. */
  lemma {:induction false} CodePointsAround(s: Str, u: Unit, rest: Str)
    requires !IsSurrogate(u)
    ensures CodePoints(s + [u] + rest) == CodePoints(s) + [u] + CodePoints(rest)
  {
    var t := s + [u] + rest;
    if s == [] {
      assert t[0] == u && t[1..] == rest;
    } else {
      assert PairAhead(t) == PairAhead(s);
      var n := if PairAhead(s) then 2 else 1;
      assert t[n..] == s[n..] + [u] + rest;
      CodePointsAround(s[n..], u, rest);
    }
  }

  /** A prefix of code units is a prefix of code points, or stops inside a pair. */
  lemma {:induction false} PrefixCodePoints(a: Str, b: Str)
    requires IsPrefix(a, b) && |a| < |b|
    ensures Lex(CodePoints(a), CodePoints(b)) == -1
    ensures Lex(CodePoints(a) + [TAB], CodePoints(b) + [TAB]) == if b[|a|] < 9 then 1 else -1
  {
    if a == [] {
      var cs := CodePoints(b);
      assert b[0] < 9 ==> cs[0] == b[0];
      assert b[0] >= 9 ==> cs[0] >= 9;
      if cs[0] == 9 {
        assert ([TAB] + [])[1..] == [] && (cs + [TAB])[1..] == cs[1..] + [TAB];
      }
    } else if PairAhead(b) && |a| == 1 {
      assert CodePoints(a) == [a[0]] + CodePoints(a[1..]);
    } else {
      assert PairAhead(a) == PairAhead(b);
      var n := if PairAhead(a) then 2 else 1;
      PrefixCodePoints(a[n..], b[n..]);
      assert CodePoints(a) + [TAB] == [CodePoints(a)[0]] + (CodePoints(a[n..]) + [TAB]);
      assert CodePoints(b) + [TAB] == [CodePoints(b)[0]] + (CodePoints(b[n..]) + [TAB]);
    }
  }

  lemma PartedAt(u: seq<int>, v: seq<int>, p: seq<int>, q: seq<int>, i: nat)
    requires i < |u| && i < |v| && u[..i] == v[..i] && u[i] != v[i]
    ensures Lex(u + p, v + q) == if u[i] < v[i] then -1 else 1
  {
    SplitAt(u, i, p);
    SplitAt(v, i, q);
    LexParting(u[..i], u[i], u[i + 1..] + p, v[i], v[i + 1..] + q);
  }

  /** Two sequences neither of which begins the other part before either ends. */
  lemma TailsDoNotMatter(u: seq<int>, v: seq<int>, p: seq<int>, q: seq<int>)
    requires !(u <= v) && !(v <= u)
    ensures Lex(u + p, v + q) == Lex(u, v)
  {
    var i := Parting(u, v);
    PartedAt(u, v, p, q, i);
    PartedAt(u, v, [], [], i);
    assert u + [] == u && v + [] == v;
  }

  /** A prefix of the code points comes from a prefix of the string. */
  lemma {:induction false} CodePointPrefix(a: Str, b: Str)
    requires CodePoints(a) <= CodePoints(b)
    ensures IsPrefix(a, b)
  {
    if a != [] {
      assert b != [];
      assert CodePoints(a)[0] == CodePoints(b)[0];
      assert PairAhead(a) ==> PairAhead(b);
      assert PairAhead(b) ==> PairAhead(a);
      var n := if PairAhead(a) then 2 else 1;
      assert CodePoints(a)[1..] == CodePoints(a[n..]) && CodePoints(b)[1..] == CodePoints(b[n..]);
      CodePointPrefix(a[n..], b[n..]);
      assert a == a[..n] + a[n..] && b == b[..n] + b[n..] && a[..n] == b[..n];
    }
  }

  /** `cmpLineKeys` is the code point order of keys with their tab attached. */
  lemma LineKeysCompareTabbed(a: Str, b: Str)
    ensures CmpLineKeys(a, b) == Lex(CodePoints(a) + [TAB], CodePoints(b) + [TAB])
  {
    var x, y := CodePoints(a), CodePoints(b);
    CmpBytesIsCodePointOrder(a, b);
    LexZero(x + [TAB], y + [TAB]);
    if a == b {
    } else if IsPrefix(a, b) && |a| < |b| {
      PrefixCodePoints(a, b);
    } else if IsPrefix(b, a) && |b| < |a| {
      PrefixCodePoints(b, a);
      LexFlip(x, y);
      LexFlip(x + [TAB], y + [TAB]);
    } else {
      if x <= y { CodePointPrefix(a, b); }
      if y <= x { CodePointPrefix(b, a); }
      TailsDoNotMatter(x, y, [TAB], [TAB]);
    }
  }

  /** The strict order keys are sorted by. */
  predicate Before(a: Str, b: Str) {
    CmpLineKeys(a, b) < 0
  }

  /** `cmpLineKeys` is a total order that is zero only on equality. */
  lemma LineKeysTotal(a: Str, b: Str)
    ensures CmpLineKeys(a, b) == 0 <==> a == b
    ensures CmpLineKeys(b, a) == -CmpLineKeys(a, b)
  {
    var x, y := CodePoints(a) + [TAB], CodePoints(b) + [TAB];
    LineKeysCompareTabbed(a, b);
    LineKeysCompareTabbed(b, a);
    LexFlip(x, y);
    LexZero(x, y);
    if x == y {
      assert CodePoints(a) == x[..|x| - 1] && CodePoints(b) == y[..|y| - 1];
      CodePointsInjective(a, b);
    }
  }

  lemma BeforeTransitive(a: Str, b: Str, c: Str)
    requires Before(a, b) && Before(b, c)
    ensures Before(a, c)
  {
    LineKeysCompareTabbed(a, b);
    LineKeysCompareTabbed(b, c);
    LineKeysCompareTabbed(a, c);
    LexTransitive(CodePoints(a) + [TAB], CodePoints(b) + [TAB], CodePoints(c) + [TAB]);
  }

  lemma BeforeIsStrictOrder()
    ensures StrictOrder(Before)
  {
    forall a, b ensures !Before(a, a) && (a == b || Before(a, b) || Before(b, a)) {
      LineKeysTotal(a, a);
      LineKeysTotal(a, b);
    }
    forall a, b, c | Before(a, b) && Before(b, c) ensures Before(a, c) {
      BeforeTransitive(a, b, c);
    }
  }

  /** `sortedKeys`: the keys of an index in artifact order. */
  ghost function SortedKeys(keys: set<Str>): (r: seq<Str>)
    ensures Elements(r) == keys
  {
    BeforeIsStrictOrder();
    Sorted(Before, keys)
  }

  lemma SortedKeysInOrder(keys: set<Str>)
    ensures StrictOrder(Before) && SortedBy(Before, SortedKeys(keys))
    ensures SortedKeys(keys) == Sorted(Before, keys)
  {
    BeforeIsStrictOrder();
  }

  // ----------------------------------------------------- agreement with whole-line bytes

  /** How many tabs a string holds. */
  function Tabs(s: seq<int>): nat {
    if s == [] then 0 else (if s[0] == TAB then 1 else 0) + Tabs(s[1..])
  }

  lemma {:induction false} TabsAppend(x: seq<int>, y: seq<int>)
    ensures Tabs(x + y) == Tabs(x) + Tabs(y)
  {
    if x == [] {
      assert x + y == y;
    } else {
      assert (x + y)[1..] == x[1..] + y;
      TabsAppend(x[1..], y);
    }
  }

  /** Code points of a UTF-16 string fit the UTF-8 range. */
  lemma {:induction false} CodePointRange(s: Str)
    ensures forall c :: c in CodePoints(s) ==> 0 <= c < 0x11_0000
  {
    if s != [] {
      CodePointRange(if PairAhead(s) then s[2..] else s[1..]);
    }
  }

  /** The bytes of one artifact line: key, tab, spec. */
  function LineBytes(key: Str, spec: Str): seq<int>
    requires WellFormed(key + [TAB] + spec)
  {
    CodePointRange(key + [TAB] + spec);
    Utf8.Encode(CodePoints(key + [TAB] + spec))
  }

  /** Does neither key go on from the other with a tab? */
  predicate Unextended(a: Str, b: Str) {
    !IsPrefix(a + [TAB], b) && !IsPrefix(b + [TAB], a)
  }

  /** Sorting distinct keys by `cmpLineKeys` sorts the UTF-8 bytes of the lines, whatever their
      specs are, as long as neither key goes on from the other with a tab. */
  lemma KeyOrderIsLineByteOrder(a: Str, b: Str, specA: Str, specB: Str)
    requires a != b && Unextended(a, b)
    requires WellFormed(a + [TAB] + specA) && WellFormed(b + [TAB] + specB)
    ensures CmpLineKeys(a, b) == Lex(LineBytes(a, specA), LineBytes(b, specB))
  {
    hide CmpLineKeys;
    hide Lex;
    hide CodePoints;
    var u, v := CodePoints(a) + [TAB], CodePoints(b) + [TAB];
    LineCodePoints(a, specA);
    LineCodePoints(b, specB);
    Utf8.EncodingKeepsOrder(CodePoints(a + [TAB] + specA), CodePoints(b + [TAB] + specB));
    LineKeysCompareTabbed(a, b);
    if u <= v { TabbedPrefix(a, b); }
    if v <= u { TabbedPrefix(b, a); }
    TailsDoNotMatter(u, v, CodePoints(specA), CodePoints(specB));
  }

  lemma LineCodePoints(key: Str, spec: Str)
    requires WellFormed(key + [TAB] + spec)
    ensures CodePoints(key + [TAB] + spec) == CodePoints(key) + [TAB] + CodePoints(spec)
    ensures Utf8.Scalars(CodePoints(key + [TAB] + spec))
    ensures LineBytes(key, spec) == Utf8.Encode(CodePoints(key + [TAB] + spec))
  {
    CodePointsAround(key, TAB, spec);
    CodePointRange(key + [TAB] + spec);
  }

  lemma TabbedPrefix(a: Str, b: Str)
    requires a != b && CodePoints(a) + [TAB] <= CodePoints(b) + [TAB]
    ensures IsPrefix(a + [TAB], b)
  {
    hide CodePoints;
    CodePointsAround(a, TAB, []);
    CodePointsAround(b, TAB, []);
    NoCodePoints();
    assert a + [TAB] + [] == a + [TAB] && b + [TAB] + [] == b + [TAB];
    CodePointPrefix(a + [TAB], b + [TAB]);
    PrefixBeforeTab(a, b);
  }

  lemma PrefixBeforeTab(a: Str, b: Str)
    requires a != b && IsPrefix(a + [TAB], b + [TAB])
    ensures IsPrefix(a + [TAB], b)
  {
    assert a == (a + [TAB])[..|a|] && b == (b + [TAB])[..|b|];
    if |a| != |b| {
      assert (b + [TAB])[..|a| + 1] == b[..|a| + 1];
    }
  }

  lemma NoCodePoints()
    ensures CodePoints([]) == []
  {
  }

  /** Keys `eco\tname` of one tab each are such keys. */
  lemma OneTabUnextended(a: Str, b: Str)
    requires Tabs(a) == 1 && Tabs(b) == 1
    ensures Unextended(a, b)
  {
    NotExtendedBy(a, b);
    NotExtendedBy(b, a);
  }

  lemma NotExtendedBy(a: Str, b: Str)
    requires Tabs(a) == 1 && Tabs(b) == 1
    ensures !IsPrefix(a + [TAB], b)
  {
    TabsAppend(a, [TAB]);
    assert Tabs([TAB]) == 1;
    if IsPrefix(a + [TAB], b) {
      assert b == a + [TAB] + b[|a| + 1..];
      TabsAppend(a + [TAB], b[|a| + 1..]);
    }
  }

  /** A key that goes on from another with a tab comes after it, and yet its line comes before
      the other's under some specs. */
  lemma ExtendedKeyMisplaced(a: Str, b: Str) returns (spec: Str)
    requires IsPrefix(a + [TAB], b) && WellFormed(b + [TAB] + [])
    ensures CmpLineKeys(a, b) == -1
    ensures TAB !in spec && (NEWLINE !in b ==> NEWLINE !in spec)
    ensures WellFormed(a + [TAB] + spec) && Lex(LineBytes(a, spec), LineBytes(b, [])) == 1
  {
    hide CmpLineKeys;
    hide Lex;
    hide CodePoints;
    hide LineBytes;
    var q, w := UpToTab(a, b);
    spec := q + [68];
    PartedLines(a, b, q, w);
    PartedOrder(a, b, q, w);
    KeysInOrder(a, b, q, w);
  }

  /** What follows `a` and its tab in `b`, up to the next tab. */
  lemma UpToTab(a: Str, b: Str) returns (q: Str, w: Str)
    requires IsPrefix(a + [TAB], b)
    ensures b + [TAB] == a + [TAB] + (q + [TAB] + w)
    ensures TAB !in q && (NEWLINE !in b ==> NEWLINE !in q)
  {
    var rest := b[|a| + 1..] + [TAB];
    IndexOfFirst(rest, TAB);
    var i := IndexOf(rest, TAB);
    assert rest[|rest| - 1] == TAB;
    q, w := rest[..i], rest[i + 1..];
    forall u | u in q ensures u in b {
      var j :| 0 <= j < |q| && q[j] == u;
      assert b[|a| + 1 + j] == u;
    }
  }

  /** With 68, a letter, where the other line has its tab, the line comes later. */
  lemma PartedOrder(a: Str, b: Str, q: Str, w: Str)
    requires b + [TAB] == a + [TAB] + (q + [TAB] + w) && WellFormed(b + [TAB] + [])
    ensures WellFormed(a + [TAB] + (q + [68]))
    ensures Lex(LineBytes(a, q + [68]), LineBytes(b, [])) == 1
  {
    hide Lex;
    hide CodePoints;
    PartedLines(a, b, q, w);
    var p := CodePoints(a) + [TAB] + CodePoints(q);
    forall c | c in CodePoints(a + [TAB] + (q + [68])) ensures !IsSurrogate(c) {
      if c != 68 { assert c in CodePoints(b + [TAB] + []); }
    }
    LexParting(p, 68, [], TAB, CodePoints(w));
    LineCodePoints(a, q + [68]);
    LineCodePoints(b, []);
    Utf8.EncodingKeepsOrder(CodePoints(a + [TAB] + (q + [68])), CodePoints(b + [TAB] + []));
  }

  lemma KeysInOrder(a: Str, b: Str, q: Str, w: Str)
    requires b + [TAB] == a + [TAB] + (q + [TAB] + w)
    ensures CmpLineKeys(a, b) == -1
  {
    hide CmpLineKeys;
    hide Lex;
    hide CodePoints;
    PartedLines(a, b, q, w);
    LineKeysCompareTabbed(a, b);
    var tail := CodePoints(q) + [TAB] + CodePoints(w);
    assert CodePoints(b) + [TAB] == CodePoints(a) + [TAB] + tail;
    LexStrip(CodePoints(a) + [TAB], [], tail);
    assert CodePoints(a) + [TAB] + [] == CodePoints(a) + [TAB];
    NothingFirst(tail);
  }

  lemma PartedLines(a: Str, b: Str, q: Str, w: Str)
    requires b + [TAB] == a + [TAB] + (q + [TAB] + w)
    ensures var p := CodePoints(a) + [TAB] + CodePoints(q);
            CodePoints(a + [TAB] + (q + [68])) == p + [68] + []
            && CodePoints(b + [TAB] + []) == p + [TAB] + CodePoints(w) == CodePoints(b) + [TAB]
  {
    hide CodePoints;
    CodePointsAround(a, TAB, q + [TAB] + w);
    CodePointsAround(q, TAB, w);
    CodePointsAround(b, TAB, []);
    CodePointsAround(a, TAB, q + [68]);
    CodePointsAround(q, 68, []);
    NoCodePoints();
    assert q + [68] + [] == q + [68];
    assert b + [TAB] + [] == a + [TAB] + (q + [TAB] + w);
  }

  lemma NothingFirst(x: seq<int>)
    requires x != []
    ensures Lex([], x) == -1
  {
  }

  /** The lines of two keys sort like the keys under all specs. */
  ghost predicate LinesFollowKeys(a: Str, b: Str) {
    forall specA, specB ::
      WellFormed(a + [TAB] + specA) && WellFormed(b + [TAB] + specB) && TAB !in specA && TAB !in specB ==>
        CmpLineKeys(a, b) == Lex(LineBytes(a, specA), LineBytes(b, specB))
  }

  /** Two distinct keys sort like their lines whatever the specs are exactly when neither goes
      on from the other with a tab. */
  lemma LinesFollowKeysIff(a: Str, b: Str)
    requires a != b && WellFormed(a + [TAB] + []) && WellFormed(b + [TAB] + [])
    ensures LinesFollowKeys(a, b) <==> Unextended(a, b)
  {
    hide CmpLineKeys;
    hide Lex;
    hide LineBytes;
    hide WellFormed;
    if Unextended(a, b) {
      forall specA, specB | WellFormed(a + [TAB] + specA) && WellFormed(b + [TAB] + specB)
        ensures CmpLineKeys(a, b) == Lex(LineBytes(a, specA), LineBytes(b, specB))
      {
        KeyOrderIsLineByteOrder(a, b, specA, specB);
      }
    } else if IsPrefix(a + [TAB], b) {
      var spec := ExtendedKeyMisplaced(a, b);
    } else {
      var spec := ExtendedKeyMisplaced(b, a);
      LineKeysTotal(a, b);
      LexFlip(LineBytes(b, spec), LineBytes(a, []));
    }
  }

  /** For one, a package name with a tab: the key order is fixed and the line order follows the spec. */
  lemma TabInNameBreaksOrder()
    ensures var a, b := [65, TAB, 66], [65, TAB, 66, TAB, 67];
            CmpLineKeys(a, b) == -1 && Tabs(b) == 2
            && Lex(a + [TAB] + [68], b + [TAB]) == 1
  {
    var a: Str, b: Str := [65, TAB, 66], [65, TAB, 66, TAB, 67];
    assert IsPrefix(a, b);
    PrefixCodePoints(a, b);
    CmpBytesIsCodePointOrder(a, b);
    assert b[1..][1..][1..][1..][1..] == [];
    assert b[1..] == [TAB, 66, TAB, 67] && b[2..] == [66, TAB, 67] && b[3..] == [TAB, 67] && b[4..] == [67];
    assert b[4..][1..] == [] && b[3..][1..] == b[4..] && b[2..][1..] == b[3..] && b[1..][1..] == b[2..];
    assert Tabs(b[4..]) == 0;
    assert Tabs(b[3..]) == 1 && Tabs(b[2..]) == 1 && Tabs(b[1..]) == 2;
    LexParting(a + [TAB], 68, [], 67, [TAB]);
    assert a + [TAB] + [68] == a + [TAB] + [68] + [];
    assert b + [TAB] == a + [TAB] + [67] + [TAB];
  }
}
