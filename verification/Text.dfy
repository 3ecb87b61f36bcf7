/** JavaScript strings as the program sees them: sequences of UTF-16 code units.

    Dafny's own `char` cannot hold a lone surrogate and a JavaScript string can, so text is
    a sequence of 16-bit integers here. The module also gives the one lexicographic order
    that code units, code points and bytes are all compared by.
  */
module Text {
  type Unit = u: int | 0 <= u < 0x1_0000
  type Str = seq<Unit>

  const TAB: Unit := 9
  const NEWLINE: Unit := 10
  const RETURN: Unit := 13
  const SPACE: Unit := 32
  const HASH: Unit := 35
  const STAR: Unit := 42
  const PLUS: Unit := 43
  const COMMA: Unit := 44
  const MINUS: Unit := 45
  const ZERO: Unit := 48
  const QUOTE: Unit := 34
  const PIPE: Unit := 124

  /** An ASCII literal as code units. */
  function Ascii(s: string): (r: Str)
    requires forall i :: 0 <= i < |s| ==> s[i] < 128 as char
    ensures |r| == |s| && forall i :: 0 <= i < |s| ==> r[i] == s[i] as int
  {
    seq(|s|, i requires 0 <= i < |s| => s[i] as int)
  }

  /** A comment line of the feed's text formats: `#` and a fixed ASCII text. */
  function Comment(s: string): (r: Str)
    requires forall i :: 0 <= i < |s| ==> s[i] < 128 as char && s[i] != '\n'
    ensures |r| == |s| + 1 && r[0] == HASH && NEWLINE !in r
  {
    [HASH] + Ascii(s)
  }

  predicate IsHigh(u: int) { 0xD800 <= u <= 0xDBFF }
  predicate IsLow(u: int) { 0xDC00 <= u <= 0xDFFF }
  predicate IsSurrogate(u: int) { 0xD800 <= u <= 0xDFFF }

  /** Does a string iterator step over two units at the head of `s`? */
  predicate PairAhead(s: Str) {
    |s| >= 2 && IsHigh(s[0]) && IsLow(s[1])
  }

  function Pair(high: int, low: int): int {
    0x1_0000 + (high - 0xD800) * 0x400 + (low - 0xDC00)
  }

  /** The values a string iterator yields: surrogate pairs joined, lone surrogates as they are. */
  function CodePoints(s: Str): (cs: seq<int>)
    ensures |cs| == 0 <==> s == []
  {
    if s == [] then []
    else if PairAhead(s) then [Pair(s[0], s[1])] + CodePoints(s[2..])
    else [s[0]] + CodePoints(s[1..])
  }

  /** A string with an encoding in UTF-8: no lone surrogate. */
  predicate WellFormed(s: Str) {
    forall c :: c in CodePoints(s) ==> !IsSurrogate(c)
  }

  /** Lexicographic comparison: -1, 0 or 1. */
  function Lex(x: seq<int>, y: seq<int>): (c: int)
    ensures -1 <= c <= 1
  {
    if x == [] then (if y == [] then 0 else -1)
    else if y == [] then 1
    else if x[0] < y[0] then -1
    else if y[0] < x[0] then 1
    else Lex(x[1..], y[1..])
  }

  lemma {:induction false} LexZero(x: seq<int>, y: seq<int>)
    ensures Lex(x, y) == 0 <==> x == y
  {
    if x != [] && y != [] {
      LexZero(x[1..], y[1..]);
      if x[0] == y[0] {
        assert x == [x[0]] + x[1..] && y == [y[0]] + y[1..];
      }
    }
  }

  lemma {:induction false} LexFlip(x: seq<int>, y: seq<int>)
    ensures Lex(y, x) == -Lex(x, y)
  {
    if x != [] && y != [] {
      LexFlip(x[1..], y[1..]);
    }
  }

  lemma {:induction false} LexTransitive(x: seq<int>, y: seq<int>, z: seq<int>)
    requires Lex(x, y) < 0 && Lex(y, z) < 0
    ensures Lex(x, z) < 0
  {
    if x != [] && x[0] == y[0] && y[0] == z[0] {
      LexTransitive(x[1..], y[1..], z[1..]);
    }
  }

  /** A shared prefix does not matter. */
  lemma {:induction false} LexStrip(p: seq<int>, x: seq<int>, y: seq<int>)
    ensures Lex(p + x, p + y) == Lex(x, y)
  {
    if p == [] {
      assert p + x == x && p + y == y;
    } else {
      assert (p + x)[1..] == p[1..] + x && (p + y)[1..] == p[1..] + y;
      LexStrip(p[1..], x, y);
    }
  }

  /** Two sequences that part at some position are ordered there, whatever follows. */
  lemma {:induction false} LexParting(p: seq<int>, a: int, x: seq<int>, b: int, y: seq<int>)
    requires a != b
    ensures Lex(p + [a] + x, p + [b] + y) == if a < b then -1 else 1
  {
    assert p + [a] + x == p + ([a] + x) && p + [b] + y == p + ([b] + y);
    LexStrip(p, [a] + x, [b] + y);
  }

  /** The ways two unequal sequences can part. */
  lemma {:induction false} Parting(x: seq<int>, y: seq<int>) returns (i: nat)
    requires x != y
    ensures i <= |x| && i <= |y| && x[..i] == y[..i]
    ensures i < |x| && i < |y| ==> x[i] != y[i]
    ensures i < |x| || i < |y|
  {
    if x == [] || y == [] || x[0] != y[0] {
      i := 0;
    } else {
      assert x == [x[0]] + x[1..] && y == [y[0]] + y[1..];
      var j := Parting(x[1..], y[1..]);
      i := j + 1;
      assert x[..i] == [x[0]] + x[1..][..j] && y[..i] == [y[0]] + y[1..][..j];
    }
  }

  lemma SplitAt(s: seq<int>, i: nat, rest: seq<int>)
    requires i < |s|
    ensures s + rest == s[..i] + [s[i]] + (s[i + 1..] + rest)
  {
  }

  // ------------------------------------------------------------------ searching a string

  /** `s.indexOf(u)`, from the front; -1 when absent. */
  function IndexOf(s: Str, u: Unit): (i: int)
    ensures -1 <= i < |s|
  {
    if s == [] then -1
    else if s[0] == u then 0
    else
      var j := IndexOf(s[1..], u);
      if j == -1 then -1 else j + 1
  }

  lemma {:induction false} IndexOfFirst(s: Str, u: Unit)
    ensures var i := IndexOf(s, u);
            if i == -1 then u !in s else s[i] == u && u !in s[..i]
  {
    if s != [] && s[0] != u {
      IndexOfFirst(s[1..], u);
      var j := IndexOf(s[1..], u);
      assert s == [s[0]] + s[1..];
      if j != -1 {
        assert s[..j + 1] == [s[0]] + s[1..][..j];
      }
    }
  }

  /** `s.lastIndexOf(u)`; -1 when absent. */
  function LastIndexOf(s: Str, u: Unit): (i: int)
    ensures -1 <= i < |s|
  {
    if s == [] then -1
    else if s[|s| - 1] == u then |s| - 1
    else LastIndexOf(s[..|s| - 1], u)
  }

  lemma {:induction false} LastIndexOfLast(s: Str, u: Unit)
    ensures var i := LastIndexOf(s, u);
            if i == -1 then u !in s else s[i] == u && u !in s[i + 1..]
  {
    if s != [] && s[|s| - 1] != u {
      var init, last := s[..|s| - 1], s[|s| - 1];
      LastIndexOfLast(init, u);
      var j := LastIndexOf(init, u);
      assert s == init + [last];
      if j != -1 {
        assert s[j + 1..] == init[j + 1..] + [last];
      }
    }
  }

  lemma {:induction false} FirstOccurrence(head: Str, u: Unit, rest: Str)
    requires u !in head
    ensures IndexOf(head + [u] + rest, u) == |head|
  {
    var s := head + [u] + rest;
    if head != [] {
      assert s[0] == head[0];
      assert s[1..] == head[1..] + [u] + rest;
      FirstOccurrence(head[1..], u, rest);
    }
  }

  lemma {:induction false} LastOccurrence(head: Str, u: Unit, rest: Str)
    requires u !in rest
    ensures LastIndexOf(head + [u] + rest, u) == |head|
  {
    var s := head + [u] + rest;
    if rest != [] {
      assert s[|s| - 1] == rest[|rest| - 1] && rest[|rest| - 1] in rest;
      assert s[..|s| - 1] == head + [u] + rest[..|rest| - 1];
      LastOccurrence(head, u, rest[..|rest| - 1]);
    }
  }

  // ------------------------------------------------------------------------------ trimming

  /** The characters `trim` removes. */
  predicate IsBlank(u: Unit) {
    9 <= u <= 13 || u == 32 || u == 0xA0 || u == 0x1680 || 0x2000 <= u <= 0x200A
    || u == 0x2028 || u == 0x2029 || u == 0x202F || u == 0x205F || u == 0x3000 || u == 0xFEFF
  }

  function TrimStart(s: Str): (r: Str)
    ensures |r| <= |s| && (r != [] ==> !IsBlank(r[0]))
  {
    if s != [] && IsBlank(s[0]) then TrimStart(s[1..]) else s
  }

  function TrimEnd(s: Str): (r: Str)
    ensures r <= s && (r != [] ==> !IsBlank(r[|r| - 1]))
  {
    if s != [] && IsBlank(s[|s| - 1]) then TrimEnd(s[..|s| - 1]) else s
  }

  function Trim(s: Str): Str { TrimEnd(TrimStart(s)) }

  lemma TrimTwice(s: Str)
    ensures Trim(Trim(s)) == Trim(s)
  {
    var t := TrimStart(s);
    var r := TrimEnd(t);
    assert r != [] ==> r[0] == t[0];
  }

  // ---------------------------------------------------------------- splitting and joining

  /** `s.split(sep)` for a one-unit separator: never empty. */
  function Split(s: Str, sep: Unit): (parts: seq<Str>)
    ensures |parts| >= 1
  {
    var i := IndexOf(s, sep);
    if i < 0 then [s] else [s[..i]] + Split(s[i + 1..], sep)
  }

  predicate NoneHas(parts: seq<Str>, u: Unit) {
    forall i :: 0 <= i < |parts| ==> u !in parts[i]
  }

  /** A split is the part before the first separator and the split of what follows it. */
  lemma SplitStep(s: Str, sep: Unit)
    ensures (var i := IndexOf(s, sep);
             if i < 0 then Split(s, sep) == [s] && sep !in s
             else Split(s, sep) == [s[..i]] + Split(s[i + 1..], sep) && sep !in s[..i])
  {
    IndexOfFirst(s, sep);
  }

  lemma {:induction false} SplitParts(s: Str, sep: Unit)
    ensures NoneHas(Split(s, sep), sep)
  {
    hide Split;
    hide IndexOf;
    SplitStep(s, sep);
    var i := IndexOf(s, sep);
    if i >= 0 {
      SplitParts(s[i + 1..], sep);
    }
  }

  /** `parts.join(sep)`. */
  function Join(parts: seq<Str>, sep: Unit): Str {
    if parts == [] then []
    else if |parts| == 1 then parts[0]
    else parts[0] + [sep] + Join(parts[1..], sep)
  }

  lemma SplitHead(head: Str, sep: Unit, rest: Str)
    requires sep !in head
    ensures Split(head + [sep] + rest, sep) == [head] + Split(rest, sep)
  {
    var s := head + [sep] + rest;
    FirstOccurrence(head, sep, rest);
    assert s[..|head|] == head;
    assert s[|head| + 1..] == rest;
  }

  lemma SplitWhole(s: Str, sep: Unit)
    requires sep !in s
    ensures Split(s, sep) == [s]
  {
    IndexOfFirst(s, sep);
  }

  lemma {:induction false} SplitJoin(parts: seq<Str>, sep: Unit)
    requires parts != [] && NoneHas(parts, sep)
    ensures Split(Join(parts, sep), sep) == parts
  {
    hide Split;
    if |parts| == 1 {
      SplitWhole(parts[0], sep);
      assert parts == [parts[0]];
    } else {
      SplitHead(parts[0], sep, Join(parts[1..], sep));
      SplitJoin(parts[1..], sep);
    }
  }

  /** The lines of a text as a line reader yields them: no empty last line. */
  function LinesOf(text: Str): seq<Str> {
    var parts := Split(text, NEWLINE);
    if parts[|parts| - 1] == [] then parts[..|parts| - 1] else parts
  }

  // ------------------------------------------------------------- walking a text by lines

  /** A cursor at `pos` with `n` pieces of the split behind it. */
  ghost predicate Cursor(s: Str, sep: Unit, pos: nat, n: nat) {
    && n <= |Split(s, sep)|
    && (if pos <= |s| then Split(s[pos..], sep) == Split(s, sep)[n..] else n == |Split(s, sep)|)
  }

  lemma CursorStart(s: Str, sep: Unit)
    ensures Cursor(s, sep, 0, 0)
  {
    assert s[0..] == s;
  }

  /** The end of the piece the cursor stands on. */
  function PieceEnd(s: Str, sep: Unit, pos: nat): (end: nat)
    requires pos <= |s|
    ensures pos <= end <= |s|
  {
    var i := IndexOf(s[pos..], sep);
    if i < 0 then |s| else pos + i
  }

  /** The piece up to the next separator is the next piece of the split. */
  lemma CursorStep(s: Str, sep: Unit, pos: nat, n: nat)
    requires pos <= |s| && Cursor(s, sep, pos, n)
    ensures n < |Split(s, sep)| && Split(s, sep)[n] == s[pos..PieceEnd(s, sep, pos)]
    ensures Cursor(s, sep, PieceEnd(s, sep, pos) + 1, n + 1)
  {
    var rest, parts := s[pos..], Split(s, sep);
    var i, end := IndexOf(rest, sep), PieceEnd(s, sep, pos);
    assert parts[n..][0] == parts[n];
    if i >= 0 {
      assert rest[..i] == s[pos..end];
      assert rest[i + 1..] == s[end + 1..];
      assert parts[n..][1..] == parts[n + 1..];
    } else {
      assert rest == s[pos..end];
      assert |parts[n..]| == 1;
    }
  }

  lemma CursorEnd(s: Str, sep: Unit, n: nat)
    requires Cursor(s, sep, |s|, n)
    ensures n + 1 == |Split(s, sep)| && Split(s, sep)[n] == []
  {
    assert s[|s|..] == [];
    assert Split(s, sep)[n..][0] == Split(s, sep)[n];
  }
}
