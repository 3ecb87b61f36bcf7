/** The text of a delta: `deltaLines` and `parseDelta`. */
module DeltaText {
  import opened Text
  import opened Delta
  import opened Wire

  datatype Number = Missing | Given(value: nat)
  datatype Parsed = Parsed(from: Number, to: Number, ops: seq<Op>)

  // ----------------------------------------------------------------------------- writing

  function OpLine(o: Op): Str {
    match o
    case Del(k) => [MINUS, TAB] + k
    case Put(k, spec) => [PLUS, TAB] + (k + [TAB] + spec)
  }

  function OpLines(ops: seq<Op>): (lines: seq<Str>)
    ensures |lines| == |ops| && forall i :: 0 <= i < |ops| ==> lines[i] == OpLine(ops[i])
  {
    seq(|ops|, i requires 0 <= i < |ops| => OpLine(ops[i]))
  }

  function DeltaHead(from: nat, to: nat): (lines: seq<Str>)
    ensures AllOneLine(lines)
  {
    [Comment(" moat-packages-delta v1"), Comment(" from ") + Decimal(from), Comment(" to ") + Decimal(to)]
  }

  /** `serializeDelta`. */
  function Serialize(from: nat, to: nat, ops: seq<Op>): Str {
    TextOf(DeltaHead(from, to) + OpLines(ops))
  }

  // ----------------------------------------------------------------------------- reading

  /** The end of a run of what `\s` matches in a regular expression. */
  function SkipSpace(s: Str, i: nat): (j: nat)
    requires i <= |s|
    ensures i <= j <= |s|
    decreases |s| - i
  {
    if i < |s| && IsBlank(s[i]) then SkipSpace(s, i + 1) else i
  }

  datatype Header = NoHeader | From(n: nat) | To(n: nat)

  predicate StartsAt(s: Str, i: nat, word: Str) {
    i + |word| <= |s| && s[i..i + |word|] == word
  }

  /** Digits to the end of the line after at least one space. */
  function NumberAt(s: Str, i: nat): Number
    requires i <= |s|
  {
    var j := SkipSpace(s, i);
    if j == i || j == |s| || exists k :: j <= k < |s| && !IsDigit(s[k]) then Missing
    else Given(Value(s[j..]))
  }

  const FROM: Str := [102, 114, 111, 109]
  const TO: Str := [116, 111]

  /** The pattern `/^#\s+(from|to)\s+(\d+)$/` on a line that starts with `#`. */
  function HeaderOf(line: Str): Header
    requires line != []
  {
    var i := SkipSpace(line, 1);
    if i == 1 then NoHeader
    else if StartsAt(line, i, FROM) then
      match NumberAt(line, i + 4) case Given(n) => From(n) case Missing => NoHeader
    else if StartsAt(line, i, TO) then
      match NumberAt(line, i + 2) case Given(n) => To(n) case Missing => NoHeader
    else NoHeader
  }

  /** One line of a delta file. */
  function ReadLine(p: Parsed, line: Str): Parsed {
    if line == [] then p
    else if line[0] == HASH then
      match HeaderOf(line)
      case NoHeader => p
      case From(n) => p.(from := Given(n))
      case To(n) => p.(to := Given(n))
    else if |line| < 2 || line[1] != TAB then p
    else if line[0] == MINUS then p.(ops := p.ops + [Del(line[2..])])
    else if line[0] == PLUS then
      var t := LastIndexOf(line[2..], TAB);
      if t < 0 then p else p.(ops := p.ops + [Put(line[2..][..t], line[2..][t + 1..])])
    else p
  }

  function ReadLines(p: Parsed, lines: seq<Str>): Parsed {
    if lines == [] then p else ReadLine(ReadLines(p, lines[..|lines| - 1]), lines[|lines| - 1])
  }

  const NOTHING_READ := Parsed(Missing, Missing, [])

  function Parse(text: Str): Parsed {
    ReadLines(NOTHING_READ, Split(text, NEWLINE))
  }

  /** The body of `parseDelta`'s loop. */
  method TakeLine(line: Str, p: Parsed) returns (q: Parsed)
    ensures q == ReadLine(p, line)
  {
    hide HeaderOf;
    hide LastIndexOf;
    q := p;
    if line != [] {
      if line[0] == HASH {
        match HeaderOf(line)
        case NoHeader =>
        case From(n) => q := q.(from := Given(n));
        case To(n) => q := q.(to := Given(n));
      } else if |line| >= 2 && line[1] == TAB {
        var rest := line[2..];
        if line[0] == MINUS {
          q := q.(ops := q.ops + [Del(rest)]);
        } else if line[0] == PLUS {
          var t := LastIndexOf(rest, TAB);
          if t >= 0 {
            q := q.(ops := q.ops + [Put(rest[..t], rest[t + 1..])]);
          }
        }
      }
    }
  }

  /** `parseDelta`: one pass over the lines, filling the result as it goes. */
  method ParseDelta(text: Str) returns (p: Parsed)
    ensures p == Parse(text)
  {
    hide ReadLine;
    hide Split;
    var lines := Split(text, NEWLINE);
    p := NOTHING_READ;
    assert lines[..0] == [];
    for i := 0 to |lines|
      invariant p == ReadLines(NOTHING_READ, lines[..i])
    {
      assert lines[..i + 1][..i] == lines[..i];
      p := TakeLine(lines[i], p);
    }
    assert lines[..|lines|] == lines;
  }

  // -------------------------------------------------------------------------- round trip

  /** What an op needs to survive its line. */
  predicate CleanOp(o: Op) {
    OneLine(o.key) && (o.Put? ==> OneLine(o.spec) && TAB !in o.spec)
  }

  predicate CleanOps(ops: seq<Op>) {
    forall i :: 0 <= i < |ops| ==> CleanOp(ops[i])
  }

  lemma ReadOpLine(p: Parsed, o: Op)
    requires CleanOp(o)
    ensures ReadLine(p, OpLine(o)) == p.(ops := p.ops + [o])
    ensures OneLine(OpLine(o))
  {
    var line := OpLine(o);
    match o
    case Del(k) => assert line[2..] == k;
    case Put(k, spec) =>
      var rest := k + [TAB] + spec;
      assert line[2..] == rest;
      LastOccurrence(k, TAB, spec);
      assert rest[..|k|] == k && rest[|k| + 1..] == spec;
  }

  /** What the last tab splits off. */
  lemma LastTabSplits(rest: Str, k: Str, spec: Str)
    ensures var t := LastIndexOf(rest, TAB);
            t >= 0 && rest[..t] == k && rest[t + 1..] == spec <==> rest == k + [TAB] + spec && TAB !in spec
  {
    LastIndexOfLast(rest, TAB);
    var t := LastIndexOf(rest, TAB);
    if t >= 0 {
      assert rest == rest[..t] + [TAB] + rest[t + 1..];
    }
    if rest == k + [TAB] + spec && TAB !in spec {
      LastOccurrence(k, TAB, spec);
      assert rest[..|k|] == k && rest[|k| + 1..] == spec;
    }
  }

  lemma OpLineParts(line: Str, o: Op)
    requires |line| >= 2
    ensures line == OpLine(o) <==>
              line[1] == TAB
              && match o
                 case Del(k) => line[0] == MINUS && line[2..] == k
                 case Put(k, spec) => line[0] == PLUS && line[2..] == k + [TAB] + spec
  {
    assert line == [line[0], line[1]] + line[2..];
    assert OpLine(o)[2..] == match o case Del(k) => k case Put(k, spec) => k + [TAB] + spec;
  }

  /** A line adds an op exactly when it is that op's own line and the spec holds no tab; so each
      op read is one that was written so. */
  lemma OpReadIff(p: Parsed, line: Str, o: Op)
    ensures ReadLine(p, line).ops == p.ops + [o] <==> line == OpLine(o) && (o.Put? ==> TAB !in o.spec)
  {
    hide HeaderOf;
    hide LastIndexOf;
    hide OpLine;
    assert p.ops + [o] != p.ops && (p.ops + [o])[|p.ops|] == o;
    assert |OpLine(o)| >= 2 by {
      OpLineLong(o);
    }
    if |line| >= 2 {
      OpLineParts(line, o);
      if o.Put? {
        LastTabSplits(line[2..], o.key, o.spec);
      }
    }
  }

  lemma OpLineLong(o: Op)
    ensures |OpLine(o)| >= 2
  {
  }

  lemma {:induction false} ReadOpLines(p: Parsed, ops: seq<Op>)
    requires CleanOps(ops)
    ensures ReadLines(p, OpLines(ops)) == p.(ops := p.ops + ops)
    ensures AllOneLine(OpLines(ops))
  {
    hide ReadLine;
    hide OpLine;
    hide CleanOp;
    if ops == [] {
      assert p.ops + ops == p.ops;
    } else {
      var init, last := ops[..|ops| - 1], ops[|ops| - 1];
      ReadOpLines(p, init);
      ReadOpLine(p.(ops := p.ops + init), last);
      var lines := OpLines(ops);
      assert lines[..|lines| - 1] == OpLines(init);
      assert p.ops + init + [last] == p.ops + ops;
      assert forall i :: 0 <= i < |init| ==> lines[i] == OpLines(init)[i];
    }
  }

  lemma {:induction false} ReadConcat(p: Parsed, a: seq<Str>, b: seq<Str>)
    ensures ReadLines(p, a + b) == ReadLines(ReadLines(p, a), b)
  {
    if b == [] {
      assert a + b == a;
    } else {
      ReadConcat(p, a, b[..|b| - 1]);
      assert (a + b)[..|a + b| - 1] == a + b[..|b| - 1];
      assert (a + b)[|a + b| - 1] == b[|b| - 1];
    }
  }

  lemma DecimalAt(line: Str, i: nat, n: nat)
    requires i + 1 <= |line| && line[i] == SPACE && line[i + 1..] == Decimal(n)
    ensures NumberAt(line, i) == Given(n)
  {
    DecimalValue(n);
    var d := line[i + 1..];
    assert d[0] in d && line[i + 1] == d[0];
    assert SkipSpace(line, i) == i + 1;
    forall k | i + 1 <= k < |line| ensures IsDigit(line[k]) {
      assert line[k] == d[k - i - 1] && d[k - i - 1] in d;
    }
  }

  lemma ReadHead(from: nat, to: nat)
    ensures ReadLines(NOTHING_READ, DeltaHead(from, to)) == Parsed(Given(from), Given(to), [])
  {
    hide HeaderOf;
    hide Decimal;
    var lines := DeltaHead(from, to);
    TitleIsNoHeader();
    FromIsHeader(from);
    ToIsHeader(to);
    assert lines[..2][..1] == lines[..1];
    assert ReadLines(NOTHING_READ, lines[..1]) == NOTHING_READ;
    assert ReadLines(NOTHING_READ, lines[..2]) == NOTHING_READ.(from := Given(from));
  }

  /** One space after the `#`. */
  lemma CommentGap(line: Str)
    requires |line| > 2 && line[1] == SPACE && !IsBlank(line[2])
    ensures SkipSpace(line, 1) == 2
  {
    assert SkipSpace(line, 2) == 2;
  }

  lemma TitleIsNoHeader()
    ensures HeaderOf(Comment(" moat-packages-delta v1")) == NoHeader
  {
    hide SkipSpace;
    hide NumberAt;
    var line := Comment(" moat-packages-delta v1");
    assert line[1] == 32 && line[2] == 109;
    CommentGap(line);
    assert line[2..6][0] == 109 && line[2..4][0] == 109;
  }

  lemma FromIsHeader(n: nat)
    ensures HeaderOf(Comment(" from ") + Decimal(n)) == From(n)
  {
    hide SkipSpace;
    hide NumberAt;
    hide Decimal;
    var line := Comment(" from ") + Decimal(n);
    assert line[1] == 32 && line[2] == 102 && line[3] == 114 && line[4] == 111 && line[5] == 109 && line[6] == 32;
    CommentGap(line);
    assert line[2..6] == FROM;
    assert line[7..] == Decimal(n);
    DecimalAt(line, 6, n);
  }

  lemma ToIsHeader(n: nat)
    ensures HeaderOf(Comment(" to ") + Decimal(n)) == To(n)
  {
    hide SkipSpace;
    hide NumberAt;
    hide Decimal;
    var line := Comment(" to ") + Decimal(n);
    assert line[1] == 32 && line[2] == 116 && line[3] == 111 && line[4] == 32;
    CommentGap(line);
    assert |line| >= 6 ==> line[2..6][0] == 116;
    assert line[2..4] == TO;
    assert line[5..] == Decimal(n);
    DecimalAt(line, 4, n);
  }

  /** Whatever is read is clean. */
  lemma {:induction false} ReadOpsClean(p: Parsed, lines: seq<Str>)
    requires AllOneLine(lines) && CleanOps(p.ops)
    ensures CleanOps(ReadLines(p, lines).ops)
  {
    if lines != [] {
      var line := lines[|lines| - 1];
      ReadOpsClean(p, lines[..|lines| - 1]);
      if |line| >= 2 {
        LastIndexOfLast(line[2..], TAB);
      }
    }
  }

  /** A delta reads back as it was written exactly when no key or spec holds a newline and no
      spec holds a tab. */
  lemma DeltaRoundTrip(from: nat, to: nat, ops: seq<Op>)
    ensures Parse(Serialize(from, to, ops)) == Parsed(Given(from), Given(to), ops) <==> CleanOps(ops)
  {
    var lines := Split(Serialize(from, to, ops), NEWLINE);
    SplitParts(Serialize(from, to, ops), NEWLINE);
    ReadOpsClean(NOTHING_READ, lines);
    if CleanOps(ops) {
      CleanDeltaReadsBack(from, to, ops);
    }
  }

  lemma ReadBlank(p: Parsed, lines: seq<Str>)
    ensures ReadLines(p, lines + [[]]) == ReadLines(p, lines)
  {
    assert (lines + [[]])[..|lines|] == lines;
  }

  lemma CleanDeltaReadsBack(from: nat, to: nat, ops: seq<Op>)
    requires CleanOps(ops)
    ensures Parse(Serialize(from, to, ops)) == Parsed(Given(from), Given(to), ops)
  {
    hide ReadLines;
    hide DeltaHead;
    hide OpLines;
    hide Split;
    hide TextOf;
    hide CleanOps;
    var head, body := DeltaHead(from, to), OpLines(ops);
    var start := Parsed(Given(from), Given(to), []);
    ReadHead(from, to);
    ReadOpLines(start, ops);
    ReadConcat(NOTHING_READ, head, body);
    SplitText(head + body);
    var all := head + body;
    ReadBlank(NOTHING_READ, all);
    assert [] + ops == ops;
  }
}
