/** The domain wing's two line formats: abuse.ch CSV in, and the cached metadata table both ways. */
module Domains {
  import opened Text
  import opened Sorting
  import opened Wire

  // ------------------------------------------------------------------------------------ CSV

  /** What is left of a CSV line, with a field begun. */
  function Csv(s: Str, field: Str, quoted: bool): (fields: seq<Str>)
    ensures fields != []
    decreases |s|
  {
    if s == [] then [Trim(field)]
    else if quoted then
      if s[0] == QUOTE then
        if |s| > 1 && s[1] == QUOTE then Csv(s[2..], field + [QUOTE], true) else Csv(s[1..], field, false)
      else Csv(s[1..], field + [s[0]], true)
    else if s[0] == QUOTE then Csv(s[1..], field, true)
    else if s[0] == COMMA then [Trim(field)] + Csv(s[1..], [], false)
    else Csv(s[1..], field + [s[0]], false)
  }

  /** `parseCsvLine`. */
  method ParseCsvLine(line: Str) returns (out: seq<Str>)
    ensures out == Csv(line, [], false)
  {
    hide Trim;
    out := [];
    var field: Str, quoted := [], false;
    var i := 0;
    assert line[0..] == line;
    while i < |line|
      invariant 0 <= i <= |line|
      invariant out + Csv(line[i..], field, quoted) == Csv(line, [], false)
    {
      ghost var rest := line[i..];
      assert rest[1..] == line[i + 1..] && (|rest| > 1 ==> rest[1] == line[i + 1] && rest[2..] == line[i + 2..]);
      var c := line[i];
      if quoted {
        if c == QUOTE {
          if i + 1 < |line| && line[i + 1] == QUOTE {
            field, i := field + [QUOTE], i + 1;
          } else {
            quoted := false;
          }
        } else {
          field := field + [c];
        }
      } else if c == QUOTE {
        quoted := true;
      } else if c == COMMA {
        ghost var was := out;
        out := out + [Trim(field)];
        assert was + ([Trim(field)] + Csv(rest[1..], [], false)) == out + Csv(rest[1..], [], false);
        field := [];
      } else {
        field := field + [c];
      }
      i := i + 1;
    }
    assert line[i..] == [];
    out := out + [Trim(field)];
  }

  /** Quotes doubled, as section 2 of RFC 4180 has it. */
  function Doubled(s: Str): Str {
    if s == [] then [] else (if s[0] == QUOTE then [QUOTE, QUOTE] else [s[0]]) + Doubled(s[1..])
  }

  function Quoted(field: Str): Str {
    [QUOTE] + Doubled(field) + [QUOTE]
  }

  /** Quoted fields with a comma and a space between them. */
  function WrittenCsv(fields: seq<Str>): Str {
    if fields == [] then []
    else if |fields| == 1 then Quoted(fields[0])
    else Quoted(fields[0]) + [COMMA, SPACE] + WrittenCsv(fields[1..])
  }

  function Trimmed(fields: seq<Str>): seq<Str> {
    if fields == [] then [] else [Trim(fields[0])] + Trimmed(fields[1..])
  }

  /** A quoted body reads as what was quoted, commas and quotes and all. */
  lemma {:induction false} QuotedReads(body: Str, rest: Str, field: Str)
    requires rest == [] || rest[0] != QUOTE
    ensures Csv(Doubled(body) + [QUOTE] + rest, field, true) == Csv(rest, field + body, false)
  {
    hide Trim;
    var s := Doubled(body) + [QUOTE] + rest;
    if body == [] {
      assert s == [QUOTE] + rest && s[1..] == rest && field + body == field;
    } else if body[0] == QUOTE {
      assert s == [QUOTE, QUOTE] + (Doubled(body[1..]) + [QUOTE] + rest);
      assert s[2..] == Doubled(body[1..]) + [QUOTE] + rest;
      QuotedReads(body[1..], rest, field + [QUOTE]);
      assert field + [QUOTE] + body[1..] == field + body;
    } else {
      assert s == [body[0]] + (Doubled(body[1..]) + [QUOTE] + rest);
      assert s[1..] == Doubled(body[1..]) + [QUOTE] + rest;
      QuotedReads(body[1..], rest, field + [body[0]]);
      assert field + [body[0]] + body[1..] == field + body;
    }
  }

  /** A blank in front of a field is trimmed with it. */
  lemma SpaceTrims(s: Str)
    ensures Trim([SPACE] + s) == Trim(s)
  {
    assert ([SPACE] + s)[1..] == s;
  }

  /** The reader's steps outside quotes. */
  lemma UnquotedSteps(field: Str, rest: Str)
    ensures Csv([QUOTE] + rest, field, false) == Csv(rest, field, true)
    ensures Csv([COMMA] + rest, field, false) == [Trim(field)] + Csv(rest, [], false)
    ensures Csv([SPACE] + rest, field, false) == Csv(rest, field + [SPACE], false)
    ensures Csv([], field, false) == [Trim(field)]
  {
    hide Trim;
    assert ([QUOTE] + rest)[1..] == rest && ([COMMA] + rest)[1..] == rest && ([SPACE] + rest)[1..] == rest;
  }

  lemma {:induction false} WrittenReadsFrom(fields: seq<Str>, lead: Str)
    requires fields != [] && (lead == [] || lead == [SPACE])
    ensures Csv(WrittenCsv(fields), lead, false) == Trimmed(fields)
    decreases |fields|
  {
    hide Trim;
    hide Csv;
    hide Doubled;
    var f := fields[0];
    var rest: Str := if |fields| == 1 then [] else [COMMA] + ([SPACE] + WrittenCsv(fields[1..]));
    assert WrittenCsv(fields) == [QUOTE] + (Doubled(f) + [QUOTE] + rest);
    UnquotedSteps(lead, Doubled(f) + [QUOTE] + rest);
    QuotedReads(f, rest, lead);
    SpaceTrims(f);
    assert [] + f == f;
    if |fields| == 1 {
      assert Trimmed(fields[1..]) == [];
      UnquotedSteps(lead + f, []);
    } else {
      var tail := WrittenCsv(fields[1..]);
      UnquotedSteps(lead + f, [SPACE] + tail);
      UnquotedSteps([], tail);
      assert [] + [SPACE] == [SPACE];
      WrittenReadsFrom(fields[1..], [SPACE]);
    }
  }

  /** The parser inverts the quoted writer up to trimming. */
  lemma CsvRoundTrip(fields: seq<Str>)
    requires fields != []
    ensures Csv(WrittenCsv(fields), [], false) == Trimmed(fields)
  {
    WrittenReadsFrom(fields, []);
  }

  // -------------------------------------------------------------------------- metadata table

  datatype Meta = Meta(family: Str, confidence: nat, compromised: bool, firstSeen: Str)

  type Table = map<Str, Meta>

  const COMPROMISED: Str := [99]
  const LIVE: Str := [45]

  /** `family.replace(/[\t\n]/g, ' ')`. */
  function Flattened(s: Str): (r: Str)
    ensures |r| == |s| && TAB !in r && NEWLINE !in r
    ensures TAB !in s && NEWLINE !in s ==> r == s
  {
    seq(|s|, i requires 0 <= i < |s| => if s[i] == TAB || s[i] == NEWLINE then SPACE else s[i])
  }

  function MetaFields(domain: Str, m: Meta): seq<Str> {
    [domain, Flattened(m.family), Decimal(m.confidence), if m.compromised then COMPROMISED else LIVE, m.firstSeen]
  }

  function MetaLine(domain: Str, m: Meta): Str {
    Join(MetaFields(domain, m), TAB)
  }

  /** JavaScript's default sort: by UTF-16 units. */
  predicate UnitsBefore(a: Str, b: Str) { Lex(a, b) < 0 }

  lemma UnitsBeforeIsStrict()
    ensures StrictOrder(UnitsBefore)
  {
    forall a: Str, b: Str ensures a == b || UnitsBefore(a, b) || UnitsBefore(b, a) {
      LexZero(a, b);
      LexFlip(a, b);
    }
    forall a: Str ensures !UnitsBefore(a, a) {
      LexZero(a, a);
    }
    forall a: Str, b: Str, c: Str | UnitsBefore(a, b) && UnitsBefore(b, c) ensures UnitsBefore(a, c) {
      LexTransitive(a, b, c);
    }
  }

  function LinesFor(keys: seq<Str>, table: Table): (lines: seq<Str>)
    requires forall i :: 0 <= i < |keys| ==> keys[i] in table
    ensures |lines| == |keys| && forall i :: 0 <= i < |keys| ==> lines[i] == MetaLine(keys[i], table[keys[i]])
  {
    seq(|keys|, i requires 0 <= i < |keys| => MetaLine(keys[i], table[keys[i]]))
  }

  /** `metaTableLines`, joined. */
  ghost function MetaText(table: Table): Str {
    UnitsBeforeIsStrict();
    var keys := Sorted(UnitsBefore, table.Keys);
    assert forall i :: 0 <= i < |keys| ==> keys[i] in Elements(keys);
    TextOf(LinesFor(keys, table))
  }

  /** `Number(text) || 0` on the texts the table holds. */
  type NumberReader = Str -> nat

  predicate ReadsDecimals(number: NumberReader, n: nat) {
    number(Decimal(n)) == n
  }

  /** One line of `parseMetaTable`'s loop. */
  function AddMeta(table: Table, line: Str, number: NumberReader): Table {
    var f := Split(line, TAB);
    if line == [] || |f| < 5 then table
    else table[f[0] := Meta(f[1], number(f[2]), f[3] == COMPROMISED, f[4])]
  }

  function MetaFrom(lines: seq<Str>, number: NumberReader): Table {
    if lines == [] then map[] else AddMeta(MetaFrom(lines[..|lines| - 1], number), lines[|lines| - 1], number)
  }

  /** `parseMetaTable` over the lines a line reader yields. */
  method ParseMetaTable(lines: seq<Str>, number: NumberReader) returns (meta: Table)
    ensures meta == MetaFrom(lines, number)
  {
    hide Split;
    meta := map[];
    assert lines[..0] == [];
    for i := 0 to |lines|
      invariant meta == MetaFrom(lines[..i], number)
    {
      assert lines[..i + 1][..i] == lines[..i];
      var line := lines[i];
      if line != [] {
        var f := Split(line, TAB);
        if |f| >= 5 {
          meta := meta[f[0] := Meta(f[1], number(f[2]), f[3] == COMPROMISED, f[4])];
        }
      }
    }
    assert lines[..|lines|] == lines;
  }

  predicate Plain(s: Str) { TAB !in s && NEWLINE !in s }

  predicate CleanMeta(domain: Str, m: Meta) {
    Plain(domain) && Plain(m.family) && Plain(m.firstSeen)
  }

  ghost predicate CleanTable(table: Table) {
    forall d :: d in table ==> CleanMeta(d, table[d])
  }

  lemma DecimalPlain(n: nat)
    ensures Plain(Decimal(n))
  {
    DecimalValue(n);
  }

  lemma MetaLineReads(domain: Str, m: Meta, number: NumberReader, table: Table)
    requires CleanMeta(domain, m) && ReadsDecimals(number, m.confidence)
    ensures AddMeta(table, MetaLine(domain, m), number) == table[domain := m] && OneLine(MetaLine(domain, m))
  {
    hide Split;
    hide Flattened;
    hide Decimal;
    var fs := MetaFields(domain, m);
    DecimalPlain(m.confidence);
    assert NoneHas(fs, TAB) && NoneHas(fs, NEWLINE);
    SplitJoin(fs, TAB);
    JoinHas(fs, NEWLINE);
    assert MetaLine(domain, m) != [] by {
      JoinLong(fs);
    }
  }

  lemma {:induction false} JoinHas(parts: seq<Str>, u: Unit)
    requires NoneHas(parts, u) && u != TAB
    ensures u !in Join(parts, TAB)
  {
    if |parts| > 1 {
      JoinHas(parts[1..], u);
    }
  }

  lemma JoinLong(parts: seq<Str>)
    requires |parts| > 1
    ensures Join(parts, TAB) != []
  {
  }

  function Restricted(table: Table, keys: set<Str>): Table {
    map d | d in table && d in keys :: table[d]
  }

  lemma NothingRestricted(table: Table)
    ensures Restricted(table, Elements([])) == map[]
  {
  }

  lemma RestrictedSnoc(table: Table, keys: seq<Str>)
    requires keys != [] && keys[|keys| - 1] in table
    ensures (var last := keys[|keys| - 1];
             Restricted(table, Elements(keys[..|keys| - 1]))[last := table[last]] == Restricted(table, Elements(keys)))
  {
    var init, last := keys[..|keys| - 1], keys[|keys| - 1];
    assert keys == init + [last];
    assert Elements(keys) == Elements(init) + {last};
  }

  lemma {:induction false} CleanLinesRead(keys: seq<Str>, table: Table, number: NumberReader)
    requires CleanTable(table) && forall i :: 0 <= i < |keys| ==> keys[i] in table
    requires forall d :: d in table ==> ReadsDecimals(number, table[d].confidence)
    ensures AllOneLine(LinesFor(keys, table))
    ensures MetaFrom(LinesFor(keys, table), number) == Restricted(table, Elements(keys))
    decreases |keys|
  {
    hide AddMeta;
    hide MetaLine;
    hide CleanMeta;
    hide Elements;
    hide Restricted;
    if keys == [] {
      NothingRestricted(table);
    } else {
      var init, last := keys[..|keys| - 1], keys[|keys| - 1];
      CleanLinesRead(init, table, number);
      assert LinesFor(keys, table)[..|init|] == LinesFor(init, table);
      MetaLineReads(last, table[last], number, MetaFrom(LinesFor(init, table), number));
      RestrictedSnoc(table, keys);
      forall i | 0 <= i < |keys| ensures OneLine(LinesFor(keys, table)[i]) {
        if i < |init| {
          assert LinesFor(init, table)[i] == LinesFor(keys, table)[i];
        }
      }
    }
  }

  /** Whatever is parsed holds no tab and no newline. */
  lemma {:induction false} ReadIsCleanMeta(lines: seq<Str>, number: NumberReader)
    requires AllOneLine(lines)
    ensures CleanTable(MetaFrom(lines, number))
  {
    if lines != [] {
      var init, line := lines[..|lines| - 1], lines[|lines| - 1];
      ReadIsCleanMeta(init, number);
      SplitParts(line, TAB);
      PiecesOf(line, NEWLINE);
    }
  }

  /** The pieces of a line hold nothing the line does not. */
  lemma {:induction false} PiecesOf(s: Str, u: Unit)
    requires u !in s
    ensures NoneHas(Split(s, TAB), u)
  {
    var i := IndexOf(s, TAB);
    if i >= 0 {
      PiecesOf(s[i + 1..], u);
    }
  }

  lemma NoNewlineInLines(text: Str)
    ensures AllOneLine(LinesOf(text))
  {
    hide Split;
    SplitParts(text, NEWLINE);
  }

  lemma MetaTextIs(table: Table) returns (keys: seq<Str>)
    ensures Elements(keys) == table.Keys && forall i :: 0 <= i < |keys| ==> keys[i] in table
    ensures StrictOrder(UnitsBefore) && keys == Sorted(UnitsBefore, table.Keys)
    ensures MetaText(table) == TextOf(LinesFor(keys, table))
  {
    hide LinesFor;
    UnitsBeforeIsStrict();
    keys := Sorted(UnitsBefore, table.Keys);
    assert forall i :: 0 <= i < |keys| ==> keys[i] in Elements(keys);
  }

  /** `metaTableLines`, written out line by line. */
  method WriteMetaTable(table: Table) returns (text: Str)
    ensures text == MetaText(table)
  {
    hide MetaLine;
    hide Elements;
    hide StrictOrder;
    hide SortedBy;
    hide MetaText;
    hide TextOf;
    ghost var sorted := MetaTextIs(table);
    var keys := SortSet(UnitsBefore, table.Keys);
    ghost var lines := LinesFor(keys, table);
    text := [];
    assert lines[..0] == [] && TextOf([]) == [] by {
      NoText();
    }
    for i := 0 to |keys|
      invariant text == TextOf(lines[..i])
    {
      assert lines[..i + 1] == lines[..i] + [lines[i]];
      TextSnoc(lines[..i], lines[i]);
      text := text + (MetaLine(keys[i], table[keys[i]]) + [NEWLINE]);
    }
    assert lines[..|keys|] == lines;
  }

  lemma NoText()
    ensures TextOf([]) == []
  {
  }

  lemma {:induction false} TextSnoc(lines: seq<Str>, line: Str)
    ensures TextOf(lines + [line]) == TextOf(lines) + (line + [NEWLINE])
  {
    if lines == [] {
      assert [] + [line] == [line] && [line][1..] == [];
      assert line + [NEWLINE] + [] == line + [NEWLINE];
    } else {
      assert (lines + [line])[1..] == lines[1..] + [line];
      TextSnoc(lines[1..], line);
    }
  }

  lemma CleanTableReads(table: Table, number: NumberReader)
    requires CleanTable(table) && forall d :: d in table ==> ReadsDecimals(number, table[d].confidence)
    ensures MetaFrom(LinesOf(MetaText(table)), number) == table
  {
    hide Split;
    hide MetaFrom;
    hide CleanTable;
    hide LinesFor;
    hide TextOf;
    hide MetaText;
    hide Elements;
    var keys := MetaTextIs(table);
    var lines := LinesFor(keys, table);
    CleanLinesRead(keys, table, number);
    SplitText(lines);
    assert (lines + [[]])[..|lines|] == lines;
    assert LinesOf(MetaText(table)) == lines;
    assert Restricted(table, table.Keys) == table;
  }

  /** The table survives being written and read back exactly when no field holds a separator. */
  lemma MetaRoundTrip(table: Table, number: NumberReader)
    requires forall d :: d in table ==> ReadsDecimals(number, table[d].confidence)
    ensures MetaFrom(LinesOf(MetaText(table)), number) == table <==> CleanTable(table)
  {
    hide MetaFrom;
    hide CleanTable;
    hide MetaText;
    hide LinesOf;
    NoNewlineInLines(MetaText(table));
    ReadIsCleanMeta(LinesOf(MetaText(table)), number);
    if CleanTable(table) {
      CleanTableReads(table, number);
    }
  }
}
