/** Archives in the ustar interchange format of the POSIX pax utility, with GNU long names and
    ASCII pax records, written from names and bodies, and the proof that the reader recovers
    them. */
module TarFormat {
  import opened Wrappers
  import opened Wire
  import opened Stream
  import opened Tar

  function Zeros(n: nat): (z: Bytes)
    ensures |z| == n
  {
    seq(n, _ => 0)
  }

  // --------------------------------------------------------------------- number fields

  /** `n` in base `radix` with exactly `width` digits. */
  function Digits(n: nat, radix: nat, width: nat): (s: Bytes)
    requires 2 <= radix <= 10
    ensures |s| == width && forall i :: 0 <= i < |s| ==> DigitBelow(s[i], radix)
  {
    if width == 0 then [] else Digits(n / radix, radix, width - 1) + [48 + n % radix]
  }

  function Power(b: nat, e: nat): nat {
    if e == 0 then 1 else b * Power(b, e - 1)
  }

  lemma {:induction false} LeadingAppend(s: Bytes, d: Byte, rest: Bytes, radix: nat, acc: nat)
    requires forall i :: 0 <= i < |s| ==> DigitBelow(s[i], radix)
    requires DigitBelow(d, radix) && (rest == [] || !DigitBelow(rest[0], radix))
    ensures LeadingNumber(s + [d] + rest, radix, acc) == LeadingNumber(s, radix, acc) * radix + (d - 48)
  {
    if s == [] {
      assert (s + [d] + rest)[0] == d && (s + [d] + rest)[1..] == rest;
    } else {
      assert (s + [d] + rest)[0] == s[0] && (s + [d] + rest)[1..] == s[1..] + [d] + rest;
      LeadingAppend(s[1..], d, rest, radix, acc * radix + (s[0] - 48));
    }
  }

  lemma NoDigits(rest: Bytes, radix: nat)
    requires rest == [] || !DigitBelow(rest[0], radix)
    ensures LeadingNumber(rest, radix, 0) == 0
  {
  }

  lemma {:induction false} DigitsRead(n: nat, radix: nat, width: nat, rest: Bytes)
    requires 2 <= radix <= 10 && n < Power(radix, width)
    requires rest == [] || !DigitBelow(rest[0], radix)
    ensures LeadingNumber(Digits(n, radix, width) + rest, radix, 0) == n
  {
    hide LeadingNumber;
    if width == 0 {
      assert Digits(n, radix, width) + rest == rest;
      NoDigits(rest, radix);
    } else {
      SmallerQuotient(n, radix, Power(radix, width - 1));
      DigitsRead(n / radix, radix, width - 1, []);
      var s := Digits(n / radix, radix, width - 1);
      assert s + [] == s;
      LeadingAppend(s, 48 + n % radix, rest, radix, 0);
    }
  }

  lemma ScaleOrder(a: nat, b: nat, k: nat)
    ensures a <= b ==> k * a <= k * b
  {
  }

  lemma SmallerQuotient(n: nat, radix: nat, p: nat)
    requires radix > 0 && n < radix * p
    ensures n / radix < p && n == n / radix * radix + n % radix
  {
    assert n == radix * (n / radix) + n % radix;
    ScaleOrder(p, n / radix, radix);
  }

  lemma {:induction false} NulEnds(s: Bytes, rest: Bytes)
    requires forall i :: 0 <= i < |s| ==> s[i] != 0
    ensures UntilNul(s + [0] + rest) == s
  {
    if s != [] {
      assert (s + [0] + rest)[1..] == s[1..] + [0] + rest;
      NulEnds(s[1..], rest);
    }
  }

  /** A size field of eleven octal digits and a NUL reads as its number. */
  lemma OctalFieldReads(h: Bytes, n: nat)
    requires IsBlock(h) && n < Power(8, 11) && h[124..136] == Digits(n, 8, 11) + [0]
    ensures Size(h) == n
  {
    hide Digits;
    hide Power;
    hide LeadingNumber;
    hide UntilNul;
    var d := Digits(n, 8, 11);
    assert h[124] == h[124..136][0] == d[0];
    assert d + [0] + [] == d + [0];
    NulEnds(d, []);
    DigitsRead(n, 8, 11, []);
    assert d + [] == d;
    assert TrimFront(d) == d;
  }

  // ------------------------------------------------------------------------- pax records

  /** A key and value fit for an ASCII pax record. */
  datatype PaxField = PaxField(key: Bytes, value: Bytes)

  predicate GoodField(f: PaxField) {
    f.key != [] && (forall i :: 0 <= i < |f.key| ==> f.key[i] != 61)
  }

  /** `<len> <key>=<value>\n`, where the length counts the whole record. */
  predicate IsRecord(rec: Bytes, f: PaxField) {
    |rec| > 0 && rec == DecimalBytes(|rec|) + [32] + (f.key + [61] + f.value) + [10]
  }

  function DecimalBytes(n: nat): (s: Bytes)
    ensures s != [] && forall i :: 0 <= i < |s| ==> DigitBelow(s[i], 10)
  {
    var digits := Decimal(n);
    assert forall i :: 0 <= i < |digits| ==> digits[i] in digits;
    digits
  }

  lemma {:induction false} DecimalBytesRead(n: nat, rest: Bytes)
    requires rest == [] || !DigitBelow(rest[0], 10)
    ensures LeadingNumber(DecimalBytes(n) + rest, 10, 0) == n
  {
    if n < 10 {
      assert ([48 + n] + rest)[0] == 48 + n && ([48 + n] + rest)[1..] == rest;
    } else {
      DecimalBytesRead(n / 10, []);
      assert DecimalBytes(n / 10) + [] == DecimalBytes(n / 10);
      LeadingAppend(DecimalBytes(n / 10), 48 + n % 10, rest, 10, 0);
    }
  }

  lemma {:induction false} FirstAt(s: Bytes, b: Byte, i: nat, j: nat)
    requires i <= j < |s| && s[j] == b && forall k :: i <= k < j ==> s[k] != b
    ensures IndexFrom(s, b, i) == j
    decreases j - i
  {
    if i < j {
      FirstAt(s, b, i + 1, j);
    }
  }

  /** The records in order, later ones winning. */
  function Recorded(fields: seq<PaxField>, out: PaxRecords): PaxRecords {
    if fields == [] then out else Recorded(fields[1..], out[fields[0].key := fields[0].value])
  }

  predicate AreRecords(recs: seq<Bytes>, fields: seq<PaxField>) {
    |recs| == |fields| && forall i :: 0 <= i < |recs| ==> IsRecord(recs[i], fields[i]) && GoodField(fields[i])
  }

  lemma AddsField(f: PaxField, out: PaxRecords)
    requires GoodField(f)
    ensures AddRecord(out, f.key + [61] + f.value) == out[f.key := f.value]
  {
    var rec := f.key + [61] + f.value;
    assert rec[|f.key|] == 61 && forall k :: 0 <= k < |f.key| ==> rec[k] == f.key[k];
    FirstAt(rec, 61, 0, |f.key|);
    assert rec[..|f.key|] == f.key && rec[|f.key| + 1..] == f.value;
  }

  lemma PaxStep(text: Bytes, i: nat, sp: nat, len: nat, out: PaxRecords)
    requires i < |text| && IndexFrom(text, 32, i) == sp && ParseInt(text[i..sp], 10) == Some(len) && len > 0
    ensures PaxFrom(text, i, out) == PaxFrom(text, i + len, AddRecord(out, Clamped(text, sp + 1, i + len - 1)))
  {
    hide AddRecord;
    hide IndexFrom;
    hide ParseInt;
    hide Clamped;
  }

  /** Where a record's length, space and field lie in the text around it. */
  lemma RecordPieces(before: Bytes, rec: Bytes, rest: Bytes, f: PaxField)
    requires IsRecord(rec, f)
    ensures (var text, d := before + rec + rest, DecimalBytes(|rec|);
             var i, sp := |before|, |before| + |d|;
             IndexFrom(text, 32, i) == sp && text[i..sp] == d
             && Clamped(text, sp + 1, i + |rec| - 1) == f.key + [61] + f.value)
  {
    hide DecimalBytes;
    hide IndexFrom;
    var text, d, field := before + rec + rest, DecimalBytes(|rec|), f.key + [61] + f.value;
    var i, sp := |before|, |before| + |d|;
    RecordSplit(d, field);
    SliceOf(before, rec, rest, 0, |d|);
    SliceOf(before, rec, rest, |d| + 1, |rec| - 1);
    assert text[sp] == rec[|d|];
    assert forall k :: i <= k < sp ==> text[k] == d[k - i];
    FirstAt(text, 32, i, sp);
  }

  lemma RecordSplit(d: Bytes, field: Bytes)
    ensures (var rec := d + [32] + field + [10];
             rec[..|d|] == d && rec[|d|] == 32 && rec[|d| + 1..|rec| - 1] == field)
  {
  }

  lemma SliceOf(before: Bytes, rec: Bytes, rest: Bytes, a: nat, b: nat)
    requires a <= b <= |rec|
    ensures (before + rec + rest)[|before| + a..|before| + b] == rec[a..b]
  {
  }

  /** Reading one record in the middle of a text. */
  lemma RecordReads(before: Bytes, rec: Bytes, rest: Bytes, f: PaxField, out: PaxRecords)
    requires IsRecord(rec, f) && GoodField(f)
    ensures PaxFrom(before + rec + rest, |before|, out)
         == PaxFrom(before + rec + rest, |before| + |rec|, out[f.key := f.value])
  {
    hide AddRecord;
    hide DecimalBytes;
    hide IndexFrom;
    hide ParseInt;
    hide PaxFrom;
    hide GoodField;
    hide IsRecord;
    RecordPieces(before, rec, rest, f);
    LengthReads(|rec|);
    AddsField(f, out);
    PaxStep(before + rec + rest, |before|, |before| + |DecimalBytes(|rec|)|, |rec|, out);
  }

  lemma LengthReads(n: nat)
    ensures ParseInt(DecimalBytes(n), 10) == Some(n)
  {
    hide DecimalBytes;
    var d := DecimalBytes(n);
    DecimalBytesRead(n, []);
    assert d + [] == d;
    assert DigitBelow(d[0], 10);
    assert TrimFront(d) == d;
  }

  lemma PaxEnds(text: Bytes, out: PaxRecords)
    ensures PaxFrom(text, |text|, out) == out
  {
  }

  lemma {:induction false} RecordsReadFrom(before: Bytes, recs: seq<Bytes>, fields: seq<PaxField>, out: PaxRecords)
    requires AreRecords(recs, fields)
    ensures PaxFrom(before + Flat(recs), |before|, out) == Recorded(fields, out)
    decreases |recs|
  {
    hide IsRecord;
    hide GoodField;
    hide PaxFrom;
    if recs == [] {
      PaxEnds(before, out);
      assert before + Flat(recs) == before;
    } else {
      var rec, rest := recs[0], Flat(recs[1..]);
      RecordReads(before, rec, rest, fields[0], out);
      assert before + Flat(recs) == before + rec + rest;
      assert before + rec + rest == (before + rec) + rest;
      RecordsReadFrom(before + rec, recs[1..], fields[1..], out[fields[0].key := fields[0].value]);
    }
  }

  /** The last field whose key is `path`; an empty value gives no name. */
  function LastPath(fields: seq<PaxField>, last: Option<Bytes>): Option<Bytes> {
    if fields == [] then last
    else if fields[0].key != PATH then LastPath(fields[1..], last)
    else LastPath(fields[1..], if fields[0].value == [] then None else Some(fields[0].value))
  }

  function PathIn(out: PaxRecords): Option<Bytes> {
    if PATH in out && out[PATH] != [] then Some(out[PATH]) else None
  }

  lemma {:induction false} RecordedPath(fields: seq<PaxField>, out: PaxRecords)
    ensures PathIn(Recorded(fields, out)) == LastPath(fields, PathIn(out))
  {
    if fields != [] {
      RecordedPath(fields[1..], out[fields[0].key := fields[0].value]);
    }
  }

  /** A pax header made of such records names the entry after it by its last path. */
  lemma PaxHeaderReads(recs: seq<Bytes>, fields: seq<PaxField>)
    requires AreRecords(recs, fields)
    ensures PaxFrom(Flat(recs), 0, map[]) == Recorded(fields, map[])
    ensures PaxName(Flat(recs)) == LastPath(fields, None)
  {
    hide PaxFrom;
    RecordedPath(fields, map[]);
    RecordsReadFrom([], recs, fields, map[]);
    assert [] + Flat(recs) == Flat(recs);
  }

  // ------------------------------------------------------------------- writing pax records

  lemma {:induction false} DecimalIsShort(n: nat)
    ensures |DecimalBytes(n)| <= 1 + n / 10
  {
    if n >= 10 {
      DecimalIsShort(n / 10);
    }
  }

  /** The length of a record that counts itself: `rest` bytes besides the `d` or more digits. */
  function SelfCounting(rest: nat, d: nat): (n: nat)
    requires d == 0 || |DecimalBytes(rest + d - 1)| >= d
    ensures n == |DecimalBytes(n)| + rest
    decreases rest + 2 - d
  {
    DecimalIsShort(rest + d);
    if |DecimalBytes(rest + d)| <= d then (DecimalGrows(rest + d); rest + d) else SelfCounting(rest, d + 1)
  }

  /** One more is written with at least as many digits. */
  lemma {:induction false} DecimalGrows(n: nat)
    ensures n > 0 ==> |DecimalBytes(n)| >= |DecimalBytes(n - 1)|
  {
    if n >= 10 {
      if n % 10 == 0 {
        DecimalGrows(n / 10);
      }
    }
  }

  function RecordOf(f: PaxField): (rec: Bytes)
    ensures IsRecord(rec, f)
  {
    var n := SelfCounting(|f.key| + |f.value| + 3, 0);
    DecimalBytes(n) + [32] + (f.key + [61] + f.value) + [10]
  }

  function RecordsOf(fields: seq<PaxField>): (recs: seq<Bytes>)
    ensures |recs| == |fields| && forall i :: 0 <= i < |recs| ==> recs[i] == RecordOf(fields[i])
  {
    seq(|fields|, i requires 0 <= i < |fields| => RecordOf(fields[i]))
  }

  // ----------------------------------------------------------------------- writing headers

  /** A ustar header without its size: the name and prefix fields, the type byte, and the fields
      between them that the reader passes over. */
  datatype Ustar = Ustar(name: Bytes, owner: Bytes, times: Bytes, flag: Byte, links: Bytes, prefix: Bytes, spare: Bytes)

  predicate NoNul(s: Bytes) {
    forall i :: 0 <= i < |s| ==> s[i] != 0
  }

  predicate GoodUstar(u: Ustar) {
    && |u.name| <= 100 && NoNul(u.name) && |u.prefix| <= 155 && NoNul(u.prefix)
    && |u.owner| == 24 && |u.times| == 20 && |u.links| == 188 && |u.spare| == 12
  }

  function Padded(s: Bytes, width: nat): (f: Bytes)
    requires |s| <= width
    ensures |f| == width
  {
    s + Zeros(width - |s|)
  }

  function Header(u: Ustar, size: nat): (h: Bytes)
    requires GoodUstar(u)
    ensures IsBlock(h)
  {
    Padded(u.name, 100) + u.owner + (Digits(size, 8, 11) + [0]) + u.times + [u.flag] + u.links
    + Padded(u.prefix, 155) + u.spare
  }

  /** The name a header spells: prefix, slash, name. */
  function Spelt(u: Ustar): Bytes {
    if u.prefix == [] then u.name else u.prefix + [47] + u.name
  }

  // ----------------------------------------------------------------------- writing archives

  const FILE_FLAGS: set<Byte> := {48, 0}
  const LONG_FLAG: Byte := 76
  const PAX_FLAGS: set<Byte> := {120, 88}
  const IGNORED_FLAGS: set<Byte> := {103, 75}

  /** One entry of an archive: a GNU long name or a pax header, which speak of an entry after
      them, or a file, directory, link or anything else. */
  datatype Item =
    | LongName(head: Ustar, name: Bytes)
    | PaxHeader(head: Ustar, fields: seq<PaxField>)
    | Member(head: Ustar, body: Bytes)

  /** What a size field of eleven octal digits can say. */
  predicate Fits(body: Bytes) {
    |body| < Power(8, 11)
  }

  predicate AsciiField(f: PaxField) {
    forall b :: b in f.key + f.value ==> b < 128
  }

  /** What follows an entry's header. */
  function BodyOf(item: Item): Bytes {
    match item
    case LongName(_, name) => name + [0]
    case PaxHeader(_, fields) => Flat(RecordsOf(fields))
    case Member(_, body) => body
  }

  predicate GoodItem(item: Item) {
    GoodUstar(item.head) && Fits(BodyOf(item))
    && match item
       case LongName(h, name) => h.flag == LONG_FLAG && NoNul(name)
       case PaxHeader(h, fields) =>
         h.flag in PAX_FLAGS && forall i :: 0 <= i < |fields| ==> GoodField(fields[i]) && AsciiField(fields[i])
       case Member(h, _) => h.flag !in {LONG_FLAG} + PAX_FLAGS
  }

  predicate GoodItems(items: seq<Item>) {
    forall i :: 0 <= i < |items| ==> GoodItem(items[i])
  }

  /** Header, body, and zeros to the next block. */
  function Blocks(h: Bytes, body: Bytes): Bytes {
    h + (body + Zeros(Pad(|body|)))
  }

  function Encode(item: Item): Bytes
    requires GoodItem(item)
  {
    Blocks(Header(item.head, |BodyOf(item)|), BodyOf(item))
  }

  /** Entries one after another from the `k`th on, then two zero blocks, then anything. */
  function ArchiveFrom(items: seq<Item>, k: nat, trailer: Bytes): Bytes
    requires GoodItems(items) && k <= |items|
    decreases |items| - k
  {
    if k == |items| then Zeros(BLOCK) + (Zeros(BLOCK) + trailer) else Encode(items[k]) + ArchiveFrom(items, k + 1, trailer)
  }

  predicate IsFileItem(item: Item) {
    item.Member? && item.head.flag in FILE_FLAGS
  }

  /** The name an extension entry gives. */
  function Gives(item: Item): Option<Bytes> {
    match item
    case LongName(_, name) => Some(name)
    case PaxHeader(_, fields) => LastPath(fields, None)
    case Member(_, _) => None
  }

  function OrSpelt(given: Option<Bytes>, u: Ustar): Bytes {
    match given case Some(name) => name case None => Spelt(u)
  }

  /** The name an entry is read under: what the entry right before it gives, else what its own
      header spells. */
  function NameRead(items: seq<Item>, i: nat): Bytes
    requires i < |items|
  {
    OrSpelt(if i > 0 then Gives(items[i - 1]) else None, items[i].head)
  }

  /** The wanted files of an archive from the `k`th entry on, in order. */
  function Wanted(items: seq<Item>, k: nat, want: Bytes -> bool): seq<Entry>
    requires k <= |items|
    decreases |items| - k
  {
    if k == |items| then []
    else
      (if IsFileItem(items[k]) && want(NameRead(items, k)) then [Entry(NameRead(items, k), items[k].body)] else [])
      + Wanted(items, k + 1, want)
  }

  // ------------------------------------------------------------------------- reading back

  predicate GoodHeader(h: Bytes, body: Bytes) {
    IsBlock(h) && !AllZero(h) && Size(h) == |body|
  }

  lemma FieldAt(a: Bytes, b: Bytes, c: Bytes)
    ensures (a + b + c)[|a|..|a| + |b|] == b
  {
  }

  lemma {:induction false} PaddedEnds(s: Bytes, zeros: nat)
    requires NoNul(s)
    ensures UntilNul(s + Zeros(zeros)) == s
  {
    if s == [] {
      assert s + Zeros(zeros) == Zeros(zeros);
    } else {
      assert (s + Zeros(zeros))[1..] == s[1..] + Zeros(zeros);
      PaddedEnds(s[1..], zeros);
    }
  }

  lemma Regroup(n: Bytes, o: Bytes, d: Bytes, t: Bytes, f: Bytes, l: Bytes, p: Bytes, z: Bytes)
    ensures var h := n + o + d + t + f + l + p + z;
            h == [] + n + (o + d + t + f + l + p + z)
            && h == (n + o) + d + (t + f + l + p + z)
            && h == (n + o + d + t) + f + (l + p + z)
            && h == (n + o + d + t + f + l) + p + z
  {
  }

  /** Where the fields of a written header lie. */
  lemma HeaderFields(u: Ustar, size: nat)
    requires GoodUstar(u)
    ensures var h := Header(u, size);
            h[0..100] == Padded(u.name, 100) && h[124..136] == Digits(size, 8, 11) + [0] && h[156] == u.flag
            && h[345..500] == Padded(u.prefix, 155)
  {
    hide Digits;
    hide Padded;
    hide NoNul;
    var n, o, d, t, f, l := Padded(u.name, 100), u.owner, Digits(size, 8, 11) + [0], u.times, [u.flag], u.links;
    var p, z := Padded(u.prefix, 155), u.spare;
    Regroup(n, o, d, t, f, l, p, z);
    FieldAt([], n, o + d + t + f + l + p + z);
    FieldAt(n + o, d, t + f + l + p + z);
    FieldAt(n + o + d + t, f, l + p + z);
    FieldAt(n + o + d + t + f + l, p, z);
    assert Header(u, size)[156..157] == f;
  }

  /** The reader takes from a written header its size, its kind and the name it spells. */
  lemma HeaderReads(u: Ustar, body: Bytes)
    requires GoodUstar(u) && Fits(body)
    ensures var h := Header(u, |body|);
            GoodHeader(h, body) && HeaderName(h) == Spelt(u) && Kind(h) == if u.flag == 0 then 48 else u.flag
  {
    hide Digits;
    hide Header;
    hide UntilNul;
    hide Size;
    hide Power;
    hide NoNul;
    var h := Header(u, |body|);
    HeaderFields(u, |body|);
    OctalFieldReads(h, |body|);
    PaddedEnds(u.name, 100 - |u.name|);
    PaddedEnds(u.prefix, 155 - |u.prefix|);
    assert DigitBelow(h[124..136][0], 8) && h[124] == h[124..136][0];
  }

  lemma SkipAll(a: Bytes, rest: Bytes)
    ensures AfterSkip(a + rest, |a|) == rest
  {
  }

  lemma BlocksApart(h: Bytes, body: Bytes, rest: Bytes)
    requires IsBlock(h)
    ensures var bytes := Blocks(h, body) + rest;
            bytes[..BLOCK] == h && bytes[BLOCK..] == body + Zeros(Pad(|body|)) + rest
            && (body + Zeros(Pad(|body|)) + rest)[..|body|] == body
            && (body + Zeros(Pad(|body|)) + rest)[|body|..] == Zeros(Pad(|body|)) + rest
            && |bytes| >= BLOCK + |body|
  {
  }

  lemma ReadsFile(h: Bytes, body: Bytes, rest: Bytes, names: Names, want: Bytes -> bool)
    requires GoodHeader(h, body) && IsFile(Kind(h))
    ensures Untar(Blocks(h, body) + rest, names, false, want)
         == (if want(NameFor(h, names)) then [Entry(NameFor(h, names), body)] else [])
            + Untar(rest, UNNAMED, false, want)
  {
    hide AfterSkip;
    hide Size;
    hide NameFor;
    var z := Zeros(Pad(|body|));
    BlocksApart(h, body, rest);
    SkipAll(z, rest);
    SkipAll(body + z, rest);
  }

  lemma ReadsOther(h: Bytes, body: Bytes, rest: Bytes, names: Names, want: Bytes -> bool)
    requires GoodHeader(h, body) && !IsFile(Kind(h)) && !IsLong(Kind(h)) && !IsPax(Kind(h))
    ensures Untar(Blocks(h, body) + rest, names, false, want) == Untar(rest, UNNAMED, false, want)
  {
    hide AfterSkip;
    hide Size;
    hide NameFor;
    BlocksApart(h, body, rest);
    SkipAll(body + Zeros(Pad(|body|)), rest);
  }

  lemma ReadsName(h: Bytes, body: Bytes, rest: Bytes, names: Names, want: Bytes -> bool)
    requires GoodHeader(h, body) && (IsLong(Kind(h)) || IsPax(Kind(h)))
    ensures Untar(Blocks(h, body) + rest, names, false, want)
         == Untar(rest, if IsLong(Kind(h)) then Names(Some(UntilNul(body)), None) else Names(None, PaxName(body)), false, want)
  {
    hide AfterSkip;
    hide Size;
    hide NameFor;
    hide PaxName;
    hide UntilNul;
    BlocksApart(h, body, rest);
    SkipAll(Zeros(Pad(|body|)), rest);
  }

  lemma NoNulEnds(name: Bytes)
    requires NoNul(name)
    ensures UntilNul(name + [0]) == name
  {
    NulEnds(name, []);
    assert name + [0] + [] == name + [0];
  }

  /** The records of a pax header give the name its fields give. */
  lemma PaxBodyReads(fields: seq<PaxField>)
    requires forall i :: 0 <= i < |fields| ==> GoodField(fields[i])
    ensures PaxName(Flat(RecordsOf(fields))) == LastPath(fields, None)
  {
    hide RecordOf;
    hide IsRecord;
    PaxHeaderReads(RecordsOf(fields), fields);
  }

  /** The names the reader holds after an entry. */
  function NamesAfter(item: Item): Names {
    match item
    case LongName(_, name) => Names(Some(name), None)
    case PaxHeader(_, fields) => Names(None, LastPath(fields, None))
    case Member(_, _) => UNNAMED
  }

  function NamesBefore(items: seq<Item>, k: nat): Names
    requires k <= |items|
  {
    if k == 0 then UNNAMED else NamesAfter(items[k - 1])
  }

  lemma HeldNames(items: seq<Item>, k: nat, h: Bytes)
    requires k < |items| && IsBlock(h) && HeaderName(h) == Spelt(items[k].head)
    ensures NameFor(h, NamesBefore(items, k)) == NameRead(items, k)
  {
    hide HeaderName;
    hide Spelt;
  }

  /** Whatever names are held, one entry uses them up: a wanted file is yielded under the held
      name, or else its own, and an extension entry leaves what it gives. */
  lemma ReadsItem(items: seq<Item>, k: nat, rest: Bytes, want: Bytes -> bool)
    requires k < |items| && GoodItem(items[k])
    ensures Untar(Encode(items[k]) + rest, NamesBefore(items, k), false, want)
         == (if IsFileItem(items[k]) && want(NameRead(items, k)) then [Entry(NameRead(items, k), items[k].body)] else [])
            + Untar(rest, NamesAfter(items[k]), false, want)
  {
    hide Untar;
    hide Blocks;
    hide PaxName;
    hide UntilNul;
    hide HeaderName;
    hide GoodHeader;
    hide Header;
    hide GoodUstar;
    hide Fits;
    hide Kind;
    hide Spelt;
    hide NameFor;
    hide NameRead;
    hide NamesBefore;
    hide Flat;
    var item, names := items[k], NamesBefore(items, k);
    var body := BodyOf(item);
    var h := Header(item.head, |body|);
    HeaderReads(item.head, body);
    HeldNames(items, k, h);
    match item
    case LongName(_, name) =>
      NoNulEnds(name);
      ReadsName(h, body, rest, names, want);
    case PaxHeader(_, fields) =>
      PaxBodyReads(fields);
      ReadsName(h, body, rest, names, want);
    case Member(_, _) =>
      if IsFile(Kind(h)) {
        ReadsFile(h, body, rest, names, want);
      } else {
        ReadsOther(h, body, rest, names, want);
      }
  }

  lemma NothingAtTheEnd(items: seq<Item>, trailer: Bytes, want: Bytes -> bool)
    requires GoodItems(items)
    ensures Untar(ArchiveFrom(items, |items|, trailer), NamesBefore(items, |items|), false, want) == []
  {
    hide Untar;
    ReadsEnd(trailer, NamesBefore(items, |items|), want);
  }

  lemma ReadsEnd(trailer: Bytes, names: Names, want: Bytes -> bool)
    ensures Untar(Zeros(BLOCK) + (Zeros(BLOCK) + trailer), names, false, want) == []
  {
    var z := Zeros(BLOCK);
    var rest := z + trailer;
    assert (z + rest)[..BLOCK] == z && (z + rest)[BLOCK..] == rest;
    assert rest[..BLOCK] == z;
    assert Untar(rest, names, true, want) == [];
  }

  /** The reader recovers exactly the wanted files of an archive of any entries in any order,
      name and body, each named by the extension entry right before it if there is one. */
  lemma {:induction false} ArchiveReads(items: seq<Item>, k: nat, trailer: Bytes, want: Bytes -> bool)
    requires GoodItems(items) && k <= |items|
    ensures Untar(ArchiveFrom(items, k, trailer), NamesBefore(items, k), false, want) == Wanted(items, k, want)
    decreases |items| - k
  {
    hide Untar;
    hide Encode;
    hide NameRead;
    hide GoodItem;
    if k == |items| {
      NothingAtTheEnd(items, trailer, want);
    } else {
      ReadsItem(items, k, ArchiveFrom(items, k + 1, trailer), want);
      ArchiveReads(items, k + 1, trailer, want);
    }
  }

  // ------------------------------------------------------------------------- names meant

  /** Is this an entry the format lets stand between a name and the file it is for? */
  predicate Passes(item: Item) {
    item.PaxHeader? || (item.Member? && item.head.flag in IGNORED_FLAGS)
  }

  /** The name announced for entry `i`: the last one given before it, with nothing but pax
      headers without a path and ignored entries since. */
  function Announced(items: seq<Item>, i: nat): Option<Bytes>
    requires i <= |items|
  {
    if i == 0 then None
    else if Gives(items[i - 1]).Some? then Gives(items[i - 1])
    else if Passes(items[i - 1]) then Announced(items, i - 1)
    else None
  }

  function NameMeant(items: seq<Item>, i: nat): Bytes
    requires i < |items|
  {
    OrSpelt(Announced(items, i), items[i].head)
  }

  /** The files of an archive from the `k`th entry on, under the names meant for them. */
  function Meant(items: seq<Item>, k: nat): seq<Entry>
    requires k <= |items|
    decreases |items| - k
  {
    if k == |items| then []
    else (if IsFileItem(items[k]) then [Entry(NameMeant(items, k), items[k].body)] else []) + Meant(items, k + 1)
  }

  /** An entry stands between entry `i` and the one that names it, and its own header spells
      another name. */
  predicate Separated(items: seq<Item>, i: nat)
    requires i < |items|
  {
    i > 0 && Gives(items[i - 1]).None? && Announced(items, i).Some? && Announced(items, i).value != Spelt(items[i].head)
  }

  predicate AnyName(name: Bytes) { true }

  lemma NameLostIff(items: seq<Item>, i: nat)
    requires i < |items|
    ensures NameRead(items, i) != NameMeant(items, i) <==> Separated(items, i)
  {
    hide Spelt;
    hide LastPath;
  }

  /** No file from the `k`th entry on is so separated. */
  predicate NoneSeparated(items: seq<Item>, k: nat) {
    forall i :: k <= i < |items| && IsFileItem(items[i]) ==> !Separated(items, i)
  }

  lemma NoneSeparatedStep(items: seq<Item>, k: nat)
    requires k < |items|
    ensures NoneSeparated(items, k) <==> (IsFileItem(items[k]) ==> !Separated(items, k)) && NoneSeparated(items, k + 1)
  {
    hide Separated;
    hide IsFileItem;
  }

  lemma HeadsAndTails(x: Entry, u: seq<Entry>, y: Entry, v: seq<Entry>)
    ensures [x] + u == [y] + v <==> x == y && u == v
  {
    assert ([x] + u)[0] == x && ([x] + u)[1..] == u;
    assert ([y] + v)[0] == y && ([y] + v)[1..] == v;
  }

  lemma {:induction false} ReadAsMeantFrom(items: seq<Item>, k: nat)
    requires k <= |items|
    ensures Wanted(items, k, AnyName) == Meant(items, k) <==> NoneSeparated(items, k)
    decreases |items| - k
  {
    hide NameRead;
    hide NameMeant;
    hide Separated;
    hide NoneSeparated;
    hide IsFileItem;
    if k == |items| {
      NoneLeft(items);
    } else {
      ReadAsMeantFrom(items, k + 1);
      NameLostIff(items, k);
      NoneSeparatedStep(items, k);
      var u, v := Wanted(items, k + 1, AnyName), Meant(items, k + 1);
      if IsFileItem(items[k]) {
        FileItemHasBody(items[k]);
        var body := items[k].body;
        HeadsAndTails(Entry(NameRead(items, k), body), u, Entry(NameMeant(items, k), body), v);
      } else {
        assert [] + u == u && [] + v == v;
      }
    }
  }

  lemma NoneLeft(items: seq<Item>)
    ensures NoneSeparated(items, |items|)
  {
  }

  lemma FileItemHasBody(item: Item)
    requires IsFileItem(item)
    ensures item.Member?
  {
  }

  /** Every file is read under the name meant for it exactly when no other entry stands between
      a file and the extension entry that names it. */
  lemma ReadAsMeantIff(items: seq<Item>, trailer: Bytes)
    requires GoodItems(items)
    ensures Untar(ArchiveFrom(items, 0, trailer), UNNAMED, false, AnyName) == Meant(items, 0)
       <==> NoneSeparated(items, 0)
  {
    hide Untar;
    hide GoodItem;
    hide NoneSeparated;
    ArchiveReads(items, 0, trailer, AnyName);
    ReadAsMeantFrom(items, 0);
  }

  /** A header that spells `name`, its other fields blank. */
  function Bare(name: Bytes, flag: Byte): Ustar {
    Ustar(name, Zeros(24), Zeros(20), flag, Zeros(188), [], Zeros(12))
  }

  const STRAYED: seq<Item> :=
    [LongName(Bare([97], LONG_FLAG), [98]), Member(Bare([99], 75), []), Member(Bare([100], 48), [])]

  /** A long name `b`, a long link name, and the file: it is read as `d`, which its header spells. */
  lemma NameStrays(trailer: Bytes)
    ensures GoodItems(STRAYED) && Meant(STRAYED, 0) == [Entry([98], [])]
    ensures Untar(ArchiveFrom(STRAYED, 0, trailer), UNNAMED, false, AnyName) == [Entry([100], [])]
  {
    hide Untar;
    hide ArchiveFrom;
    StrayedIsGood();
    ArchiveReads(STRAYED, 0, trailer, AnyName);
    assert Wanted(STRAYED, 3, AnyName) == [] && Meant(STRAYED, 3) == [];
    assert NameRead(STRAYED, 2) == [100];
    assert Wanted(STRAYED, 2, AnyName) == [Entry([100], [])];
    assert Wanted(STRAYED, 1, AnyName) == Wanted(STRAYED, 2, AnyName);
    assert Announced(STRAYED, 1) == Some([98]);
    assert Announced(STRAYED, 2) == Some([98]);
    assert NameMeant(STRAYED, 2) == [98];
    assert Meant(STRAYED, 2) == [Entry([98], [])];
    assert Meant(STRAYED, 1) == Meant(STRAYED, 2);
  }

  lemma StrayedIsGood()
    ensures GoodItems(STRAYED)
  {
    hide Power;
    PowerAbove(8, 11);
  }

  lemma {:induction false} PowerAbove(b: nat, e: nat)
    requires b >= 2
    ensures Power(b, e) > e
  {
    if e > 0 {
      PowerAbove(b, e - 1);
    }
  }
}
