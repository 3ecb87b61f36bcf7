/** The streaming tar reader: what `untar` yields is a function of the archive's bytes alone,
    and for a well-formed archive it is exactly the wanted files. */
module Tar {
  import opened Wrappers
  import opened Stream

  const BLOCK := 512

  // ------------------------------------------------------------------------ header fields

  /** The bytes of a field up to its first NUL. */
  function UntilNul(b: Bytes): (r: Bytes)
    ensures |r| <= |b|
  {
    if b == [] || b[0] == 0 then [] else [b[0]] + UntilNul(b[1..])
  }

  function CStr(buf: Bytes, off: nat, len: nat): Bytes
    requires off + len <= |buf|
  {
    UntilNul(buf[off..off + len])
  }

  predicate AllZero(b: Bytes) {
    forall i :: 0 <= i < |b| ==> b[i] == 0
  }

  predicate Blank(u: int) { 9 <= u <= 13 || u == 32 }

  function TrimFront(s: Bytes): Bytes {
    if s != [] && Blank(s[0]) then TrimFront(s[1..]) else s
  }

  predicate DigitBelow(u: int, radix: int) { 48 <= u < 48 + radix }

  /** The number a run of digits at the front of `s` writes; further characters end it. */
  function LeadingNumber(s: Bytes, radix: nat, acc: nat): nat {
    if s != [] && DigitBelow(s[0], radix) then LeadingNumber(s[1..], radix, acc * radix + (s[0] - 48)) else acc
  }

  /** `parseInt`: blanks and a plus sign first, then digits; None when there are none. */
  function ParseInt(s: Bytes, radix: nat): Option<nat> {
    var t := TrimFront(s);
    var u := if t != [] && t[0] == 43 then t[1..] else t;
    if u != [] && DigitBelow(u[0], radix) then Some(LeadingNumber(u, radix, 0)) else None
  }

  function Base256(b: Bytes, acc: nat): nat {
    if b == [] then acc else Base256(b[1..], acc * 256 + b[0])
  }

  /** `octal`: a base-256 or an octal number field. */
  function Octal(buf: Bytes, off: nat, len: nat): nat
    requires off + len <= |buf| && len > 0
  {
    if buf[off] >= 128 then Base256(buf[off + 1..off + len], buf[off] - 128)
    else match ParseInt(CStr(buf, off, len), 8) case Some(v) => v case None => 0
  }

  predicate IsBlock(h: Bytes) { |h| == BLOCK }

  /** The type byte; NUL means a regular file. */
  function Kind(h: Bytes): int
    requires IsBlock(h)
  {
    if h[156] == 0 then 48 else h[156]
  }

  function Size(h: Bytes): nat
    requires IsBlock(h)
  {
    Octal(h, 124, 12)
  }

  /** Bytes from the end of a body to the next block. */
  function Pad(size: nat): (p: nat)
    ensures p < BLOCK && (size + p) % BLOCK == 0
  {
    (BLOCK - size % BLOCK) % BLOCK
  }

  function HeaderName(h: Bytes): Bytes
    requires IsBlock(h)
  {
    var prefix := CStr(h, 345, 155);
    if prefix != [] then prefix + [47] + CStr(h, 0, 100) else CStr(h, 0, 100)
  }

  // --------------------------------------------------------------------------- pax records

  function IndexFrom(s: Bytes, b: Byte, i: nat): (j: int)
    requires i <= |s|
    ensures j == -1 || i <= j < |s|
    decreases |s| - i
  {
    if i == |s| then -1 else if s[i] == b then i else IndexFrom(s, b, i + 1)
  }

  function Min(a: int, b: int): int { if a < b then a else b }

  /** `slice(from, to)`, clamped. */
  function Clamped(s: Bytes, from: nat, to: int): Bytes {
    var f, t := Min(from, |s|), Min(to, |s|);
    if f <= t then s[f..t] else []
  }

  type PaxRecords = map<Bytes, Bytes>

  function AddRecord(out: PaxRecords, rec: Bytes): PaxRecords {
    var eq := IndexFrom(rec, 61, 0);
    if eq > 0 then out[rec[..eq] := rec[eq + 1..]] else out
  }

  /** `parsePax` from position `i` on: records `<len> <key>=<value>\n`. */
  function PaxFrom(text: Bytes, i: nat, out: PaxRecords): PaxRecords
    decreases |text| - i
  {
    if i >= |text| then out
    else
      var sp := IndexFrom(text, 32, i);
      if sp < 0 then out
      else
        match ParseInt(text[i..sp], 10)
        case None => out
        case Some(len) =>
          if len == 0 then out
          else PaxFrom(text, i + len, AddRecord(out, Clamped(text, sp + 1, i + len - 1)))
  }

  /** `parsePax`, as the loop it is. */
  method ParsePax(text: Bytes) returns (out: PaxRecords)
    ensures out == PaxFrom(text, 0, map[])
  {
    hide IndexFrom;
    hide ParseInt;
    hide AddRecord;
    hide Clamped;
    out := map[];
    var i: nat := 0;
    while i < |text|
      invariant PaxFrom(text, 0, map[]) == PaxFrom(text, i, out)
      decreases |text| - i
    {
      var sp := IndexFrom(text, 32, i);
      if sp < 0 {
        return;
      }
      var len := ParseInt(text[i..sp], 10);
      if len.None? || len.value == 0 {
        return;
      }
      out := AddRecord(out, Clamped(text, sp + 1, i + len.value - 1));
      i := i + len.value;
    }
  }

  const PATH: Bytes := [112, 97, 116, 104]

  /** The name a pax header gives, when it gives one. */
  function PaxName(body: Bytes): Option<Bytes> {
    var recs := PaxFrom(body, 0, map[]);
    if PATH in recs && recs[PATH] != [] then Some(recs[PATH]) else None
  }

  // ------------------------------------------------------------------------------- entries

  datatype Entry = Entry(name: Bytes, body: Bytes)

  /** A name an extension header announced for the entry after it. */
  datatype Names = Names(long: Option<Bytes>, pax: Option<Bytes>)

  const UNNAMED := Names(None, None)

  function NameFor(h: Bytes, names: Names): Bytes
    requires IsBlock(h)
  {
    if names.pax.Some? then names.pax.value
    else if names.long.Some? then names.long.value
    else HeaderName(h)
  }

  predicate IsLong(kind: int) { kind == 76 }
  predicate IsPax(kind: int) { kind == 120 || kind == 88 }
  predicate IsFile(kind: int) { kind == 48 }

  /** The name an extension entry gives: a pax path, or a GNU long name. */
  function NamedBy(h: Bytes, body: Bytes): Names
    requires IsBlock(h)
  {
    if IsLong(Kind(h)) then Names(Some(UntilNul(body)), None) else Names(None, PaxName(body))
  }

  /** The entries of a tar stream, from its bytes. */
  function Untar(bytes: Bytes, names: Names, sawZero: bool, want: Bytes -> bool): seq<Entry>
    decreases |bytes|
  {
    if |bytes| < BLOCK then []
    else
      var head, rest := bytes[..BLOCK], bytes[BLOCK..];
      if AllZero(head) then (if sawZero then [] else Untar(rest, names, true, want))
      else
        var kind, size := Kind(head), Size(head);
        if IsLong(kind) || IsPax(kind) then
          if |rest| < size then []
          else
            var body := rest[..size];
            Untar(AfterSkip(rest[size..], Pad(size)), NamedBy(head, body), false, want)
        else
          var name := NameFor(head, names);
          if !IsFile(kind) || !want(name) then Untar(AfterSkip(rest, size + Pad(size)), UNNAMED, false, want)
          else if |rest| < size then []
          else [Entry(name, rest[..size])] + Untar(AfterSkip(rest[size..], Pad(size)), UNNAMED, false, want)
  }

  /** `untar` over a chunked stream: always ends, and the chunking does not show. */
  method ReadTar(source: seq<Bytes>, want: Bytes -> bool) returns (out: seq<Entry>)
    ensures out == Untar(Flat(source), UNNAMED, false, want)
  {
    hide Untar;
    hide Flat;
    var r := new ByteReader(source);
    out := [];
    var names, sawZero := UNNAMED, false;
    ghost var all := Flat(source);
    while true
      invariant r.Valid() && fresh(r)
      invariant Untar(all, UNNAMED, false, want) == out + Untar(r.Contents(), names, sawZero, want)
      decreases |r.Contents()|
    {
      var left := UntarStep(r, names, sawZero, want);
      assert out + [] == out;
      match left
      case End => return;
      case More(found, names', sawZero') =>
        assert out + (found + Untar(r.Contents(), names', sawZero', want))
            == out + found + Untar(r.Contents(), names', sawZero', want);
        out, names, sawZero := out + found, names', sawZero';
    }
  }

  datatype Progress = End | More(found: seq<Entry>, names: Names, sawZero: bool)

  /** Is this a step of the reader from `bytes` to `rest`? */
  ghost predicate Steps(bytes: Bytes, names: Names, sawZero: bool, want: Bytes -> bool, p: Progress, rest: Bytes) {
    match p
    case End => Untar(bytes, names, sawZero, want) == []
    case More(found, next, zero) =>
      |rest| < |bytes| && Untar(bytes, names, sawZero, want) == found + Untar(rest, next, zero, want)
  }

  /** What `untar` makes of an entry that names the one after it. */
  lemma UntarNaming(bytes: Bytes, names: Names, sawZero: bool, want: Bytes -> bool)
    requires |bytes| >= BLOCK && !AllZero(bytes[..BLOCK]) && (IsLong(Kind(bytes[..BLOCK])) || IsPax(Kind(bytes[..BLOCK])))
    ensures (var h, rest := bytes[..BLOCK], bytes[BLOCK..];
             var size := Size(h);
             Untar(bytes, names, sawZero, want)
             == if |rest| < size then []
                else Untar(AfterSkip(rest[size..], Pad(size)), NamedBy(h, rest[..size]), false, want))
  {
    hide Size;
    hide AfterSkip;
    hide PaxName;
    hide UntilNul;
    hide Pad;
  }

  /** What `untar` makes of any other entry. */
  lemma UntarFile(bytes: Bytes, names: Names, sawZero: bool, want: Bytes -> bool)
    requires |bytes| >= BLOCK && !AllZero(bytes[..BLOCK]) && !IsLong(Kind(bytes[..BLOCK])) && !IsPax(Kind(bytes[..BLOCK]))
    ensures (var h, rest := bytes[..BLOCK], bytes[BLOCK..];
             var size, name := Size(h), NameFor(h, names);
             Untar(bytes, names, sawZero, want)
             == if !IsFile(Kind(h)) || !want(name) then Untar(AfterSkip(rest, size + Pad(size)), UNNAMED, false, want)
                else if |rest| < size then []
                else [Entry(name, rest[..size])] + Untar(AfterSkip(rest[size..], Pad(size)), UNNAMED, false, want))
  {
    hide Size;
    hide AfterSkip;
    hide NameFor;
    hide Pad;
  }

  /** An entry that names the one after it: its body, then the padding. */
  method NamingStep(r: ByteReader, h: Bytes, ghost bytes: Bytes, names: Names, sawZero: bool, want: Bytes -> bool) returns (p: Progress)
    requires r.Valid() && |bytes| >= BLOCK && h == bytes[..BLOCK] && r.Contents() == bytes[BLOCK..]
    requires !AllZero(h) && (IsLong(Kind(h)) || IsPax(Kind(h)))
    modifies r
    ensures r.Valid() && Steps(bytes, names, sawZero, want, p, r.Contents())
  {
    hide PaxFrom;
    hide UntilNul;
    hide Size;
    hide AfterSkip;
    hide Untar;
    hide Kind;
    hide AllZero;
    hide Pad;
    UntarNaming(bytes, names, sawZero, want);
    var size := Size(h);
    var body := r.Read(size);
    if body.None? {
      return End;
    }
    var next := if IsLong(Kind(h)) then Names(Some(UntilNul(body.value)), None) else Names(None, None);
    if IsPax(Kind(h)) {
      var recs := ParsePax(body.value);
      if PATH in recs && recs[PATH] != [] {
        next := Names(None, Some(recs[PATH]));
      }
    }
    var ok := r.Skip(Pad(size));
    p := More([], next, false);
  }

  /** Any other entry: kept if it is a wanted file, skipped if not. */
  method FileStep(r: ByteReader, h: Bytes, ghost bytes: Bytes, names: Names, sawZero: bool, want: Bytes -> bool) returns (p: Progress)
    requires r.Valid() && |bytes| >= BLOCK && h == bytes[..BLOCK] && r.Contents() == bytes[BLOCK..]
    requires !AllZero(h) && !IsLong(Kind(h)) && !IsPax(Kind(h))
    modifies r
    ensures r.Valid() && Steps(bytes, names, sawZero, want, p, r.Contents())
  {
    hide Size;
    hide AfterSkip;
    hide NameFor;
    hide Untar;
    hide Kind;
    hide AllZero;
    hide Pad;
    UntarFile(bytes, names, sawZero, want);
    var size := Size(h);
    var name := NameFor(h, names);
    if !IsFile(Kind(h)) || !want(name) {
      var ok := r.Skip(size + Pad(size));
      return More([], UNNAMED, false);
    }
    var body := r.Read(size);
    if body.None? {
      return End;
    }
    var ok := r.Skip(Pad(size));
    p := More([Entry(name, body.value)], UNNAMED, false);
  }

  /** One turn of the `untar` loop: one header and what belongs to it. */
  method UntarStep(r: ByteReader, names: Names, sawZero: bool, want: Bytes -> bool) returns (p: Progress)
    requires r.Valid()
    modifies r
    ensures r.Valid() && Steps(old(r.Contents()), names, sawZero, want, p, r.Contents())
  {
    hide Size;
    hide AfterSkip;
    hide NameFor;
    ghost var bytes := r.Contents();
    var head := r.Read(BLOCK);
    if head.None? {
      return End;
    }
    var h := head.value;
    if AllZero(h) {
      return if sawZero then End else More([], names, true);
    }
    if IsLong(Kind(h)) || IsPax(Kind(h)) {
      p := NamingStep(r, h, bytes, names, sawZero, want);
    } else {
      p := FileStep(r, h, bytes, names, sawZero, want);
    }
  }
}
