/** Reading the first entry of a zip archive: the offset arithmetic of the local file header. */
module Zip {
  import opened Stream

  datatype Problem = TooShort | NotZip | DataDescriptor | Zip64 | Truncated | UnknownMethod

  datatype Unzipped = Opened(name: Bytes, size: nat, method_: nat, body: Bytes) | Refused(problem: Problem)

  const HEADER := 30
  const LOCAL_SIG := 0x04034b50
  const UNKNOWN_SIZE := 0xffffffff
  const STORE := 0
  const DEFLATE := 8

  /** `getUint16`/`getUint32`, little-endian: the first byte counts least. */
  function Little(b: Bytes): (n: nat) {
    if b == [] then 0 else b[0] + 256 * Little(b[1..])
  }

  /** Bit 3 of the flags: the sizes follow the payload. */
  predicate HasDescriptor(flags: nat) { flags / 8 % 2 == 1 }

  /** `unzipFirstEntry`, before decompression. */
  function UnzipFirstEntry(bytes: Bytes): Unzipped {
    if |bytes| < HEADER then Refused(TooShort)
    else if Little(bytes[0..4]) != LOCAL_SIG then Refused(NotZip)
    else
      var flags, kind := Little(bytes[6..8]), Little(bytes[8..10]);
      var csize, usize := Little(bytes[18..22]), Little(bytes[22..26]);
      var nameLen, extraLen := Little(bytes[26..28]), Little(bytes[28..30]);
      var start := HEADER + nameLen + extraLen;
      if HasDescriptor(flags) then Refused(DataDescriptor)
      else if csize == UNKNOWN_SIZE || usize == UNKNOWN_SIZE then Refused(Zip64)
      else if start + csize > |bytes| then Refused(Truncated)
      else if kind != STORE && kind != DEFLATE then Refused(UnknownMethod)
      else Opened(bytes[HEADER..HEADER + nameLen], usize, kind, bytes[start..start + csize])
  }

  /** `n` in `width` bytes, little-endian. */
  function AsLittle(n: nat, width: nat): (b: Bytes)
    ensures |b| == width
  {
    if width == 0 then [] else [n % 256] + AsLittle(n / 256, width - 1)
  }

  function Pow256(k: nat): nat { if k == 0 then 1 else 256 * Pow256(k - 1) }

  lemma {:induction false} LittleReads(n: nat, width: nat)
    requires n < Pow256(width)
    ensures Little(AsLittle(n, width)) == n
  {
    if width > 0 {
      assert AsLittle(n, width)[1..] == AsLittle(n / 256, width - 1);
      LittleReads(n / 256, width - 1);
    }
  }

  lemma Powers()
    ensures Pow256(2) == 0x1_0000 && Pow256(4) == 0x1_0000_0000
  {
    assert Pow256(1) == 256 && Pow256(2) == 256 * 256 && Pow256(3) == 256 * 0x1_0000;
  }

  /** The fields a local file header carries beyond those the reader needs. */
  datatype Rest = Rest(version: Bytes, stamp: Bytes, crc: Bytes)

  predicate GoodRest(r: Rest) { |r.version| == 2 && |r.stamp| == 4 && |r.crc| == 4 }

  /** A local file header as the ZIP format lays it out. */
  function LocalHeader(flags: nat, kind: nat, csize: nat, usize: nat, nameLen: nat, extraLen: nat, r: Rest): Bytes {
    AsLittle(LOCAL_SIG, 4) + r.version + AsLittle(flags, 2) + AsLittle(kind, 2) + r.stamp + r.crc
    + AsLittle(csize, 4) + AsLittle(usize, 4) + AsLittle(nameLen, 2) + AsLittle(extraLen, 2)
  }

  lemma HeaderReads(flags: nat, kind: nat, csize: nat, usize: nat, nameLen: nat, extraLen: nat, r: Rest, rest: Bytes)
    requires GoodRest(r) && flags < 0x1_0000 && kind < 0x1_0000 && nameLen < 0x1_0000 && extraLen < 0x1_0000
    requires csize < 0x1_0000_0000 && usize < 0x1_0000_0000
    ensures (var b := LocalHeader(flags, kind, csize, usize, nameLen, extraLen, r) + rest;
             |b| == HEADER + |rest| && b[HEADER..] == rest
             && Little(b[0..4]) == LOCAL_SIG && Little(b[6..8]) == flags && Little(b[8..10]) == kind
             && Little(b[18..22]) == csize && Little(b[22..26]) == usize && Little(b[26..28]) == nameLen && Little(b[28..30]) == extraLen)
  {
    hide AsLittle;
    hide Little;
    Powers();
    LittleReads(LOCAL_SIG, 4);
    LittleReads(flags, 2);
    LittleReads(kind, 2);
    LittleReads(csize, 4);
    LittleReads(usize, 4);
    LittleReads(nameLen, 2);
    LittleReads(extraLen, 2);
    var b := LocalHeader(flags, kind, csize, usize, nameLen, extraLen, r) + rest;
    assert b[0..4] == AsLittle(LOCAL_SIG, 4) && b[6..8] == AsLittle(flags, 2) && b[8..10] == AsLittle(kind, 2);
    assert b[18..22] == AsLittle(csize, 4) && b[22..26] == AsLittle(usize, 4);
    assert b[26..28] == AsLittle(nameLen, 2) && b[28..30] == AsLittle(extraLen, 2);
  }

  /** The first entry of an archive is its name and exactly its payload, whatever extra field
      stands before it and whatever directory after it. */
  lemma FirstEntryReads(kind: nat, flags: nat, usize: nat, name: Bytes, extra: Bytes, payload: Bytes, trailer: Bytes, r: Rest)
    requires GoodRest(r) && (kind == STORE || kind == DEFLATE) && flags < 0x1_0000 && !HasDescriptor(flags)
    requires |name| < 0x1_0000 && |extra| < 0x1_0000 && |payload| < UNKNOWN_SIZE && usize < UNKNOWN_SIZE
    ensures (var archive := LocalHeader(flags, kind, |payload|, usize, |name|, |extra|, r) + (name + (extra + (payload + trailer)));
             UnzipFirstEntry(archive) == Opened(name, usize, kind, payload))
  {
    hide LocalHeader;
    hide Little;
    var rest := name + (extra + (payload + trailer));
    HeaderReads(flags, kind, |payload|, usize, |name|, |extra|, r, rest);
    var archive := LocalHeader(flags, kind, |payload|, usize, |name|, |extra|, r) + rest;
    var start := HEADER + |name| + |extra|;
    assert archive[HEADER..HEADER + |name|] == archive[HEADER..][..|name|] == name;
    assert archive[start..start + |payload|] == archive[HEADER..][|name| + |extra|..|name| + |extra| + |payload|] == payload;
  }
}
