/** Readers over chunked streams. What they return depends on the stream's contents and never
    on where the transport cut it. */
module Stream {
  import opened Wrappers
  import opened Text

  type Byte = b: int | 0 <= b < 256
  type Bytes = seq<Byte>

  function Flat<T>(chunks: seq<seq<T>>): seq<T> {
    if chunks == [] then [] else chunks[0] + Flat(chunks[1..])
  }

  lemma {:induction false} FlatConcat<T>(a: seq<seq<T>>, b: seq<seq<T>>)
    ensures Flat(a + b) == Flat(a) + Flat(b)
  {
    if a == [] {
      assert a + b == b;
    } else {
      assert (a + b)[1..] == a[1..] + b;
      FlatConcat(a[1..], b);
    }
  }

  lemma FlatOne<T>(c: seq<T>)
    ensures Flat([c]) == c
  {
    assert Flat([c]) == c + Flat([]);
  }

  const SKIP_STEP := 0x1_0000

  /** What is left after skipping `n` bytes: on a short stream the whole steps are gone and the
      remainder stays. */
  function AfterSkip(bytes: Bytes, n: nat): (rest: Bytes)
    ensures |rest| <= |bytes|
  {
    if n <= |bytes| then bytes[n..] else bytes[|bytes| / SKIP_STEP * SKIP_STEP..]
  }

  /** `ByteReader`. `pending` is what the transport has yet to deliver. */
  class ByteReader {
    var pending: seq<Bytes>
    var chunks: seq<Bytes>
    var len: nat
    var eof: bool

    /** The bytes still to be read. */
    ghost function Contents(): Bytes
      reads this
    {
      Flat(chunks) + Flat(pending)
    }

    ghost predicate Valid()
      reads this
    {
      && len == |Flat(chunks)|
      && (forall i :: 0 <= i < |chunks| ==> chunks[i] != [])
      && (eof ==> pending == [])
    }

    constructor (source: seq<Bytes>)
      ensures Valid() && Contents() == Flat(source)
    {
      pending, chunks, len, eof := source, [], 0, false;
    }

    /** Buffer at least `n` bytes if the stream has them. */
    method Fill(n: nat)
      requires Valid()
      modifies this
      ensures Valid() && Contents() == old(Contents())
      ensures len >= n || (eof && len == |Contents()|)
    {
      while len < n && !eof
        invariant Valid() && Contents() == old(Contents())
        decreases |pending|, !eof
      {
        if pending == [] {
          eof := true;
        } else {
          var value := pending[0];
          assert Flat(pending) == value + Flat(pending[1..]);
          pending := pending[1..];
          if |value| > 0 {
            FlatConcat(chunks, [value]);
            FlatOne(value);
            chunks := chunks + [value];
            len := len + |value|;
          }
        }
      }
    }

    /** Take up to `n` bytes off the front chunk. */
    method TakeFront(n: nat) returns (out: Bytes)
      requires Valid() && chunks != [] && n > 0
      modifies `chunks, `len
      ensures Valid()
      ensures 0 < |out| <= n && out + Contents() == old(Contents())
      ensures |out| == n || |out| == |old(chunks)[0]|
      ensures len == old(len) - |out|
    {
      var c := chunks[0];
      var take := if |c| < n then |c| else n;
      out := c[..take];
      assert Flat(chunks) == c + Flat(chunks[1..]);
      assert c == out + c[take..];
      if take == |c| {
        chunks := chunks[1..];
      } else {
        assert Flat([c[take..]] + chunks[1..]) == c[take..] + Flat(chunks[1..]) by {
          assert ([c[take..]] + chunks[1..])[1..] == chunks[1..];
        }
        chunks := [c[take..]] + chunks[1..];
      }
      len := len - take;
    }

    /** Take `n` buffered bytes. */
    method Take(n: nat) returns (out: Bytes)
      requires Valid() && n <= len
      modifies `chunks, `len
      ensures Valid() && |out| == n && out + Contents() == old(Contents())
    {
      hide Flat;
      ghost var all := Contents();
      out := [];
      assert [] + Contents() == Contents();
      while |out| < n
        invariant Valid() && |out| <= n && len >= n - |out|
        invariant out + Contents() == all
      {
        SomeChunk(chunks);
        ghost var before := Contents();
        var piece := TakeFront(n - |out|);
        assert out + (piece + Contents()) == out + piece + Contents();
        out := out + piece;
      }
    }

    /** Exactly `n` bytes, or None at the end of the stream. */
    method Read(n: nat) returns (r: Option<Bytes>)
      requires Valid()
      modifies this
      ensures Valid()
      ensures if n <= |old(Contents())| then r == Some(old(Contents())[..n]) && Contents() == old(Contents())[n..]
              else r == None && Contents() == old(Contents())
    {
      hide Flat;
      if n == 0 {
        return Some([]);
      }
      Fill(n);
      if len < n {
        return None;
      }
      var out := Take(n);
      Parts(out, Contents());
      r := Some(out);
    }

    /** Skip `n` bytes in steps. */
    method Skip(n: nat) returns (ok: bool)
      requires Valid()
      modifies this
      ensures Valid() && Contents() == AfterSkip(old(Contents()), n)
      ensures ok == (n <= |old(Contents())|)
    {
      hide Contents;
      hide Valid;
      ghost var all := Contents();
      ghost var steps: nat := 0;
      var left := n;
      assert all[0..] == all;
      while left > 0
        invariant Valid() && 0 <= left <= n
        invariant n - left <= |all| && Contents() == all[n - left..]
        invariant left > 0 ==> n - left == steps * SKIP_STEP
      {
        var step := if left < SKIP_STEP then left else SKIP_STEP;
        var got := Read(step);
        if got.None? {
          ShortSkip(all, n, steps, left);
          return false;
        }
        assert all[n - left..][step..] == all[n - left + step..];
        left := left - step;
        steps := steps + 1;
      }
      ok := true;
    }
  }

  lemma SomeChunk<T>(chunks: seq<seq<T>>)
    ensures |Flat(chunks)| > 0 ==> chunks != []
  {
  }

  lemma Parts(a: Bytes, b: Bytes)
    ensures (a + b)[..|a|] == a && (a + b)[|a|..] == b
  {
  }

  lemma ShortSkip(all: Bytes, n: nat, steps: nat, left: nat)
    requires left > 0 && left <= n && n - left == steps * SKIP_STEP <= |all|
    requires |all| - (n - left) < (if left < SKIP_STEP then left else SKIP_STEP)
    ensures all[n - left..] == AfterSkip(all, n) && n > |all|
  {
    assert |all| / SKIP_STEP == steps;
  }

  // --------------------------------------------------------------------------------- lines

  /** The pieces that a separator ends: all of a split but the last. */
  function Ended(text: Str): seq<Str> {
    var parts := Split(text, NEWLINE);
    parts[..|parts| - 1]
  }

  /** What follows the last separator. */
  function Tail(text: Str): Str {
    var parts := Split(text, NEWLINE);
    parts[|parts| - 1]
  }

  lemma LinesAre(text: Str)
    ensures LinesOf(text) == Ended(text) + if Tail(text) == [] then [] else [Tail(text)]
  {
    hide Split;
    var parts := Split(text, NEWLINE);
    assert parts == parts[..|parts| - 1] + [parts[|parts| - 1]];
    if Tail(text) == [] {
      assert Ended(text) + [] == Ended(text);
    }
  }

  /** Text that arrives later only adds to the tail. */
  lemma {:induction false} SplitMore(a: Str, b: Str)
    ensures Ended(a + b) == Ended(a) + Ended(Tail(a) + b)
    ensures Tail(a + b) == Tail(Tail(a) + b)
  {
    hide Split;
    hide IndexOf;
    var i := IndexOf(a, NEWLINE);
    IndexOfFirst(a, NEWLINE);
    if i < 0 {
      NoSeparator(a);
    } else {
      var head, rest := a[..i], a[i + 1..];
      SplitMore(rest, b);
      assert a == head + [NEWLINE] + rest;
      assert a + b == head + [NEWLINE] + (rest + b);
      SplitHead(head, NEWLINE, rest);
      SplitHead(head, NEWLINE, rest + b);
      HeadedSplit(head, Split(rest, NEWLINE));
      HeadedSplit(head, Split(rest + b, NEWLINE));
      assert [head] + Ended(rest) + Ended(Tail(rest) + b) == [head] + (Ended(rest) + Ended(Tail(rest) + b));
    }
  }

  lemma NoSeparator(a: Str)
    requires IndexOf(a, NEWLINE) < 0
    ensures Ended(a) == [] && Tail(a) == a
  {
  }

  lemma HeadedSplit(head: Str, parts: seq<Str>)
    requires parts != []
    ensures var all := [head] + parts;
            all[..|all| - 1] == [head] + parts[..|parts| - 1] && all[|all| - 1] == parts[|parts| - 1]
  {
  }

  lemma NoTail()
    ensures Ended([]) == [] && Tail([]) == []
  {
  }

  function TrimReturn(line: Str): Str {
    if line != [] && line[|line| - 1] == RETURN then line[..|line| - 1] else line
  }

  /** A line as one of the two readers yields it. */
  function Yielded(line: Str, crlf: bool): Str {
    if crlf then TrimReturn(line) else line
  }

  function AllYielded(lines: seq<Str>, crlf: bool): (out: seq<Str>)
    ensures |out| == |lines|
  {
    seq(|lines|, i requires 0 <= i < |lines| => Yielded(lines[i], crlf))
  }

  lemma YieldedConcat(a: seq<Str>, b: seq<Str>, crlf: bool)
    ensures AllYielded(a + b, crlf) == AllYielded(a, crlf) + AllYielded(b, crlf)
  {
  }

  /** The inner loop of both line readers: yield every ended piece, keep the tail. */
  method YieldEnded(text: Str, crlf: bool) returns (out: seq<Str>, tail: Str)
    ensures out == AllYielded(Ended(text), crlf) && tail == Tail(text)
  {
    hide Yielded;
    hide Split;
    hide IndexOf;
    hide Cursor;
    out := [];
    ghost var n: nat := 0;
    var pos: nat := 0;
    CursorStart(text, NEWLINE);
    while true
      invariant pos <= |text| && Cursor(text, NEWLINE, pos, n) && n < |Split(text, NEWLINE)|
      invariant out == AllYielded(Split(text, NEWLINE)[..n], crlf)
      decreases |text| - pos
    {
      var nl := IndexOf(text[pos..], NEWLINE);
      CursorStep(text, NEWLINE, pos, n);
      if nl < 0 {
        CursorLast(text, pos, n);
        return out, text[pos..];
      }
      var line := text[pos..pos + nl];
      YieldedSnoc(Split(text, NEWLINE), n, crlf);
      out := out + [Yielded(line, crlf)];
      pos := pos + nl + 1;
      n := n + 1;
      CursorInside(text, pos, n);
    }
  }

  lemma YieldedSnoc(parts: seq<Str>, n: nat, crlf: bool)
    requires n < |parts|
    ensures AllYielded(parts[..n + 1], crlf) == AllYielded(parts[..n], crlf) + [Yielded(parts[n], crlf)]
  {
    hide Yielded;
  }

  lemma CursorLast(text: Str, pos: nat, n: nat)
    requires pos <= |text| && Cursor(text, NEWLINE, pos, n) && IndexOf(text[pos..], NEWLINE) < 0
    ensures Tail(text) == text[pos..] && Ended(text) == Split(text, NEWLINE)[..n]
  {
    var parts := Split(text, NEWLINE);
    assert parts[n..] == [text[pos..]];
    assert parts[n..][0] == parts[n];
  }

  lemma CursorInside(text: Str, pos: nat, n: nat)
    requires pos <= |text| && Cursor(text, NEWLINE, pos, n)
    ensures n < |Split(text, NEWLINE)|
  {
  }

  /** `gunzipLines`, and `unzipLines` when `crlf` is set, over the decoded chunks of a stream:
      the lines of the whole text, however it was cut. */
  method ReadLines(chunks: seq<Str>, crlf: bool) returns (out: seq<Str>)
    ensures out == AllYielded(LinesOf(Flat(chunks)), crlf)
  {
    hide Yielded;
    out := [];
    var tail: Str := [];
    ghost var seen: Str := [];
    NoTail();
    for i := 0 to |chunks|
      invariant seen == Flat(chunks[..i])
      invariant out == AllYielded(Ended(seen), crlf) && tail == Tail(seen)
    {
      SplitMore(seen, chunks[i]);
      var more, rest := YieldEnded(tail + chunks[i], crlf);
      YieldedConcat(Ended(seen), Ended(tail + chunks[i]), crlf);
      out, tail := out + more, rest;
      assert chunks[..i + 1] == chunks[..i] + [chunks[i]];
      FlatConcat(chunks[..i], [chunks[i]]);
      FlatOne(chunks[i]);
      seen := seen + chunks[i];
    }
    assert chunks[..|chunks|] == chunks;
    LinesAre(seen);
    if tail != [] {
      YieldedConcat(Ended(seen), [tail], crlf);
      assert AllYielded([tail], crlf) == [Yielded(tail, crlf)];
      out := out + [Yielded(tail, crlf)];
    } else {
      assert Ended(seen) + [] == Ended(seen);
    }
  }
}
