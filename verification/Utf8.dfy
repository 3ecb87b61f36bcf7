/** UTF-8 as section 3 of RFC 3629 defines it, and the fact of its section 1 that the
    artifact order rests on: the byte order of encodings is the order of code points. */
module Utf8 {
  import opened Text

  predicate Scalar(c: int) {
    0 <= c < 0x11_0000 && !IsSurrogate(c)
  }

  predicate Scalars(cs: seq<int>) {
    forall c :: c in cs ==> Scalar(c)
  }

  function EncodeOne(c: int): (bytes: seq<int>)
    requires Scalar(c)
    ensures 1 <= |bytes| <= 4
  {
    if c < 0x80 then [c]
    else if c < 0x800 then [0xC0 + c / 0x40, 0x80 + c % 0x40]
    else if c < 0x1_0000 then [0xE0 + c / 0x1000, 0x80 + c / 0x40 % 0x40, 0x80 + c % 0x40]
    else [0xF0 + c / 0x4_0000, 0x80 + c / 0x1000 % 0x40, 0x80 + c / 0x40 % 0x40, 0x80 + c % 0x40]
  }

  function Encode(cs: seq<int>): (bytes: seq<int>)
    requires Scalars(cs)
  {
    if cs == [] then [] else EncodeOne(cs[0]) + Encode(cs[1..])
  }

  /** The six-bit digits an encoding spreads over its bytes. */
  lemma Digits(c: int)
    requires 0 <= c
    ensures c == 0x40 * (c / 0x40) + c % 0x40
    ensures c / 0x40 == 0x40 * (c / 0x1000) + c / 0x40 % 0x40
    ensures c / 0x1000 == 0x40 * (c / 0x4_0000) + c / 0x1000 % 0x40
  {
    assert c / 0x40 / 0x40 == c / 0x1000;
    assert c / 0x1000 / 0x40 == c / 0x4_0000;
  }

  /** Encodings of two different scalars part inside both of them, in scalar order. */
  lemma OneParts(a: int, b: int) returns (i: nat)
    requires Scalar(a) && Scalar(b) && a < b
    ensures i < |EncodeOne(a)| && i < |EncodeOne(b)|
    ensures EncodeOne(a)[..i] == EncodeOne(b)[..i]
    ensures EncodeOne(a)[i] < EncodeOne(b)[i]
  {
    var x, y := EncodeOne(a), EncodeOne(b);
    LeadByteFirst(a, b);
    if x[0] != y[0] {
      i := 0;
    } else {
      Digits(a);
      Digits(b);
      if x[1] != y[1] {
        i := 1;
      } else if x[2] != y[2] {
        i := 2;
      } else {
        i := 3;
      }
    }
  }

  lemma LeadByteFirst(a: int, b: int)
    requires Scalar(a) && Scalar(b) && a < b
    ensures EncodeOne(a)[0] <= EncodeOne(b)[0]
    ensures EncodeOne(a)[0] == EncodeOne(b)[0] ==> |EncodeOne(a)| == |EncodeOne(b)| > 1
  {
  }

  /** Byte order of UTF-8 is code point order. */
  lemma {:induction false} EncodingKeepsOrder(x: seq<int>, y: seq<int>)
    requires Scalars(x) && Scalars(y)
    ensures Lex(Encode(x), Encode(y)) == Lex(x, y)
  {
    if x == [] || y == [] {
    } else if x[0] == y[0] {
      EncodingKeepsOrder(x[1..], y[1..]);
      LexStrip(EncodeOne(x[0]), Encode(x[1..]), Encode(y[1..]));
    } else if x[0] < y[0] {
      HeadDecides(x, y);
    } else {
      HeadDecides(y, x);
      LexFlip(x, y);
      LexFlip(Encode(x), Encode(y));
    }
  }

  lemma HeadDecides(x: seq<int>, y: seq<int>)
    requires Scalars(x) && Scalars(y)
    requires x != [] && y != [] && x[0] < y[0]
    ensures Lex(Encode(x), Encode(y)) == -1
  {
    var a, b := EncodeOne(x[0]), EncodeOne(y[0]);
    var i := OneParts(x[0], y[0]);
    LexParting(a[..i], a[i], a[i + 1..] + Encode(x[1..]), b[i], b[i + 1..] + Encode(y[1..]));
    SplitAt(a, i, Encode(x[1..]));
    SplitAt(b, i, Encode(y[1..]));
  }
}
