/** Well-formed UTF-8, as `ByteString::try_from` accepts it (Table 3-7 of the Unicode Standard). */
module Utf8 {
  import opened ByteStrings

  predicate Tail(b: byte) {
    0x80 <= b <= 0xBF
  }

  predicate Two(s: Bytes) {
    |s| >= 2 && 0xC2 <= s[0] <= 0xDF && Tail(s[1])
  }

  predicate Three(s: Bytes) {
    && |s| >= 3 && Tail(s[2])
    && (|| (s[0] == 0xE0 && 0xA0 <= s[1] <= 0xBF)
        || (0xE1 <= s[0] <= 0xEC && Tail(s[1]))
        || (s[0] == 0xED && 0x80 <= s[1] <= 0x9F)
        || (0xEE <= s[0] <= 0xEF && Tail(s[1])))
  }

  predicate Four(s: Bytes) {
    && |s| >= 4 && Tail(s[2]) && Tail(s[3])
    && (|| (s[0] == 0xF0 && 0x90 <= s[1] <= 0xBF)
        || (0xF1 <= s[0] <= 0xF3 && Tail(s[1]))
        || (s[0] == 0xF4 && 0x80 <= s[1] <= 0x8F))
  }

  predicate IsUtf8(s: Bytes)
    decreases |s|
  {
    if s == [] then true
    else if s[0] < 0x80 then IsUtf8(s[1..])
    else if Two(s) then IsUtf8(s[2..])
    else if Three(s) then IsUtf8(s[3..])
    else Four(s) && IsUtf8(s[4..])
  }

  /** ASCII is well-formed. */
  lemma {:induction false} AsciiIsUtf8(s: Bytes)
    requires forall i :: 0 <= i < |s| ==> s[i] < 0x80
    ensures IsUtf8(s)
    decreases |s|
  {
    if s != [] {
      AsciiIsUtf8(s[1..]);
    }
  }

  // ----- What the text stands for -----

  predicate Scalar(c: nat) {
    c < 0xD800 || 0xE000 <= c < 0x110000
  }

  /** The bytes of one character (RFC 3629, section 3). */
  function Encoded(c: nat): (s: Bytes)
    requires Scalar(c)
    ensures s != []
  {
    if c < 0x80 then [c as byte]
    else if c < 0x800 then [(0xC0 + c / 64) as byte, Low(c)]
    else if c < 0x10000 then [(0xE0 + c / 64 / 64) as byte, Low(c / 64), Low(c)]
    else [(0xF0 + c / 64 / 64 / 64) as byte, Low(c / 64 / 64), Low(c / 64), Low(c)]
  }

  /** A tail byte, for the lowest six bits. */
  function Low(c: nat): byte {
    (0x80 + c % 64) as byte
  }

  function Bits(b: byte): nat
    requires Tail(b)
  {
    (b - 0x80) as nat
  }

  predicate Scalars(cs: seq<nat>) {
    forall i :: 0 <= i < |cs| ==> Scalar(cs[i])
  }

  function EncodedAll(cs: seq<nat>): Bytes
    requires Scalars(cs)
  {
    if cs == [] then [] else Encoded(cs[0]) + EncodedAll(cs[1..])
  }

  lemma LowOf(high: nat, b: byte)
    requires Tail(b)
    ensures Low(64 * high + Bits(b)) == b && (64 * high + Bits(b)) / 64 == high
  {
  }

  /** The first character of a well-formed text, and how many bytes it takes. */
  lemma FirstScalar(s: Bytes) returns (c: nat, n: nat)
    requires s != [] && IsUtf8(s)
    ensures 0 < n <= |s| && Scalar(c) && Encoded(c) == s[..n] && IsUtf8(s[n..])
  {
    hide Low, IsUtf8;
    Unfolded(s);
    if s[0] < 0x80 {
      c, n := s[0] as nat, 1;
    } else if Two(s) {
      var high := (s[0] - 0xC0) as nat;
      c, n := 64 * high + Bits(s[1]), 2;
      LowOf(high, s[1]);
    } else if Three(s) {
      var top := (s[0] - 0xE0) as nat;
      var high := 64 * top + Bits(s[1]);
      c, n := 64 * high + Bits(s[2]), 3;
      LowOf(top, s[1]);
      LowOf(high, s[2]);
    } else {
      var top := (s[0] - 0xF0) as nat;
      var upper := 64 * top + Bits(s[1]);
      var high := 64 * upper + Bits(s[2]);
      c, n := 64 * high + Bits(s[3]), 4;
      LowOf(top, s[1]);
      LowOf(upper, s[2]);
      LowOf(high, s[3]);
    }
  }

  lemma Unfolded(s: Bytes)
    requires s != []
    ensures IsUtf8(s) <==>
      if s[0] < 0x80 then IsUtf8(s[1..])
      else if Two(s) then IsUtf8(s[2..])
      else if Three(s) then IsUtf8(s[3..])
      else Four(s) && IsUtf8(s[4..])
  {
  }

  lemma EncodedIsUtf8(c: nat, rest: Bytes)
    requires Scalar(c)
    ensures IsUtf8(Encoded(c) + rest) <==> IsUtf8(rest)
  {
    hide IsUtf8;
    var s := Encoded(c) + rest;
    Unfolded(s);
    assert s[|Encoded(c)|..] == rest;
    assert forall i :: 0 <= i < |Encoded(c)| ==> s[i] == Encoded(c)[i];
  }

  lemma {:induction false} ScalarsOf(s: Bytes) returns (cs: seq<nat>)
    requires IsUtf8(s)
    ensures Scalars(cs) && s == EncodedAll(cs)
    decreases |s|
  {
    hide Encoded, IsUtf8;
    cs := [];
    if s != [] {
      var c, n := FirstScalar(s);
      var later := ScalarsOf(s[n..]);
      cs := [c] + later;
      assert cs[1..] == later;
      assert s == s[..n] + s[n..];
    }
  }

  lemma {:induction false} EncodedAllIsUtf8(cs: seq<nat>)
    requires Scalars(cs)
    ensures IsUtf8(EncodedAll(cs))
  {
    hide Encoded;
    if cs != [] {
      EncodedIsUtf8(cs[0], EncodedAll(cs[1..]));
      EncodedAllIsUtf8(cs[1..]);
    }
  }

  /** A text is well-formed exactly when it is the encoding of a sequence of Unicode characters. */
  lemma Utf8Exact(s: Bytes)
    ensures IsUtf8(s) <==> exists cs: seq<nat> :: Scalars(cs) && s == EncodedAll(cs)
  {
    hide IsUtf8, EncodedAll;
    if IsUtf8(s) {
      var cs := ScalarsOf(s);
    }
    forall cs: seq<nat> | Scalars(cs) && s == EncodedAll(cs)
      ensures IsUtf8(s)
    {
      EncodedAllIsUtf8(cs);
    }
  }
}
