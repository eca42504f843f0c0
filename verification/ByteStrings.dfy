/** Bytes, the ASCII characters of the protocol, and the two leftmost-match searches of the codec. */
module ByteStrings {
  import opened Wrappers

  newtype byte = x: int | 0 <= x < 0x100

  type Bytes = seq<byte>

  const TAB: byte := 9
  const LF: byte := 10
  const CR: byte := 13
  const SPACE: byte := 32
  const STAR: byte := 42
  const DOT: byte := 46
  const COLON: byte := 58
  const GREATER: byte := 62

  const CRLF: Bytes := [CR, LF]

  /** The largest values of the two unsigned types the codec parses numbers into (64-bit target). */
  const U64_MAX: nat := 0xFFFF_FFFF_FFFF_FFFF
  const USIZE_MAX: nat := 0xFFFF_FFFF_FFFF_FFFF

  predicate CrlfAt(s: Bytes, i: int) {
    0 <= i && i + 1 < |s| && s[i] == CR && s[i + 1] == LF
  }

  /** The leftmost CRLF, as `CrlfFinder` reports it. */
  function FindCrlf(s: Bytes, from: nat := 0): (r: Option<nat>)
    requires from <= |s|
    ensures r.Some? ==> from <= r.value && CrlfAt(s, r.value) && forall j :: from <= j < r.value ==> !CrlfAt(s, j)
    ensures r.None? ==> forall j :: from <= j ==> !CrlfAt(s, j)
    decreases |s| - from
  {
    if from == |s| then None
    else if CrlfAt(s, from) then Some(from)
    else FindCrlf(s, from + 1)
  }

  /** The first position holding `b` (`memchr`). */
  function FindByte(s: Bytes, b: byte, from: nat := 0): (r: Option<nat>)
    requires from <= |s|
    ensures r.Some? ==> from <= r.value < |s| && s[r.value] == b && forall j :: from <= j < r.value ==> s[j] != b
    ensures r.None? ==> forall j :: from <= j < |s| ==> s[j] != b
    decreases |s| - from
  {
    if from == |s| then None
    else if s[from] == b then Some(from)
    else FindByte(s, b, from + 1)
  }

  predicate StartsWith(s: Bytes, prefix: Bytes) {
    |prefix| <= |s| && s[..|prefix|] == prefix
  }

  /** No CR and no LF: what every piece of a control line and of a header line satisfies. */
  predicate LineSafe(s: Bytes) {
    forall i :: 0 <= i < |s| ==> s[i] != CR && s[i] != LF
  }

  /** The three parts of a concatenation, read back. */
  lemma Parts<T>(a: seq<T>, b: seq<T>, c: seq<T>)
    ensures var s := a + b + c;
      s[..|a|] == a && s[|a|..|a| + |b|] == b && s[|a| + |b|..] == c && s[|a|..] == b + c
  {
    var s := a + b + c;
    assert s == a + (b + c);
  }

  /** The concatenation of chunks. */
  function Flatten(chunks: seq<Bytes>): Bytes {
    if chunks == [] then [] else chunks[0] + Flatten(chunks[1..])
  }

  lemma {:induction false} FlattenConcat(a: seq<Bytes>, b: seq<Bytes>)
    ensures Flatten(a + b) == Flatten(a) + Flatten(b)
  {
    if a == [] {
      assert a + b == b;
    } else {
      assert (a + b)[1..] == a[1..] + b;
      FlattenConcat(a[1..], b);
    }
  }

  lemma FlattenNone()
    ensures Flatten([]) == []
  {
  }

  lemma FlattenOne(a: Bytes)
    ensures Flatten([a]) == a
  {
    assert Flatten([]) == [];
  }

  lemma FlattenSnoc(a: seq<Bytes>, b: Bytes)
    ensures Flatten(a + [b]) == Flatten(a) + b
  {
    FlattenConcat(a, [b]);
    FlattenOne(b);
  }

  lemma FlattenTwo(a: Bytes, b: Bytes)
    ensures Flatten([a, b]) == a + b
  {
    FlattenSnoc([a], b);
    FlattenOne(a);
    assert [a] + [b] == [a, b];
  }

  lemma FlattenThree(a: Bytes, b: Bytes, c: Bytes)
    ensures Flatten([a, b, c]) == a + b + c
  {
    FlattenSnoc([a, b], c);
    FlattenTwo(a, b);
    assert [a, b] + [c] == [a, b, c];
  }

  lemma FlattenFour(a: Bytes, b: Bytes, c: Bytes, d: Bytes)
    ensures Flatten([a, b, c, d]) == a + b + c + d
  {
    FlattenSnoc([a, b, c], d);
    FlattenThree(a, b, c);
    assert [a, b, c] + [d] == [a, b, c, d];
  }

  lemma LineSafeConcat(a: Bytes, b: Bytes)
    requires LineSafe(a) && LineSafe(b)
    ensures LineSafe(a + b)
  {
    var s := a + b;
    forall i | 0 <= i < |s|
      ensures s[i] != CR && s[i] != LF
    {
      assert s[i] == if i < |a| then a[i] else b[i - |a|];
    }
  }

  /** Appending bytes does not move the leftmost CRLF. */
  lemma FindCrlfExtends(s: Bytes, x: Bytes)
    requires FindCrlf(s).Some?
    ensures FindCrlf(s + x) == FindCrlf(s)
  {
    var i := FindCrlf(s).value;
    assert CrlfAt(s + x, i);
    forall j | 0 <= j < i
      ensures !CrlfAt(s + x, j)
    {
      assert !CrlfAt(s, j);
    }
  }

  /** A line without CR is found exactly at its terminator, whatever follows. */
  lemma FindCrlfAfterLine(line: Bytes, rest: Bytes)
    requires LineSafe(line)
    ensures FindCrlf(line + CRLF + rest) == Some(|line|)
  {
    var s := line + CRLF + rest;
    assert CrlfAt(s, |line|);
    forall j | 0 <= j < |line|
      ensures !CrlfAt(s, j)
    {
      assert s[j] == line[j];
    }
  }
}
