/** CRLF splitting of the header block. */
module LinesIter {
  import opened Wrappers
  import opened ByteStrings

  /** All the lines the iterator yields: a terminated last line does not add an empty one. */
  function Lines(s: Bytes): seq<Bytes>
    decreases |s|
  {
    if s == [] then []
    else match FindCrlf(s)
      case None => [s]
      case Some(i) => [s[..i]] + Lines(s[i + 2..])
  }

  /** The iterator returned by `lines_iter`: a captured buffer shrunk by every step. */
  class LineIterator {
    var bytes: Bytes

    constructor (block: Bytes)
      ensures bytes == block
    {
      bytes := block;
    }

    method Next() returns (line: Option<Bytes>)
      modifies this
      ensures line.None? <==> Lines(old(bytes)) == []
      ensures line.Some? ==> Lines(old(bytes)) == [line.value] + Lines(bytes)
      ensures line.None? ==> bytes == old(bytes)
      ensures line.Some? ==> |bytes| < |old(bytes)|
    {
      if bytes == [] {
        return None;
      }
      var found := FindCrlf(bytes);
      match found {
        case Some(i) =>
          line := Some(bytes[..i]);
          bytes := bytes[i + 2..];
        case None =>
          line := Some(bytes);
          bytes := [];
      }
    }
  }

  ghost predicate CrlfFree(s: Bytes) {
    forall i :: !CrlfAt(s, i)
  }

  /** Lines each followed by CRLF, then an unterminated tail. */
  function Unlines(lines: seq<Bytes>, tail: Bytes): Bytes {
    if lines == [] then tail else lines[0] + CRLF + Unlines(lines[1..], tail)
  }

  lemma FindCrlfFree(l: Bytes, rest: Bytes)
    requires CrlfFree(l)
    ensures FindCrlf(l + CRLF + rest) == Some(|l|)
  {
    var s := l + CRLF + rest;
    assert CrlfAt(s, |l|);
    forall j | 0 <= j < |l|
      ensures !CrlfAt(s, j)
    {
      assert !CrlfAt(l, j);
      assert s[j] == l[j];
      assert s[j + 1] == if j + 1 < |l| then l[j + 1] else CR;
    }
  }

  /** Splitting inverts terminating; only an empty tail leaves no trace. */
  lemma {:induction false} LinesOfUnlines(lines: seq<Bytes>, tail: Bytes)
    requires forall i :: 0 <= i < |lines| ==> CrlfFree(lines[i])
    requires CrlfFree(tail)
    ensures Lines(Unlines(lines, tail)) == lines + if tail == [] then [] else [tail]
  {
    if lines == [] {
      assert lines + [tail] == [tail];
    } else {
      var l, rest := lines[0], Unlines(lines[1..], tail);
      LinesOfUnlines(lines[1..], tail);
      FindCrlfFree(l, rest);
      Parts(l, CRLF, rest);
    }
  }

  lemma CutAt(s: Bytes, i: nat)
    requires CrlfAt(s, i)
    ensures var l, rest := s[..i], s[i + 2..]; s == l + CRLF + rest && s + CRLF == l + CRLF + (rest + CRLF)
  {
    var l, rest := s[..i], s[i + 2..];
    assert s == l + CRLF + rest;
  }

  /** Conversely, the lines of a block lose nothing but a missing last terminator. */
  lemma {:induction false} UnlinesOfLines(s: Bytes)
    ensures Unlines(Lines(s), []) == s || Unlines(Lines(s), []) == s + CRLF
    decreases |s|
  {
    if s != [] {
      hide Unlines;
      var found := FindCrlf(s);
      match found {
        case None =>
          NoLines();
          UnlinesCons(s, []);
        case Some(i) =>
          var l, rest := s[..i], s[i + 2..];
          UnlinesOfLines(rest);
          UnlinesCons(l, Lines(rest));
          CutAt(s, i);
      }
    }
  }

  lemma NoLines()
    ensures Unlines([], []) == []
  {
  }

  lemma UnlinesCons(l: Bytes, lines: seq<Bytes>)
    ensures Unlines([l] + lines, []) == l + CRLF + Unlines(lines, [])
  {
    assert ([l] + lines)[1..] == lines;
  }

  lemma PrefixCrlfFree(s: Bytes, i: nat)
    requires FindCrlf(s) == Some(i)
    ensures CrlfFree(s[..i])
  {
    forall j | CrlfAt(s[..i], j)
      ensures false
    {
      assert CrlfAt(s, j);
    }
  }

  lemma LineSafeIsCrlfFree(s: Bytes)
    requires LineSafe(s)
    ensures CrlfFree(s)
  {
  }
}
