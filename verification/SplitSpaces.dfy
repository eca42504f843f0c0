/** The control-line tokeniser: chunks separated by runs of spaces and tabs. */
module SplitSpaces {
  import opened Wrappers
  import opened ByteStrings

  predicate IsBlank(b: byte) {
    b == SPACE || b == TAB
  }

  predicate BlankFree(s: Bytes) {
    forall i :: 0 <= i < |s| ==> !IsBlank(s[i])
  }

  predicate AllBlank(s: Bytes) {
    forall i :: 0 <= i < |s| ==> IsBlank(s[i])
  }

  /** The first blank (`memchr2`). */
  function FindBlank(s: Bytes, from: nat := 0): (r: Option<nat>)
    requires from <= |s|
    ensures r.Some? ==> from <= r.value < |s| && IsBlank(s[r.value]) && forall j :: from <= j < r.value ==> !IsBlank(s[j])
    ensures r.None? ==> forall j :: from <= j < |s| ==> !IsBlank(s[j])
    decreases |s| - from
  {
    if from == |s| then None
    else if IsBlank(s[from]) then Some(from)
    else FindBlank(s, from + 1)
  }

  /** Where the run of blanks starting at `from` ends (`take_while`). */
  function SkipBlanks(s: Bytes, from: nat): (k: nat)
    requires from <= |s|
    ensures from <= k <= |s|
    ensures forall j :: from <= j < k ==> IsBlank(s[j])
    ensures k < |s| ==> !IsBlank(s[k])
    decreases |s| - from
  {
    if from < |s| && IsBlank(s[from]) then SkipBlanks(s, from + 1) else from
  }

  /** All the chunks the iterator yields. A leading run of blanks yields one empty chunk, a trailing one yields none. */
  function Tokens(s: Bytes): seq<Bytes>
    decreases |s|
  {
    if s == [] then []
    else match FindBlank(s)
      case None => [s]
      case Some(i) => [s[..i]] + Tokens(s[SkipBlanks(s, i)..])
  }

  /** The iterator returned by `split_spaces`: a captured buffer shrunk by every step. */
  class Splitter {
    var bytes: Bytes

    constructor (line: Bytes)
      ensures bytes == line
    {
      bytes := line;
    }

    method Next() returns (chunk: Option<Bytes>)
      modifies this
      ensures chunk.None? <==> Tokens(old(bytes)) == []
      ensures chunk.Some? ==> Tokens(old(bytes)) == [chunk.value] + Tokens(bytes)
      ensures chunk.None? ==> bytes == old(bytes)
    {
      if bytes == [] {
        return None;
      }
      var found := FindBlank(bytes);
      match found {
        case None =>
          chunk := Some(bytes);
          bytes := [];
        case Some(i) =>
          chunk := Some(bytes[..i]);
          bytes := bytes[SkipBlanks(bytes, i)..];
      }
    }
  }

  predicate IsToken(t: Bytes) {
    t != [] && BlankFree(t)
  }

  predicate IsGap(g: Bytes) {
    g != [] && AllBlank(g)
  }

  /** Tokens laid out with one gap after each but the last. */
  function Spaced(tokens: seq<Bytes>, gaps: seq<Bytes>): Bytes
    requires |tokens| == |gaps| + 1
  {
    if gaps == [] then tokens[0] else tokens[0] + gaps[0] + Spaced(tokens[1..], gaps[1..])
  }

  /** Tokenising a laid-out line gives back its tokens, whatever runs of spaces and tabs separate them. */
  lemma {:induction false} TokensOfSpaced(tokens: seq<Bytes>, gaps: seq<Bytes>)
    requires |tokens| == |gaps| + 1
    requires forall i :: 0 <= i < |tokens| ==> IsToken(tokens[i])
    requires forall i :: 0 <= i < |gaps| ==> IsGap(gaps[i])
    ensures Spaced(tokens, gaps) != [] && !IsBlank(Spaced(tokens, gaps)[0])
    ensures Tokens(Spaced(tokens, gaps)) == tokens
  {
    var s, t := Spaced(tokens, gaps), tokens[0];
    assert IsToken(t);
    if gaps == [] {
      assert tokens == [t];
    } else {
      var g, rest := gaps[0], Spaced(tokens[1..], gaps[1..]);
      TokensOfSpaced(tokens[1..], gaps[1..]);
      FindBlankAt(t, g, rest);
    }
  }

  lemma FindBlankAt(t: Bytes, g: Bytes, rest: Bytes)
    requires BlankFree(t) && IsGap(g) && (rest == [] || !IsBlank(rest[0]))
    ensures var s := t + g + rest;
      FindBlank(s) == Some(|t|) && SkipBlanks(s, |t|) == |t| + |g| && s[..|t|] == t && s[|t| + |g|..] == rest
  {
    var s, n := t + g + rest, |t| + |g|;
    Parts(t, g, rest);
    assert rest != [] ==> s[n] == s[n..][0];
    BlankRunIs(s, |t|, n);
  }

  lemma BlankRunIs(s: Bytes, i: nat, k: nat)
    requires i < k <= |s|
    requires BlankFree(s[..i]) && AllBlank(s[i..k]) && (k == |s| || !IsBlank(s[k]))
    ensures FindBlank(s) == Some(i) && SkipBlanks(s, i) == k
  {
    forall j | 0 <= j < k
      ensures IsBlank(s[j]) <==> i <= j
    {
      assert s[j] == if j < i then s[..i][j] else s[i..k][j - i];
    }
    assert IsBlank(s[i]);
    var e := SkipBlanks(s, i);
    assert e >= k;
    assert e <= k;
  }

  /** Every chunk is free of blanks, and only the first may be empty, exactly when the line starts with a blank. */
  lemma {:induction false} TokensAreTokens(s: Bytes)
    ensures forall i :: 0 <= i < |Tokens(s)| ==> BlankFree(Tokens(s)[i])
    ensures forall i :: 1 <= i < |Tokens(s)| ==> Tokens(s)[i] != []
    ensures Tokens(s) != [] ==> (Tokens(s)[0] == [] <==> IsBlank(s[0]))
    decreases |s|
  {
    if s != [] {
      var found := FindBlank(s);
      if found.Some? {
        TokensAreTokens(s[SkipBlanks(s, found.value)..]);
      }
    }
  }

  /** The layout the encoder uses: single spaces. */
  function Joined(tokens: seq<Bytes>): Bytes
    requires tokens != []
  {
    if |tokens| == 1 then tokens[0] else tokens[0] + [SPACE] + Joined(tokens[1..])
  }

  lemma {:induction false} TokensOfJoined(tokens: seq<Bytes>)
    requires tokens != [] && forall i :: 0 <= i < |tokens| ==> IsToken(tokens[i])
    ensures Tokens(Joined(tokens)) == tokens
  {
    var gaps := seq(|tokens| - 1, _ => [SPACE]);
    JoinedIsSpaced(tokens, gaps);
    TokensOfSpaced(tokens, gaps);
  }

  lemma {:induction false} JoinedIsSpaced(tokens: seq<Bytes>, gaps: seq<Bytes>)
    requires |tokens| == |gaps| + 1
    requires forall i :: 0 <= i < |gaps| ==> gaps[i] == [SPACE]
    ensures Joined(tokens) == Spaced(tokens, gaps)
  {
    if gaps != [] {
      JoinedIsSpaced(tokens[1..], gaps[1..]);
    }
  }

  /** Line safety of a joined line is line safety of its tokens. */
  lemma {:induction false} JoinedLineSafe(tokens: seq<Bytes>)
    requires tokens != [] && forall i :: 0 <= i < |tokens| ==> LineSafe(tokens[i])
    ensures LineSafe(Joined(tokens))
  {
    if |tokens| > 1 {
      JoinedLineSafe(tokens[1..]);
    }
  }
}
