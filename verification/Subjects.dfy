/** Subject validation against an independent grammar, and the subjects the client builds for itself. */
module Subjects {
  import opened Wrappers
  import opened ByteStrings

  datatype SubjectError = Empty | IllegalCharacter | BrokenToken | BrokenWildcard

  predicate IsIllegal(b: byte) {
    b == SPACE || b == TAB || b == CR || b == LF
  }

  predicate IsWildcard(b: byte) {
    b == STAR || b == GREATER
  }

  /** `str::split('.')`. */
  function SplitDots(s: Bytes): (tokens: seq<Bytes>)
    ensures tokens != []
    decreases |s|
  {
    match FindByte(s, DOT)
    case None => [s]
    case Some(i) => [s[..i]] + SplitDots(s[i + 1..])
  }

  predicate HasDotDot(token: Bytes) {
    exists i :: 0 <= i < |token| - 1 && token[i] == DOT && token[i + 1] == DOT
  }

  predicate HasWildcard(token: Bytes) {
    exists i :: 0 <= i < |token| && IsWildcard(token[i])
  }

  function CheckTokens(tokens: seq<Bytes>): Result<(), SubjectError> {
    if tokens == [] then Ok(())
    else if tokens[0] == [] || HasDotDot(tokens[0]) then Err(BrokenToken)
    else if |tokens[0]| > 1 && HasWildcard(tokens[0]) then Err(BrokenWildcard)
    else if tokens[0] == [GREATER] && |tokens| > 1 then Err(BrokenWildcard)
    else CheckTokens(tokens[1..])
  }

  /** `validate_subject`. */
  function Validate(s: Bytes): Result<(), SubjectError> {
    if s == [] then Err(Empty)
    else if exists i :: 0 <= i < |s| && IsIllegal(s[i]) then Err(IllegalCharacter)
    else CheckTokens(SplitDots(s))
  }

  predicate Valid(s: Bytes) {
    Validate(s).Ok?
  }

  /** A wildcard is a whole token. */
  predicate Alone(s: Bytes, i: nat)
    requires i < |s|
  {
    (i == 0 || s[i - 1] == DOT) && (i + 1 == |s| || s[i + 1] == DOT)
  }

  /** The token grammar, position by position: no empty token, wildcards alone, `>` last. */
  predicate GrammarAt(s: Bytes, i: nat)
    requires i < |s|
  {
    && (s[i] == DOT ==> 0 < i && i + 1 < |s| && s[i + 1] != DOT)
    && (IsWildcard(s[i]) ==> Alone(s, i))
    && (s[i] == GREATER ==> i + 1 == |s|)
  }

  predicate Grammar(s: Bytes) {
    s != [] && forall i :: 0 <= i < |s| ==> GrammarAt(s, i)
  }

  predicate Legal(s: Bytes) {
    forall i :: 0 <= i < |s| ==> !IsIllegal(s[i])
  }

  /** A token without dots obeys the grammar exactly when it passes the per-token checks. */
  lemma TokenGrammar(t: Bytes)
    requires forall i :: 0 <= i < |t| ==> t[i] != DOT
    ensures Grammar(t) <==> t != [] && !(|t| > 1 && HasWildcard(t))
    ensures !HasDotDot(t)
  {
    if |t| > 1 && HasWildcard(t) {
      var i :| 0 <= i < |t| && IsWildcard(t[i]);
      assert !GrammarAt(t, i);
    }
  }

  /** The grammar of a dotted subject is the grammar of its parts, the first of which must not be `>`. */
  lemma DottedGrammar(a: Bytes, b: Bytes)
    ensures Grammar(a + [DOT] + b) <==> Grammar(a) && Grammar(b) && a[|a| - 1] != GREATER
  {
    var s, n := a + [DOT] + b, |a| + 1;
    assert s[|a|] == DOT;
    if Grammar(s) {
      assert GrammarAt(s, |a|);
      assert b[0] == s[n];
      forall i | 0 <= i < |a|
        ensures GrammarAt(a, i) && (i == |a| - 1 ==> a[i] != GREATER)
      {
        assert GrammarAt(s, i);
        assert i > 0 ==> s[i - 1] == a[i - 1];
      }
      forall i | 0 <= i < |b|
        ensures GrammarAt(b, i)
      {
        assert GrammarAt(s, n + i);
        assert i > 0 ==> s[n + i - 1] == b[i - 1];
        assert i + 1 < |b| ==> s[n + i + 1] == b[i + 1];
      }
    }
    if Grammar(a) && Grammar(b) && a[|a| - 1] != GREATER {
      assert s[n] == b[0] && GrammarAt(b, 0) && GrammarAt(a, |a| - 1);
      forall i | 0 <= i < |s|
        ensures GrammarAt(s, i)
      {
        if i < |a| {
          assert GrammarAt(a, i);
          assert i > 0 ==> s[i - 1] == a[i - 1];
          assert s[i + 1] == if i + 1 < |a| then a[i + 1] else DOT;
        } else if i > |a| {
          assert GrammarAt(b, i - n) && s[i] == b[i - n];
          assert i > n ==> s[i - 1] == b[i - n - 1];
          assert i + 1 < |s| ==> s[i + 1] == b[i - n + 1];
        }
      }
    }
  }

  lemma {:induction false} TokensGrammar(s: Bytes)
    ensures CheckTokens(SplitDots(s)).Ok? <==> Grammar(s)
    decreases |s|
  {
    match FindByte(s, DOT) {
      case None =>
        TokenGrammar(s);
        assert CheckTokens([]).Ok?;
        assert SplitDots(s)[1..] == [];
      case Some(i) =>
        var t, rest := s[..i], s[i + 1..];
        TokensGrammar(rest);
        TokenGrammar(t);
        DottedGrammar(t, rest);
        assert s == t + [DOT] + rest;
        assert SplitDots(s)[1..] == SplitDots(rest);
        if Grammar(t) && t[|t| - 1] == GREATER {
          assert GrammarAt(t, |t| - 1);
          assert t == [GREATER] by {
            assert forall j :: 0 <= j < |t| ==> t[j] != DOT;
          }
        }
    }
  }

  /** `validate_subject` accepts exactly the grammar over bytes that cannot break a control line. */
  lemma ValidIffGrammar(s: Bytes)
    ensures Valid(s) <==> Grammar(s) && Legal(s)
    ensures Validate(s) == Err(Empty) <==> s == []
    ensures Validate(s) == Err(IllegalCharacter) <==> exists i :: 0 <= i < |s| && IsIllegal(s[i])
  {
    TokensGrammar(s);
    CheckTokensErrors(SplitDots(s));
  }

  lemma {:induction false} CheckTokensErrors(tokens: seq<Bytes>)
    ensures CheckTokens(tokens).Ok? || CheckTokens(tokens).error in {BrokenToken, BrokenWildcard}
  {
    if tokens != [] {
      CheckTokensErrors(tokens[1..]);
    }
  }

  // ----- Which error is reported -----

  predicate GoodAt(tokens: seq<Bytes>, k: nat)
    requires k < |tokens|
  {
    && tokens[k] != []
    && (HasWildcard(tokens[k]) ==> |tokens[k]| == 1)
    && (tokens[k] == [GREATER] ==> k + 1 == |tokens|)
  }

  /** The first token that breaks the grammar. */
  predicate FirstBad(tokens: seq<Bytes>, k: nat) {
    k < |tokens| && !GoodAt(tokens, k) && forall j :: 0 <= j < k ==> GoodAt(tokens, j)
  }

  lemma {:induction false} CheckTokensFindsFirstBad(tokens: seq<Bytes>, k: nat)
    requires FirstBad(tokens, k) && forall i :: 0 <= i < |tokens| ==> DotFree(tokens[i])
    ensures CheckTokens(tokens) == Err(if tokens[k] == [] then BrokenToken else BrokenWildcard)
  {
    hide HasWildcard;
    NoDotDot(tokens[0]);
    if k > 0 {
      var rest := tokens[1..];
      assert forall i :: 0 <= i < |rest| ==> rest[i] == tokens[i + 1];
      assert GoodAt(tokens, 0) && !GoodAt(rest, k - 1);
      forall j | 0 <= j < k - 1
        ensures GoodAt(rest, j)
      {
        assert GoodAt(tokens, j + 1);
      }
      CheckTokensFindsFirstBad(rest, k - 1);
    }
  }

  lemma NoDotDot(t: Bytes)
    requires DotFree(t)
    ensures !HasDotDot(t)
  {
  }

  lemma {:induction false} SplitDotsDotFree(s: Bytes)
    ensures forall i :: 0 <= i < |SplitDots(s)| ==> DotFree(SplitDots(s)[i])
    decreases |s|
  {
    var found := FindByte(s, DOT);
    if found.Some? {
      SplitDotsDotFree(s[found.value + 1..]);
    }
  }

  /** Of several mistakes the first bad token is reported: as broken when it is empty, and as a broken wildcard otherwise. */
  lemma FirstBadTokenReported(s: Bytes, k: nat)
    requires s != [] && Legal(s) && FirstBad(SplitDots(s), k)
    ensures Validate(s) == Err(if SplitDots(s)[k] == [] then BrokenToken else BrokenWildcard)
  {
    SplitDotsDotFree(s);
    CheckTokensFindsFirstBad(SplitDots(s), k);
  }

  lemma DottedLegal(a: Bytes, b: Bytes)
    requires Legal(a) && Legal(b)
    ensures Legal(a + [DOT] + b)
  {
    var s := a + [DOT] + b;
    forall i | 0 <= i < |s|
      ensures !IsIllegal(s[i])
    {
      assert s[i] == if i < |a| then a[i] else if i == |a| then DOT else b[i - |a| - 1];
    }
  }

  /** Joining two valid subjects with a dot is valid exactly when the first does not end in a `>` token. */
  lemma JoinValid(a: Bytes, b: Bytes)
    requires Valid(a) && Valid(b)
    ensures Valid(a + [DOT] + b) <==> SplitDots(a)[|SplitDots(a)| - 1] != [GREATER]
  {
    hide Validate, Grammar, SplitDots;
    ValidIffGrammar(a);
    ValidIffGrammar(b);
    ValidIffGrammar(a + [DOT] + b);
    DottedGrammar(a, b);
    LastToken(a);
    DottedLegal(a, b);
  }

  lemma {:induction false} LastToken(s: Bytes)
    requires Grammar(s)
    ensures SplitDots(s)[|SplitDots(s)| - 1] == [GREATER] <==> s[|s| - 1] == GREATER
    decreases |s|
  {
    match FindByte(s, DOT) {
      case None =>
        assert GrammarAt(s, |s| - 1);
      case Some(i) =>
        assert s == s[..i] + [DOT] + s[i + 1..];
        DottedGrammar(s[..i], s[i + 1..]);
        LastToken(s[i + 1..]);
    }
  }

  /** What `validate_queue_group` accepts. */
  predicate ValidQueueGroup(s: Bytes) {
    s != [] && Legal(s)
  }

  // ----- Subjects the client generates -----

  predicate IsLowerHex(s: Bytes) {
    s != [] && forall i :: 0 <= i < |s| ==> 48 <= s[i] <= 57 || 97 <= s[i] <= 102
  }

  /** `create_inbox_subject`: the prefix, a dot, and the random number in hexadecimal. */
  function InboxSubject(prefix: Bytes, hex: Bytes): Bytes {
    prefix + [DOT] + hex
  }

  /** The filter subscribed to by `init_multiplexed_subscriptions`. */
  function MultiplexFilter(prefix: Bytes): Bytes {
    prefix + [DOT] + [STAR]
  }

  /** The server's subject matching, token by token. */
  predicate Matches(filter: seq<Bytes>, subject: seq<Bytes>) {
    if filter == [] then subject == []
    else if subject == [] then false
    else if filter[0] == [GREATER] then true
    else (filter[0] == [STAR] || filter[0] == subject[0]) && Matches(filter[1..], subject[1..])
  }

  predicate DotFree(t: Bytes) {
    forall i :: 0 <= i < |t| ==> t[i] != DOT
  }

  lemma SplitDotsCons(t: Bytes, rest: Bytes)
    requires DotFree(t)
    ensures SplitDots(t + [DOT] + rest) == [t] + SplitDots(rest)
  {
    var s := t + [DOT] + rest;
    Parts(t, [DOT], rest);
    assert s[|t|] == DOT;
    assert forall j :: 0 <= j < |t| ==> s[j] == t[j];
    assert FindByte(s, DOT) == Some(|t|);
  }

  lemma SplitDotsOne(t: Bytes)
    requires DotFree(t)
    ensures SplitDots(t) == [t]
  {
  }

  lemma {:induction false} SplitDotsOfJoin(a: Bytes, b: Bytes)
    ensures SplitDots(a + [DOT] + b) == SplitDots(a) + SplitDots(b)
    decreases |a|
  {
    hide SplitDots;
    match FindByte(a, DOT) {
      case None =>
        SplitDotsCons(a, b);
        SplitDotsOne(a);
      case Some(i) =>
        var t, rest := a[..i], a[i + 1..];
        SplitDotsOfJoin(rest, b);
        SplitDotsCons(t, rest + [DOT] + b);
        SplitDotsCons(t, rest);
        assert a == t + [DOT] + rest;
        assert t + [DOT] + rest + [DOT] + b == t + [DOT] + (rest + [DOT] + b);
        assert [t] + (SplitDots(rest) + SplitDots(b)) == [t] + SplitDots(rest) + SplitDots(b);
    }
  }

  lemma HexToken(hex: Bytes)
    requires IsLowerHex(hex)
    ensures Valid(hex) && SplitDots(hex) == [hex]
  {
    assert forall i :: 0 <= i < |hex| ==> GrammarAt(hex, i);
    ValidIffGrammar(hex);
  }

  /** Generated inbox subjects and the multiplex filter are valid for every prefix not ending in `>`, and only then. */
  lemma GeneratedSubjectsValid(prefix: Bytes, hex: Bytes)
    requires Valid(prefix) && IsLowerHex(hex)
    ensures Valid(InboxSubject(prefix, hex)) <==> SplitDots(prefix)[|SplitDots(prefix)| - 1] != [GREATER]
    ensures Valid(MultiplexFilter(prefix)) <==> SplitDots(prefix)[|SplitDots(prefix)| - 1] != [GREATER]
  {
    HexToken(hex);
    JoinValid(prefix, hex);
    assert GrammarAt([STAR], 0);
    ValidIffGrammar([STAR]);
    JoinValid(prefix, [STAR]);
  }

  /** Every generated reply subject is covered by the filter. */
  lemma ReplyMatchesFilter(prefix: Bytes, hex: Bytes)
    requires IsLowerHex(hex)
    ensures Matches(SplitDots(MultiplexFilter(prefix)), SplitDots(InboxSubject(prefix, hex)))
  {
    HexToken(hex);
    SplitDotsOfJoin(prefix, hex);
    SplitDotsOfJoin(prefix, [STAR]);
    CommonPrefixMatches(SplitDots(prefix), [hex]);
    assert SplitDots([STAR]) == [[STAR]];
  }

  lemma {:induction false} CommonPrefixMatches(p: seq<Bytes>, subject: seq<Bytes>)
    requires |subject| == 1
    ensures Matches(p + [[STAR]], p + subject)
  {
    if p == [] {
      assert [[STAR]][1..] == [] && subject[1..] == [];
      assert Matches([], []);
      assert p + [[STAR]] == [[STAR]] && p + subject == subject;
    } else {
      CommonPrefixMatches(p[1..], subject);
      assert (p + [[STAR]])[1..] == p[1..] + [[STAR]];
      assert (p + subject)[1..] == p[1..] + subject;
    }
  }

  predicate Literal(tokens: seq<Bytes>) {
    forall i :: 0 <= i < |tokens| ==> tokens[i] != [STAR] && tokens[i] != [GREATER]
  }

  /** For a prefix without wildcards the filter covers nothing else than the prefix followed by one token. */
  lemma {:induction false} FilterIsExact(p: seq<Bytes>, subject: seq<Bytes>)
    requires Literal(p)
    ensures Matches(p + [[STAR]], subject) <==> |subject| == |p| + 1 && subject[..|p|] == p
  {
    var f := p + [[STAR]];
    if subject != [] {
      if p == [] {
        assert f[1..] == [];
      } else {
        assert f[1..] == p[1..] + [[STAR]];
        FilterIsExact(p[1..], subject[1..]);
        if |subject| == |p| + 1 {
          assert subject[..|p|] == [subject[0]] + subject[1..][..|p| - 1];
          assert p == [p[0]] + p[1..];
        }
      }
    }
  }
}
