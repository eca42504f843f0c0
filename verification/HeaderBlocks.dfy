/** Which header blocks the decoder accepts and what it reads in them, and the error it answers for every other. */
module HeaderBlocks {
  import opened Wrappers
  import opened ByteStrings
  import opened HeaderMaps
  import opened ClientOps
  import opened Decoder
  import opened Utf8
  import opened RoundTrip
  import LinesIter
  import Uint

  // ----- The first line -----

  predicate AllWhitespace(s: Bytes) {
    forall i :: 0 <= i < |s| ==> IsAsciiWhitespace(s[i])
  }

  /** Neither end is whitespace. */
  predicate Tight(d: Bytes) {
    d == [] || (!IsAsciiWhitespace(d[0]) && !IsAsciiWhitespace(d[|d| - 1]))
  }

  ghost predicate Surrounded(s: Bytes, d: Bytes) {
    exists left: Bytes, right: Bytes :: s == left + d + right && AllWhitespace(left) && AllWhitespace(right)
  }

  lemma {:induction false} TrimStartShape(s: Bytes) returns (left: Bytes)
    ensures s == left + TrimStart(s) && AllWhitespace(left)
    ensures TrimStart(s) == [] || !IsAsciiWhitespace(TrimStart(s)[0])
    decreases |s|
  {
    if s != [] && IsAsciiWhitespace(s[0]) {
      var more := TrimStartShape(s[1..]);
      left := [s[0]] + more;
      assert s == [s[0]] + s[1..];
      assert s == left + TrimStart(s);
    } else {
      left := [];
    }
  }

  lemma {:induction false} TrimEndShape(s: Bytes) returns (right: Bytes)
    ensures s == TrimEnd(s) + right && AllWhitespace(right)
    ensures TrimEnd(s) == [] || !IsAsciiWhitespace(TrimEnd(s)[|TrimEnd(s)| - 1])
    decreases |s|
  {
    if s != [] && IsAsciiWhitespace(s[|s| - 1]) {
      var more := TrimEndShape(s[..|s| - 1]);
      right := more + [s[|s| - 1]];
      assert s == s[..|s| - 1] + [s[|s| - 1]];
      assert s == TrimEnd(s) + right;
    } else {
      right := [];
    }
  }

  lemma TrimShape(s: Bytes)
    ensures var d := TrimEnd(TrimStart(s)); Tight(d) && Surrounded(s, d)
  {
    var t, d := TrimStart(s), TrimEnd(TrimStart(s));
    var left := TrimStartShape(s);
    var right := TrimEndShape(t);
    assert s == left + d + right;
    if d != [] {
      assert d[0] == t[0];
    }
  }

  /** A text surrounded by whitespace is the only one it can be trimmed to. */
  lemma OneTrimmed(s: Bytes, a: Bytes, b: Bytes)
    requires Tight(a) && Tight(b) && Surrounded(s, a) && Surrounded(s, b)
    ensures a == b
  {
    hide IsAsciiWhitespace;
    var left: Bytes, right: Bytes :| s == left + a + right && AllWhitespace(left) && AllWhitespace(right);
    var left': Bytes, right': Bytes :| s == left' + b + right' && AllWhitespace(left') && AllWhitespace(right');
    Parts(left, a, right);
    Parts(left', b, right');
    EdgesAgree(s, left, a, right, left', b, right');
  }

  lemma EdgesAgree(s: Bytes, left: Bytes, a: Bytes, right: Bytes, left': Bytes, b: Bytes, right': Bytes)
    requires s == left + a + right && AllWhitespace(left) && AllWhitespace(right) && Tight(a)
    requires s == left' + b + right' && AllWhitespace(left') && AllWhitespace(right') && Tight(b)
    ensures a == b
  {
    hide IsAsciiWhitespace;
    var i, j, i', j' := |left|, |left| + |a|, |left'|, |left'| + |b|;
    assert a == s[i..j] && b == s[i'..j'];
    Inside(s, left, a, right);
    Inside(s, left', b, right');
    if a != [] {
      assert !IsAsciiWhitespace(s[i]) && !IsAsciiWhitespace(s[j - 1]);
    }
    if b != [] {
      assert !IsAsciiWhitespace(s[i']) && !IsAsciiWhitespace(s[j' - 1]);
    }
  }

  /** Whatever is not whitespace is inside, and both ends of the text are not. */
  lemma Inside(s: Bytes, left: Bytes, a: Bytes, right: Bytes)
    requires s == left + a + right && AllWhitespace(left) && AllWhitespace(right) && Tight(a)
    ensures forall k :: 0 <= k < |s| && !IsAsciiWhitespace(s[k]) ==> |left| <= k < |left| + |a|
    ensures a != [] ==> !IsAsciiWhitespace(s[|left|]) && !IsAsciiWhitespace(s[|left| + |a| - 1])
  {
    hide IsAsciiWhitespace;
    forall k | 0 <= k < |s|
      ensures k < |left| || k >= |left| + |a| ==> IsAsciiWhitespace(s[k])
    {
      if k < |left| {
        assert s[k] == left[k];
      } else if k >= |left| + |a| {
        assert s[k] == right[k - |left| - |a|];
      }
    }
  }

  lemma TrimExact(s: Bytes, d: Bytes)
    ensures TrimEnd(TrimStart(s)) == d <==> Tight(d) && Surrounded(s, d)
  {
    TrimShape(s);
    if Tight(d) && Surrounded(s, d) {
      OneTrimmed(s, d, TrimEnd(TrimStart(s)));
    }
  }

  /** Three digits, the first of them not a zero. */
  predicate CodeSpelled(s: Bytes, n: nat) {
    |s| == 3 && Uint.AllDigits(s) && s[0] != Uint.ZERO && Uint.Value(s) == n
  }

  lemma ThreeDigitValue(s: Bytes)
    requires |s| == 3 && Uint.AllDigits(s)
    ensures Uint.Value(s) == 100 * Uint.Digit(s[0]) + 10 * Uint.Digit(s[1]) + Uint.Digit(s[2])
  {
    var two, one := s[..2], s[..1];
    assert two[..1] == one && one[..0] == [];
    assert Uint.Value(one) == Uint.Digit(s[0]);
    assert Uint.Value(two) == 10 * Uint.Value(one) + Uint.Digit(s[1]);
  }

  lemma CodeExact(s: Bytes, n: nat)
    requires |s| == 3
    ensures DecodeStatusCode(s) == Ok(n) <==> CodeSpelled(s, n)
    ensures DecodeStatusCode(s).Err? ==> DecodeStatusCode(s) == Err(InvalidStatusCode)
  {
    Uint.ParseOk(0xFFFF, s, n);
    if Uint.AllDigits(s) {
      ThreeDigitValue(s);
    }
  }

  /** What follows the version: nothing to read, a code, or a code and a description. */
  ghost predicate TailSpells(tail: Bytes, code: Option<nat>, description: Option<Bytes>) {
    match code
    case None => |tail| < 4 && description.None?
    case Some(n) =>
      && |tail| >= 4 && CodeSpelled(tail[1..4], n)
      && match description
         case None => |tail| == 4 || (IsAsciiWhitespace(tail[4]) && AllWhitespace(tail[5..]))
         case Some(d) =>
           |tail| > 4 && IsAsciiWhitespace(tail[4]) && d != [] && IsUtf8(d) && Tight(d) && Surrounded(tail[5..], d)
  }

  /** The byte between version and code is not looked at. */
  ghost predicate HeadSpells(head: Bytes, code: Option<nat>, description: Option<Bytes>) {
    exists tail: Bytes :: head == NATS_HEAD + tail && TailSpells(tail, code, description)
  }

  ghost predicate HeadRefused(head: Bytes, e: DecoderError) {
    if !StartsWith(head, NATS_HEAD) then e == InvalidHead
    else TailRefused(head[|NATS_HEAD|..], e)
  }

  ghost predicate TailRefused(tail: Bytes, e: DecoderError) {
    && |tail| >= 4
    && if !(exists n: nat :: CodeSpelled(tail[1..4], n)) then e == InvalidStatusCode
       else if |tail| > 4 && !IsAsciiWhitespace(tail[4]) then e == InvalidHead
       else
         && e == StatusDescriptionInvalidUtf8 && |tail| > 4
         && exists d: Bytes :: Tight(d) && Surrounded(tail[5..], d) && !IsUtf8(d)
  }

  lemma BlankTail(s: Bytes)
    ensures Surrounded(s, []) <==> AllWhitespace(s)
  {
    if AllWhitespace(s) {
      assert s == s + [] + [];
    }
    if Surrounded(s, []) {
      var left: Bytes, right: Bytes :| s == left + [] + right && AllWhitespace(left) && AllWhitespace(right);
      forall i | 0 <= i < |s|
        ensures IsAsciiWhitespace(s[i])
      {
        assert s[i] == if i < |left| then left[i] else right[i - |left|];
      }
    }
  }

  lemma TailExact(tail: Bytes, code: Option<nat>, description: Option<Bytes>, e: DecoderError)
    ensures DecodeStatusLine(NATS_HEAD + tail) == Ok((code, description)) <==> TailSpells(tail, code, description)
    ensures DecodeStatusLine(NATS_HEAD + tail) == Err(e) <==> TailRefused(tail, e)
  {
    hide DecodeStatusCode, CodeSpelled, TrimStart, TrimEnd, IsUtf8, Surrounded, Tight, IsAsciiWhitespace;
    var head := NATS_HEAD + tail;
    assert head[..|NATS_HEAD|] == NATS_HEAD && head[|NATS_HEAD|..] == tail;
    if |tail| >= 4 {
      var decoded := DecodeStatusCode(tail[1..4]);
      CodeExact(tail[1..4], if code.Some? then code.value else 0);
      CodeExact(tail[1..4], if decoded.Ok? then decoded.value else 0);
      forall n: nat | CodeSpelled(tail[1..4], n)
        ensures decoded == Ok(n)
      {
        CodeExact(tail[1..4], n);
      }
      if |tail| > 4 {
        var s := tail[5..];
        TrimExact(s, TrimEnd(TrimStart(s)));
        BlankTail(s);
        TightNothing();
        forall d: Bytes | Tight(d) && Surrounded(s, d)
          ensures d == TrimEnd(TrimStart(s))
        {
          TrimExact(s, d);
        }
        NothingIsUtf8();
      }
    }
  }

  lemma TightNothing()
    ensures Tight([])
  {
  }

  lemma NothingIsUtf8()
    ensures IsUtf8([])
  {
  }

  /**
   * The first line is read as a code and a description exactly when it spells them, and refused with the error of the
   * first part that is wrong.
   */
  lemma StatusLineExact(head: Bytes, code: Option<nat>, description: Option<Bytes>, e: DecoderError)
    ensures DecodeStatusLine(head) == Ok((code, description)) <==> HeadSpells(head, code, description)
    ensures DecodeStatusLine(head) == Err(e) <==> HeadRefused(head, e)
  {
    hide TailSpells, TailRefused;
    if StartsWith(head, NATS_HEAD) {
      var tail := head[|NATS_HEAD|..];
      assert head == NATS_HEAD + tail;
      hide DecodeStatusLine;
      TailExact(tail, code, description, e);
      forall tail': Bytes | head == NATS_HEAD + tail'
        ensures tail' == tail
      {
        assert head[|NATS_HEAD|..] == tail';
      }
    } else {
      forall tail: Bytes
        ensures head != NATS_HEAD + tail
      {
        assert (NATS_HEAD + tail)[..|NATS_HEAD|] == NATS_HEAD;
      }
    }
  }

  // ----- The other lines -----

  ghost predicate HeaderSpelled(line: Bytes, name: Bytes, value: Bytes) {
    && ValidName(name) && ValidValue(value)
    && exists skipped: Bytes :: line == name + [COLON] + skipped + value && SkippedBefore(skipped, value)
  }

  /** The name, or what is left of the value, is wrong; the first of them decides. */
  predicate PartRefused(name: Bytes, value: Bytes, e: DecoderError) {
    match e
    case HeaderNameInvalidUtf8 => !IsUtf8(name)
    case InvalidHeaderName(NameEmpty) => name == []
    case InvalidHeaderName(NameIllegalCharacter) => IsUtf8(name) && name != [] && !ValidName(name)
    case InvalidHeaderValue => ValidName(name) && !ValidValue(value)
    case _ => false
  }

  /** The line, cut at its first colon, has no colon, or a wrong name or value. */
  ghost predicate HeaderRefused(line: Bytes, e: DecoderError) {
    if COLON !in line then e == InvalidHeaderLine
    else
      exists name: Bytes, skipped: Bytes, value: Bytes ::
        && line == name + [COLON] + skipped + value && COLON !in name && SkippedBefore(skipped, value)
        && PartRefused(name, value, e)
  }

  lemma CutAtColon(line: Bytes)
    requires COLON in line
    ensures var i := FindByte(line, COLON);
      && i.Some? && line == line[..i.value] + [COLON] + line[i.value + 1..] && COLON !in line[..i.value]
  {
    var i := FindByte(line, COLON);
    assert forall j :: 0 <= j < i.value ==> line[..i.value][j] == line[j];
  }

  /** A line is cut at its first colon and one whitespace is skipped, in one way only. */
  lemma OneCut(line: Bytes, name: Bytes, skipped: Bytes, value: Bytes)
    requires line == name + [COLON] + skipped + value && COLON !in name && SkippedBefore(skipped, value)
    ensures FindByte(line, COLON) == Some(|name|) && name == line[..|name|]
    ensures var raw := line[|name| + 1..]; value == if raw != [] && IsAsciiWhitespace(raw[0]) then raw[1..] else raw
  {
    hide IsAsciiWhitespace;
    var raw := skipped + value;
    assert line == name + [COLON] + raw;
    Parts(name, [COLON], raw);
    assert line[|name|] == COLON;
    assert forall j :: 0 <= j < |name| ==> line[j] == name[j];
    assert skipped != [] ==> raw[1..] == value;
  }

  lemma SkippedFrom(raw: Bytes)
    ensures
      if raw != [] && IsAsciiWhitespace(raw[0]) then SkippedBefore(raw[..1], raw[1..]) && raw == raw[..1] + raw[1..]
      else SkippedBefore([], raw)
  {
  }

  lemma NamesAreUtf8(name: Bytes)
    requires ValidName(name)
    ensures IsUtf8(name) && name != []
  {
    AsciiIsUtf8(name);
  }

  lemma PartsDecoded(line: Bytes, name: Bytes, value: Bytes, e: DecoderError)
    requires FindByte(line, COLON) == Some(|name|) && name == line[..|name|]
    requires var raw := line[|name| + 1..]; value == if raw != [] && IsAsciiWhitespace(raw[0]) then raw[1..] else raw
    ensures DecodeHeaderLine(line) == Err(e) <==> PartRefused(name, value, e)
  {
    hide IsUtf8, ValidName, ValidValue, IsAsciiWhitespace;
    if ValidName(name) {
      NamesAreUtf8(name);
    }
    NothingIsUtf8();
  }

  lemma HeaderLineRefusedExactly(line: Bytes, e: DecoderError)
    ensures DecodeHeaderLine(line) == Err(e) <==> HeaderRefused(line, e)
  {
    hide IsUtf8, ValidName, ValidValue, IsAsciiWhitespace, SkippedBefore, PartRefused, DecodeHeaderLine;
    if COLON in line {
      CutAtColon(line);
      var i := FindByte(line, COLON).value;
      var name, raw := line[..i], line[i + 1..];
      var skips := raw != [] && IsAsciiWhitespace(raw[0]);
      var skipped, value := if skips then raw[..1] else [], if skips then raw[1..] else raw;
      SkippedFrom(raw);
      assert line == name + [COLON] + skipped + value;
      PartsDecoded(line, name, value, e);
      forall name': Bytes, skipped': Bytes, value': Bytes |
        line == name' + [COLON] + skipped' + value' && COLON !in name' && SkippedBefore(skipped', value')
        ensures name' == name && value' == value
      {
        OneCut(line, name', skipped', value');
      }
    } else {
      NoColon(line);
    }
  }

  lemma NoColon(line: Bytes)
    requires COLON !in line
    ensures DecodeHeaderLine(line) == Err(InvalidHeaderLine)
  {
  }

  // ----- The whole block -----

  /** The lines that are not blank, after the first. */
  function Written(lines: seq<Bytes>): seq<Bytes> {
    if lines == [] then [] else (if lines[0] == [] then [] else [lines[0]]) + Written(lines[1..])
  }

  ghost predicate AllSpell(lines: seq<Bytes>, pairs: seq<(Bytes, Bytes)>) {
    |pairs| == |lines| && forall i :: 0 <= i < |lines| ==> HeaderSpelled(lines[i], pairs[i].0, pairs[i].1)
  }

  /** Header lines up to a first bad one. */
  ghost predicate FirstRefused(lines: seq<Bytes>, e: DecoderError) {
    exists i :: 0 <= i < |lines| && HeaderRefused(lines[i], e) && forall j :: 0 <= j < i ==> Readable(lines[j])
  }

  ghost predicate Readable(line: Bytes) {
    exists name: Bytes, value: Bytes :: HeaderSpelled(line, name, value)
  }

  ghost predicate BlockSpells(block: Bytes, c: HeaderBlockContents) {
    var lines := LinesIter.Lines(block);
    && block != [] && HeadSpells(lines[0], c.code, c.description)
    && exists pairs: seq<(Bytes, Bytes)> :: AllSpell(Written(lines[1..]), pairs) && c.headers == Collect(EMPTY, pairs)
  }

  ghost predicate BlockRefused(block: Bytes, e: DecoderError) {
    var lines := LinesIter.Lines(block);
    if block == [] then e == MissingHead
    else
      || HeadRefused(lines[0], e)
      || ((exists code: Option<nat>, description: Option<Bytes> :: HeadSpells(lines[0], code, description))
          && FirstRefused(Written(lines[1..]), e))
  }

  lemma ReadableIsDecoded(line: Bytes)
    ensures Readable(line) <==> DecodeHeaderLine(line).Ok?
    ensures DecodeHeaderLine(line).Ok? ==>
      HeaderSpelled(line, DecodeHeaderLine(line).value.0, DecodeHeaderLine(line).value.1)
  {
    hide DecodeHeaderLine, HeaderSpelled;
    if Readable(line) {
      var name: Bytes, value: Bytes :| HeaderSpelled(line, name, value);
      SpelledIsDecoded(line, name, value);
    }
    if DecodeHeaderLine(line).Ok? {
      var (name, value) := DecodeHeaderLine(line).value;
      SpelledIsDecoded(line, name, value);
    }
  }

  lemma {:induction false} LinesExact(lines: seq<Bytes>, h: Headers, pairs: seq<(Bytes, Bytes)>)
    requires AllSpell(Written(lines), pairs)
    ensures DecodeHeaderLines(lines, h) == Ok(Collect(h, pairs))
    decreases |lines|
  {
    hide DecodeHeaderLine, HeaderSpelled, Append;
    if lines != [] {
      if lines[0] == [] {
        LinesExact(lines[1..], h, pairs);
      } else {
        var (name, value) := pairs[0];
        assert Written(lines)[0] == lines[0] && Written(lines)[1..] == Written(lines[1..]);
        SpelledIsDecoded(lines[0], name, value);
        LinesExact(lines[1..], Append(h, name, value), pairs[1..]);
      }
    }
  }

  lemma SpelledIsDecoded(line: Bytes, name: Bytes, value: Bytes)
    ensures HeaderSpelled(line, name, value) <==> DecodeHeaderLine(line) == Ok((name, value))
  {
    hide DecodeHeaderLine, ValidName, ValidValue, SkippedBefore;
    HeaderLineExact(line, name, value);
  }

  lemma {:induction false} LinesAreSpelled(lines: seq<Bytes>, h: Headers) returns (pairs: seq<(Bytes, Bytes)>)
    requires DecodeHeaderLines(lines, h).Ok?
    ensures AllSpell(Written(lines), pairs) && DecodeHeaderLines(lines, h) == Ok(Collect(h, pairs))
    decreases |lines|
  {
    hide DecodeHeaderLine, HeaderSpelled, Append;
    pairs := [];
    if lines != [] {
      if lines[0] == [] {
        pairs := LinesAreSpelled(lines[1..], h);
      } else {
        var (name, value) := DecodeHeaderLine(lines[0]).value;
        SpelledIsDecoded(lines[0], name, value);
        var later := LinesAreSpelled(lines[1..], Append(h, name, value));
        pairs := [(name, value)] + later;
        assert pairs[1..] == later;
      }
    }
  }

  lemma {:induction false} LinesRefused(lines: seq<Bytes>, h: Headers, e: DecoderError)
    ensures DecodeHeaderLines(lines, h) == Err(e) <==> FirstRefused(Written(lines), e)
    decreases |lines|
  {
    hide DecodeHeaderLine, HeaderRefused, Readable, Append;
    if lines != [] {
      if lines[0] == [] {
        assert Written(lines) == Written(lines[1..]);
        LinesRefused(lines[1..], h, e);
      } else {
        var w := Written(lines[1..]);
        assert Written(lines) == [lines[0]] + w;
        HeaderLineRefusedExactly(lines[0], e);
        ReadableIsDecoded(lines[0]);
        if DecodeHeaderLine(lines[0]).Ok? {
          var (name, value) := DecodeHeaderLine(lines[0]).value;
          LinesRefused(lines[1..], Append(h, name, value), e);
          RefusedLater(lines[0], w, e);
        } else {
          RefusedNow(lines[0], w, e);
        }
      }
    }
  }

  lemma RefusedLater(line: Bytes, w: seq<Bytes>, e: DecoderError)
    requires Readable(line) && !HeaderRefused(line, e)
    ensures FirstRefused([line] + w, e) <==> FirstRefused(w, e)
  {
    hide HeaderRefused, Readable;
    var all := [line] + w;
    if FirstRefused(w, e) {
      var i :| 0 <= i < |w| && HeaderRefused(w[i], e) && forall j :: 0 <= j < i ==> Readable(w[j]);
      assert all[i + 1] == w[i];
      assert forall j :: 0 <= j < i + 1 ==> all[j] == if j == 0 then line else w[j - 1];
    }
    if FirstRefused(all, e) {
      var i :| 0 <= i < |all| && HeaderRefused(all[i], e) && forall j :: 0 <= j < i ==> Readable(all[j]);
      assert w[i - 1] == all[i];
      assert forall j :: 0 <= j < i - 1 ==> w[j] == all[j + 1];
    }
  }

  lemma RefusedNow(line: Bytes, w: seq<Bytes>, e: DecoderError)
    requires !Readable(line)
    ensures FirstRefused([line] + w, e) <==> HeaderRefused(line, e)
  {
    hide HeaderRefused, Readable;
    assert ([line] + w)[0] == line;
  }

  lemma BlockHasLines(block: Bytes)
    ensures block != [] <==> LinesIter.Lines(block) != []
  {
  }

  /**
   * A block is read as a status and headers exactly when its first line spells the status and the others that are not
   * blank spell the headers, collected in order.
   */
  lemma BlockExact(block: Bytes, c: HeaderBlockContents)
    ensures DecodeHeaderBlock(block) == Ok(c) <==> BlockSpells(block, c)
  {
    hide LinesIter.Lines, DecodeStatusLine, DecodeHeaderLines, HeadSpells, AllSpell, Collect, Written;
    BlockHasLines(block);
    if block != [] {
      var lines := LinesIter.Lines(block);
      StatusLineExact(lines[0], c.code, c.description, MissingHead);
      if DecodeHeaderLines(lines[1..], EMPTY).Ok? {
        var pairs := LinesAreSpelled(lines[1..], EMPTY);
      }
      forall pairs: seq<(Bytes, Bytes)> | AllSpell(Written(lines[1..]), pairs)
        ensures DecodeHeaderLines(lines[1..], EMPTY) == Ok(Collect(EMPTY, pairs))
      {
        LinesExact(lines[1..], EMPTY, pairs);
      }
    }
  }

  /** It is refused exactly when it is empty, or its first line or the first bad one of the others is, with that error. */
  lemma BlockRefusedExactly(block: Bytes, e: DecoderError)
    ensures DecodeHeaderBlock(block) == Err(e) <==> BlockRefused(block, e)
  {
    hide LinesIter.Lines, DecodeStatusLine, DecodeHeaderLines, HeadSpells, HeadRefused, FirstRefused, Written;
    BlockHasLines(block);
    if block != [] {
      var head, more := LinesIter.Lines(block)[0], LinesIter.Lines(block)[1..];
      HeadIsDecoded(head);
      StatusLineExact(head, None, None, e);
      LinesRefused(more, EMPTY, e);
    }
  }

  lemma HeadIsDecoded(head: Bytes)
    ensures DecodeStatusLine(head).Ok? <==>
      exists code: Option<nat>, description: Option<Bytes> :: HeadSpells(head, code, description)
  {
    hide DecodeStatusLine, HeadSpells, HeadRefused;
    if DecodeStatusLine(head).Ok? {
      var (code, description) := DecodeStatusLine(head).value;
      StatusLineExact(head, code, description, MissingHead);
    }
    forall code: Option<nat>, description: Option<Bytes> | HeadSpells(head, code, description)
      ensures DecodeStatusLine(head).Ok?
    {
      StatusLineExact(head, code, description, MissingHead);
    }
  }
}
