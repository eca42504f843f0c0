/** The paginated listings of streams and consumers: exactly the server's list, once and in order, whatever fails on the way. */
module Pagination {
  import opened Wrappers
  import opened ByteStrings
  import Subjects

  const U32_SIZE: nat := 0x1_0000_0000

  /** What the outside does when a fetch is polled: nothing yet, an error, or a page of at most `limit` items. */
  datatype Answer = NotYet | Fails | Serves(limit: nat)

  datatype Outcome<T> = Item(item: T) | FetchError | NameError(error: Subjects.SubjectError) | Ended | Pending

  /** A listing with the items it has yielded. The stream listing never has an invalid name. */
  datatype Listing<T> = Listing(
    offset: nat,
    invalidName: Option<Subjects.SubjectError>,
    /** The offset a running fetch asked for. */
    fetch: Option<nat>,
    buffer: seq<T>,
    exhausted: bool,
    yielded: seq<T>)

  /** `CONSUMER.LIST.` */
  const CONSUMER_LIST: Bytes := [67, 79, 78, 83, 85, 77, 69, 82, 46, 76, 73, 83, 84, 46]

  function NewStreams<T>(): Listing<T> {
    Listing(0, None, None, [], false, [])
  }

  function NewConsumers<T>(streamName: Bytes): Listing<T> {
    match Subjects.Validate(CONSUMER_LIST + streamName)
    case Ok(_) => Listing(0, None, None, [], false, [])
    case Err(e) => Listing(0, Some(e), None, [], false, [])
  }

  /** The server's page of a list. */
  function Page<T>(list: seq<T>, offset: nat, limit: nat): seq<T> {
    if offset >= |list| then []
    else if offset + limit < |list| then list[offset..offset + limit]
    else list[offset..]
  }

  /** A page arrives: a short one is the last, a full one moves the offset, which is a 32-bit number. */
  function Arrived<T>(l: Listing<T>, page: seq<T>, limit: nat): Listing<T> {
    var got := l.(fetch := None, buffer := page);
    if |page| < limit then got.(exhausted := true)
    else if page != [] then got.(offset := (l.offset + limit) % U32_SIZE)
    else got
  }

  /** `poll_next`. */
  function Poll<T>(list: seq<T>, l: Listing<T>, a: Answer): (Listing<T>, Outcome<T>) {
    if l.invalidName.Some? then (l.(invalidName := None, exhausted := true), NameError(l.invalidName.value))
    else if l.buffer != [] then
      (l.(buffer := l.buffer[1..], yielded := l.yielded + [l.buffer[0]]), Item(l.buffer[0]))
    else if l.exhausted then (l, Ended)
    else
      var asked := if l.fetch.Some? then l.fetch.value else l.offset;
      var fetching := l.(fetch := Some(asked));
      match a
      case NotYet => (fetching, Pending)
      case Fails => (l.(fetch := None), FetchError)
      case Serves(limit) => (Arrived(fetching, Page(list, asked, limit), limit), Pending)
  }

  function Run<T>(list: seq<T>, l: Listing<T>, answers: seq<Answer>): Listing<T>
    decreases |answers|
  {
    if answers == [] then l else Run(list, Poll(list, l, answers[0]).0, answers[1..])
  }

  /** The list is shorter than the range of offsets. */
  predicate Fits<T>(list: seq<T>) {
    |list| < U32_SIZE
  }

  /** An answer that can advance the listing: a page that allows at least one item. */
  predicate Useful(a: Answer) {
    a.Serves? && a.limit >= 1
  }

  /** What was yielded and what is buffered is the list up to the offset, or all of it once the last page is in. */
  predicate Consistent<T(==)>(list: seq<T>, l: Listing<T>) {
    && l.invalidName.None?
    && l.offset <= |list|
    && (l.fetch.Some? ==> l.fetch.value == l.offset && l.buffer == [] && !l.exhausted)
    && l.yielded + l.buffer == if l.exhausted then list else list[..l.offset]
  }

  lemma PollConsistent<T>(list: seq<T>, l: Listing<T>, a: Answer)
    requires Fits(list) && Consistent(list, l)
    ensures var (l', o) := Poll(list, l, a);
      && Consistent(list, l')
      && (o.Item? ==> |l.yielded| < |list| && o.item == list[|l.yielded|] && l'.yielded == l.yielded + [o.item])
      && (!o.Item? ==> l'.yielded == l.yielded)
      && (o.Ended? ==> l.yielded == list)
      && !o.NameError?
  {
    if l.buffer != [] {
      assert l.yielded + l.buffer == l.yielded + [l.buffer[0]] + l.buffer[1..];
      assert (l.yielded + l.buffer)[|l.yielded|] == l.buffer[0];
    } else if !l.exhausted && a.Serves? {
      assert l.yielded + [] == l.yielded;
      var page := Page(list, l.offset, a.limit);
      assert list[..l.offset] + page == list[..l.offset + |page|];
      assert list[..|list|] == list;
    }
  }

  /** Every run yields a prefix of the list, in order: errors and delays neither skip nor repeat an item. */
  lemma {:induction false} RunConsistent<T>(list: seq<T>, l: Listing<T>, answers: seq<Answer>)
    requires Fits(list) && Consistent(list, l)
    ensures Consistent(list, Run(list, l, answers)) && l.yielded <= Run(list, l, answers).yielded <= list
    decreases |answers|
  {
    if answers == [] {
      YieldedPrefix(list, l);
    } else {
      PollConsistent(list, l, answers[0]);
      RunConsistent(list, Poll(list, l, answers[0]).0, answers[1..]);
    }
  }

  lemma YieldedPrefix<T>(list: seq<T>, l: Listing<T>)
    requires Consistent(list, l)
    ensures l.yielded <= list
  {
    assert l.yielded == (l.yielded + l.buffer)[..|l.yielded|];
  }

  /** How many more useful answers a listing can need before it ends. */
  function Work<T>(list: seq<T>, l: Listing<T>): int {
    2 * (|list| - |l.yielded|) + if l.buffer == [] && !l.exhausted then 1 else 0
  }

  /** How many of the answers are useful. */
  function UsefulAnswers(answers: seq<Answer>): nat {
    if answers == [] then 0 else (if Useful(answers[0]) then 1 else 0) + UsefulAnswers(answers[1..])
  }

  lemma PollWorks<T>(list: seq<T>, l: Listing<T>, a: Answer)
    requires Fits(list) && Consistent(list, l)
    ensures var (l', o) := Poll(list, l, a);
      && 0 <= Work(list, l') <= Work(list, l)
      && (Useful(a) && !o.Ended? ==> Work(list, l') < Work(list, l))
  {
    PollConsistent(list, l, a);
    YieldedPrefix(list, l);
    var l' := Poll(list, l, a).0;
    YieldedPrefix(list, l');
    if l.buffer == [] && !l.exhausted && Useful(a) {
      assert l'.buffer == [] ==> l'.exhausted;
    }
  }

  lemma {:induction false} RunEnds<T>(list: seq<T>, l: Listing<T>, answers: seq<Answer>)
    requires Fits(list) && Consistent(list, l) && UsefulAnswers(answers) > Work(list, l)
    ensures var r := Run(list, l, answers); r.yielded == list && r.exhausted && r.buffer == []
    decreases |answers|
  {
    YieldedPrefix(list, l);
    var (l', o) := Poll(list, l, answers[0]);
    PollConsistent(list, l, answers[0]);
    PollWorks(list, l, answers[0]);
    if o.Ended? {
      EndedStays(list, l, answers);
    } else {
      RunEnds(list, l', answers[1..]);
    }
  }

  lemma {:induction false} EndedStays<T>(list: seq<T>, l: Listing<T>, answers: seq<Answer>)
    requires l.invalidName.None? && l.exhausted && l.buffer == []
    ensures Run(list, l, answers) == l
    decreases |answers|
  {
    if answers != [] {
      EndedStays(list, l, answers[1..]);
    }
  }

  /** A listing that has not ended, has yielded nothing, and may be waiting for a fetch. */
  predicate Idle<T>(l: Listing<T>) {
    && l.offset == 0 && l.invalidName.None? && (l.fetch.Some? ==> l.fetch.value == 0)
    && l.buffer == [] && !l.exhausted && l.yielded == []
  }

  lemma {:induction false} UselessRunIdles<T>(list: seq<T>, l: Listing<T>, answers: seq<Answer>)
    requires Idle(l) && UsefulAnswers(answers) == 0
    ensures Idle(Run(list, l, answers))
    decreases |answers|
  {
    if answers != [] {
      assert Page(list, 0, 0) == [];
      UselessRunIdles(list, Poll(list, l, answers[0]).0, answers[1..]);
    }
  }

  /**
   * Pagination is complete: whatever page sizes the server chooses and whatever errors, delays and empty page limits are
   * interleaved, the items yielded are always a prefix of the list, all of it once the listing has ended. Twice as many
   * useful answers as there are items, plus two, always suffice to end it; without a single one it never ends.
   */
  lemma ListingIsComplete<T>(list: seq<T>, answers: seq<Answer>)
    requires Fits(list)
    ensures var r := Run(list, NewStreams(), answers);
      && r.yielded <= list
      && (r.exhausted && r.buffer == [] ==> r.yielded == list)
      && (UsefulAnswers(answers) >= 2 * |list| + 2 ==> r.yielded == list && r.exhausted && r.buffer == [])
      && (UsefulAnswers(answers) == 0 ==> r.yielded == [] && !r.exhausted)
  {
    hide Idle;
    var l: Listing<T> := NewStreams();
    assert list[..0] == [];
    RunConsistent(list, l, answers);
    var r := Run(list, l, answers);
    if r.exhausted && r.buffer == [] {
      assert r.yielded + [] == r.yielded;
    }
    if UsefulAnswers(answers) >= 2 * |list| + 2 {
      RunEnds(list, l, answers);
    }
    if UsefulAnswers(answers) == 0 {
      UselessNeverEnds(list, answers);
    }
  }

  /** `is_terminated`. */
  predicate IsTerminated<T>(l: Listing<T>) {
    l.buffer == [] && l.exhausted
  }

  /** What the polls of a run answer. */
  function Outcomes<T>(list: seq<T>, l: Listing<T>, answers: seq<Answer>): seq<Outcome<T>>
    decreases |answers|
  {
    if answers == [] then []
    else
      var (l', o) := Poll(list, l, answers[0]);
      [o] + Outcomes(list, l', answers[1..])
  }

  function Items<T>(outcomes: seq<Outcome<T>>): seq<T> {
    if outcomes == [] then []
    else (if outcomes[0].Item? then [outcomes[0].item] else []) + Items(outcomes[1..])
  }

  lemma {:induction false} ItemsAreYielded<T>(list: seq<T>, l: Listing<T>, answers: seq<Answer>)
    requires Fits(list) && Consistent(list, l)
    ensures Run(list, l, answers).yielded == l.yielded + Items(Outcomes(list, l, answers))
    decreases |answers|
  {
    hide Poll;
    if answers != [] {
      var (l', o) := Poll(list, l, answers[0]);
      PollConsistent(list, l, answers[0]);
      ItemsAreYielded(list, l', answers[1..]);
      assert Outcomes(list, l, answers)[1..] == Outcomes(list, l', answers[1..]);
    }
  }

  /** All that the pages fetched so far hold has been yielded. */
  predicate CaughtUp<T(==)>(list: seq<T>, l: Listing<T>) {
    l.yielded == if l.exhausted then list else if l.offset <= |list| then list[..l.offset] else []
  }

  lemma CaughtUpIsEmpty<T>(list: seq<T>, l: Listing<T>)
    requires Fits(list) && Consistent(list, l)
    ensures CaughtUp(list, l) <==> l.buffer == []
  {
    assert |l.yielded + l.buffer| == |l.yielded| + |l.buffer|;
    if l.buffer == [] {
      assert l.yielded + [] == l.yielded;
    }
  }

  /**
   * What each poll of a run answers: an item, the next one of the list, until it has caught up with the pages; then the
   * end exactly when the last page is in, an error exactly when the fetch fails, which is then asked for again, and
   * nothing yet otherwise. The items answered by the whole run are those yielded.
   */
  lemma AnswersExactly<T>(list: seq<T>, answers: seq<Answer>, a: Answer)
    requires Fits(list)
    ensures var r := Run(list, NewStreams(), answers);
      var (r', o) := Poll(list, r, a);
      && r.yielded == Items(Outcomes(list, NewStreams(), answers))
      && (o.Item? <==> !CaughtUp(list, r))
      && (o.Item? ==> |r.yielded| < |list| && o.item == list[|r.yielded|])
      && (o.Ended? <==> CaughtUp(list, r) && r.exhausted) && (o.Ended? <==> IsTerminated(r))
      && (o.FetchError? <==> CaughtUp(list, r) && !r.exhausted && a.Fails?)
      && (o.FetchError? ==> r' == r.(fetch := None) && r'.offset == |r.yielded|)
      && (o.Pending? <==> CaughtUp(list, r) && !r.exhausted && !a.Fails?)
      && (a.NotYet? && o.Pending? ==> r' == r.(fetch := Some(|r.yielded|)))
  {
    hide Run, Outcomes, Items;
    var l: Listing<T> := NewStreams();
    assert list[..0] == [];
    RunConsistent(list, l, answers);
    ItemsAreYielded(list, l, answers);
    var r := Run(list, l, answers);
    assert [] + Items(Outcomes(list, l, answers)) == Items(Outcomes(list, l, answers));
    PollConsistent(list, r, a);
    CaughtUpIsEmpty(list, r);
  }

  /**
   * A run whose pages all have a limit of zero never ends and yields nothing, however often the server answers and
   * whatever the list: the listing asks for the same page again.
   */
  lemma UselessNeverEnds<T>(list: seq<T>, answers: seq<Answer>)
    requires UsefulAnswers(answers) == 0
    ensures var r := Run(list, NewStreams(), answers); r.offset == 0 && r.yielded == [] && !r.exhausted
  {
    assert Idle(NewStreams<T>());
    UselessRunIdles(list, NewStreams(), answers);
  }

  /** A consumer listing of a valid stream name is the same listing; an invalid name is reported once, and nothing else. */
  lemma ConsumerNames<T>(list: seq<T>, streamName: Bytes, a: Answer, answers: seq<Answer>)
    ensures var l: Listing<T> := NewConsumers(streamName);
      if Subjects.Valid(CONSUMER_LIST + streamName) then l == NewStreams()
      else
        var (l', o) := Poll(list, l, a);
        && o == NameError(Subjects.Validate(CONSUMER_LIST + streamName).error) && !IsTerminated(l) && IsTerminated(l')
        && Run(list, l', answers) == l' && l'.yielded == [] && Poll(list, l', a) == (l', Ended)
  {
    hide Subjects.Validate;
    var l: Listing<T> := NewConsumers(streamName);
    if !Subjects.Valid(CONSUMER_LIST + streamName) {
      EndedStays(list, Poll(list, l, a).0, answers);
    }
  }

  /** The listing as the polled object. */
  class Lister<T(==)> {
    var offset: nat
    var invalidName: Option<Subjects.SubjectError>
    var fetch: Option<nat>
    var buffer: seq<T>
    var exhausted: bool
    ghost var yielded: seq<T>

    ghost function View(): Listing<T>
      reads this
    {
      Listing(offset, invalidName, fetch, buffer, exhausted, yielded)
    }

    constructor Streams()
      ensures View() == NewStreams()
    {
      offset, invalidName, fetch, buffer, exhausted, yielded := 0, None, None, [], false, [];
    }

    constructor Consumers(streamName: Bytes)
      ensures View() == NewConsumers(streamName)
    {
      offset, fetch, buffer, exhausted, yielded := 0, None, [], false, [];
      var checked := Subjects.Validate(CONSUMER_LIST + streamName);
      invalidName := if checked.Ok? then None else Some(checked.error);
    }

    /** `server` is the list behind the request the fetch is waiting on. */
    method PollNext(server: seq<T>, a: Answer) returns (o: Outcome<T>)
      modifies this
      ensures (View(), o) == Poll(server, old(View()), a)
    {
      if invalidName.Some? {
        o := NameError(invalidName.value);
        invalidName := None;
        exhausted := true;
        return;
      }
      if buffer != [] {
        o := Item(buffer[0]);
        yielded := yielded + [buffer[0]];
        buffer := buffer[1..];
        return;
      }
      if exhausted {
        return Ended;
      }
      if fetch.None? {
        fetch := Some(offset);
      }
      match a {
        case NotYet =>
          return Pending;
        case Fails =>
          fetch := None;
          return FetchError;
        case Serves(limit) =>
          var page := Page(server, fetch.value, limit);
          fetch := None;
          buffer := page;
          if |buffer| < limit {
            exhausted := true;
          } else if buffer != [] {
            offset := (offset + limit) % U32_SIZE;
          }
          return Pending;
      }
    }
  }
}
