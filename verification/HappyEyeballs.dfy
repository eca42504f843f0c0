/** The Happy Eyeballs connection scheduler (RFC 8305, sections 4 and 5): no address lost, and families take turns. */
module HappyEyeballs {
  import opened Wrappers

  datatype Family = Ipv4 | Ipv6

  datatype Address = Address(family: Family, host: nat)

  function Opposite(f: Family): Family {
    if f.Ipv4? then Ipv6 else Ipv4
  }

  /** One attempt, with the addresses waiting, the attempts running and the delay as they were when it was chosen. */
  datatype Attempt = Attempt(address: Address, waiting: seq<Address>, running: nat, delaying: bool)

  /** The scheduler's fields, and the history of what was resolved, attempted and reported. */
  datatype Race = Race(
    dnsDone: bool,
    received: seq<Address>,
    connecting: seq<Address>,
    lastAttempted: Option<Family>,
    delaying: bool,
    resolved: seq<Address>,
    attempts: seq<Attempt>,
    reported: seq<Address>)

  const START: Race := Race(false, [], [], None, false, [], [], [])

  /** What the resolver stream answers, and what joining a connection attempt answers. */
  datatype DnsPoll = Record(address: Address) | NoMoreRecords

  datatype JoinPoll = Running(delayOver: bool) | Finished(which: nat)

  datatype Outcome = Report(address: Address) | Over | Waiting

  // ----- Choosing the next address -----

  /** The first waiting address of a family. */
  function IndexOf(a: seq<Address>, f: Family, from: nat := 0): (r: Option<nat>)
    requires from <= |a|
    ensures r.Some? ==> from <= r.value < |a| && a[r.value].family == f && forall j :: from <= j < r.value ==> a[j].family != f
    ensures r.None? ==> forall j :: from <= j < |a| ==> a[j].family != f
    decreases |a| - from
  {
    if from == |a| then None else if a[from].family == f then Some(from) else IndexOf(a, f, from + 1)
  }

  /** The family to prefer: the other one than last time, IPv6 at first. */
  function NextKind(r: Race): Family {
    if r.lastAttempted.Some? then Opposite(r.lastAttempted.value) else Ipv6
  }

  /** Which waiting address comes next. */
  function Choice(r: Race): (i: nat)
    requires r.received != []
    ensures i < |r.received|
  {
    match IndexOf(r.received, NextKind(r))
    case Some(i) => i
    case None => 0
  }

  /** `next_dns_record`, then the attempt and its delay. */
  function Attempted(r: Race): Race
    requires r.received != []
  {
    var i := Choice(r);
    var a := r.received[i];
    r.(received := r.received[..i] + r.received[i + 1..],
       lastAttempted := Some(a.family),
       connecting := r.connecting + [a],
       delaying := true,
       attempts := r.attempts + [Attempt(a, r.received, |r.connecting|, r.delaying)])
  }

  // ----- Polling -----

  function PollDns(r: Race, dns: seq<DnsPoll>): Race
    decreases |dns|
  {
    if r.dnsDone || dns == [] then r
    else match dns[0]
      case Record(a) => PollDns(r.(received := r.received + [a], resolved := r.resolved + [a]), dns[1..])
      case NoMoreRecords => r.(dnsDone := true)
  }

  function Joined(r: Race, which: nat): (Race, Address)
    requires r.connecting != []
  {
    var i := if which < |r.connecting| then which else |r.connecting| - 1;
    var a := r.connecting[i];
    (r.(connecting := r.connecting[..i] + r.connecting[i + 1..], reported := r.reported + [a]), a)
  }

  function Decide(r: Race): Outcome {
    if r.dnsDone && r.connecting == [] && !r.delaying then Over else Waiting
  }

  /** The loop: report a finished attempt, or start the next one when nothing runs or the delay is over. */
  function Advance(r: Race, joins: seq<JoinPoll>): (Race, Outcome)
    decreases |r.received|
  {
    var join := if joins == [] then Running(false) else joins[0];
    var later := if joins == [] then [] else joins[1..];
    if r.connecting != [] && join.Finished? then
      var (j, a) := Joined(r, join.which);
      (j, Report(a))
    else if r.connecting != [] && r.delaying && !join.delayOver then (r, Decide(r))
    else
      var ready := if r.connecting != [] then r.(delaying := false) else r;
      if ready.received == [] then (ready.(delaying := false), Decide(ready.(delaying := false)))
      else Advance(Attempted(ready), later)
  }

  /** `poll_next`. */
  function Poll(r: Race, dns: seq<DnsPoll>, joins: seq<JoinPoll>): (Race, Outcome) {
    Advance(PollDns(r, dns), joins)
  }

  // ----- Conservation -----

  /** The addresses of one family, in order. */
  function Of(a: seq<Address>, f: Family): seq<Address> {
    if a == [] then [] else (if a[0].family == f then [a[0]] else []) + Of(a[1..], f)
  }

  lemma {:induction false} OfConcat(a: seq<Address>, b: seq<Address>, f: Family)
    ensures Of(a + b, f) == Of(a, f) + Of(b, f)
  {
    if a == [] {
      assert a + b == b;
    } else {
      hide Of;
      OfConcat(a[1..], b, f);
      OfConsConcat(a[0], a[1..], b, f);
      assert a == [a[0]] + a[1..];
    }
  }

  lemma OfConsConcat(x: Address, a: seq<Address>, b: seq<Address>, f: Family)
    requires Of(a + b, f) == Of(a, f) + Of(b, f)
    ensures Of([x] + a + b, f) == Of([x] + a, f) + Of(b, f)
  {
    hide Of;
    OfCons(x, a, f);
    OfCons(x, a + b, f);
    assert [x] + a + b == [x] + (a + b);
  }

  lemma OfCons(x: Address, a: seq<Address>, f: Family)
    ensures Of([x] + a, f) == (if x.family == f then [x] else []) + Of(a, f)
  {
    assert ([x] + a)[1..] == a;
  }

  lemma OfOne(a: Address, f: Family)
    ensures Of([a], f) == if a.family == f then [a] else []
  {
    assert [a][1..] == [];
  }

  lemma {:induction false} OfNone(a: seq<Address>, f: Family)
    requires forall j :: 0 <= j < |a| ==> a[j].family != f
    ensures Of(a, f) == []
  {
    if a != [] {
      OfNone(a[1..], f);
    }
  }

  function Addresses(attempts: seq<Attempt>): (a: seq<Address>)
    ensures |a| == |attempts|
    ensures forall i :: 0 <= i < |a| ==> a[i] == attempts[i].address
  {
    seq(|attempts|, i requires 0 <= i < |attempts| => attempts[i].address)
  }

  /** Per family, what was resolved is what was attempted followed by what waits, in order. */
  ghost predicate Conserved(r: Race) {
    && (forall f: Family :: Of(r.resolved, f) == Of(Addresses(r.attempts), f) + Of(r.received, f))
    && multiset(r.resolved) == multiset(Addresses(r.attempts)) + multiset(r.received)
    && multiset(Addresses(r.attempts)) == multiset(r.connecting) + multiset(r.reported)
  }

  /** The chosen address is the first of its family to wait. */
  lemma ChoiceIsFirst(r: Race, j: nat)
    requires r.received != [] && j < Choice(r)
    ensures r.received[j].family != r.received[Choice(r)].family
  {
  }

  lemma Remove(a: seq<Address>, i: nat)
    requires i < |a|
    ensures multiset(a) == multiset{a[i]} + multiset(a[..i] + a[i + 1..])
  {
    assert a == a[..i] + [a[i]] + a[i + 1..];
  }

  lemma MoveOne(a: seq<Address>, i: nat, b: seq<Address>)
    requires i < |a|
    ensures multiset(a) + multiset(b) == multiset(a[..i] + a[i + 1..]) + multiset(b + [a[i]])
  {
    Remove(a, i);
    assert multiset(b + [a[i]]) == multiset(b) + multiset{a[i]};
  }

  lemma AttemptConserves(r: Race)
    requires Conserved(r) && r.received != []
    ensures Conserved(Attempted(r))
  {
    var i, r' := Choice(r), Attempted(r);
    var a, before, after := r.received[i], r.received[..i], r.received[i + 1..];
    assert Addresses(r'.attempts) == Addresses(r.attempts) + [a];
    Remove(r.received, i);
    forall f: Family
      ensures Of(r'.resolved, f) == Of(Addresses(r'.attempts), f) + Of(r'.received, f)
    {
      AttemptKeepsOrder(r, f);
    }
  }

  lemma AttemptKeepsOrder(r: Race, f: Family)
    requires r.received != [] && Of(r.resolved, f) == Of(Addresses(r.attempts), f) + Of(r.received, f)
    ensures var r' := Attempted(r); Of(r'.resolved, f) == Of(Addresses(r'.attempts), f) + Of(r'.received, f)
  {
    hide Of;
    var i := Choice(r);
    var a, before, after := r.received[i], r.received[..i], r.received[i + 1..];
    assert r.received == before + [a] + after;
    assert Addresses(Attempted(r).attempts) == Addresses(r.attempts) + [a];
    OfConcat(before + [a], after, f);
    OfConcat(before, [a], f);
    OfConcat(before, after, f);
    OfConcat(Addresses(r.attempts), [a], f);
    OfOne(a, f);
    if f == a.family {
      forall j | 0 <= j < i
        ensures before[j].family != f
      {
        ChoiceIsFirst(r, j);
      }
      OfNone(before, f);
    }
  }

  lemma JoinConserves(r: Race, which: nat)
    requires Conserved(r) && r.connecting != []
    ensures Conserved(Joined(r, which).0)
  {
    hide Of;
    MoveOne(r.connecting, if which < |r.connecting| then which else |r.connecting| - 1, r.reported);
  }

  lemma {:induction false} DnsConserves(r: Race, dns: seq<DnsPoll>)
    requires Conserved(r)
    ensures Conserved(PollDns(r, dns))
    decreases |dns|
  {
    if !r.dnsDone && dns != [] && dns[0].Record? {
      var a := dns[0].address;
      forall f: Family
        ensures Of(r.resolved + [a], f) == Of(Addresses(r.attempts), f) + Of(r.received + [a], f)
      {
        OfConcat(r.resolved, [a], f);
        OfConcat(r.received, [a], f);
      }
      DnsConserves(r.(received := r.received + [a], resolved := r.resolved + [a]), dns[1..]);
    }
  }

  // ----- Fairness -----

  /** The attempt repeats a family, or starts with IPv4, only when no address of the other family was waiting. */
  predicate FairAttempt(attempts: seq<Attempt>, k: nat)
    requires k < |attempts|
  {
    var preferred := if k == 0 then Ipv6 else Opposite(attempts[k - 1].address.family);
    && attempts[k].address in attempts[k].waiting
    && (attempts[k].address.family != preferred ==>
      forall j :: 0 <= j < |attempts[k].waiting| ==> attempts[k].waiting[j].family != preferred)
  }

  /** An attempt starts next to a running one only when the delay is over. */
  predicate Paced(a: Attempt) {
    a.running > 0 ==> !a.delaying
  }

  ghost predicate Fair(r: Race) {
    && (forall k :: 0 <= k < |r.attempts| ==> FairAttempt(r.attempts, k) && Paced(r.attempts[k]))
    && r.lastAttempted == if r.attempts == [] then None else Some(r.attempts[|r.attempts| - 1].address.family)
  }

  lemma AttemptFair(r: Race)
    requires Fair(r) && r.received != [] && (r.connecting != [] ==> !r.delaying)
    ensures Fair(Attempted(r))
  {
    var r' := Attempted(r);
    forall k | 0 <= k < |r'.attempts|
      ensures FairAttempt(r'.attempts, k) && Paced(r'.attempts[k])
    {
      if k < |r.attempts| {
        assert FairAttempt(r.attempts, k);
        assert r'.attempts[k] == r.attempts[k] && (k > 0 ==> r'.attempts[k - 1] == r.attempts[k - 1]);
      }
    }
  }

  /** Both invariants, through the loop. */
  lemma {:induction false} AdvanceKeeps(r: Race, joins: seq<JoinPoll>)
    requires Conserved(r) && Fair(r)
    ensures Conserved(Advance(r, joins).0) && Fair(Advance(r, joins).0)
    decreases |r.received|
  {
    hide Conserved, Fair, Attempted;
    var join := if joins == [] then Running(false) else joins[0];
    var later := if joins == [] then [] else joins[1..];
    if r.connecting != [] && join.Finished? {
      JoinConserves(r, join.which);
      FlagsKeep(r, Joined(r, join.which).0);
    } else {
      var ready := r.(delaying := false);
      FlagsKeep(r, ready);
      if r.received != [] && !(r.connecting != [] && r.delaying && !join.delayOver) {
        var now := if r.connecting != [] then ready else r;
        AttemptConserves(now);
        AttemptFair(now);
        AttemptShrinks(now);
        AdvanceKeeps(Attempted(now), later);
      }
    }
  }

  lemma AttemptShrinks(r: Race)
    requires r.received != []
    ensures |Attempted(r).received| < |r.received|
  {
  }

  lemma FlagsKeep(r: Race, r': Race)
    requires r'.attempts == r.attempts && r'.lastAttempted == r.lastAttempted
    ensures Fair(r) ==> Fair(r')
    ensures (Conserved(r) && r'.resolved == r.resolved && r'.received == r.received && r'.connecting == r.connecting
             && r'.reported == r.reported) ==> Conserved(r')
  {
  }

  lemma {:induction false} DnsKeepsHistory(r: Race, dns: seq<DnsPoll>)
    ensures PollDns(r, dns).attempts == r.attempts && PollDns(r, dns).lastAttempted == r.lastAttempted
    ensures PollDns(r, dns).connecting == r.connecting && PollDns(r, dns).delaying == r.delaying
    ensures r.dnsDone ==> PollDns(r, dns) == r
    decreases |dns|
  {
    if !r.dnsDone && dns != [] && dns[0].Record? {
      var a := dns[0].address;
      DnsKeepsHistory(r.(received := r.received + [a], resolved := r.resolved + [a]), dns[1..]);
    }
  }

  /**
   * The end is only announced with nothing left: every address was attempted and every result reported. A poll that
   * reports nothing leaves an address waiting only behind a running attempt and its delay.
   */
  lemma {:induction false} OverMeansDone(r: Race, joins: seq<JoinPoll>)
    ensures var (r', o) := Advance(r, joins);
      && (o == Over ==> r'.received == [])
      && (o == Over <==> !o.Report? && r'.dnsDone && r'.connecting == [])
      && (!o.Report? && r'.received != [] ==> r'.connecting != [] && r'.delaying)
      && (!o.Report? && r'.delaying ==> r'.connecting != [])
    decreases |r.received|
  {
    hide Attempted;
    var join := if joins == [] then Running(false) else joins[0];
    var later := if joins == [] then [] else joins[1..];
    if !(r.connecting != [] && join.Finished?) && !(r.connecting != [] && r.delaying && !join.delayOver) {
      var ready := if r.connecting != [] then r.(delaying := false) else r;
      if ready.received != [] {
        AttemptShrinks(ready);
        OverMeansDone(Attempted(ready), later);
      }
    }
  }

  // ----- Whole races -----

  datatype Turn = Turn(dns: seq<DnsPoll>, joins: seq<JoinPoll>)

  function Run(r: Race, turns: seq<Turn>): Race
    decreases |turns|
  {
    if turns == [] then r else Run(Poll(r, turns[0].dns, turns[0].joins).0, turns[1..])
  }

  lemma {:induction false} RunKeeps(r: Race, turns: seq<Turn>)
    requires Conserved(r) && Fair(r)
    ensures Conserved(Run(r, turns)) && Fair(Run(r, turns))
    decreases |turns|
  {
    hide Conserved, Fair, Advance, PollDns;
    if turns != [] {
      var t := turns[0];
      DnsConserves(r, t.dns);
      DnsKeepsHistory(r, t.dns);
      FlagsKeep(r, PollDns(r, t.dns));
      AdvanceKeeps(PollDns(r, t.dns), t.joins);
      RunKeeps(Poll(r, t.dns, t.joins).0, turns[1..]);
    }
  }

  /**
   * Conservation and fairness of every race. No address is attempted more often than it was resolved, the attempts of
   * a family follow the order of resolution, two consecutive attempts share a family (or the first is IPv4) only if no
   * address of the other family was waiting, and an attempt joins a running one only after the delay. The next poll
   * leaves an address waiting only if it reports a result, or behind a running attempt and its delay; without a result it
   * announces the end exactly when the resolver is done and the result of every resolved address was reported.
   */
  lemma EveryAddressOnce(turns: seq<Turn>, dns: seq<DnsPoll>, joins: seq<JoinPoll>, f: Family)
    ensures var r := Run(START, turns);
      && Of(Addresses(r.attempts), f) <= Of(r.resolved, f)
      && multiset(Addresses(r.attempts)) <= multiset(r.resolved)
      && (forall k :: 0 <= k < |r.attempts| ==> FairAttempt(r.attempts, k) && Paced(r.attempts[k]))
    ensures var (r, o) := Poll(Run(START, turns), dns, joins);
      && (o == Over <==> !o.Report? && r.dnsDone && multiset(r.reported) == multiset(r.resolved))
      && (!o.Report? && r.received != [] ==> r.connecting != [] && r.delaying)
  {
    hide Advance, PollDns;
    RunKeeps(START, turns);
    var r := Run(START, turns);
    OverMeansDone(PollDns(r, dns), joins);
    RunSnoc(START, turns, Turn(dns, joins));
    RunKeeps(START, turns + [Turn(dns, joins)]);
  }

  lemma {:induction false} RunSnoc(r: Race, turns: seq<Turn>, t: Turn)
    ensures Run(r, turns + [t]) == Poll(Run(r, turns), t.dns, t.joins).0
    decreases |turns|
  {
    hide Poll;
    if turns == [] {
      assert turns + [t] == [t] && [t][1..] == [];
    } else {
      assert (turns + [t])[1..] == turns[1..] + [t];
      RunSnoc(Poll(r, turns[0].dns, turns[0].joins).0, turns[1..], t);
    }
  }

  // ----- What is reported -----

  /** The addresses attempted between two states. */
  function NewAttempts(r: Race, r': Race): seq<Address> {
    if |r.attempts| <= |r'.attempts| then Addresses(r'.attempts[|r.attempts|..]) else []
  }

  /**
   * The loop reports the address of the very attempt that finished, among those running and those it started, and that
   * attempt runs no longer; without a report every attempt still runs.
   */
  ghost predicate ReportsTheFinished(r: Race, joins: seq<JoinPoll>, r': Race, o: Outcome) {
    var running := r.connecting + NewAttempts(r, r');
    && r.attempts <= r'.attempts
    && match o
       case Report(a) =>
         var k := |NewAttempts(r, r')|;
         && k < |joins| && joins[k].Finished? && running != []
         && var i := if joins[k].which < |running| then joins[k].which else |running| - 1;
           && a == running[i] && r'.connecting == running[..i] + running[i + 1..]
           && r'.reported == r.reported + [a]
       case _ => r'.connecting == running && r'.reported == r.reported
  }

  lemma {:induction false} AdvanceReports(r: Race, joins: seq<JoinPoll>)
    ensures var (r', o) := Advance(r, joins); ReportsTheFinished(r, joins, r', o)
    decreases |r.received|
  {
    hide Attempted;
    var (r', o) := Advance(r, joins);
    var join := if joins == [] then Running(false) else joins[0];
    var later := if joins == [] then [] else joins[1..];
    var ready := if r.connecting != [] then r.(delaying := false) else r;
    if r.connecting != [] && join.Finished? {
      ReportedNow(r, joins);
    } else if (r.connecting != [] && r.delaying && !join.delayOver) || ready.received == [] {
      assert r'.attempts[|r.attempts|..] == [];
      assert r.connecting + [] == r.connecting;
    } else {
      AttemptShrinks(ready);
      AdvanceReports(Attempted(ready), later);
      ReportedLater(r, ready, joins, r', o);
    }
  }

  lemma ReportedNow(r: Race, joins: seq<JoinPoll>)
    requires r.connecting != [] && joins != [] && joins[0].Finished?
    ensures var (r', o) := Advance(r, joins); ReportsTheFinished(r, joins, r', o)
  {
    assert r.attempts[|r.attempts|..] == [];
    assert r.connecting + [] == r.connecting;
  }

  lemma ReportedLater(r: Race, ready: Race, joins: seq<JoinPoll>, r': Race, o: Outcome)
    requires ready.received != [] && (ready == r || ready == r.(delaying := false))
    requires ReportsTheFinished(Attempted(ready), if joins == [] then [] else joins[1..], r', o)
    ensures ReportsTheFinished(r, joins, r', o)
  {
    var next := Attempted(ready);
    var running := next.connecting + NewAttempts(next, r');
    NewAttemptFirst(r, ready, r');
    hide NewAttempts, Attempted;
    assert running == r.connecting + NewAttempts(r, r');
  }

  lemma NewAttemptFirst(r: Race, ready: Race, r': Race)
    requires ready.received != [] && (ready == r || ready == r.(delaying := false))
    requires Attempted(ready).attempts <= r'.attempts
    ensures var next := Attempted(ready);
      && next.reported == r.reported && r.attempts <= r'.attempts
      && |NewAttempts(r, r')| == |NewAttempts(next, r')| + 1
      && next.connecting + NewAttempts(next, r') == r.connecting + NewAttempts(r, r')
  {
    var next := Attempted(ready);
    var a := next.attempts[|r.attempts|];
    AttemptedAppends(ready);
    hide Attempted, NewAttempts;
    OneMoreAttempt(r, a, next, r');
    assert next.connecting + NewAttempts(next, r') == r.connecting + ([a.address] + NewAttempts(next, r'));
  }

  lemma AttemptedAppends(r: Race)
    requires r.received != []
    ensures var next := Attempted(r);
      && next.attempts != [] && next.reported == r.reported
      && next.attempts == r.attempts + [next.attempts[|r.attempts|]]
      && next.connecting == r.connecting + [next.attempts[|r.attempts|].address]
  {
  }

  lemma OneMoreAttempt(r: Race, a: Attempt, next: Race, r': Race)
    requires next.attempts == r.attempts + [a] && next.attempts <= r'.attempts
    ensures r.attempts <= r'.attempts && NewAttempts(r, r') == [a.address] + NewAttempts(next, r')
  {
    assert r'.attempts[..|next.attempts|] == next.attempts;
    assert r'.attempts[|r.attempts|..] == [a] + r'.attempts[|next.attempts|..];
  }

  /** A poll reports the very attempt that finished. */
  lemma PollReports(r: Race, dns: seq<DnsPoll>, joins: seq<JoinPoll>)
    ensures var (r', o) := Poll(r, dns, joins); ReportsTheFinished(r, joins, r', o)
  {
    hide Advance, PollDns;
    DnsKeepsHistory(r, dns);
    DnsReportsNothing(r, dns);
    AdvanceReports(PollDns(r, dns), joins);
    var (r', o) := Poll(r, dns, joins);
    assert NewAttempts(r, r') == NewAttempts(PollDns(r, dns), r');
  }

  lemma {:induction false} DnsReportsNothing(r: Race, dns: seq<DnsPoll>)
    ensures PollDns(r, dns).reported == r.reported
    decreases |dns|
  {
    if !r.dnsDone && dns != [] && dns[0].Record? {
      var a := dns[0].address;
      DnsReportsNothing(r.(received := r.received + [a], resolved := r.resolved + [a]), dns[1..]);
    }
  }

  /** The addresses the polls of a race yield, in order. */
  function Yielded(r: Race, turns: seq<Turn>): seq<Address>
    decreases |turns|
  {
    if turns == [] then []
    else
      var (r', o) := Poll(r, turns[0].dns, turns[0].joins);
      (if o.Report? then [o.address] else []) + Yielded(r', turns[1..])
  }

  lemma {:induction false} YieldedIsReported(r: Race, turns: seq<Turn>)
    ensures Run(r, turns).reported == r.reported + Yielded(r, turns)
    decreases |turns|
  {
    hide Poll;
    if turns == [] {
      assert r.reported + [] == r.reported;
    } else {
      var (r', o) := Poll(r, turns[0].dns, turns[0].joins);
      PollReports(r, turns[0].dns, turns[0].joins);
      YieldedIsReported(r', turns[1..]);
      var first := if o.Report? then [o.address] else [];
      assert r.reported + first + Yielded(r', turns[1..]) == r.reported + (first + Yielded(r', turns[1..]));
      assert r'.reported == r.reported + first;
    }
  }

  /**
   * The results of a race are those of its attempts: the addresses its polls yield are, with their multiplicities, among
   * those attempted, the rest still running; once a poll announces the end, every resolved address has been yielded.
   */
  lemma YieldsItsAttempts(turns: seq<Turn>, last: Turn)
    ensures var r := Run(START, turns);
      multiset(Yielded(START, turns)) + multiset(r.connecting) == multiset(Addresses(r.attempts))
    ensures Poll(Run(START, turns), last.dns, last.joins).1 == Over ==>
      multiset(Yielded(START, turns)) == multiset(Run(START, turns + [last]).resolved)
  {
    hide Poll, Yielded, Addresses;
    RunKeeps(START, turns);
    YieldedIsReported(START, turns);
    var r := Run(START, turns);
    assert START.reported + Yielded(START, turns) == Yielded(START, turns);
    EveryAddressOnce(turns, last.dns, last.joins, Ipv4);
    RunSnoc(START, turns, last);
    PollReports(r, last.dns, last.joins);
  }

  // ----- `is_terminated` -----

  predicate IsTerminated(r: Race) {
    Decide(r) == Over
  }

  /** Without a result a poll announces the end exactly when the race then counts as terminated, and then every later poll does. */
  lemma OverIsTerminated(r: Race, dns: seq<DnsPoll>, joins: seq<JoinPoll>, dns': seq<DnsPoll>, joins': seq<JoinPoll>)
    ensures var (r', o) := Poll(r, dns, joins);
      && (o == Over <==> !o.Report? && IsTerminated(r'))
      && (o == Over ==> Poll(r', dns', joins') == (r', Over))
  {
    hide Advance, PollDns;
    OverMeansDone(PollDns(r, dns), joins);
    var (r', o) := Poll(r, dns, joins);
    if o == Over {
      EndStays(r', dns', joins');
    }
  }

  lemma EndStays(r: Race, dns: seq<DnsPoll>, joins: seq<JoinPoll>)
    requires IsTerminated(r) && r.received == []
    ensures Poll(r, dns, joins) == (r, Over)
  {
  }

  /** Addresses that wait after the resolver is done are waiting behind a delay. */
  predicate Delayed(r: Race) {
    r.dnsDone && (r.received != [] ==> r.delaying)
  }

  lemma {:induction false} AdvanceDelayed(r: Race, joins: seq<JoinPoll>)
    requires r.dnsDone && (r.received != [] && !r.delaying ==> r.connecting == [])
    ensures Delayed(Advance(r, joins).0)
    decreases |r.received|
  {
    hide Attempted;
    var join := if joins == [] then Running(false) else joins[0];
    var later := if joins == [] then [] else joins[1..];
    if !(r.connecting != [] && join.Finished?) && !(r.connecting != [] && r.delaying && !join.delayOver) {
      var ready := if r.connecting != [] then r.(delaying := false) else r;
      if ready.received != [] {
        AttemptShrinks(ready);
        AttemptDelays(ready);
        AdvanceDelayed(Attempted(ready), later);
      }
    }
  }

  lemma AttemptDelays(r: Race)
    requires r.received != []
    ensures Attempted(r).delaying && Attempted(r).dnsDone == r.dnsDone && Attempted(r).connecting != []
  {
  }

  lemma {:induction false} RunDelayed(r: Race, turns: seq<Turn>)
    requires Delayed(r)
    ensures Delayed(Run(r, turns))
    decreases |turns|
  {
    hide Advance;
    if turns != [] {
      DnsKeepsHistory(r, turns[0].dns);
      AdvanceDelayed(r, turns[0].joins);
      RunDelayed(Poll(r, turns[0].dns, turns[0].joins).0, turns[1..]);
    }
  }

  /** Counted as terminated while an address still waits. */
  predicate FalselyOver(r: Race) {
    IsTerminated(r) && r.received != []
  }

  /**
   * The only poll that can do it: the resolver is done once this poll has asked it, an address waits, one attempt is left
   * with its delay already over, and that attempt is the first thing to finish.
   */
  predicate LateRecord(r: Race, t: Turn) {
    var p := PollDns(r, t.dns);
    && p.dnsDone && p.received != []
    && |p.connecting| == 1 && !p.delaying
    && t.joins != [] && t.joins[0].Finished?
  }

  /** Once an attempt was started in a poll its delay runs, so the poll does not end falsely. */
  lemma {:induction false} StartedNotFalselyOver(r: Race, joins: seq<JoinPoll>)
    requires r.delaying && r.connecting != []
    ensures !FalselyOver(Advance(r, joins).0)
    decreases |r.received|
  {
    hide Attempted;
    var join := if joins == [] then Running(false) else joins[0];
    var later := if joins == [] then [] else joins[1..];
    if !join.Finished? && join.delayOver {
      var ready := r.(delaying := false);
      if ready.received != [] {
        AttemptShrinks(ready);
        AttemptDelays(ready);
        StartedNotFalselyOver(Attempted(ready), later);
      }
    }
  }

  /** A poll of any race leaves it falsely over exactly when it is that poll. */
  lemma PollFalselyOver(r: Race, t: Turn)
    ensures FalselyOver(Poll(r, t.dns, t.joins).0) <==> LateRecord(r, t)
  {
    hide Attempted, PollDns;
    var p := PollDns(r, t.dns);
    var join := if t.joins == [] then Running(false) else t.joins[0];
    var later := if t.joins == [] then [] else t.joins[1..];
    if !(p.connecting != [] && join.Finished?) && !(p.connecting != [] && p.delaying && !join.delayOver) {
      var ready := if p.connecting != [] then p.(delaying := false) else p;
      if ready.received != [] {
        AttemptDelays(ready);
        StartedNotFalselyOver(Attempted(ready), later);
      }
    }
  }

  /** A run is falsely over exactly when its last poll was that poll. */
  lemma FalselyOverIff(turns: seq<Turn>)
    ensures FalselyOver(Run(START, turns)) <==>
      turns != [] && LateRecord(Run(START, turns[..|turns| - 1]), turns[|turns| - 1])
  {
    hide Poll, LateRecord;
    if turns != [] {
      var init, last := turns[..|turns| - 1], turns[|turns| - 1];
      assert turns == init + [last];
      RunSnoc(START, init, last);
      PollFalselyOver(Run(START, init), last);
    }
  }

  /** So when the resolver delivers everything in the first poll, a terminated race has nothing left to attempt. */
  lemma TerminatedWhenResolvedAtOnce(first: Turn, turns: seq<Turn>)
    requires PollDns(START, first.dns).dnsDone
    ensures IsTerminated(Run(START, [first] + turns)) ==> Run(START, [first] + turns).received == []
  {
    hide Advance, PollDns, FalselyOver;
    var all := [first] + turns;
    FalselyOverIff(all);
    DnsKeepsHistory(START, first.dns);
    if turns != [] {
      var init := turns[..|turns| - 1];
      assert all[..|all| - 1] == [first] + init && ([first] + init)[1..] == init;
      AdvanceDelayed(PollDns(START, first.dns), first.joins);
      RunDelayed(Poll(START, first.dns, first.joins).0, init);
      DnsKeepsHistory(Run(START, [first] + init), turns[|turns| - 1].dns);
    }
    NotFalselyOver(Run(START, all));
  }

  lemma NotFalselyOver(r: Race)
    ensures FalselyOver(r) <==> IsTerminated(r) && r.received != []
  {
  }

  /**
   * A resolver that pauses can make `is_terminated` true too early: the first address is attempted and its delay runs
   * out, then the last address arrives in the very poll that reports the first result. The next poll still attempts it.
   */
  lemma TerminatedTooEarly(a: Address, b: Address)
    ensures var turns := [Turn([Record(a)], []), Turn([], [Running(true)]), Turn([Record(b), NoMoreRecords], [Finished(0)])];
      var r := Run(START, turns);
      IsTerminated(r) && r.received == [b] && Poll(r, [], []).0.attempts == r.attempts + [Attempt(b, [b], 0, false)]
  {
    hide Poll;
    var t1, t2, t3 := Turn([Record(a)], []), Turn([], [Running(true)]), Turn([Record(b), NoMoreRecords], [Finished(0)]);
    var r1 := Race(false, [], [a], Some(a.family), true, [a], [Attempt(a, [a], 0, false)], []);
    var r2 := r1.(delaying := false);
    FirstAttempt(a);
    DelayRunsOut(r1);
    LastArrives(a, b, r2);
    assert [t1, t2, t3][1..] == [t2, t3];
    assert [t2, t3][1..] == [t3];
    assert [t3][1..] == [];
    var r3 := Poll(r2, t3.dns, t3.joins).0;
    assert Run(START, [t1, t2, t3]) == Run(r1, [t2, t3]) == Run(r2, [t3]) == Run(r3, []) == r3;
    LateAttempt(r3, b);
  }

  lemma FirstAttempt(a: Address)
    ensures Poll(START, [Record(a)], []).0 == Race(false, [], [a], Some(a.family), true, [a], [Attempt(a, [a], 0, false)], [])
  {
    var r := START.(received := [a], resolved := [a]);
    assert [Record(a)][1..] == [] && [] + [a] == [a];
    assert PollDns(START, [Record(a)]) == PollDns(r, []) == r;
    AttemptOnly(r, a);
    assert Advance(r, []) == Advance(Attempted(r), []);
  }

  /** With one address waiting the choice is that one. */
  lemma AttemptOnly(r: Race, a: Address)
    requires r.received == [a] && r.connecting == [] && !r.delaying
    ensures Attempted(r) == r.(received := [], lastAttempted := Some(a.family), connecting := [a],
                               delaying := true, attempts := r.attempts + [Attempt(a, [a], 0, false)])
  {
    assert Choice(r) == 0;
    assert [a][..0] + [a][1..] == [] && [] + [a] == [a];
  }

  lemma DelayRunsOut(r: Race)
    requires !r.dnsDone && r.received == [] && r.connecting != [] && r.delaying
    ensures Poll(r, [], [Running(true)]).0 == r.(delaying := false)
  {
  }

  lemma LastArrives(a: Address, b: Address, r: Race)
    requires r == Race(false, [], [a], Some(a.family), false, [a], [Attempt(a, [a], 0, false)], [])
    ensures Poll(r, [Record(b), NoMoreRecords], [Finished(0)]).0
         == r.(dnsDone := true, received := [b], resolved := [a, b], connecting := [], reported := [a])
  {
    var q := r.(received := [b], resolved := [a, b]);
    assert [] + [b] == [b] && [a] + [b] == [a, b];
    assert [Record(b), NoMoreRecords][1..] == [NoMoreRecords];
    assert PollDns(r, [Record(b), NoMoreRecords]) == PollDns(q, [NoMoreRecords]);
    assert [a][..0] + [a][1..] == [] && [] + [a] == [a];
  }

  lemma LateAttempt(r: Race, b: Address)
    requires r.dnsDone && r.received == [b] && r.connecting == [] && !r.delaying
    ensures Poll(r, [], []).0.attempts == r.attempts + [Attempt(b, [b], 0, false)]
  {
    AttemptOnly(r, b);
    assert PollDns(r, []) == r;
    assert Advance(r, []) == Advance(Attempted(r), []);
    assert [] + [b] == [b];
  }

  // ----- The scheduler as the polled object -----

  class Scheduler {
    var dnsDone: bool
    var dnsReceived: seq<Address>
    var connecting: seq<Address>
    var lastAttempted: Option<Family>
    var delaying: bool
    ghost var resolved: seq<Address>
    ghost var attempts: seq<Attempt>
    ghost var reported: seq<Address>

    ghost function View(): Race
      reads this
    {
      Race(dnsDone, dnsReceived, connecting, lastAttempted, delaying, resolved, attempts, reported)
    }

    constructor ()
      ensures View() == START
    {
      dnsDone, dnsReceived, connecting, lastAttempted, delaying := false, [], [], None, false;
      resolved, attempts, reported := [], [], [];
    }

    /** `next_dns_record`. */
    method NextDnsRecord() returns (record: Option<Address>)
      modifies this`dnsReceived, this`lastAttempted
      ensures record.None? <==> old(dnsReceived) == []
      ensures record.None? ==> dnsReceived == old(dnsReceived) && lastAttempted == old(lastAttempted)
      ensures record.Some? ==>
        var i := Choice(old(View()));
        && record.value == old(dnsReceived)[i] && lastAttempted == Some(record.value.family)
        && dnsReceived == old(dnsReceived)[..i] + old(dnsReceived)[i + 1..]
    {
      if dnsReceived == [] {
        return None;
      }
      var nextKind := if lastAttempted.Some? then Opposite(lastAttempted.value) else Ipv6;
      for i := 0 to |dnsReceived|
        invariant dnsReceived == old(dnsReceived) && lastAttempted == old(lastAttempted)
        invariant forall j :: 0 <= j < i ==> dnsReceived[j].family != nextKind
      {
        if dnsReceived[i].family == nextKind {
          lastAttempted := Some(nextKind);
          record := Some(dnsReceived[i]);
          dnsReceived := dnsReceived[..i] + dnsReceived[i + 1..];
          return;
        }
      }
      record := Some(dnsReceived[0]);
      lastAttempted := Some(dnsReceived[0].family);
      dnsReceived := dnsReceived[..0] + dnsReceived[1..];
    }

    method ReceiveRecords(dns: seq<DnsPoll>)
      modifies this`dnsDone, this`dnsReceived, this`resolved
      ensures View() == PollDns(old(View()), dns)
    {
      var i := 0;
      while !dnsDone && i < |dns|
        invariant 0 <= i <= |dns|
        invariant PollDns(View(), dns[i..]) == PollDns(old(View()), dns)
      {
        assert dns[i..][1..] == dns[i + 1..];
        match dns[i] {
          case Record(a) =>
            dnsReceived := dnsReceived + [a];
            resolved := resolved + [a];
          case NoMoreRecords =>
            dnsDone := true;
        }
        i := i + 1;
      }
    }

    /** Starts the next attempt, if an address waits. */
    method StartNext() returns (started: bool)
      modifies this
      ensures started <==> old(dnsReceived) != []
      ensures View() == if started then Attempted(old(View())) else old(View())
    {
      ghost var waiting := dnsReceived;
      var record := NextDnsRecord();
      if record.None? {
        return false;
      }
      ghost var running, early := |connecting|, delaying;
      connecting := connecting + [record.value];
      delaying := true;
      attempts := attempts + [Attempt(record.value, waiting, running, early)];
      return true;
    }

    /** `poll_next`. */
    method PollNext(dns: seq<DnsPoll>, joins: seq<JoinPoll>) returns (o: Outcome)
      modifies this
      ensures (View(), o) == Poll(old(View()), dns, joins)
    {
      hide Attempted, PollDns;
      ReceiveRecords(dns);
      var left := joins;
      while true
        invariant Advance(View(), left) == Poll(old(View()), dns, joins)
        decreases |dnsReceived|
      {
        var join := if left == [] then Running(false) else left[0];
        left := if left == [] then [] else left[1..];
        if connecting != [] {
          match join {
            case Finished(which) =>
              var i := if which < |connecting| then which else |connecting| - 1;
              o := Report(connecting[i]);
              reported := reported + [connecting[i]];
              connecting := connecting[..i] + connecting[i + 1..];
              return;
            case Running(delayOver) =>
              if delaying {
                if !delayOver {
                  break;
                }
                delaying := false;
              }
          }
        }
        ghost var ready := View();
        var started := StartNext();
        if !started {
          delaying := false;
          break;
        }
        AttemptShrinks(ready);
      }
      o := if dnsDone && connecting == [] && !delaying then Over else Waiting;
    }
  }
}
