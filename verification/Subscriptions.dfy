/** What a connection's operations say of each subscription, and what reconnections and maintenance send. */
module Subscriptions {
  import opened Wrappers
  import opened ByteStrings
  import opened ClientOps
  import opened Handler
  import opened ClientServer

  // ----- Which subscriptions a connection's operations leave standing -----

  /** Whether the last SUB, or UNSUB without a limit, sent for `id` on this connection was a SUB. */
  predicate Subscribed(trace: seq<ClientOp>, id: nat) {
    if trace == [] then false
    else
      match trace[|trace| - 1]
      case Subscribe(i, _, _) => i == id || Subscribed(trace[..|trace| - 1], id)
      case Unsubscribe(i, None) => i != id && Subscribed(trace[..|trace| - 1], id)
      case _ => Subscribed(trace[..|trace| - 1], id)
  }

  lemma SubscribedSnoc(t: seq<ClientOp>, op: ClientOp, id: nat)
    ensures Subscribed(t + [op], id) <==>
      if op.Subscribe? && op.id == id then true
      else if op == Unsubscribe(id, None) then false
      else Subscribed(t, id)
  {
    assert (t + [op])[..|t|] == t;
  }

  // ----- What a reconnection sends -----

  predicate Concerns(op: ClientOp, id: nat) {
    (op.Subscribe? || op.Unsubscribe?) && op.id == id
  }

  /** The SUB and UNSUB operations for one id, in order. */
  function OpsFor(trace: seq<ClientOp>, id: nat): seq<ClientOp> {
    if trace == [] then []
    else
      var last := trace[|trace| - 1];
      OpsFor(trace[..|trace| - 1], id) + if Concerns(last, id) then [last] else []
  }

  lemma OpsForSnoc(t: seq<ClientOp>, op: ClientOp, id: nat)
    ensures OpsFor(t + [op], id) == OpsFor(t, id) + if Concerns(op, id) then [op] else []
  {
    assert (t + [op])[..|t|] == t;
  }

  lemma ResubscribeOpsFor(t: seq<ClientOp>, i: nat, sub: Subscription, id: nat)
    ensures var ops := ResubscribeOps(i, sub);
      && OpsFor(t + ops, id) == OpsFor(t, id) + (if i == id then ops else [])
      && (Subscribed(t + ops, id) <==> i == id || Subscribed(t, id))
  {
    hide OpsFor, Subscribed;
    var first := ClientOps.Subscribe(i, sub.subject, sub.queueGroup);
    OpsForSnoc(t, first, id);
    SubscribedSnoc(t, first, id);
    if sub.remaining.Some? {
      var second := Unsubscribe(i, Some(sub.remaining.value));
      OpsForSnoc(t + [first], second, id);
      SubscribedSnoc(t + [first], second, id);
      assert t + ResubscribeOps(i, sub) == t + [first] + [second];
      assert OpsFor(t, id) + [first] + [second] == OpsFor(t, id) + ResubscribeOps(i, sub);
    } else {
      assert t + ResubscribeOps(i, sub) == t + [first];
      assert OpsFor(t, id) + [] == OpsFor(t, id);
    }
  }

  lemma {:induction false} ResubscribeSends(c: Client, ids: seq<nat>, id: nat)
    requires forall i :: 0 <= i < |ids| ==> ids[i] in c.subs
    requires forall i, j :: 0 <= i < j < |ids| ==> ids[i] != ids[j]
    ensures var r := Resubscribe(c, ids);
      && r.subs == c.subs && r.mux == c.mux
      && OpsFor(r.trace, id) == OpsFor(c.trace, id) + (if id in ids then ResubscribeOps(id, c.subs[id]) else [])
      && (Subscribed(r.trace, id) <==> id in ids || Subscribed(c.trace, id))
    decreases |ids|
  {
    hide OpsFor, Subscribed, ResubscribeOps, ResubscribeKinds;
    if ids == [] {
      assert OpsFor(c.trace, id) + [] == OpsFor(c.trace, id);
    } else {
      var i, sub := ids[0], c.subs[ids[0]];
      var next := c.(inFlight := c.inFlight + ResubscribeKinds(i, sub), trace := c.trace + ResubscribeOps(i, sub));
      ResubscribeOpsFor(c.trace, i, sub, id);
      ResubscribeSends(next, ids[1..], id);
      assert ids == [i] + ids[1..];
      var ops := ResubscribeOps(id, sub);
      assert OpsFor(c.trace, id) + [] + (if id in ids[1..] then ResubscribeOps(id, c.subs[id]) else [])
          == OpsFor(c.trace, id) + (if id in ids[1..] then ResubscribeOps(id, c.subs[id]) else []);
      assert OpsFor(c.trace, id) + ops + [] == OpsFor(c.trace, id) + ops;
    }
  }

  /**
   * A new connection opens with exactly one SUB per surviving subscription, followed for a limited one by an UNSUB
   * carrying the count still left, and with nothing for any other id.
   */
  lemma ReconnectSends(c: Client, id: nat)
    ensures var r := Reconnected(c);
      && r.subs == c.subs && r.mux.None?
      && OpsFor(r.trace, id) == (if id in c.subs then ResubscribeOps(id, c.subs[id]) else [])
      && (Subscribed(r.trace, id) <==> id in c.subs)
  {
    var ids, blank := SortedIds(c.subs.Keys), Client([], c.subs, None, c.prefix, []);
    assert forall i :: 0 <= i < |ids| ==> ids[i] in ids;
    ResubscribeSends(blank, ids, id);
    assert OpsFor(blank.trace, id) == [];
  }

  lemma {:induction false} OpsForIn(t: seq<ClientOp>, id: nat, op: ClientOp)
    requires op in OpsFor(t, id)
    ensures op in t
  {
    if op in OpsFor(t[..|t| - 1], id) {
      OpsForIn(t[..|t| - 1], id, op);
    }
  }

  lemma {:induction false} InOpsFor(t: seq<ClientOp>, id: nat, op: ClientOp)
    requires op in t && Concerns(op, id)
    ensures op in OpsFor(t, id)
  {
    if op != t[|t| - 1] {
      assert op in t[..|t| - 1];
      InOpsFor(t[..|t| - 1], id, op);
    }
  }

  /** What an id is subscribed to depends on its own operations only. */
  lemma {:induction false} SubscribedOfOps(t: seq<ClientOp>, id: nat)
    ensures Subscribed(t, id) <==> Subscribed(OpsFor(t, id), id)
  {
    if t != [] {
      var last, ops := t[|t| - 1], OpsFor(t[..|t| - 1], id);
      SubscribedOfOps(t[..|t| - 1], id);
      SubscribedSnoc(ops, last, id);
      assert ops + [] == ops;
    }
  }

  // ----- What maintenance sends -----

  lemma {:induction false} CloseAllSends(c: Client, ids: seq<nat>, id: nat)
    requires forall i :: 0 <= i < |ids| ==> ids[i] in c.subs
    requires forall i, j :: 0 <= i < j < |ids| ==> ids[i] != ids[j]
    ensures var r := CloseAll(c, ids);
      && r.mux == c.mux
      && (id in r.subs <==> id in c.subs && id !in ids) && (id in r.subs ==> r.subs[id] == c.subs[id])
      && OpsFor(r.trace, id) == OpsFor(c.trace, id)
         + (if id in ids && !c.subs[id].failedSubscribe then [Unsubscribe(id, None)] else [])
    decreases |ids|
  {
    hide OpsFor;
    if ids == [] {
      assert OpsFor(c.trace, id) + [] == OpsFor(c.trace, id);
    } else {
      var next := CloseOne(c, ids[0]);
      OpsForSnoc(c.trace, Unsubscribe(ids[0], None), id);
      CloseAllSends(next, ids[1..], id);
      assert ids == [ids[0]] + ids[1..];
      assert OpsFor(next.trace, id) + [] == OpsFor(next.trace, id);
      assert OpsFor(c.trace, id) + [] == OpsFor(c.trace, id);
    }
  }

  /**
   * Maintenance drops exactly the subscriptions that were marked failed or whose receiver is gone, sends an UNSUB for
   * each of the latter that is not also marked and nothing for any other id, and forgets exactly the abandoned requests.
   */
  lemma MaintenanceSends(c: Client, gone: set<nat>, goneReplies: set<Bytes>, id: nat)
    ensures var r := FailedUnsubscribe(c, gone, goneReplies);
      && (id in r.subs <==> id in c.subs && !c.subs[id].failedSubscribe && id !in gone)
      && (id in r.subs ==> r.subs[id] == c.subs[id])
      && OpsFor(r.trace, id) == OpsFor(c.trace, id)
         + (if id in c.subs && !c.subs[id].failedSubscribe && id in gone then [Unsubscribe(id, None)] else [])
      && r.mux.Some? == c.mux.Some?
      && (c.mux.Some? ==> r.mux.value.Keys == c.mux.value.Keys - goneReplies)
  {
    hide OpsFor, CloseAll;
    var swept := if c.mux.Some? then c.(mux := Some(c.mux.value - goneReplies)) else c;
    var ids := SortedIds(ClosedIds(c.subs, gone));
    assert forall i :: 0 <= i < |ids| ==> ids[i] in ids;
    CloseAllSends(swept, ids, id);
  }

  // ----- Runs -----

  lemma {:induction false} RunSnoc(s: System, actions: seq<Action>, a: Action)
    ensures Run(s, actions + [a]) == Next(Run(s, actions), a)
    decreases |actions|
  {
    hide Next;
    if actions == [] {
      assert actions + [a] == [a] && [a][1..] == [];
      assert Run(Next(s, a), []) == Next(s, a);
    } else {
      assert (actions + [a])[1..] == actions[1..] + [a];
      RunSnoc(Next(s, actions[0]), actions[1..], a);
    }
  }

  /** The states some run leads to. */
  ghost predicate Reachable(prefix: Bytes, s: System) {
    exists actions :: Run(Init(prefix), actions) == s
  }

  lemma ReachableNext(prefix: Bytes, s: System, a: Action)
    requires Reachable(prefix, s)
    ensures Reachable(prefix, Next(s, a))
  {
    hide Next;
    var actions :| Run(Init(prefix), actions) == s;
    RunSnoc(Init(prefix), actions, a);
  }
}
