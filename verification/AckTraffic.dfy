/**
 * Does the `<r/>`/`<a/>` traffic between two ends fall silent when neither application
 * sends anything new? Every answer to a request goes through `send`, which asks again
 * whenever the outbound count is a multiple of five (src/core/xmpp-stream.ts:249-251).
 */
module AckTraffic {
  import opened Sequences
  import opened StreamManagement
  import opened StreamPair

  datatype Direction = TowardsA | TowardsB

  predicate CanDeliver(n: Net, d: Direction) {
    if d.TowardsA? then n.ba != [] else n.ab != []
  }

  function Deliver(n: Net, d: Direction): Net
    requires CanDeliver(n, d)
  {
    if d.TowardsA? then ToA(n) else ToB(n)
  }

  /** `ds` is a run of deliveries, and nothing but deliveries, from `n`. */
  ghost predicate IsRun(n: Net, ds: seq<Direction>)
    decreases |ds|
  {
    ds == [] || (CanDeliver(n, ds[0]) && IsRun(Deliver(n, ds[0]), ds[1..]))
  }

  ghost predicate HasRunOfLength(n: Net, k: nat) {
    exists ds :: |ds| == k && IsRun(n, ds)
  }

  /** Both ends open, and no replay in flight. */
  ghost predicate Quiet(n: Net) {
    && !n.a.closed && !n.b.closed
    && (forall e | e in n.ab + n.ba :: !e.Resume? && !e.Resumed?)
  }

  predicate OnMultiple(ep: Endpoint) {
    ep.outbound % ACK_INTERVAL == 0
  }

  // ---------------------------------------------------------------- draining

  /** Weight of an element on its way to an end that never asks by itself. */
  function WeightAtSilent(e: Element): nat {
    match e
    case R => 2
    case Stanza(_) => 5
    case Enable(_) => 2
    case _ => 1
  }

  /** Weight of an element on its way to the other end. */
  function WeightAtAsking(e: Element): nat {
    match e
    case R => 4
    case Stanza(_) => 5
    case Enable(_) => 4
    case _ => 1
  }

  /** The explicit bound: the traffic weighed from the end whose count is no multiple of five. */
  function Weight(n: Net): nat {
    if !OnMultiple(n.a) then
      Sum(n.ba, e => WeightAtSilent(e)) + Sum(n.ab, e => WeightAtAsking(e))
    else
      Sum(n.ab, e => WeightAtSilent(e)) + Sum(n.ba, e => WeightAtAsking(e))
  }

  /** What one delivery pushes, and that it sends no new stanza. */
  lemma ReceiveSends(ep: Endpoint, e: Element)
    requires !ep.closed && !e.Resume? && !e.Resumed?
    ensures var eff := Receive(ep, e);
      && !eff.next.closed && eff.next.outbound == ep.outbound
      && (forall x | x in eff.pushed :: x.R? || x.A? || x.Enabled?)
      && (e.R? ==> eff.pushed == [A(ep.inbound)] + (if RequestDue(ep) then [R] else []))
      && (ep.smEnabled ==> eff.next.smEnabled)
  {
  }

  lemma SilentOutput(ep: Endpoint, e: Element)
    requires !ep.closed && !e.Resume? && !e.Resumed? && !OnMultiple(ep)
    ensures Sum(Receive(ep, e).pushed, x => WeightAtAsking(x)) < WeightAtSilent(e)
  {
    var pushed := Receive(ep, e).pushed;
    assert |pushed| <= 1;
  }

  lemma AskingOutput(ep: Endpoint, e: Element)
    requires !ep.closed && !e.Resume? && !e.Resumed?
    ensures Sum(Receive(ep, e).pushed, x => WeightAtSilent(x)) < WeightAtAsking(e)
  {
    var pushed := Receive(ep, e).pushed;
    assert |pushed| <= 2;
    if |pushed| == 2 {
      assert pushed == [pushed[0]] + [pushed[1]];
      SumAppend([pushed[0]], [pushed[1]], x => WeightAtSilent(x));
    }
  }

  lemma DeliverWeight(n: Net, d: Direction)
    requires Quiet(n) && CanDeliver(n, d)
    requires !OnMultiple(n.a) || !OnMultiple(n.b)
    ensures var n' := Deliver(n, d);
      && Quiet(n') && n'.a.outbound == n.a.outbound && n'.b.outbound == n.b.outbound
      && Weight(n') < Weight(n)
  {
    var ep := if d.TowardsA? then n.a else n.b;
    var e := if d.TowardsA? then n.ba[0] else n.ab[0];
    var other := if d.TowardsA? then n.ab else n.ba;
    ReceiveSends(ep, e);
    SumAppend(other, Receive(ep, e).pushed, x => WeightAtSilent(x));
    SumAppend(other, Receive(ep, e).pushed, x => WeightAtAsking(x));
    if d.TowardsA? == !OnMultiple(n.a) {
      SilentOutput(ep, e);
    } else {
      AskingOutput(ep, e);
    }
  }

  /** Every run of deliveries is at most as long as the weight of what is in flight. */
  lemma {:induction false} TrafficDrains(n: Net, ds: seq<Direction>)
    requires Quiet(n) && IsRun(n, ds)
    requires !OnMultiple(n.a) || !OnMultiple(n.b)
    ensures |ds| <= Weight(n)
    decreases |ds|
  {
    if ds == [] {
    } else {
      DeliverWeight(n, ds[0]);
      TrafficDrains(Deliver(n, ds[0]), ds[1..]);
    }
  }

  // ---------------------------------------------------------------- never draining

  /** Both ends ask with every answer, and a request is in flight. */
  ghost predicate Echoing(n: Net) {
    && Quiet(n)
    && RequestDue(n.a) && RequestDue(n.b)
    && R in n.ab + n.ba
  }

  /** An echo can always be delivered so that it goes on. */
  lemma EchoGoesOn(n: Net) returns (d: Direction)
    requires Echoing(n)
    ensures CanDeliver(n, d) && Echoing(Deliver(n, d))
  {
    d := if R in n.ab then TowardsB else TowardsA;
    var ep := if d.TowardsA? then n.a else n.b;
    var e := if d.TowardsA? then n.ba[0] else n.ab[0];
    ReceiveSends(ep, e);
    var n' := Deliver(n, d);
    if e.R? {
      assert R in Receive(ep, e).pushed;
    } else if d.TowardsA? {
      assert R in n.ba[1..];
    } else {
      assert R in n.ab[1..];
    }
  }

  lemma {:induction false} EndlessEcho(n: Net, k: nat)
    requires Echoing(n)
    ensures HasRunOfLength(n, k)
    decreases k
  {
    if k == 0 {
      assert IsRun(n, []);
    } else {
      var d := EchoGoesOn(n);
      EndlessEcho(Deliver(n, d), k - 1);
      var ds :| |ds| == k - 1 && IsRun(Deliver(n, d), ds);
      assert ([d] + ds)[1..] == ds;
      assert IsRun(n, [d] + ds);
    }
  }

  /** Acks alone are never answered. */
  lemma {:induction false} AcksDrain(n: Net, ds: seq<Direction>)
    requires IsRun(n, ds)
    requires forall e | e in n.ab + n.ba :: e.A?
    ensures |ds| <= |n.ab| + |n.ba|
    decreases |ds|
  {
    if ds == [] {
    } else {
      var n' := Deliver(n, ds[0]);
      if ds[0].TowardsA? {
        assert n.ba[0] in n.ab + n.ba;
        assert n'.ab == n.ab && n'.ba == n.ba[1..];
      } else {
        assert n.ab[0] in n.ab + n.ba;
        assert n'.ba == n.ba && n'.ab == n.ab[1..];
      }
      AcksDrain(n', ds[1..]);
    }
  }

  /**
   * With stream management on at both ends and only requests and acks in flight, the
   * traffic can go on for ever iff both outbound counts are multiples of five and at
   * least one request is in flight.
   */
  lemma EndlessIff(n: Net)
    requires !n.a.closed && !n.b.closed && n.a.smEnabled && n.b.smEnabled
    requires forall e | e in n.ab + n.ba :: e.R? || e.A?
    ensures (forall k: nat :: HasRunOfLength(n, k)) <==> OnMultiple(n.a) && OnMultiple(n.b) && R in n.ab + n.ba
  {
    if OnMultiple(n.a) && OnMultiple(n.b) && R in n.ab + n.ba {
      forall k: nat
        ensures HasRunOfLength(n, k)
      {
        EndlessEcho(n, k);
      }
    } else {
      var bound := if !OnMultiple(n.a) || !OnMultiple(n.b) then Weight(n) else |n.ab| + |n.ba|;
      if HasRunOfLength(n, bound + 1) {
        var ds :| |ds| == bound + 1 && IsRun(n, ds);
        if !OnMultiple(n.a) || !OnMultiple(n.b) {
          TrafficDrains(n, ds);
        } else {
          AcksDrain(n, ds);
        }
      }
    }
  }

  /** The negotiation on a fresh link, both counts still 0, already starts an endless echo. */
  lemma FreshLinkEchoes(idA: string, idB: string, k: nat)
    ensures var dial := Send(NewEndpoint(idA), Enable(true));
      HasRunOfLength(Net(dial.next, NewEndpoint(idB), dial.pushed, []), k)
  {
    var dial := Send(NewEndpoint(idA), Enable(true));
    var n0 := Net(dial.next, NewEndpoint(idB), dial.pushed, []);
    var n1 := Deliver(n0, TowardsB);
    assert n1.ba == [Enabled(idB, true), R];
    var n2 := Deliver(n1, TowardsA);
    assert n2.ba == [R] && n2.ab == [];
    assert Echoing(n2);
    if k == 0 {
      assert IsRun(n0, []);
    } else if k == 1 {
      assert IsRun(n1, []);
      assert IsRun(n0, [TowardsB]);
    } else {
      EndlessEcho(n2, k - 2);
      var ds :| |ds| == k - 2 && IsRun(n2, ds);
      assert ([TowardsA] + ds)[1..] == ds;
      assert IsRun(n1, [TowardsA] + ds);
      assert ([TowardsB] + ([TowardsA] + ds))[1..] == [TowardsA] + ds;
      assert IsRun(n0, [TowardsB] + ([TowardsA] + ds));
    }
  }
}
