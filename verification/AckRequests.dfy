/**
 * When a stream asks for an ack, and how often (src/core/xmpp-stream.ts:51-67, 233-256;
 * section 4 of XEP-0198): on every fifth stanza, received or sent.
 */
module AckRequests {
  import opened StreamManagement

  /** The number of requests among these elements. */
  function Requests(es: seq<Element>): nat {
    if es == [] then 0 else (if es[0] == R then 1 else 0) + Requests(es[1..])
  }

  lemma {:induction false} RequestsAppend(xs: seq<Element>, ys: seq<Element>)
    ensures Requests(xs + ys) == Requests(xs) + Requests(ys)
  {
    if xs == [] {
      assert xs + ys == ys;
    } else {
      assert (xs + ys)[1..] == xs[1..] + ys;
      RequestsAppend(xs[1..], ys);
    }
  }

  /**
   * What an open stream does with an inbound stanza: it counts it, hands it on, and, with
   * stream management on, pushes a request exactly if it is a fifth one.
   */
  lemma ReceiveAsks(ep: Endpoint, e: Element)
    requires !ep.closed && e.Stanza?
    ensures var eff := Receive(ep, e);
      && eff.next == ep.(inbound := ep.inbound + 1) && eff.emitted == [e] && !eff.threw
      && (R in eff.pushed <==> ep.smEnabled && (ep.inbound + 1) % 5 == 0)
      && (forall x | x in eff.pushed :: x == R)
      && Requests(eff.pushed) == Asked(ep, if (ep.inbound + 1) % 5 == 0 then 1 else 0)
  {
    var eff := Receive(ep, e);
    if ep.smEnabled && (ep.inbound + 1) % 5 == 0 {
      assert eff.pushed == [R] + (if ep.outbound % 5 == 0 then [R] else []);
      RequestsAppend([R], if ep.outbound % 5 == 0 then [R] else []);
      assert [R][1..] == [];
    } else {
      assert eff.pushed == [];
    }
  }

  /** The requests of `n` times asking: `send` asks again while the outbound count is a multiple of five. */
  function Asked(ep: Endpoint, n: nat): nat {
    if !ep.smEnabled then 0 else if ep.outbound % 5 == 0 then 2 * n else n
  }

  /** A closed stream still counts, but asks for nothing. */
  lemma ClosedAsksNothing(ep: Endpoint, e: Element)
    requires ep.closed && e.Stanza?
    ensures var eff := Receive(ep, e);
      && eff.next == ep.(inbound := ep.inbound + 1) && eff.pushed == []
      && eff.threw == (ep.smEnabled && (ep.inbound + 1) % 5 == 0)
      && eff.emitted == if eff.threw then [] else [e]
  {
  }

  /** A stream that has received elements, one after the other. */
  function Received(ep: Endpoint, es: seq<Element>): Endpoint
    decreases |es|
  {
    if es == [] then ep else Received(Receive(ep, es[0]).next, es[1..])
  }

  /** What it has pushed meanwhile. */
  function Answered(ep: Endpoint, es: seq<Element>): seq<Element>
    decreases |es|
  {
    if es == [] then [] else Receive(ep, es[0]).pushed + Answered(Receive(ep, es[0]).next, es[1..])
  }

  /** How many multiples of five lie in `n + 1 .. n + k`. */
  function Fifths(n: nat, k: nat): nat {
    (n + k) / 5 - n / 5
  }

  lemma {:induction false} AllReceived(ep: Endpoint, es: seq<Element>)
    requires !ep.closed && forall e | e in es :: e.Stanza?
    ensures Received(ep, es) == ep.(inbound := ep.inbound + |es|)
    decreases |es|
  {
    if es == [] {
    } else {
      ReceiveAsks(ep, es[0]);
      AllReceived(ep.(inbound := ep.inbound + 1), es[1..]);
    }
  }

  /**
   * Of the stanzas received with stream management on, every fifth is followed by a request,
   * or by two while the outbound count is a multiple of five; all are counted.
   */
  lemma RequestsReceived(ep: Endpoint, es: seq<Element>)
    requires !ep.closed && forall e | e in es :: e.Stanza?
    ensures Received(ep, es) == ep.(inbound := ep.inbound + |es|)
    ensures Requests(Answered(ep, es)) == Asked(ep, Fifths(ep.inbound, |es|))
  {
    AllReceived(ep, es);
    ReceivedCounted(ep, es);
  }

  lemma {:induction false} ReceivedCounted(ep: Endpoint, es: seq<Element>)
    requires !ep.closed && forall e | e in es :: e.Stanza?
    ensures Requests(Answered(ep, es)) == Asked(ep, Fifths(ep.inbound, |es|))
    decreases |es|
  {
    if es == [] {
    } else {
      var next := ep.(inbound := ep.inbound + 1);
      ReceivedFirst(ep, es[0], Answered(next, es[1..]));
      ReceivedCounted(next, es[1..]);
      FifthFirst(ep.inbound, |es| - 1);
      AskedSplits(ep, if (ep.inbound + 1) % 5 == 0 then 1 else 0, Fifths(ep.inbound + 1, |es| - 1));
    }
  }

  lemma ReceivedFirst(ep: Endpoint, e: Element, rest: seq<Element>)
    requires !ep.closed && e.Stanza?
    ensures Receive(ep, e).next == ep.(inbound := ep.inbound + 1)
    ensures Requests(Receive(ep, e).pushed + rest) ==
            Asked(ep, if (ep.inbound + 1) % 5 == 0 then 1 else 0) + Requests(rest)
  {
    ReceiveAsks(ep, e);
    RequestsAppend(Receive(ep, e).pushed, rest);
  }

  lemma AskedSplits(ep: Endpoint, n: nat, m: nat)
    ensures Asked(ep, n + m) == Asked(ep, n) + Asked(ep, m)
    ensures Asked(ep, m) == Asked(ep.(inbound := ep.inbound + 1), m)
  {
  }

  lemma FifthFirst(n: nat, k: nat)
    ensures Fifths(n, k + 1) == (if (n + 1) % 5 == 0 then 1 else 0) + Fifths(n + 1, k)
  {
    if (n + 1) % 5 == 0 {
      assert (n + 1) / 5 == n / 5 + 1;
    } else {
      assert (n + 1) / 5 == n / 5;
    }
  }

  /** What `send` does: it counts and queues a stanza, pushes the element, and asks after it on a fifth count. */
  lemma SendAsks(ep: Endpoint, e: Element)
    ensures var eff := Send(ep, e);
      var count := ep.outbound + if e.Stanza? then 1 else 0;
      if ep.closed then eff == Effect(ep, [], [], true)
      else
        && eff.next == ep.(outbound := count, unacked := if e.Stanza? then ep.unacked + [e] else ep.unacked)
        && eff.pushed == (if ep.smEnabled && count % 5 == 0 then [e, R] else [e])
        && eff.emitted == [] && !eff.threw
  {
  }

  /** A stream that has sent elements, one after the other. */
  function Sent(ep: Endpoint, es: seq<Element>): Endpoint
    decreases |es|
  {
    if es == [] then ep else Sent(Send(ep, es[0]).next, es[1..])
  }

  /** What it has pushed. */
  function Pushed(ep: Endpoint, es: seq<Element>): seq<Element>
    decreases |es|
  {
    if es == [] then [] else Send(ep, es[0]).pushed + Pushed(Send(ep, es[0]).next, es[1..])
  }

  lemma {:induction false} AllSent(ep: Endpoint, es: seq<Element>)
    requires !ep.closed && forall e | e in es :: e.Stanza?
    ensures Sent(ep, es) == ep.(outbound := ep.outbound + |es|, unacked := ep.unacked + es)
    decreases |es|
  {
    if es == [] {
      assert ep.unacked + es == ep.unacked;
    } else {
      SendAsks(ep, es[0]);
      AllSent(Send(ep, es[0]).next, es[1..]);
      assert ep.unacked + [es[0]] + es[1..] == ep.unacked + es;
    }
  }

  lemma {:induction false} StanzasSent(ep: Endpoint, es: seq<Element>)
    requires !ep.closed && forall e | e in es :: e.Stanza?
    ensures Stanzas(Pushed(ep, es)) == es
    decreases |es|
  {
    if es == [] {
    } else {
      var first, rest := Send(ep, es[0]).pushed, Pushed(Send(ep, es[0]).next, es[1..]);
      SendAsks(ep, es[0]);
      StanzasSent(Send(ep, es[0]).next, es[1..]);
      OneStanzaPushed(es[0], ep.smEnabled && (ep.outbound + 1) % 5 == 0);
      StanzasAppend(first, rest);
    }
  }

  lemma {:induction false} SentCounted(ep: Endpoint, es: seq<Element>)
    requires !ep.closed && forall e | e in es :: e.Stanza?
    ensures Requests(Pushed(ep, es)) == if ep.smEnabled then Fifths(ep.outbound, |es|) else 0
    decreases |es|
  {
    if es == [] {
    } else {
      var first, rest := Send(ep, es[0]).pushed, Pushed(Send(ep, es[0]).next, es[1..]);
      SendAsks(ep, es[0]);
      SentCounted(Send(ep, es[0]).next, es[1..]);
      OneStanzaPushed(es[0], ep.smEnabled && (ep.outbound + 1) % 5 == 0);
      RequestsAppend(first, rest);
      FifthFirst(ep.outbound, |es| - 1);
    }
  }

  /** Of the stanzas sent with stream management on, every fifth is followed by a request; all are counted and queued. */
  lemma RequestsSent(ep: Endpoint, es: seq<Element>)
    requires !ep.closed && forall e | e in es :: e.Stanza?
    ensures Sent(ep, es) == ep.(outbound := ep.outbound + |es|, unacked := ep.unacked + es)
    ensures Stanzas(Pushed(ep, es)) == es
    ensures Requests(Pushed(ep, es)) == if ep.smEnabled then Fifths(ep.outbound, |es|) else 0
  {
    AllSent(ep, es);
    StanzasSent(ep, es);
    SentCounted(ep, es);
  }

  lemma OneStanzaPushed(e: Element, asked: bool)
    requires e.Stanza?
    ensures var pushed := if asked then [e, R] else [e];
      Stanzas(pushed) == [e] && Requests(pushed) == if asked then 1 else 0
  {
    assert [e, R][1..] == [R] && [e][1..] == [] && [R][1..] == [];
  }

  /** A closed stream pushes nothing, whatever comes in, and throws exactly where it would have pushed. */
  lemma ClosedIsSilent(ep: Endpoint, e: Element)
    requires ep.closed
    ensures var eff := Receive(ep, e);
      && eff.pushed == [] && eff.next.closed
      && (eff.threw <==> Receive(ep.(closed := false), e).pushed != [])
  {
  }

  /** An open one never throws, and stays open. */
  lemma OpenNeverThrows(ep: Endpoint, e: Element)
    requires !ep.closed
    ensures !Receive(ep, e).threw && !Receive(ep, e).next.closed
  {
  }
}
