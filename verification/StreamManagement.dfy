/**
 * XEP-0198 bookkeeping of one end of a stream (src/core/xmpp-stream.ts).
 *
 * Every operation is specified as a function from one endpoint state to the next; the
 * class in XmppStream.dfy changes its fields in place and is proved to do exactly that.
 */
module StreamManagement {
  import opened Sequences
  import opened Wrappers

  const ACK_INTERVAL := 5

  /** What travels on a stream, after XML parsing. `h` is any integer a peer may write. */
  datatype Element =
    | Stanza(payload: string)   // <message/>, <presence/> and <iq/>: the counted elements
    | Other(payload: string)    // any other element outside the stream management namespace
    | Enable(resume: bool)
    | Enabled(id: string, resume: bool)
    | R
    | A(h: int)
    | Resume(previd: string, h: int)
    | Resumed(previd: string, h: int)
    | UnknownSm(name: string)   // any other element of the stream management namespace

  /** The fields of a stream that stream management reads and writes. */
  datatype Endpoint = Endpoint(
    closed: bool,
    smEnabled: bool,
    smResumable: bool,
    sessionId: string,
    inbound: nat,
    outbound: nat,
    unacked: seq<Element>)

  /** The outcome of one call: new fields, bytes pushed to the peer, events, and whether it threw. */
  datatype Effect = Effect(next: Endpoint, pushed: seq<Element>, emitted: seq<Element>, threw: bool)

  function NewEndpoint(id: string): Endpoint {
    Endpoint(false, false, false, id, 0, 0, [])
  }

  predicate IsSm(e: Element) {
    !e.Stanza? && !e.Other?
  }

  /** The counted elements of a sequence, in order. */
  function Stanzas(es: seq<Element>): seq<Element> {
    if es == [] then [] else (if es[0].Stanza? then [es[0]] else []) + Stanzas(es[1..])
  }

  predicate RequestDue(ep: Endpoint) {
    ep.smEnabled && ep.outbound % ACK_INTERVAL == 0
  }

  /** `send`: counts and queues a stanza, pushes it, and asks for an ack on every fifth count. */
  function Send(ep: Endpoint, e: Element): Effect {
    if ep.closed then Effect(ep, [], [], true)
    else
      var next := if e.Stanza? then ep.(outbound := ep.outbound + 1, unacked := ep.unacked + [e]) else ep;
      Effect(next, [e] + (if RequestDue(next) then [R] else []), [], false)
  }

  /** What an `<a h='…'/>` leaves in the queue. */
  function Trim(ep: Endpoint, h: int): Endpoint {
    var keep := ep.outbound - h;
    if 0 <= keep < |ep.unacked| then ep.(unacked := ep.unacked[|ep.unacked| - keep..]) else ep
  }

  /** `computeStanzasToResend`. */
  function Resend(ep: Endpoint, h: int): seq<Element> {
    if |ep.unacked| == 0 || h >= ep.outbound then []
    else
      var sentBeforeQueue := ep.outbound - |ep.unacked|;
      var wanted := h - sentBeforeQueue;
      var start := if wanted < 0 then 0 else if wanted > |ep.unacked| then |ep.unacked| else wanted;
      ep.unacked[start..]
  }

  /** `handleSmElement`. */
  function HandleSm(ep: Endpoint, e: Element): Effect
    requires IsSm(e)
  {
    match e
    case Enable(resume) =>
      Send(ep.(smEnabled := true, smResumable := resume), Enabled(ep.sessionId, resume))
    case Enabled(id, resume) =>
      Effect(ep.(smEnabled := true, smResumable := resume, sessionId := if id != "" then id else ep.sessionId),
             [], [], false)
    case R => Send(ep, A(ep.inbound))
    case A(h) => Effect(Trim(ep, h), [], [], false)
    case Resume(_, h) =>
      var answer := Send(ep, Resumed(ep.sessionId, ep.inbound));
      if answer.threw then answer else answer.(pushed := answer.pushed + Resend(ep, h))
    case Resumed(_, h) =>
      if ep.closed && Resend(ep, h) != [] then Effect(ep, [], [], true) else Effect(ep, Resend(ep, h), [], false)
    case UnknownSm(_) => Effect(ep, [], [], false)
  }

  /** The parser's `element` handler: counts an inbound stanza and emits what is not stream management. */
  function Receive(ep: Endpoint, e: Element): Effect {
    if IsSm(e) then HandleSm(ep, e)
    else if e.Stanza? then
      var counted := ep.(inbound := ep.inbound + 1);
      if counted.smEnabled && counted.inbound % ACK_INTERVAL == 0 then
        var asked := Send(counted, R);
        if asked.threw then asked else asked.(emitted := [e])
      else Effect(counted, [], [e], false)
    else Effect(ep, [], [e], false)
  }

  /** A saved session (`StreamSession` of src/core/xmpp-reliability.ts). */
  datatype Session = Session(sessionId: string, outbound: nat, inbound: nat, unacked: seq<Element>)

  /** What the `close` handler saves: nothing unless the session was negotiated as resumable. */
  function SaveOnClose(ep: Endpoint): Option<Session> {
    if ep.smEnabled && ep.smResumable then Some(Session(ep.sessionId, ep.outbound, ep.inbound, ep.unacked)) else None
  }

  /** The dialling side of `registerStream` on a new stream: restore and `resume`, or `enable`. */
  function Dial(saved: Option<Session>, freshId: string): Effect {
    match saved
    case Some(s) =>
      Send(NewEndpoint(s.sessionId).(outbound := s.outbound, inbound := s.inbound, unacked := s.unacked),
           Resume(s.sessionId, s.inbound))
    case None => Send(NewEndpoint(freshId), Enable(true))
  }

  // ---------------------------------------------------------------- the log of sent stanzas

  /** Number of sent stanzas that have left the queue. */
  function Base(ep: Endpoint): int {
    ep.outbound - |ep.unacked|
  }

  function Max(x: int, y: int): int {
    if x < y then y else x
  }

  function Min(x: int, y: int): int {
    if x < y then x else y
  }

  /** The endpoint has sent exactly `sent`, and its queue is the suffix from `Base` on. */
  ghost predicate Tracks(ep: Endpoint, sent: seq<Element>) {
    && ep.outbound == |sent|
    && |ep.unacked| <= |sent|
    && ep.unacked == sent[Base(ep)..]
    && (forall i | 0 <= i < |sent| :: sent[i].Stanza?)
  }

  /** An ack moves the base to `max(base, h)` exactly when it does not exceed what was sent. */
  lemma TrimMovesBase(ep: Endpoint, sent: seq<Element>, h: int)
    requires Tracks(ep, sent)
    ensures Tracks(Trim(ep, h), sent)
    ensures Base(Trim(ep, h)) == if h <= |sent| then Max(Base(ep), h) else Base(ep)
    ensures Trim(ep, h) == ep.(unacked := Trim(ep, h).unacked)
  {
    var keep := ep.outbound - h;
    if 0 <= keep < |ep.unacked| {
      assert ep.unacked[|ep.unacked| - keep..] == sent[h..];
    }
  }

  /** What a resumption replays is the log from the first stanza the peer may be missing. */
  lemma ResendIsLogSuffix(ep: Endpoint, sent: seq<Element>, h: int)
    requires Tracks(ep, sent)
    ensures Resend(ep, h) == sent[Min(Max(Base(ep), h), |sent|)..]
  {
    if |ep.unacked| != 0 && h < ep.outbound && Base(ep) <= h {
      assert ep.unacked[h - Base(ep)..] == sent[h..];
    }
  }

  /** Sending extends the log by what was sent, if it counts; the base stays. */
  lemma SendExtendsLog(ep: Endpoint, sent: seq<Element>, e: Element)
    requires Tracks(ep, sent) && !ep.closed
    ensures var eff := Send(ep, e);
      && Tracks(eff.next, sent + Stanzas([e]))
      && Base(eff.next) == Base(ep)
      && Stanzas(eff.pushed) == Stanzas([e])
  {
    var eff := Send(ep, e);
    assert eff.pushed == [e] + eff.pushed[1..] && Stanzas(eff.pushed[1..]) == [];
    StanzasAppend([e], eff.pushed[1..]);
    if e.Stanza? {
      assert (sent + [e])[Base(ep)..] == sent[Base(ep)..] + [e];
    }
  }

  /** No inbound element makes an endpoint send a new stanza: its log is what its own `send` calls made it. */
  lemma ReceiveKeepsLog(ep: Endpoint, sent: seq<Element>, e: Element)
    requires Tracks(ep, sent)
    ensures Tracks(Receive(ep, e).next, sent)
    ensures Base(ep) <= Base(Receive(ep, e).next)
    ensures !e.A? ==> Receive(ep, e).next.unacked == ep.unacked
  {
    if e.A? {
      TrimMovesBase(ep, sent, e.h);
    }
  }

  /** Saving at close and restoring at the next dial keeps the log, so a replay is the same suffix. */
  lemma RestoreKeepsLog(ep: Endpoint, sent: seq<Element>, freshId: string, h: int)
    requires Tracks(ep, sent)
    requires SaveOnClose(ep).Some?
    ensures var next := Dial(SaveOnClose(ep), freshId).next;
      && Tracks(next, sent) && Base(next) == Base(ep) && next.inbound == ep.inbound && !next.smEnabled
      && Resend(next, h) == sent[Min(Max(Base(ep), h), |sent|)..]
  {
    var next := Dial(SaveOnClose(ep), freshId).next;
    ResendIsLogSuffix(next, sent, h);
  }

  lemma {:induction false} StanzasAppend(xs: seq<Element>, ys: seq<Element>)
    ensures Stanzas(xs + ys) == Stanzas(xs) + Stanzas(ys)
  {
    if xs == [] {
      assert xs + ys == ys;
    } else {
      assert (xs + ys)[1..] == xs[1..] + ys;
      StanzasAppend(xs[1..], ys);
      Associates(if xs[0].Stanza? then [xs[0]] else [], Stanzas(xs[1..]), Stanzas(ys));
    }
  }

  lemma {:induction false} StanzasOfStanzas(xs: seq<Element>)
    requires forall i | 0 <= i < |xs| :: xs[i].Stanza?
    ensures Stanzas(xs) == xs
  {
    if xs == [] {
    } else {
      StanzasOfStanzas(xs[1..]);
    }
  }

  // ---------------------------------------------------------------- what the two ends agree on

  /** After `enable` and its answer both ends have it on, resumable exactly as was asked, and share the session id. */
  lemma NegotiationAgrees(a: Endpoint, b: Endpoint, resume: bool)
    requires !a.closed && !b.closed
    ensures var answered := Receive(b, Enable(resume));
      && answered.pushed != [] && answered.pushed[0] == Enabled(b.sessionId, resume)
      && (forall x | x in answered.pushed[1..] :: x == R)
      && answered.next == b.(smEnabled := true, smResumable := resume)
      && Receive(a, answered.pushed[0]).pushed == []
      && Receive(a, answered.pushed[0]).next ==
         a.(smEnabled := true, smResumable := resume, sessionId := if b.sessionId == "" then a.sessionId else b.sessionId)
  {
  }

  /** Either end replays its own log from where the other says it is: the answerer behind its report, the dialler after it. */
  lemma BothReplay(ep: Endpoint, sent: seq<Element>, id: string, h: int)
    requires Tracks(ep, sent) && !ep.closed
    ensures var answered := Receive(ep, Resume(id, h));
      && answered.next == ep && answered.pushed != [] && answered.pushed[0] == Resumed(ep.sessionId, ep.inbound)
      && Stanzas(answered.pushed) == sent[Min(Max(Base(ep), h), |sent|)..]
    ensures var reported := Receive(ep, Resumed(id, h));
      reported.next == ep && reported.pushed == sent[Min(Max(Base(ep), h), |sent|)..]
  {
    var asked := if RequestDue(ep) then [R] else [];
    var first := [Resumed(ep.sessionId, ep.inbound)] + asked;
    ResendIsLogSuffix(ep, sent, h);
    StanzasOfStanzas(Resend(ep, h));
    assert first[1..] == asked && Stanzas(asked) == [] && Stanzas(first) == [];
    StanzasAppend(first, Resend(ep, h));
    assert Receive(ep, Resume(id, h)).pushed == first + Resend(ep, h);
  }
}
