/**
 * Whole runs of a dialler `a` and an answerer `b` over links that can be cut at any
 * point (src/core/xmpp-stream.ts with `registerStream` of src/core/xmpp-node.ts).
 *
 * The dialler saves its session when a link closes and restores it on the next dial. The
 * answerer of the program restarts its counters; XEP-0198 asks it to keep them. A redial
 * may do either, so that both behaviours are covered.
 */
module Resumption {
  import opened Sequences
  import opened Wrappers
  import opened StreamManagement
  import opened StreamPair

  /**
   * Where the current stream management session stands. `r` is how many stanzas the
   * answerer had when the link was cut, `n0` how many had been sent by then, `h` what the
   * answerer reports in `resumed`, `n1` how many had been sent when that report was
   * handled, and `lo` the position in the log from which the dialler replayed.
   */
  datatype Phase =
    | Idle
    | Live
    | Broken(r: nat)
    | Resuming(r: nat, n0: nat, h: nat)
    | Replayed(r: nat, n0: nat, n1: nat, lo: nat)

  /** `sent` and `got` are the logs of the current session, in the dialler-to-answerer direction. */
  datatype System = System(net: Net, saved: Option<Session>, sent: seq<Element>, got: seq<Element>, phase: Phase)

  datatype Step =
    | SendA(e: Element)
    | SendB(e: Element)
    | DeliverToB
    | DeliverToA
    | StrayAck(h: int)
    | Cut
    | Redial(answererKeepsCounters: bool, idA: string, idB: string)

  predicate Up(s: System) {
    s.phase.Live? || s.phase.Resuming? || s.phase.Replayed?
  }

  /** How many leading stanzas of the log the answerer surely has. */
  function Received(s: System): nat {
    match s.phase
    case Broken(r) => r
    case Resuming(r, _, _) => r
    case Replayed(r, _, _, _) => r
    case _ => |s.got|
  }

  const INITIAL := System(Net(NewEndpoint(""), NewEndpoint(""), [], []), None, [], [], Idle)

  /** One step; a step that is not possible in `s` leaves it unchanged. */
  function Next(s: System, step: Step): System {
    match step
    case SendA(e) =>
      if Up(s) && !IsSm(e) then
        var eff := Send(s.net.a, e);
        s.(net := s.net.(a := eff.next, ab := s.net.ab + eff.pushed), sent := s.sent + Stanzas([e]))
      else s
    case SendB(e) =>
      if Up(s) && !IsSm(e) then
        var eff := Send(s.net.b, e);
        s.(net := s.net.(b := eff.next, ba := s.net.ba + eff.pushed))
      else s
    case DeliverToB =>
      if Up(s) && s.net.ab != [] then
        s.(net := ToB(s.net), got := s.got + Stanzas(Receive(s.net.b, s.net.ab[0]).emitted))
      else s
    case DeliverToA =>
      if Up(s) && s.net.ba != [] then
        s.(net := ToA(s.net), phase := AfterA(s, s.net.ba[0]))
      else s
    case StrayAck(h) =>
      // a delayed, stale, repeated or over-large ack, at any moment
      if Up(s) && (h <= Received(s) || h > s.net.a.outbound) then
        s.(net := s.net.(a := Receive(s.net.a, A(h)).next))
      else s
    case Cut =>
      if Up(s) then
        var saved := SaveOnClose(s.net.a);
        System(Net(s.net.a.(closed := true), s.net.b.(closed := true), [], []), saved, s.sent, s.got,
               if saved.Some? then Broken(|s.got|) else Idle)
      else s
    case Redial(keep, idA, idB) =>
      if Up(s) then s
      else
        var dial := Dial(s.saved, idA);
        var resuming := s.saved.Some?;
        var b := if resuming && keep then s.net.b.(closed := false) else NewEndpoint(idB);
        System(Net(dial.next, b, dial.pushed, []), None,
               if resuming then s.sent else [], if resuming then s.got else [],
               if s.phase.Broken? then Resuming(s.phase.r, |s.sent|, b.inbound) else Live)
  }

  function AfterA(s: System, e: Element): Phase {
    if s.phase.Resuming? && e.Resumed? then
      Replayed(s.phase.r, s.phase.n0, |s.sent|, Min(Max(0, Max(Base(s.net.a), e.h)), |s.sent|))
    else s.phase
  }

  function Run(s: System, steps: seq<Step>): System
    decreases |steps|
  {
    if steps == [] then s else Run(Next(s, steps[0]), steps[1..])
  }

  // ---------------------------------------------------------------- the invariant

  /** While the link is up, both ends are open and the dialler's queue is a suffix of its log. */
  ghost predicate Linked(s: System) {
    && !s.net.a.closed && !s.net.b.closed
    && s.saved.None?
    && Tracks(s.net.a, s.sent)
    && Base(s.net.a) <= Received(s)
    && QueueOfStanzas(s.net.b)
  }

  ghost predicate QueueOfStanzas(ep: Endpoint) {
    forall e | e in ep.unacked :: e.Stanza?
  }

  ghost predicate NoResumption(es: seq<Element>) {
    forall e | e in es :: !e.Resume? && !e.Resumed?
  }

  ghost predicate AcksUpTo(es: seq<Element>, h: nat) {
    forall e | e in es :: e.A? ==> e.h <= h
  }

  ghost predicate LiveInv(s: System)
    requires s.phase.Live?
  {
    && Linked(s)
    && s.net.b.inbound == |s.got|
    && s.got + Stanzas(s.net.ab) == s.sent
    && NoResumption(s.net.ab) && NoResumption(s.net.ba)
    && AcksUpTo(s.net.ba, |s.got|)
  }

  ghost predicate BrokenInv(s: System)
    requires s.phase.Broken?
  {
    var r := s.phase.r;
    && s.saved.Some?
    && QueueOfStanzas(s.net.b)
    && s.net.b.inbound == r <= |s.sent|
    && s.got == s.sent[..r]
    && Tracks(Dial(s.saved, "").next, s.sent)
    && Base(Dial(s.saved, "").next) <= r
  }

  /** In a resumed link the dialler sends nothing of stream management but acks. */
  ghost predicate Plain(es: seq<Element>) {
    forall e | e in es :: e.Stanza? || e.Other? || e.A?
  }

  /** And the answerer sends it nothing but requests. */
  ghost predicate Calm(es: seq<Element>) {
    forall e | e in es :: e.Stanza? || e.Other? || e.R?
  }

  /** Exactly one `resumed` is in flight, and it reports `h`. */
  ghost predicate ReportInFlight(es: seq<Element>, h: nat)
    decreases |es|
  {
    && es != []
    && if es[0].Resumed? then es[0].h == h && Calm(es[1..])
       else Calm([es[0]]) && ReportInFlight(es[1..], h)
  }

  ghost predicate ResumingInv(s: System)
    requires s.phase.Resuming?
  {
    var Resuming(r, n0, h) := s.phase;
    && Linked(s)
    && !s.net.a.smEnabled
    && r <= n0 <= |s.sent| && r <= |s.got|
    && (h == 0 || h == r)
    && s.got + Stanzas(s.net.ab) == s.sent[..r] + s.sent[n0..]
    && if s.net.ab != [] && s.net.ab[0].Resume? then
         && Plain(s.net.ab[1..]) && Calm(s.net.ba)
         && s.got == s.sent[..r] && s.net.b.inbound == h
       else
         Plain(s.net.ab) && ReportInFlight(s.net.ba, h)
  }

  ghost predicate ReplayedInv(s: System)
    requires s.phase.Replayed?
  {
    var Replayed(r, n0, n1, lo) := s.phase;
    && Linked(s)
    && !s.net.a.smEnabled
    && lo <= r <= n0 <= n1 <= |s.sent| && r <= |s.got|
    && s.got + Stanzas(s.net.ab) == s.sent[..r] + s.sent[n0..n1] + s.sent[lo..]
    && Plain(s.net.ab) && Calm(s.net.ba)
  }

  ghost predicate Inv(s: System) {
    match s.phase
    case Idle => s.saved.None?
    case Live => LiveInv(s)
    case Broken(_) => BrokenInv(s)
    case Resuming(_, _, _) => ResumingInv(s)
    case Replayed(_, _, _, _) => ReplayedInv(s)
  }

  // ---------------------------------------------------------------- every step keeps it

  lemma SplitHead(es: seq<Element>)
    requires es != []
    ensures Stanzas(es) == Stanzas([es[0]]) + Stanzas(es[1..])
  {
    assert es == [es[0]] + es[1..];
    StanzasAppend([es[0]], es[1..]);
  }

  /** What an open endpoint does with an element that is no part of a resumption. */
  lemma ReceiveOutput(ep: Endpoint, e: Element)
    requires !ep.closed && !e.Resume? && !e.Resumed?
    ensures var eff := Receive(ep, e);
      && !eff.threw && !eff.next.closed
      && Stanzas(eff.emitted) == Stanzas([e])
      && eff.next.inbound == ep.inbound + |Stanzas([e])|
      && Stanzas(eff.pushed) == []
      && (QueueOfStanzas(ep) ==> QueueOfStanzas(eff.next))
      && NoResumption(eff.pushed)
      && AcksUpTo(eff.pushed, ep.inbound)
  {
    NoStanzas(Receive(ep, e).pushed);
  }

  /** The same in a resumed link, where neither `enable` nor `enabled` travels. */
  lemma ResumedOutput(ep: Endpoint, e: Element)
    requires !ep.closed && (e.Stanza? || e.Other? || e.A? || e.R?)
    ensures var eff := Receive(ep, e);
      && eff.next.smEnabled == ep.smEnabled
      && (!e.R? ==> Calm(eff.pushed))
      && (!ep.smEnabled ==> Plain(eff.pushed))
  {
  }

  lemma NoStanzas(es: seq<Element>)
    requires forall i | 0 <= i < |es| :: !es[i].Stanza?
    ensures Stanzas(es) == []
  {
  }

  /** The dialler sends: the log and what is in flight grow alike. */
  lemma SendAStep(s: System, e: Element)
    requires Up(s) && Linked(s) && !IsSm(e)
    ensures var t := Next(s, SendA(e));
      var eff := Send(s.net.a, e);
      && t == s.(net := s.net.(a := eff.next, ab := s.net.ab + eff.pushed), sent := s.sent + Stanzas([e]))
      && t.got + Stanzas(t.net.ab) == s.got + Stanzas(s.net.ab) + Stanzas([e])
      && !eff.next.closed && Tracks(eff.next, t.sent) && Base(eff.next) == Base(s.net.a)
      && NoResumption(eff.pushed)
      && eff.next.smEnabled == s.net.a.smEnabled
      && (!s.net.a.smEnabled ==> eff.pushed == [e])
  {
    var pushed := Send(s.net.a, e).pushed;
    SendExtendsLog(s.net.a, s.sent, e);
    StanzasAppend(s.net.ab, pushed);
    assert s.got + (Stanzas(s.net.ab) + Stanzas([e])) == s.got + Stanzas(s.net.ab) + Stanzas([e]);
  }

  /** A delivery to the answerer moves the oldest stanza in flight to what it got. */
  lemma ToBStep(s: System)
    requires Up(s) && Linked(s) && s.net.ab != [] && !s.net.ab[0].Resume? && !s.net.ab[0].Resumed?
    ensures var t := Next(s, DeliverToB);
      var eff := Receive(s.net.b, s.net.ab[0]);
      && t == s.(net := s.net.(b := eff.next, ab := s.net.ab[1..], ba := s.net.ba + eff.pushed), got := t.got)
      && |t.got| == |s.got| + |Stanzas([s.net.ab[0]])|
      && t.got + Stanzas(t.net.ab) == s.got + Stanzas(s.net.ab)
  {
    SplitHead(s.net.ab);
    ReceiveOutput(s.net.b, s.net.ab[0]);
    var x, rest := Stanzas([s.net.ab[0]]), Stanzas(s.net.ab[1..]);
    assert s.got + (x + rest) == s.got + x + rest;
  }

  /** A delivery to the dialler, other than of `resumed`, sends no stanza. */
  lemma ToAStep(s: System)
    requires Up(s) && Linked(s) && s.net.ba != [] && !s.net.ba[0].Resume? && !s.net.ba[0].Resumed?
    ensures var t := Next(s, DeliverToA);
      var eff := Receive(s.net.a, s.net.ba[0]);
      && t == s.(net := s.net.(a := eff.next, ba := s.net.ba[1..], ab := s.net.ab + eff.pushed))
      && t.got + Stanzas(t.net.ab) == s.got + Stanzas(s.net.ab)
      && Tracks(eff.next, s.sent)
      && Base(eff.next) == if s.net.ba[0].A? && s.net.ba[0].h <= |s.sent| then Max(Base(s.net.a), s.net.ba[0].h) else Base(s.net.a)
  {
    ReceiveOutput(s.net.a, s.net.ba[0]);
    ReceiveKeepsLog(s.net.a, s.sent, s.net.ba[0]);
    StanzasAppend(s.net.ab, Receive(s.net.a, s.net.ba[0]).pushed);
    if s.net.ba[0].A? {
      TrimMovesBase(s.net.a, s.sent, s.net.ba[0].h);
    }
  }

  /** What an open endpoint does when its application sends. */
  lemma SendOutput(ep: Endpoint, e: Element)
    requires !ep.closed && !IsSm(e) && QueueOfStanzas(ep)
    ensures var eff := Send(ep, e);
      && !eff.next.closed && QueueOfStanzas(eff.next)
      && eff.next.inbound == ep.inbound && eff.next.smEnabled == ep.smEnabled
      && NoResumption(eff.pushed) && AcksUpTo(eff.pushed, 0) && Calm(eff.pushed)
      && (!ep.smEnabled ==> Plain(eff.pushed))
  {
  }

  lemma LiveSendA(s: System, e: Element)
    requires s.phase.Live? && LiveInv(s) && !IsSm(e)
    ensures LiveInv(Next(s, SendA(e)))
  {
    SendAStep(s, e);
  }

  lemma LiveSendB(s: System, e: Element)
    requires s.phase.Live? && LiveInv(s) && !IsSm(e)
    ensures LiveInv(Next(s, SendB(e)))
  {
    SendOutput(s.net.b, e);
  }

  lemma LiveDeliverToB(s: System)
    requires s.phase.Live? && LiveInv(s) && s.net.ab != []
    ensures LiveInv(Next(s, DeliverToB))
  {
    ToBStep(s);
    ReceiveOutput(s.net.b, s.net.ab[0]);
  }

  lemma LiveDeliverToA(s: System)
    requires s.phase.Live? && LiveInv(s) && s.net.ba != []
    ensures LiveInv(Next(s, DeliverToA))
  {
    ToAStep(s);
    ReceiveOutput(s.net.a, s.net.ba[0]);
  }

  /** An ack that claims no more than the answerer has, or more than was sent, is harmless. */
  lemma AckStep(s: System, h: int)
    requires Up(s) && Inv(s)
    ensures Next(s, StrayAck(h)).phase == s.phase && Inv(Next(s, StrayAck(h)))
  {
    TrimMovesBase(s.net.a, s.sent, h);
  }

  lemma ResumingSendA(s: System, e: Element)
    requires s.phase.Resuming? && ResumingInv(s) && !IsSm(e)
    ensures ResumingInv(Next(s, SendA(e)))
  {
    SendAStep(s, e);
    var ab := s.net.ab;
    LogGrows(s.got + Stanzas(ab), s.sent, s.phase.r, s.phase.n0, Stanzas([e]));
    assert ab != [] ==> (ab + [e])[1..] == ab[1..] + [e];
  }

  lemma LogGrows(log: seq<Element>, sent: seq<Element>, r: nat, n0: nat, more: seq<Element>)
    requires r <= n0 <= |sent|
    requires log == sent[..r] + sent[n0..]
    ensures log + more == (sent + more)[..r] + (sent + more)[n0..]
    ensures (sent + more)[..r] == sent[..r]
  {
  }

  lemma ResumingSendB(s: System, e: Element)
    requires s.phase.Resuming? && ResumingInv(s) && !IsSm(e)
    ensures ResumingInv(Next(s, SendB(e)))
  {
    SendOutput(s.net.b, e);
    if ReportInFlight(s.net.ba, s.phase.h) {
      ReportStays(s.net.ba, s.phase.h, Send(s.net.b, e).pushed);
    }
  }

  lemma ResumingDeliverToB(s: System)
    requires s.phase.Resuming? && ResumingInv(s) && s.net.ab != []
    ensures ResumingInv(Next(s, DeliverToB))
  {
    if s.net.ab[0].Resume? {
      DeliverResume(s);
    } else {
      ToBStep(s);
      ReceiveOutput(s.net.b, s.net.ab[0]);
      assert s.net.ab[0] in s.net.ab;
      ResumedOutput(s.net.b, s.net.ab[0]);
      ReportStays(s.net.ba, s.phase.h, Receive(s.net.b, s.net.ab[0]).pushed);
    }
  }

  lemma {:induction false} ReportStays(es: seq<Element>, h: nat, more: seq<Element>)
    requires Calm(more) && ReportInFlight(es, h)
    ensures ReportInFlight(es + more, h)
    decreases |es|
  {
    assert (es + more)[1..] == es[1..] + more;
    if es[0].Resumed? {
    } else {
      ReportStays(es[1..], h, more);
    }
  }

  lemma {:induction false} ReportAdded(es: seq<Element>, report: Element, more: seq<Element>)
    requires Calm(es) && report.Resumed? && report.h >= 0 && Calm(more)
    ensures ReportInFlight(es + [report] + more, report.h)
    decreases |es|
  {
    var all := es + [report] + more;
    if es == [] {
      assert all[1..] == more;
    } else {
      assert es[0] in es && all[0] == es[0];
      assert all[1..] == es[1..] + [report] + more;
      ReportAdded(es[1..], report, more);
    }
  }

  /** The answerer handles `resume`: it reports its counter and replays its own queue, which is all stanzas. */
  lemma DeliverResume(s: System)
    requires s.phase.Resuming? && ResumingInv(s) && s.net.ab != [] && s.net.ab[0].Resume?
    ensures ResumingInv(Next(s, DeliverToB))
  {
    var n := s.net;
    var pushed := Receive(n.b, n.ab[0]).pushed;
    ResumeOutput(n.b, n.ab[0]);
    assert Next(s, DeliverToB) == s.(net := n.(ab := n.ab[1..], ba := n.ba + pushed));
    ReportSent(s, pushed);
  }

  lemma ReportSent(s: System, pushed: seq<Element>)
    requires s.phase.Resuming? && ResumingInv(s) && s.net.ab != [] && s.net.ab[0].Resume?
    requires pushed != [] && pushed[0] == Resumed(s.net.b.sessionId, s.net.b.inbound) && Calm(pushed[1..])
    ensures ResumingInv(s.(net := s.net.(ab := s.net.ab[1..], ba := s.net.ba + pushed)))
  {
    SplitHead(s.net.ab);
    assert s.net.ba + pushed == s.net.ba + [pushed[0]] + pushed[1..];
    ReportAdded(s.net.ba, pushed[0], pushed[1..]);
  }

  lemma ResumeOutput(ep: Endpoint, e: Element)
    requires !ep.closed && e.Resume? && QueueOfStanzas(ep)
    ensures var eff := Receive(ep, e);
      && eff.next == ep && eff.emitted == []
      && eff.pushed != [] && eff.pushed[0] == Resumed(ep.sessionId, ep.inbound) && Calm(eff.pushed[1..])
  {
    var asked := if RequestDue(ep) then [R] else [];
    assert Receive(ep, e).pushed[1..] == asked + Resend(ep, e.h);
  }

  /** What is known when the report is the next element for the dialler. */
  lemma ReportHead(s: System)
    requires s.phase.Resuming? && ResumingInv(s) && s.net.ba != [] && s.net.ba[0].Resumed?
    ensures Plain(s.net.ab) && s.net.ba[0].h == s.phase.h && Calm(s.net.ba[1..])
  {
    assert s.net.ba[0] in s.net.ba;
  }

  lemma ReplayLog(got: seq<Element>, ab: seq<Element>, log: seq<Element>, more: seq<Element>)
    requires forall i | 0 <= i < |more| :: more[i].Stanza?
    requires got + Stanzas(ab) == log
    ensures got + Stanzas(ab + more) == log + more
  {
    StanzasAppend(ab, more);
    StanzasOfStanzas(more);
    Associates(got, Stanzas(ab), more);
  }

  lemma ResumedEffect(ep: Endpoint, sent: seq<Element>, e: Element)
    requires Tracks(ep, sent) && !ep.closed && e.Resumed?
    ensures Receive(ep, e) == Effect(ep, sent[Min(Max(Base(ep), e.h), |sent|)..], [], false)
  {
    ResendIsLogSuffix(ep, sent, e.h);
  }

  lemma ReplayStep(s: System)
    requires s.phase.Resuming? && ResumingInv(s) && s.net.ba != [] && s.net.ba[0].Resumed?
    ensures var lo := Max(Base(s.net.a), s.phase.h);
      && lo <= s.phase.r
      && Next(s, DeliverToA) == s.(net := s.net.(ba := s.net.ba[1..], ab := s.net.ab + s.sent[lo..]),
                                   phase := Replayed(s.phase.r, s.phase.n0, |s.sent|, lo))
  {
    ReportHead(s);
    ResumedEffect(s.net.a, s.sent, s.net.ba[0]);
    var lo := Max(Base(s.net.a), s.phase.h);
    assert 0 <= lo <= s.phase.r <= |s.sent|;
  }

  /** The dialler handles `resumed`: it replays its log from the first stanza the answerer may be missing. */
  lemma DeliverResumed(s: System)
    requires s.phase.Resuming? && ResumingInv(s) && s.net.ba != [] && s.net.ba[0].Resumed?
    ensures var t := Next(s, DeliverToA);
      && t.phase == Replayed(s.phase.r, s.phase.n0, |s.sent|, Max(Base(s.net.a), s.phase.h))
      && ReplayedInv(t)
  {
    var Resuming(r, n0, h) := s.phase;
    var lo := Max(Base(s.net.a), h);
    ReportHead(s);
    ReplayStep(s);
    var t := Next(s, DeliverToA);
    ReplayLog(s.got, s.net.ab, s.sent[..r] + s.sent[n0..], s.sent[lo..]);
    assert s.sent[n0..|s.sent|] == s.sent[n0..];
    assert t.got + Stanzas(t.net.ab) == s.sent[..r] + s.sent[n0..|s.sent|] + s.sent[lo..];
    assert Plain(t.net.ab) by {
      assert forall e | e in s.sent[lo..] :: e.Stanza?;
    }
  }

  lemma ResumingDeliverToA(s: System)
    requires s.phase.Resuming? && ResumingInv(s) && s.net.ba != [] && !s.net.ba[0].Resumed?
    ensures Next(s, DeliverToA).phase == s.phase && ResumingInv(Next(s, DeliverToA))
  {
    var n := s.net;
    assert n.ba[0] in [n.ba[0]] && Calm([n.ba[0]]) by {
      assert n.ba[0] in n.ba;
    }
    ToAStep(s);
    ReceiveOutput(n.a, n.ba[0]);
    ResumedOutput(n.a, n.ba[0]);
    var pushed := Receive(n.a, n.ba[0]).pushed;
    assert n.ab != [] ==> (n.ab + pushed)[1..] == n.ab[1..] + pushed;
  }

  lemma ReplayedSend(s: System, step: Step)
    requires s.phase.Replayed? && ReplayedInv(s) && (step.SendA? || step.SendB?) && !IsSm(step.e)
    ensures Next(s, step).phase == s.phase && ReplayedInv(Next(s, step))
  {
    if step.SendA? {
      var Replayed(r, n0, n1, lo) := s.phase;
      SendAStep(s, step.e);
      LogGrowsAtEnd(s.got + Stanzas(s.net.ab), s.sent, r, n0, n1, lo, Stanzas([step.e]));
    } else {
      SendOutput(s.net.b, step.e);
    }
  }

  lemma LogGrowsAtEnd(log: seq<Element>, sent: seq<Element>, r: nat, n0: nat, n1: nat, lo: nat, more: seq<Element>)
    requires lo <= r <= n0 <= n1 <= |sent|
    requires log == sent[..r] + sent[n0..n1] + sent[lo..]
    ensures log + more == (sent + more)[..r] + (sent + more)[n0..n1] + (sent + more)[lo..]
  {
    assert (sent + more)[..r] == sent[..r];
    assert (sent + more)[n0..n1] == sent[n0..n1];
    assert (sent + more)[lo..] == sent[lo..] + more;
    Associates(sent[..r] + sent[n0..n1], sent[lo..], more);
  }

  lemma ReplayedDeliverToA(s: System)
    requires s.phase.Replayed? && ReplayedInv(s) && s.net.ba != []
    ensures Next(s, DeliverToA).phase == s.phase && ReplayedInv(Next(s, DeliverToA))
  {
    assert s.net.ba[0] in s.net.ba;
    ToAStep(s);
    ReceiveOutput(s.net.a, s.net.ba[0]);
    ResumedOutput(s.net.a, s.net.ba[0]);
  }

  lemma ReplayedDeliverToB(s: System)
    requires s.phase.Replayed? && ReplayedInv(s) && s.net.ab != []
    ensures Next(s, DeliverToB).phase == s.phase && ReplayedInv(Next(s, DeliverToB))
  {
    ToBStep(s);
    ReceiveOutput(s.net.b, s.net.ab[0]);
    assert s.net.ab[0] in s.net.ab;
    ResumedOutput(s.net.b, s.net.ab[0]);
  }

  lemma CutStep(s: System)
    requires Up(s) && Inv(s)
    ensures Inv(Next(s, Cut))
    ensures !s.phase.Live? ==> Next(s, Cut).phase.Idle? && Next(s, Cut).saved.None?
  {
    var saved := SaveOnClose(s.net.a);
    if s.phase.Live? && saved.Some? {
      RestoreKeepsLog(s.net.a, s.sent, "", 0);
      assert s.got == s.sent[..|s.got|];
    }
  }

  lemma RedialStep(s: System, keep: bool, idA: string, idB: string)
    requires !Up(s) && Inv(s)
    ensures Inv(Next(s, Redial(keep, idA, idB)))
  {
    var t := Next(s, Redial(keep, idA, idB));
    if s.phase.Broken? {
      var r := s.phase.r;
      assert Dial(s.saved, idA).next == Dial(s.saved, "").next;
      assert s.sent[..r] + s.sent[|s.sent|..] == s.got;
      assert t.net.ab == [Resume(s.saved.value.sessionId, s.saved.value.inbound)];
      assert Stanzas(t.net.ab) == [];
    }
  }

  lemma InvStep(s: System, step: Step)
    requires Inv(s)
    ensures Inv(Next(s, step))
  {
    match step
    case SendA(e) =>
      if Up(s) && !IsSm(e) {
        match s.phase
        case Live => LiveSendA(s, e);
        case Resuming(_, _, _) => ResumingSendA(s, e);
        case Replayed(_, _, _, _) => ReplayedSend(s, step);
      }
    case SendB(e) =>
      if Up(s) && !IsSm(e) {
        match s.phase
        case Live => LiveSendB(s, e);
        case Resuming(_, _, _) => ResumingSendB(s, e);
        case Replayed(_, _, _, _) => ReplayedSend(s, step);
      }
    case DeliverToB =>
      if Up(s) && s.net.ab != [] {
        match s.phase
        case Live => LiveDeliverToB(s);
        case Resuming(_, _, _) => ResumingDeliverToB(s);
        case Replayed(_, _, _, _) => ReplayedDeliverToB(s);
      }
    case DeliverToA =>
      if Up(s) && s.net.ba != [] {
        match s.phase
        case Live => LiveDeliverToA(s);
        case Resuming(_, _, _) =>
          if s.net.ba[0].Resumed? {
            DeliverResumed(s);
          } else {
            ResumingDeliverToA(s);
          }
        case Replayed(_, _, _, _) => ReplayedDeliverToA(s);
      }
    case StrayAck(h) =>
      if Up(s) {
        AckStep(s, h);
      }
    case Cut =>
      if Up(s) {
        CutStep(s);
      }
    case Redial(keep, idA, idB) =>
      if !Up(s) {
        RedialStep(s, keep, idA, idB);
      }
  }

  lemma {:induction false} RunInv(s: System, steps: seq<Step>)
    requires Inv(s)
    ensures Inv(Run(s, steps))
    decreases |steps|
  {
    if steps == [] {
    } else {
      InvStep(s, steps[0]);
      RunInv(Next(s, steps[0]), steps[1..]);
    }
  }

  // ---------------------------------------------------------------- what can happen on a link

  /** On a link that is up both ends can send, and an ack that is safe or claims too much can arrive at any moment. */
  lemma LinkIsAlive(s: System, e: Element, h: int)
    requires Inv(s) && Up(s) && e.Stanza?
    ensures var t := Next(s, SendA(e));
      t.sent == s.sent + [e] && t.net.a.outbound == s.net.a.outbound + 1 && e in t.net.ab
    ensures var t := Next(s, SendB(e));
      t.net.b.outbound == s.net.b.outbound + 1 && e in t.net.ba
    ensures h <= Received(s) || h > |s.sent| ==> Next(s, StrayAck(h)).net.a == Receive(s.net.a, A(h)).next
    ensures Next(s, Cut).net.a.closed && Next(s, Cut).net.b.closed
  {
    assert Stanzas([e]) == [e] by {
      assert [e][1..] == [];
    }
    var a, b := Send(s.net.a, e).pushed, Send(s.net.b, e).pushed;
    assert a[0] == e && b[0] == e;
    assert (s.net.ab + a)[|s.net.ab|] == e && (s.net.ba + b)[|s.net.ba|] == e;
  }

  // ---------------------------------------------------------------- what every run guarantees

  /**
   * A stanza leaves the dialler's queue only after the answerer has it: in every
   * reachable state the base is at most what was received, which is at most what was sent.
   */
  lemma AckSafety(steps: seq<Step>)
    ensures var s := Run(INITIAL, steps);
      Up(s) ==>
        && 0 <= Base(s.net.a) <= Received(s) <= |s.sent| == s.net.a.outbound
        && Received(s) <= |s.got|
        && s.got[..Received(s)] == s.sent[..Received(s)]
        && s.net.a.unacked == s.sent[Base(s.net.a)..]
        && (s.phase.Live? ==> Received(s) == s.net.b.inbound)
  {
    RunInv(INITIAL, steps);
    var s := Run(INITIAL, steps);
    if Up(s) {
      ReceivedPrefix(s);
    }
  }

  lemma ReceivedPrefix(s: System)
    requires Inv(s) && Up(s)
    ensures Received(s) <= |s.got| && Received(s) <= |s.sent| && s.got[..Received(s)] == s.sent[..Received(s)]
  {
    var flight := Stanzas(s.net.ab);
    if s.phase.Resuming? {
      Prefix(s.got, flight, s.sent[..s.phase.r], s.sent[s.phase.n0..]);
    } else if s.phase.Replayed? {
      var Replayed(r, n0, n1, lo) := s.phase;
      Associates(s.sent[..r], s.sent[n0..n1], s.sent[lo..]);
      Prefix(s.got, flight, s.sent[..r], s.sent[n0..n1] + s.sent[lo..]);
    } else {
      assert s.sent[..|s.got|] == s.got;
    }
  }

  lemma Prefix(got: seq<Element>, flight: seq<Element>, pre: seq<Element>, rest: seq<Element>)
    requires got + flight == pre + rest && |pre| <= |got|
    ensures got[..|pre|] == pre
  {
    assert got[..|pre|] == (got + flight)[..|pre|];
  }

  /** The position in the dialler's log of the stanza that entry `j` of the answerer's log is. */
  function PositionOf(s: System, j: nat): int {
    match s.phase
    case Resuming(r, n0, _) => if j < r then j else n0 + (j - r)
    case Replayed(r, n0, n1, lo) =>
      if j < r then j else if j - r < n1 - n0 then n0 + (j - r) else lo + (j - r - (n1 - n0))
    case _ => j
  }

  /** The answerer has stanza `i` of the dialler's log. */
  ghost predicate Has(s: System, i: nat) {
    exists j: nat :: j < |s.got| && PositionOf(s, j) == i
  }

  /** How many leading stanzas of the log the answerer has, what has arrived of a replay included. */
  function Held(s: System): int {
    match s.phase
    case Resuming(r, n0, _) => if r == n0 then |s.got| else r
    case Replayed(r, n0, n1, lo) =>
      var replayed := |s.got| - r - (n1 - n0);
      if replayed < 0 then (if r == n0 then |s.got| else r)
      else if Max(r, lo + replayed) < n0 then Max(r, lo + replayed)
      else Max(n1, lo + replayed)
    case _ => |s.got|
  }

  /** Each entry of the answerer's log is the stanza at its position. */
  lemma EntriesInPlace(s: System, j: nat)
    requires Inv(s) && Up(s) && j < |s.got|
    ensures 0 <= PositionOf(s, j) < |s.sent| && s.got[j] == s.sent[PositionOf(s, j)]
  {
    var all := s.got + Stanzas(s.net.ab);
    assert all[j] == s.got[j];
  }

  lemma HeldIff(s: System, n: int)
    requires Inv(s) && Up(s)
    ensures (forall i: nat | i < n :: Has(s, i)) <==> n <= Held(s)
  {
    if n <= Held(s) {
      forall i: nat | i < n
        ensures Has(s, i)
      {
        HeldIsHad(s, i);
      }
    } else {
      NextIsMissing(s);
      assert Held(s) < n;
    }
  }

  lemma HeldIsHad(s: System, i: nat)
    requires Inv(s) && Up(s) && i < Held(s)
    ensures Has(s, i)
  {
    if s.phase.Replayed? && i >= s.phase.r {
      var Replayed(r, n0, n1, lo) := s.phase;
      if n0 <= i < n1 && i - n0 + r < |s.got| {
        assert PositionOf(s, i - n0 + r) == i;
      } else {
        assert PositionOf(s, i - lo + r + (n1 - n0)) == i;
      }
    } else {
      assert PositionOf(s, i) == i;
    }
  }

  lemma NextIsMissing(s: System)
    requires Inv(s) && Up(s)
    ensures Held(s) >= 0 && !Has(s, Held(s))
  {
  }

  /**
   * Which acks are safe: at any moment, processing `h` leaves in the queue every stanza the
   * answerer does not have exactly when `h` claims no more of the log than it has, or more
   * than was sent.
   */
  lemma AckSafeIff(steps: seq<Step>, h: int)
    requires Up(Run(INITIAL, steps))
    ensures var s := Run(INITIAL, steps);
      (forall i: nat | i < Base(Receive(s.net.a, A(h)).next) :: Has(s, i)) <==> h <= Held(s) || h > s.net.a.outbound
  {
    RunInv(INITIAL, steps);
    var s := Run(INITIAL, steps);
    TrimMovesBase(s.net.a, s.sent, h);
    HeldIff(s, Base(Receive(s.net.a, A(h)).next));
    ReceivedIsHeld(s);
  }

  lemma ReceivedIsHeld(s: System)
    requires Inv(s) && Up(s)
    ensures Base(s.net.a) <= Received(s) <= Held(s)
  {
  }

  /** The session that was cut after `r` of `n0` stanzas, resumed by an answerer that reports `h`. */
  ghost predicate Continues(s: System, r: nat, n0: nat, h: nat, base: int) {
    match s.phase
    case Resuming(r', n0', h') => r' == r && n0' == n0 && h' == h && base <= Base(s.net.a)
    case Replayed(r', n0', _, lo) => r' == r && n0' == n0 && Max(base, h) <= lo <= r
    case _ => false
  }

  lemma {:induction false} RunContinues(s: System, steps: seq<Step>, r: nat, n0: nat, h: nat, base: int)
    requires Inv(s) && Continues(s, r, n0, h, base)
    requires forall i | 0 <= i < |steps| :: !steps[i].Cut?
    ensures Inv(Run(s, steps)) && Continues(Run(s, steps), r, n0, h, base)
    decreases |steps|
  {
    if steps == [] {
    } else {
      InvStep(s, steps[0]);
      StepContinues(s, steps[0], r, n0, h, base);
      RunContinues(Next(s, steps[0]), steps[1..], r, n0, h, base);
    }
  }

  lemma StepContinues(s: System, step: Step, r: nat, n0: nat, h: nat, base: int)
    requires Inv(s) && Continues(s, r, n0, h, base) && !step.Cut?
    ensures Continues(Next(s, step), r, n0, h, base)
  {
    if s.phase.Resuming? {
      match step
      case SendA(e) => if !IsSm(e) { SendExtendsLog(s.net.a, s.sent, e); }
      case DeliverToA =>
        if s.net.ba != [] {
          ReceiveKeepsLog(s.net.a, s.sent, s.net.ba[0]);
          if s.net.ba[0].Resumed? {
            DeliverResumed(s);
          }
        }
      case StrayAck(k) => TrimMovesBase(s.net.a, s.sent, k);
      case _ =>
    }
  }

  /** The stanzas that the dialler's application sends in these steps, in order. */
  function SentIn(steps: seq<Step>): seq<Element>
    decreases |steps|
  {
    if steps == [] then []
    else (if steps[0].SendA? then Stanzas([steps[0].e]) else []) + SentIn(steps[1..])
  }

  lemma {:induction false} SentGrows(s: System, steps: seq<Step>)
    requires Up(s) && forall i | 0 <= i < |steps| :: !steps[i].Cut?
    ensures Up(Run(s, steps)) && Run(s, steps).sent == s.sent + SentIn(steps)
    decreases |steps|
  {
    if steps == [] {
      assert s.sent + SentIn(steps) == s.sent;
    } else {
      var first := if steps[0].SendA? then Stanzas([steps[0].e]) else [];
      SentStep(s, steps[0]);
      SentGrows(Next(s, steps[0]), steps[1..]);
      Associates(s.sent, first, SentIn(steps[1..]));
    }
  }

  lemma SentStep(s: System, step: Step)
    requires Up(s) && !step.Cut?
    ensures Up(Next(s, step))
    ensures Next(s, step).sent == s.sent + (if step.SendA? then Stanzas([step.e]) else [])
  {
  }

  /** The step at which a resumed link handles the report. */
  ghost predicate HandlesReport(v: System, step: Step) {
    v.phase.Resuming? && step.DeliverToA? && v.net.ba != [] && v.net.ba[0].Resumed?
  }

  /** Only the report ends the handshake. */
  lemma ResumingStep(u: System, step: Step)
    requires u.phase.Resuming? && !step.Cut?
    ensures Next(u, step).phase.Resuming? || (HandlesReport(u, step) && Next(u, step).phase.Replayed?)
  {
  }

  /** A run that ends with the log replayed has handled the report at some step, and kept what was decided there. */
  lemma {:induction false} ReportHandled(u: System, steps: seq<Step>) returns (k: nat)
    requires Inv(u) && u.phase.Resuming? && Run(u, steps).phase.Replayed?
    requires forall i | 0 <= i < |steps| :: !steps[i].Cut?
    ensures k < |steps|
    ensures var v := Run(u, steps[..k]);
      Inv(v) && HandlesReport(v, steps[k]) && Run(u, steps).phase == Next(v, steps[k]).phase
    decreases |steps|
  {
    var next := Next(u, steps[0]);
    InvStep(u, steps[0]);
    ResumingStep(u, steps[0]);
    if next.phase.Resuming? {
      var j := ReportHandled(next, steps[1..]);
      k := j + 1;
      assert steps[..k][1..] == steps[1..][..j];
    } else {
      k := 0;
      ReplayedStays(next, steps[1..]);
    }
  }

  lemma {:induction false} ReplayedStays(s: System, steps: seq<Step>)
    requires s.phase.Replayed? && forall i | 0 <= i < |steps| :: !steps[i].Cut?
    ensures Run(s, steps).phase == s.phase
    decreases |steps|
  {
    if steps == [] {
    } else {
      ReplayedStays(Next(s, steps[0]), steps[1..]);
    }
  }

  /**
   * Resumption. A link is cut at any point of any run and its session saved; the dialler
   * redials; any steps but another cut follow until the replay has been delivered. The
   * report `h` of the answerer, `r` if it kept its counters and 0 if not, is handled at some
   * step `k`, in state `v`. Then the answerer's log is what it had, what was queued before
   * that step, and the log again from `lo`, the later of the dialler's base and `h`. Nothing
   * is lost, the repeats are what was queued and `sent[lo..r]`, and the log is exactly
   * `sent` iff both are empty, as the second is if the answerer kept its counters.
   */
  lemma ResumptionDelivers(before: seq<Step>, keep: bool, idA: string, idB: string, after: seq<Step>)
    returns (k: nat, lo: nat)
    requires Run(INITIAL, before).phase.Broken?
    requires forall i | 0 <= i < |after| :: !after[i].Cut?
    requires var t := Run(Next(Run(INITIAL, before), Redial(keep, idA, idB)), after);
      t.phase.Replayed? && Stanzas(t.net.ab) == []
    ensures k < |after|
    ensures var s := Run(INITIAL, before);
      var u := Next(s, Redial(keep, idA, idB));
      var v := Run(u, after[..k]);
      var t := Run(u, after);
      var r, h := |s.got|, if keep then |s.got| else 0;
      && r <= |s.sent| && s.got == s.sent[..r]
      && HandlesReport(v, after[k]) && v.net.ba[0].h == h == u.net.b.inbound
      && t.phase == Replayed(r, |s.sent|, |v.sent|, lo)
      && lo == Max(Base(v.net.a), h)
      && Max(Base(u.net.a), h) <= lo <= r
      && t.sent == s.sent + SentIn(after)
      && t.got == s.sent[..r] + SentIn(after[..k]) + t.sent[lo..]
      && (forall i | 0 <= i < |t.sent| :: t.sent[i] in t.got)
      && (t.got == t.sent <==> lo == r && SentIn(after[..k]) == [])
      && (keep ==> lo == r)
  {
    var s := Run(INITIAL, before);
    RunInv(INITIAL, before);
    var u := Next(s, Redial(keep, idA, idB));
    RedialStep(s, keep, idA, idB);
    k := ReportHandled(u, after);
    lo := Run(u, after).phase.lo;
    DeliveredAfter(s, u, after, k, |s.got|, |s.sent|, u.phase.h);
  }

  /** The same from the redialled state on, for a session that was cut after `r` of `n0` stanzas. */
  lemma DeliveredAfter(s: System, u: System, after: seq<Step>, k: nat, r: nat, n0: nat, h: nat)
    requires Inv(u) && u.phase == Resuming(r, n0, h) && u.sent == s.sent && n0 == |s.sent| && r <= n0
    requires forall i | 0 <= i < |after| :: !after[i].Cut?
    requires Run(u, after).phase.Replayed? && Stanzas(Run(u, after).net.ab) == []
    requires k < |after|
    requires var v := Run(u, after[..k]);
      Inv(v) && HandlesReport(v, after[k]) && Run(u, after).phase == Next(v, after[k]).phase
    ensures var v, t := Run(u, after[..k]), Run(u, after);
      var lo := t.phase.lo;
      && t.phase == Replayed(r, n0, |v.sent|, lo)
      && v.net.ba[0].h == h && lo == Max(Base(v.net.a), h) && Max(Base(u.net.a), h) <= lo <= r
      && t.sent == s.sent + SentIn(after)
      && t.got == s.sent[..r] + SentIn(after[..k]) + t.sent[lo..]
      && (forall i | 0 <= i < |t.sent| :: t.sent[i] in t.got)
      && (t.got == t.sent <==> lo == r && SentIn(after[..k]) == [])
  {
    var v, t := Run(u, after[..k]), Run(u, after);
    RunContinues(u, after[..k], r, n0, h, Base(u.net.a));
    RunContinues(u, after, r, n0, h, Base(u.net.a));
    ReportHead(v);
    DeliverResumed(v);
    SentGrows(u, after[..k]);
    SentGrows(u, after);
    SentInPrefix(after, k);
    LogAtEnd(t, s.sent, SentIn(after[..k]), SentIn(after));
  }

  /** The answerer's log once the replay has been delivered, by what was sent before the cut and since. */
  lemma LogAtEnd(t: System, sent0: seq<Element>, queued: seq<Element>, sentSince: seq<Element>)
    requires t.phase.Replayed? && ReplayedInv(t) && Stanzas(t.net.ab) == []
    requires t.sent == sent0 + sentSince && queued <= sentSince
    requires t.phase.n0 == |sent0| && t.phase.n1 == |sent0| + |queued|
    ensures var Replayed(r, _, _, lo) := t.phase;
      && t.got == sent0[..r] + queued + t.sent[lo..]
      && (forall i | 0 <= i < |t.sent| :: t.sent[i] in t.got)
      && (t.got == t.sent <==> lo == r && queued == [])
  {
    var Replayed(r, n0, n1, lo) := t.phase;
    assert t.got == t.got + Stanzas(t.net.ab);
    assert t.sent[..r] == sent0[..r];
    assert t.sent[n0..n1] == queued;
    LogCovers(t.got, t.sent, r, n0, n1, lo);
  }

  lemma {:induction false} SentInPrefix(steps: seq<Step>, k: nat)
    requires k <= |steps|
    ensures SentIn(steps[..k]) <= SentIn(steps)
    decreases k
  {
    if k == 0 {
      assert steps[..k] == [];
    } else {
      var first := if steps[0].SendA? then Stanzas([steps[0].e]) else [];
      assert steps[..k][1..] == steps[1..][..k - 1];
      SentInPrefix(steps[1..], k - 1);
      PrefixAfter(first, SentIn(steps[1..][..k - 1]), SentIn(steps[1..]));
    }
  }

  lemma PrefixAfter(first: seq<Element>, some: seq<Element>, all: seq<Element>)
    requires some <= all
    ensures first + some <= first + all
  {
  }

  lemma LogCovers(got: seq<Element>, sent: seq<Element>, r: nat, n0: nat, n1: nat, lo: nat)
    requires lo <= r <= n0 <= n1 <= |sent|
    requires got == sent[..r] + sent[n0..n1] + sent[lo..]
    ensures forall i | 0 <= i < |sent| :: sent[i] in got
    ensures got == sent <==> lo == r && n0 == n1
  {
    forall i | 0 <= i < |sent|
      ensures sent[i] in got
    {
      if i < r {
        assert got[i] == sent[i];
      } else {
        assert got[r + (n1 - n0) + (i - lo)] == sent[i];
      }
    }
    if lo == r && n0 == n1 {
      assert got == sent[..r] + sent[r..];
    } else {
      assert |got| > |sent|;
    }
  }

  // ---------------------------------------------------------------- where the guarantee ends

  /** What was sent in this session and has not arrived, however often. */
  function Missing(s: System): multiset<Element> {
    multiset(s.sent) - multiset(s.got)
  }

  /** What a later dial can still send again. */
  function Kept(s: System): multiset<Element> {
    if s.saved.Some? then multiset(s.saved.value.unacked) else multiset{}
  }

  /**
   * What a cut loses, at any moment: everything the answerer is missing is kept exactly
   * when the session was negotiated on this very link, or nothing is missing. A resumed
   * link is never one that negotiated.
   */
  lemma CutKeepsSessionIff(steps: seq<Step>)
    requires Up(Run(INITIAL, steps))
    ensures var s := Run(INITIAL, steps);
      && (Missing(s) <= Kept(Next(s, Cut)) <==> (s.net.a.smEnabled && s.net.a.smResumable) || Missing(s) == multiset{})
      && (Next(s, Cut).phase.Broken? <==> s.net.a.smEnabled && s.net.a.smResumable)
      && (Next(s, Cut).phase.Broken? ==> s.phase.Live?)
  {
    RunInv(INITIAL, steps);
    var s := Run(INITIAL, steps);
    CutPhase(s);
    if s.net.a.smEnabled && s.net.a.smResumable {
      NegotiatedKeepsMissing(s);
    }
  }

  lemma CutPhase(s: System)
    requires Up(s) && Inv(s)
    ensures Next(s, Cut).saved == SaveOnClose(s.net.a)
    ensures Next(s, Cut).phase.Broken? <==> s.net.a.smEnabled && s.net.a.smResumable
    ensures s.net.a.smEnabled ==> s.phase.Live?
  {
  }

  lemma CutKeepsQueue(s: System)
    requires Up(s) && s.net.a.smEnabled && s.net.a.smResumable
    ensures Kept(Next(s, Cut)) == multiset(s.net.a.unacked)
  {
  }

  lemma LiveQueue(s: System)
    requires s.phase.Live? && LiveInv(s)
    ensures s.sent == s.got + Stanzas(s.net.ab)
    ensures 0 <= Base(s.net.a) <= |s.got| <= |s.sent| && s.net.a.unacked == s.sent[Base(s.net.a)..]
  {
  }

  lemma NegotiatedKeepsMissing(s: System)
    requires s.phase.Live? && LiveInv(s) && s.net.a.smEnabled && s.net.a.smResumable
    ensures Missing(s) <= Kept(Next(s, Cut))
  {
    LiveQueue(s);
    CutKeepsQueue(s);
    MissingIsQueued(s.got, Stanzas(s.net.ab), s.sent, s.net.a.unacked, Base(s.net.a));
  }

  lemma MissingIsQueued(got: seq<Element>, flight: seq<Element>, sent: seq<Element>, queue: seq<Element>, base: nat)
    requires sent == got + flight && base <= |got| && queue == sent[base..]
    ensures multiset(sent) - multiset(got) <= multiset(queue)
  {
    assert queue == got[base..] + flight;
  }

  /**
   * A resumed link never negotiates again, so a second cut saves nothing: the next dial
   * starts a new session with an empty queue, whatever the answerer was still missing.
   */
  lemma SecondCutForgetsQueue(steps: seq<Step>, keep: bool, idA: string, idB: string)
    requires Run(INITIAL, steps).phase.Resuming? || Run(INITIAL, steps).phase.Replayed?
    ensures var t := Next(Next(Run(INITIAL, steps), Cut), Redial(keep, idA, idB));
      && t.net.a.unacked == [] && t.net.a.outbound == 0
      && t.net.ab == [Enable(true)] && t.net.ba == []
  {
    RunInv(INITIAL, steps);
    CutStep(Run(INITIAL, steps));
  }

  /** The first three steps of every run that negotiates a session. */
  function Negotiated(): System {
    Next(Next(Next(INITIAL, Redial(false, "a", "b")), DeliverToB), DeliverToA)
  }

  lemma NegotiationSucceeds()
    ensures var s := Negotiated();
      && s.phase.Live? && s.sent == [] && s.got == []
      && !s.net.a.closed && s.net.a.smEnabled && s.net.a.smResumable
  {
    var s := Next(Next(INITIAL, Redial(false, "a", "b")), DeliverToB);
    assert s.net.ba == [Enabled("b", true), R];
  }

  lemma SendingStep(payload: string)
    ensures var s := Next(Negotiated(), SendA(Stanza(payload)));
      && s.phase.Live? && s.sent == [Stanza(payload)] && s.got == []
      && s.net.a.smEnabled && s.net.a.smResumable
  {
    NegotiationSucceeds();
    assert Stanzas([Stanza(payload)]) == [Stanza(payload)];
  }

  lemma TwoCuts(s: System)
    requires s.phase.Live? && s.net.a.smEnabled && s.net.a.smResumable
    ensures var redialled := Next(Next(s, Cut), Redial(false, "a", "c"));
      var t := Next(redialled, Cut);
      redialled.phase.Resuming? && t.sent == s.sent && t.got == s.got && !Up(t) && t.saved == None
  {
  }

  /** So two cuts can lose a stanza for good: sent once, never delivered, and in no queue. */
  lemma StanzaLostAfterTwoCuts(payload: string)
    ensures var sending := Next(Negotiated(), SendA(Stanza(payload)));
      var redialled := Next(Next(sending, Cut), Redial(false, "a", "c"));
      var s := Next(redialled, Cut);
      redialled.phase.Resuming? && s.sent == [Stanza(payload)] && s.got == [] && !Up(s) && s.saved == None
  {
    SendingStep(payload);
    TwoCuts(Next(Negotiated(), SendA(Stanza(payload))));
  }
}
