/**
 * The mutable stream of src/core/xmpp-stream.ts, the session store of
 * src/core/xmpp-reliability.ts and the two places of src/core/xmpp-node.ts that connect
 * them, each proved against the functions of StreamManagement.
 */
module XmppStreams {
  import opened Wrappers
  import opened SM = StreamManagement

  /** `XmppStream`: fields changed in place by `Send` and by the inbound element handler. */
  class XmppStream {
    var isClosed: bool
    var smEnabled: bool
    var smResumable: bool
    var sessionId: string
    var inboundStanzaCount: nat
    var outboundStanzaCount: nat
    var unackedQueue: seq<Element>
    var outbound: seq<Element>   // everything pushed to the peer, oldest first
    var events: seq<Element>     // everything emitted as 'element', oldest first

    function State(): Endpoint
      reads this
    {
      Endpoint(isClosed, smEnabled, smResumable, sessionId, inboundStanzaCount, outboundStanzaCount, unackedQueue)
    }

    /** The fields now are those of `eff`, whose output has been appended. */
    twostate predicate Did(eff: Effect, threw: bool)
      reads this
    {
      && State() == eff.next
      && outbound == old(outbound) + eff.pushed
      && events == old(events) + eff.emitted
      && threw == eff.threw
    }

    constructor (id: string)
      ensures State() == NewEndpoint(id) && outbound == [] && events == []
    {
      isClosed, smEnabled, smResumable := false, false, false;
      sessionId := id;
      inboundStanzaCount, outboundStanzaCount := 0, 0;
      unackedQueue, outbound, events := [], [], [];
    }

    method SendRaw(e: Element) returns (threw: bool)
      modifies this`outbound
      ensures threw == isClosed
      ensures outbound == if isClosed then old(outbound) else old(outbound) + [e]
    {
      threw := isClosed;
      if !isClosed {
        outbound := outbound + [e];
      }
    }

    method Send(e: Element) returns (threw: bool)
      modifies this`outbound, this`outboundStanzaCount, this`unackedQueue
      ensures Did(SM.Send(old(State()), e), threw)
    {
      if isClosed {
        return true;
      }
      if e.Stanza? {
        outboundStanzaCount := outboundStanzaCount + 1;
        unackedQueue := unackedQueue + [e];
      }
      threw := SendRaw(e);
      if smEnabled && outboundStanzaCount % ACK_INTERVAL == 0 {
        threw := SendRaw(R);
      }
    }

    method ComputeStanzasToResend(remoteH: int) returns (toResend: seq<Element>)
      ensures toResend == Resend(State(), remoteH)
    {
      if |unackedQueue| == 0 || remoteH >= outboundStanzaCount {
        return [];
      }
      var sentBeforeQueue := outboundStanzaCount - |unackedQueue|;
      var resendStartIndex := Max(0, Min(remoteH - sentBeforeQueue, |unackedQueue|));
      if resendStartIndex >= |unackedQueue| {
        return [];
      }
      toResend := unackedQueue[resendStartIndex..];
    }

    /** The replay loop shared by `resume` and `resumed`. */
    method SendAllRaw(msgs: seq<Element>) returns (threw: bool)
      modifies this`outbound
      ensures threw == (isClosed && msgs != [])
      ensures outbound == if isClosed then old(outbound) else old(outbound) + msgs
    {
      threw := false;
      for i := 0 to |msgs|
        invariant !threw
        invariant isClosed ==> i == 0
        invariant outbound == old(outbound) + msgs[..i]
      {
        threw := SendRaw(msgs[i]);
        if threw {
          return;
        }
      }
      assert msgs[..|msgs|] == msgs;
    }

    method HandleSmElement(e: Element) returns (threw: bool)
      requires IsSm(e)
      modifies this
      ensures Did(HandleSm(old(State()), e), threw)
    {
      threw := false;
      match e
      case Enable(resume) =>
        smEnabled := true;
        smResumable := resume;
        threw := Send(Enabled(sessionId, resume));
      case Enabled(id, resume) =>
        smEnabled := true;
        smResumable := resume;
        if id != "" {
          sessionId := id;
        }
      case R =>
        threw := Send(A(inboundStanzaCount));
      case A(h) =>
        var keepCount := outboundStanzaCount - h;
        if keepCount >= 0 && keepCount < |unackedQueue| {
          unackedQueue := unackedQueue[|unackedQueue| - keepCount..];
        }
      case Resume(_, h) =>
        ghost var answer := SM.Send(State(), Resumed(sessionId, inboundStanzaCount));
        threw := Send(Resumed(sessionId, inboundStanzaCount));
        assert outbound == old(outbound) + answer.pushed;
        if !threw {
          var toResend := ComputeStanzasToResend(h);
          threw := SendAllRaw(toResend);
          assert outbound == old(outbound) + (answer.pushed + toResend);
        }
      case Resumed(_, h) =>
        var toResend := ComputeStanzasToResend(h);
        threw := SendAllRaw(toResend);
      case UnknownSm(_) =>
    }

    method OnElement(e: Element) returns (threw: bool)
      modifies this
      ensures Did(Receive(old(State()), e), threw)
    {
      threw := false;
      if IsSm(e) {
        threw := HandleSmElement(e);
        return;
      }
      if e.Stanza? {
        inboundStanzaCount := inboundStanzaCount + 1;
        if smEnabled && inboundStanzaCount % ACK_INTERVAL == 0 {
          threw := Send(R);
          if threw {
            return;
          }
        }
      }
      events := events + [e];
    }

    method Close()
      modifies this`isClosed
      ensures State() == old(State()).(closed := true)
    {
      isClosed := true;
    }
  }

  /** `XmppReliabilityManager`: the sessions saved per peer. */
  class XmppReliabilityManager {
    var streamSessions: map<string, Session>

    method SaveSession(peerId: string, session: Session)
      modifies this
      ensures streamSessions == old(streamSessions)[peerId := session]
    {
      streamSessions := streamSessions[peerId := session];
    }

    method GetAndClearSession(peerId: string) returns (session: Option<Session>)
      modifies this
      ensures session == if peerId in old(streamSessions) then Some(old(streamSessions)[peerId]) else None
      ensures streamSessions == old(streamSessions) - {peerId}
    {
      if peerId in streamSessions {
        session := Some(streamSessions[peerId]);
        streamSessions := streamSessions - {peerId};
      } else {
        session := None;
      }
    }
  }

  /** The `close` listener of `registerStream`. */
  method OnStreamClose(stream: XmppStream, manager: XmppReliabilityManager, peerId: string)
    modifies manager
    ensures manager.streamSessions == match SaveOnClose(stream.State())
      case Some(s) => old(manager.streamSessions)[peerId := s]
      case None => old(manager.streamSessions)
  {
    if stream.smEnabled && stream.smResumable {
      manager.SaveSession(peerId, Session(stream.sessionId, stream.outboundStanzaCount,
                                          stream.inboundStanzaCount, stream.unackedQueue));
    }
  }

  /** `registerStream` on a newly constructed stream: only the dialling side restores or negotiates. */
  method RegisterStream(stream: XmppStream, manager: XmppReliabilityManager, peerId: string, isOutbound: bool)
    requires exists id :: stream.State() == NewEndpoint(id)
    requires stream.outbound == [] && stream.events == []
    modifies stream, manager
    ensures !isOutbound ==> stream.State() == old(stream.State()) && stream.outbound == []
    ensures !isOutbound ==> manager.streamSessions == old(manager.streamSessions)
    ensures isOutbound ==>
      var saved := if peerId in old(manager.streamSessions) then Some(old(manager.streamSessions)[peerId]) else None;
      var eff := Dial(saved, old(stream.sessionId));
      && stream.State() == eff.next && stream.outbound == eff.pushed
      && manager.streamSessions == old(manager.streamSessions) - {peerId}
  {
    if isOutbound {
      var savedSession := manager.GetAndClearSession(peerId);
      match savedSession
      case Some(s) =>
        stream.sessionId := s.sessionId;
        stream.outboundStanzaCount := s.outbound;
        stream.inboundStanzaCount := s.inbound;
        stream.unackedQueue := s.unacked;
        var _ := stream.Send(Resume(s.sessionId, s.inbound));
      case None =>
        var _ := stream.Send(Enable(true));
    }
  }

  /**
   * `registerStream` for a peer whose stream is still open: the new stream asks for the
   * session before the old one's `close` saves it, so that one waits for the dial after this.
   */
  method ReplaceStream(existing: XmppStream, stream: XmppStream, manager: XmppReliabilityManager, peerId: string,
                       isOutbound: bool)
    requires existing != stream
    requires exists id :: stream.State() == NewEndpoint(id)
    requires stream.outbound == [] && stream.events == []
    modifies existing, stream, manager
    ensures existing.State() == old(existing.State()).(closed := true) && existing.outbound == old(existing.outbound)
    ensures !isOutbound ==> stream.State() == old(stream.State()) && stream.outbound == []
    ensures isOutbound ==>
      var saved := if peerId in old(manager.streamSessions) then Some(old(manager.streamSessions)[peerId]) else None;
      var eff := Dial(saved, old(stream.sessionId));
      stream.State() == eff.next && stream.outbound == eff.pushed
    ensures var rest := if isOutbound then old(manager.streamSessions) - {peerId} else old(manager.streamSessions);
      manager.streamSessions == match SaveOnClose(old(existing.State()))
        case Some(s) => rest[peerId := s]
        case None => rest
  {
    RegisterStream(stream, manager, peerId, isOutbound);
    existing.Close();
    OnStreamClose(existing, manager, peerId);
  }
}
