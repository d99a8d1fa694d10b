/** The chat history of a node and its archive queries (src/core/xmpp-chat.ts:159-169 and 211-320). */
module XmppChats {
  import opened Wrappers
  import opened OrderedMaps
  import opened XepHelpers
  import opened ChatArchive
  import opened ChatQueries

  class XmppChatManager {
    const jid: string
    var chatHistory: History
    var sent: seq<Element>
    /** The archived messages emitted, each with the query it answers. */
    var emitted: seq<(Message, Option<string>)>

    constructor (jid: string)
      ensures this.jid == jid && chatHistory == Empty() && IsArchive(chatHistory) && sent == [] && emitted == []
    {
      this.jid := jid;
      chatHistory := Empty();
      sent, emitted := [], [];
    }

    method RecordChatMessage(msg: Message)
      requires IsArchive(chatHistory)
      modifies this`chatHistory
      ensures chatHistory == Record(old(chatHistory), msg)
      ensures IsArchive(chatHistory)
    {
      RecordingKeepsArchive(chatHistory, [msg]);
      RecordAllOne(chatHistory, msg);
      chatHistory := Set(chatHistory, KeyOf(msg), msg);
      chatHistory := TrimMap(chatHistory, CHAT_HISTORY_LIMIT);
    }

    /** Sends every message with the address asked for, in order, and returns their number for `fin`. */
    method HandleIncomingMamQuery(element: Element, peerId: string, now: string) returns (count: Option<nat>)
      modifies this`sent
      ensures var query := FirstNamed(element.children, "query");
        if query.None? then count == None && sent == old(sent)
        else
          var wanted := Wanted(Values(chatHistory), WithOf(query.value));
          && count == Some(|wanted|)
          && sent == old(sent) + Answers(wanted, Attr(query.value, "queryid"), peerId + "@p2p", jid, now)
      ensures var query := FirstNamed(element.children, "query");
        query.Some? ==> forall bare | AsksFor(query.value, bare) ::
          var concerning := Concerning(Values(chatHistory), bare);
          && count == Some(|concerning|)
          && sent == old(sent) + Answers(concerning, Attr(query.value, "queryid"), peerId + "@p2p", jid, now)
      ensures var query := FirstNamed(element.children, "query");
        query.Some? && WithOf(query.value) == None ==>
          && count == Some(|Values(chatHistory)|)
          && sent == old(sent) + Answers(Values(chatHistory), Attr(query.value, "queryid"), peerId + "@p2p", jid, now)
    {
      var query := FirstNamed(element.children, "query");
      if query.None? {
        return None;
      }
      var queryId := Attr(query.value, "queryid");
      var filterWith := WithOf(query.value);
      var all := Values(chatHistory);
      var history := all;
      if filterWith.Some? {
        history := FilterHistory(all, filterWith);
      } else {
        WantedMeans(all, filterWith);
      }
      SendResults(history, queryId, peerId + "@p2p", now);
      forall bare | AsksFor(query.value, bare)
        ensures history == Concerning(all, bare)
      {
        WantedIs(all, bare, filterWith.value);
      }
      return Some(|history|);
    }

    method SendResults(history: seq<Message>, queryId: Option<string>, to: string, now: string)
      modifies this`sent
      ensures sent == old(sent) + Answers(history, queryId, to, jid, now)
    {
      ghost var answers := Answers(history, queryId, to, jid, now);
      for i := 0 to |history|
        invariant sent == old(sent) + answers[..i]
      {
        sent := sent + [Wrapper(history[i], queryId, to, jid, now)];
      }
      assert answers[..|history|] == answers;
    }

    method FilterHistory(all: seq<Message>, filterWith: Option<string>) returns (history: seq<Message>)
      ensures history == Wanted(all, filterWith)
    {
      history := [];
      for i := 0 to |all|
        invariant history == Wanted(all[..i], filterWith)
      {
        assert all[..i + 1][..i] == all[..i];
        if Matches(all[i], filterWith) {
          history := history + [all[i]];
        }
      }
      assert all[..|all|] == all;
    }

    /** Records and emits the message a result carries; anything else is ignored. */
    method HandleIncomingMamResult(element: Element)
      requires IsArchive(chatHistory)
      modifies this`chatHistory, this`emitted
      ensures IsArchive(chatHistory)
      ensures chatHistory == ReceiveAll(old(chatHistory), [element])
      ensures var received := ReceivedFrom(element);
        emitted == old(emitted) + (if received.Some? then [(received.value, QueryIdOf(element))] else [])
    {
      ReceiveOne(chatHistory, element);
      var received := ReceivedFrom(element);
      if received.Some? {
        RecordChatMessage(received.value);
        emitted := emitted + [(received.value, QueryIdOf(element))];
      }
    }
  }

  lemma RecordAllOne(h: History, m: Message)
    ensures RecordAll(h, [m]) == Record(h, m)
  {
    assert [m][..0] == [];
  }

  lemma ReceiveOne(h: History, e: Element)
    ensures ReceiveAll(h, [e]) == (match ReceivedFrom(e) case None => h case Some(m) => Record(h, m))
  {
    assert [e][..0] == [];
  }
}
