/**
 * The chat archive and its replay to another node
 * (src/core/xmpp-chat.ts:112-114, 159-169 and 211-320; section 4 of XEP-0313).
 * Optional strings of a message are empty when missing; the clock is an input.
 */
module ChatArchive {
  import opened Wrappers
  import opened CompositeKeys
  import opened OrderedMaps
  import opened Jids
  import opened Sequences
  import Text
  import opened XepHelpers

  const CHAT_HISTORY_LIMIT: nat := 500

  /** `meta.delay` is the delay of the message. */
  datatype Message = Message(from: string, to: string, body: string, id: string, kind: string, meta: Metadata)

  type History = OrderedMap<string, Message>

  function Stamp(m: Message): string {
    if m.meta.delay.Some? then m.meta.delay.value.stamp else ""
  }

  predicate Stamped(m: Message) {
    Stamp(m) != ""
  }

  function KeyWithoutId(from: string, to: string, body: string, stamp: string): string {
    from + ":" + to + ":" + body + ":" + stamp
  }

  function KeyOf(m: Message): string {
    if m.id != "" then m.id else KeyWithoutId(m.from, m.to, m.body, Stamp(m))
  }

  /**
   * Which chats can hold messages without id that share a key: the same chat, or the one
   * pair of addresses, joined, goes on after the other and a colon.
   */
  lemma ChatsCollideIff(from: string, to: string, from': string, to': string)
    ensures (exists body, stamp, body', stamp' :: KeyWithoutId(from, to, body, stamp) == KeyWithoutId(from', to', body', stamp'))
      <==> Joined(from, to) == Joined(from', to') || Overlap(Joined(from, to), Joined(from', to'))
  {
    var a, b := Joined(from, to), Joined(from', to');
    if exists body, stamp, body', stamp' :: KeyWithoutId(from, to, body, stamp) == KeyWithoutId(from', to', body', stamp') {
      var body, stamp, body', stamp' :| KeyWithoutId(from, to, body, stamp) == KeyWithoutId(from', to', body', stamp');
      assert Joined(a, Joined(body, stamp)) == Joined(b, Joined(body', stamp')) by {
        KeyIsJoined(from, to, body, stamp);
        KeyIsJoined(from', to', body', stamp');
      }
      if a != b {
        JoinedCollideIff(a, b);
      }
    }
    if a == b {
      assert KeyWithoutId(from, to, "", "") == KeyWithoutId(from', to', "", "");
    }
    if a + ":" <= b {
      LongerChatCollides(from, to, from', to');
    }
    if b + ":" <= a {
      LongerChatCollides(from', to', from, to);
    }
  }

  lemma KeyIsJoined(from: string, to: string, body: string, stamp: string)
    ensures KeyWithoutId(from, to, body, stamp) == Joined(Joined(from, to), Joined(body, stamp))
  {
  }

  lemma LongerChatCollides(from: string, to: string, from': string, to': string)
    requires Joined(from, to) + ":" <= Joined(from', to')
    ensures var rest := Joined(from', to')[|Joined(from, to)| + 1..];
      KeyWithoutId(from, to, rest, ":") == KeyWithoutId(from', to', "", "")
  {
    var rest := Joined(from', to')[|Joined(from, to)| + 1..];
    KeyIsJoined(from, to, rest, ":");
    KeyIsJoined(from', to', "", "");
    CollidingSeconds(Joined(from, to), Joined(from', to'), Joined("", ""));
    assert Joined("", "") == ":";
  }

  /** `recordChatMessage`. */
  function Record(h: History, m: Message): History {
    Trim(Set(h, KeyOf(m), m), CHAT_HISTORY_LIMIT)
  }

  function RecordAll(h: History, ms: seq<Message>): History
    decreases |ms|
  {
    if ms == [] then h else Record(RecordAll(h, ms[..|ms| - 1]), ms[|ms| - 1])
  }

  /** A history as recording leaves it. */
  ghost predicate IsArchive(h: History) {
    Size(h) <= CHAT_HISTORY_LIMIT && forall k | k in h.at :: KeyOf(h.at[k]) == k
  }

  lemma {:induction false} RecordingKeepsArchive(h: History, ms: seq<Message>)
    requires IsArchive(h)
    ensures IsArchive(RecordAll(h, ms))
    decreases |ms|
  {
    if ms == [] {
    } else {
      RecordingKeepsArchive(h, ms[..|ms| - 1]);
    }
  }

  // ---------------------------------------------------------------- the query

  /** The value of the last field called `with`. */
  function WithField(fields: seq<Element>): Option<string>
    decreases |fields|
  {
    if fields == [] then None
    else
      var f := fields[|fields| - 1];
      if f.name == "field" && Attr(f, "var") == Some("with") then
        var value := FirstNamed(f.children, "value");
        if value.Some? then Some(value.value.text) else None
      else WithField(fields[..|fields| - 1])
  }

  /** The address asked for; None for all messages. */
  function WithOf(query: Element): Option<string> {
    var x := FirstNamed(query.children, "x");
    if x.Some? && Attr(x.value, "xmlns") == Some("jabber:x:data") then NonEmpty(WithField(x.value.children)) else None
  }

  predicate Matches(m: Message, with: Option<string>) {
    with.Some? ==>
      Before(m.from, '/') == Before(with.value, '/') || Before(m.to, '/') == Before(with.value, '/')
  }

  function Matching(with: Option<string>): Message -> bool {
    (m: Message) => Matches(m, with)
  }

  /** What an archive answers to a query: the messages with that address, in order, and no others. */
  function Wanted(ms: seq<Message>, with: Option<string>): seq<Message> {
    Filter(ms, Matching(with))
  }

  // ---------------------------------------------------------------- one message on its way

  function OptionsOf(m: Message): Options {
    Options(m.meta.replace, m.meta.reply, m.meta.thread, false, None, None, None, m.meta.originId, m.meta.stanzaId,
            m.meta.isPrivate)
  }

  function BodyPart(m: Message): seq<Element> {
    if m.body == "" then [] else [Leaf("body", map[], m.body)]
  }

  function MessageElement(m: Message): Element {
    Element(
      "message",
      map["to" := m.to, "from" := m.from, "type" := if m.kind == "" then "chat" else m.kind, "id" := m.id],
      "",
      BodyPart(m) + Built(OptionsOf(m)))
  }

  function DelayElement(m: Message, now: string): Element {
    Leaf("delay", map["xmlns" := DELAY_XMLNS, "stamp" := if Stamped(m) then Stamp(m) else now], "")
  }

  function ForwardedElement(m: Message, now: string): Element {
    Element("forwarded", map["xmlns" := FORWARD_XMLNS], "", [DelayElement(m, now), MessageElement(m)])
  }

  function ResultElement(m: Message, queryId: Option<string>, now: string): Element {
    Element("result", With(map["xmlns" := "urn:xmpp:mam:2", "id" := m.id], "queryid", queryId), "",
            [ForwardedElement(m, now)])
  }

  /** The stanza that carries one message of the archive. */
  function Wrapper(m: Message, queryId: Option<string>, to: string, from: string, now: string): Element {
    Element("message", map["to" := to, "from" := from], "", [ResultElement(m, queryId, now)])
  }

  function DelayFrom(delay: Option<Element>): Option<Delay> {
    if delay.Some? && NonEmpty(Attr(delay.value, "stamp")).Some? then
      Some(Delay(delay.value.attrs["stamp"], Attr(delay.value, "from")))
    else None
  }

  /** The message that `handleIncomingMamResult` takes from a stanza. */
  function ReceivedFrom(e: Element): Option<Message> {
    var result := FirstNamed(e.children, "result");
    if result.None? then None
    else
      var forwarded := FirstNamed(result.value.children, "forwarded");
      if forwarded.None? then None
      else
        var inner := FirstNamed(forwarded.value.children, "message");
        if inner.None? then None
        else Some(Unpacked(inner.value, FirstNamed(forwarded.value.children, "delay"), Attr(result.value, "id")))
  }

  /** The query that a result answers. */
  function QueryIdOf(e: Element): Option<string> {
    var result := FirstNamed(e.children, "result");
    if result.Some? then Attr(result.value, "queryid") else None
  }

  function Unpacked(inner: Element, delay: Option<Element>, resultId: Option<string>): Message {
    var metadata := Parsed(inner);
    var body := FirstNamed(inner.children, "body");
    var id := NonEmpty(Attr(inner, "id"));
    Message(
      Attr(inner, "from").GetOr(""),
      Attr(inner, "to").GetOr(""),
      if body.Some? then body.value.text else "",
      if id.Some? then id.value else resultId.GetOr(""),
      NonEmpty(Attr(inner, "type")).GetOr("chat"),
      metadata.(delay := if metadata.delay.Some? then metadata.delay else DelayFrom(delay)))
  }

  /** What arrives of a message: receipts, chat state, nick, carbon and the origin of the delay do not. */
  function Copy(m: Message, now: string): Message {
    Message(
      m.from, m.to, m.body, m.id, if m.kind == "" then "chat" else m.kind,
      Metadata(
        None, None, Some(Delay(if Stamped(m) then Stamp(m) else now, None)),
        NonEmpty(m.meta.replace),
        if m.meta.reply.Some? && m.meta.reply.value.id != "" then
          Some(XepHelpers.Reply(m.meta.reply.value.id, NonEmpty(m.meta.reply.value.to)))
        else None,
        Trimmed(m.meta.thread), None, NonEmpty(m.meta.originId), m.meta.stanzaId, None, m.meta.isPrivate))
  }

  lemma BodyFound(m: Message)
    ensures var e := MessageElement(m);
      && BuiltAmong(e, BodyPart(m), OptionsOf(m), [])
      && FirstNamed(e.children, "body") == if m.body == "" then None else Some(Leaf("body", map[], m.body))
  {
    var e := MessageElement(m);
    var o := OptionsOf(m);
    BodyIsNoExtension();
    assert BodyPart(m) + Built(o) + [] == BodyPart(m) + Built(o);
    forall j: nat | j < 10 && Part(o, j).Some?
      ensures Part(o, j).value.name != "body"
    {
      PartNamed(o, j);
    }
    NoPartNamed(o, 10, "body");
    NoneNamed(Built(o), "body");
    FirstNamedAppend(BodyPart(m), Built(o), "body");
  }

  lemma BodyIsNoExtension()
    ensures "body" !in XEP_NAMES
    ensures forall j | 0 <= j < 10 :: PART_NAMES[j] != "body"
  {
    assert "body"[0] == 'b';
  }

  lemma UnpacksAsCopy(m: Message, now: string)
    requires now != ""
    ensures Unpacked(MessageElement(m), Some(DelayElement(m, now)), Some(m.id)) == Copy(m, now)
  {
    BodyFound(m);
    BuildThenParse(MessageElement(m), BodyPart(m), OptionsOf(m), []);
  }

  lemma PairFound(delay: Element, inner: Element)
    requires delay.name == "delay" && inner.name == "message"
    ensures FirstNamed([delay, inner], "delay") == Some(delay)
    ensures FirstNamed([delay, inner], "message") == Some(inner)
  {
    assert [delay, inner][1..] == [inner];
    assert FirstNamed([inner], "message") == Some(inner);
  }

  lemma OneFound(e: Element)
    ensures FirstNamed([e], e.name) == Some(e)
  {
  }

  lemma ResultAttributes(m: Message, queryId: Option<string>, now: string)
    ensures Attr(ResultElement(m, queryId, now), "id") == Some(m.id)
    ensures Attr(ResultElement(m, queryId, now), "queryid") == queryId
    ensures Attr(ResultElement(m, queryId, now), "xmlns") == Some("urn:xmpp:mam:2")
    ensures Attr(ForwardedElement(m, now), "xmlns") == Some("urn:xmpp:forward:0")
    ensures Attr(DelayElement(m, now), "xmlns") == Some("urn:xmpp:delay")
  {
  }

  /** What the receiver takes from the stanza of a message is its copy. */
  lemma ArrivesAsCopy(m: Message, queryId: Option<string>, to: string, from: string, now: string)
    requires now != ""
    ensures ReceivedFrom(Wrapper(m, queryId, to, from, now)) == Some(Copy(m, now))
    ensures QueryIdOf(Wrapper(m, queryId, to, from, now)) == queryId
  {
    UnpacksAsCopy(m, now);
    PairFound(DelayElement(m, now), MessageElement(m));
    OneFound(ForwardedElement(m, now));
    OneFound(ResultElement(m, queryId, now));
    ResultAttributes(m, queryId, now);
  }

  // ---------------------------------------------------------------- what a copy keeps

  /** A message all of which can be carried. */
  predicate Carried(m: Message) {
    && m.kind != ""
    && m.meta.receipt.None? && m.meta.chatState.None? && m.meta.nick.None? && m.meta.carbon.None?
    && Stamped(m) && m.meta.delay.value.from.None?
    && m.meta.replace != Some("")
    && (m.meta.reply.Some? ==> m.meta.reply.value.id != "" && m.meta.reply.value.to != Some(""))
    && (m.meta.thread.Some? ==> m.meta.thread.value != "" && Text.IsTrimmed(m.meta.thread.value))
    && m.meta.originId != Some("")
  }

  /** A copy is the message itself exactly when all of it can be carried. */
  lemma CopyIsSameIff(m: Message, now: string)
    requires now != ""
    ensures Copy(m, now) == m <==> Carried(m)
  {
    if m.meta.thread.Some? {
      Text.TrimTrims(m.meta.thread.value);
    }
  }

  /** A copy of a copy is that copy, at any later time. */
  lemma CopyOfCopy(m: Message, now: string, later: string)
    requires now != "" && later != ""
    ensures Carried(Copy(m, now)) && Copy(Copy(m, now), later) == Copy(m, now)
  {
    if m.meta.thread.Some? {
      Text.TrimTrims(m.meta.thread.value);
    }
    CopyIsSameIff(Copy(m, now), later);
  }

  /** A copy keeps the key of a message that has an id or a time stamp. */
  predicate KeepsKey(m: Message) {
    m.id != "" || Stamped(m)
  }

  lemma CopyKeepsKeyIff(m: Message, now: string)
    requires now != ""
    ensures KeyOf(Copy(m, now)) == KeyOf(m) <==> KeepsKey(m)
  {
    if !KeepsKey(m) {
      assert |KeyOf(Copy(m, now))| == |KeyOf(m)| + |now|;
    }
  }

  function Copies(ms: seq<Message>, now: string): (copies: seq<Message>)
    ensures |copies| == |ms|
    ensures forall i | 0 <= i < |ms| :: copies[i] == Copy(ms[i], now)
  {
    seq(|ms|, i requires 0 <= i < |ms| => Copy(ms[i], now))
  }

  function Keys(ms: seq<Message>): (keys: seq<string>)
    ensures |keys| == |ms|
    ensures forall i | 0 <= i < |ms| :: keys[i] == KeyOf(ms[i])
  {
    seq(|ms|, i requires 0 <= i < |ms| => KeyOf(ms[i]))
  }

  lemma CopiesKeepKeys(ms: seq<Message>, now: string)
    requires forall m | m in ms :: KeepsKey(m)
    ensures Keys(Copies(ms, now)) == Keys(ms)
  {
    forall i | 0 <= i < |ms|
      ensures KeyOf(Copy(ms[i], now)) == KeyOf(ms[i])
    {
      assert ms[i] in ms;
    }
  }

  // ---------------------------------------------------------------- recording what arrives

  lemma RecordAllStep(h: History, ms: seq<Message>, n: nat)
    requires 0 < n <= |ms|
    ensures RecordAll(h, ms[..n]) == Record(RecordAll(h, ms[..n - 1]), ms[n - 1])
  {
    assert ms[..n][..n - 1] == ms[..n - 1];
  }

  lemma RecordFits(h: History, m: Message)
    requires Size(Set(h, KeyOf(m), m)) <= CHAT_HISTORY_LIMIT
    ensures Record(h, m) == Set(h, KeyOf(m), m)
  {
  }

  lemma FreshNext(h: History, ms: seq<Message>, n: nat, t: History)
    requires 0 < n <= |ms| <= CHAT_HISTORY_LIMIT && Distinct(Keys(ms))
    requires h.keys == Keys(ms)[..n - 1] && Values(h) == ms[..n - 1]
    requires t == Record(h, ms[n - 1])
    ensures t.keys == Keys(ms)[..n] && Values(t) == ms[..n]
  {
    RecordFits(h, ms[n - 1]);
    SetNext(h, Keys(ms), ms, n, t);
  }

  lemma {:induction false} RecordedFreshPrefix(ms: seq<Message>, n: nat)
    requires n <= |ms| <= CHAT_HISTORY_LIMIT && Distinct(Keys(ms))
    ensures RecordAll(Empty(), ms[..n]).keys == Keys(ms)[..n] && Values(RecordAll(Empty(), ms[..n])) == ms[..n]
    decreases n
  {
    if n == 0 {
    } else {
      RecordedFreshPrefix(ms, n - 1);
      RecordAllStep(Empty(), ms, n);
      FreshNext(RecordAll(Empty(), ms[..n - 1]), ms, n, RecordAll(Empty(), ms[..n]));
    }
  }

  /** Recorded into an empty history, messages with distinct keys are its values, in order. */
  lemma RecordedFresh(ms: seq<Message>)
    requires |ms| <= CHAT_HISTORY_LIMIT && Distinct(Keys(ms))
    ensures RecordAll(Empty(), ms).keys == Keys(ms) && Values(RecordAll(Empty(), ms)) == ms
  {
    RecordedFreshPrefix(ms, |ms|);
    TakeAll(ms);
    TakeAll(Keys(ms));
  }

  // ---------------------------------------------------------------- replaying an archive

  lemma WantedMeans(ms: seq<Message>, with: Option<string>)
    ensures forall m :: m in Wanted(ms, with) <==> m in ms && Matches(m, with)
    ensures |Wanted(ms, with)| <= |ms|
    ensures with.None? ==> Wanted(ms, with) == ms
  {
    FilterMeans(ms, Matching(with));
    if with.None? {
      FilterAll(ms, Matching(with));
    }
  }

  lemma KeyIsNew(keys: seq<string>, k: string)
    requires Distinct(keys + [k])
    ensures k !in keys && Distinct(keys)
  {
    var all := keys + [k];
    assert all[|keys|] == k;
    assert forall i | 0 <= i < |keys| :: all[i] == keys[i];
  }

  lemma WantedKeyIsNew(ms: seq<Message>, with: Option<string>, m: Message)
    requires KeyOf(m) !in Keys(ms)
    ensures KeyOf(m) !in Keys(Wanted(ms, with))
  {
    WantedMeans(ms, with);
    var w := Wanted(ms, with);
    forall i | 0 <= i < |w|
      ensures KeyOf(w[i]) != KeyOf(m)
    {
      assert w[i] in w;
      var j :| 0 <= j < |ms| && ms[j] == w[i];
      assert Keys(ms)[j] in Keys(ms);
    }
  }

  lemma {:induction false} WantedKeysDistinct(ms: seq<Message>, with: Option<string>)
    requires Distinct(Keys(ms))
    ensures Distinct(Keys(Wanted(ms, with)))
    decreases |ms|
  {
    if ms == [] {
    } else {
      var most, m := ms[..|ms| - 1], ms[|ms| - 1];
      assert Keys(ms) == Keys(most) + [KeyOf(m)];
      KeyIsNew(Keys(most), KeyOf(m));
      WantedKeysDistinct(most, with);
      WantedKeyIsNew(most, with, m);
      var w := Wanted(most, with);
      if Matches(m, with) {
        assert Keys(Wanted(ms, with)) == Keys(w) + [KeyOf(m)];
      } else {
        assert w + [] == w;
      }
    }
  }

  lemma ArchiveKeys(h: History)
    requires IsArchive(h)
    ensures Keys(Values(h)) == h.keys && Distinct(Keys(Values(h)))
  {
    forall i | 0 <= i < |h.keys|
      ensures KeyOf(Values(h)[i]) == h.keys[i]
    {
      assert h.keys[i] in h.keys;
    }
  }

  /** The stanzas that answer a query. */
  function Answers(ms: seq<Message>, queryId: Option<string>, to: string, from: string, now: string): (es: seq<Element>)
    ensures |es| == |ms|
    ensures forall i | 0 <= i < |ms| :: es[i] == Wrapper(ms[i], queryId, to, from, now)
  {
    seq(|ms|, i requires 0 <= i < |ms| => Wrapper(ms[i], queryId, to, from, now))
  }

  /** The history of a node that receives stanzas, one after the other. */
  function ReceiveAll(h: History, es: seq<Element>): History
    decreases |es|
  {
    if es == [] then h
    else
      var before := ReceiveAll(h, es[..|es| - 1]);
      match ReceivedFrom(es[|es| - 1])
      case None => before
      case Some(m) => Record(before, m)
  }

  /** What another node's history becomes when an archive is replayed into it. */
  function Replayed(into: History, archive: History, with: Option<string>, now: string): History {
    RecordAll(into, Copies(Wanted(Values(archive), with), now))
  }

  lemma WantedFits(archive: History, with: Option<string>)
    requires IsArchive(archive)
    ensures var wanted := Wanted(Values(archive), with);
      && |wanted| <= CHAT_HISTORY_LIMIT && Distinct(Keys(wanted))
      && (forall m :: m in wanted <==> m in Values(archive) && Matches(m, with))
  {
    ArchiveKeys(archive);
    WantedKeysDistinct(Values(archive), with);
    WantedMeans(Values(archive), with);
  }

  lemma ReceiveStep(h: History, es: seq<Element>, n: nat, m: Message)
    requires 0 < n <= |es| && ReceivedFrom(es[n - 1]) == Some(m)
    ensures ReceiveAll(h, es[..n]) == Record(ReceiveAll(h, es[..n - 1]), m)
  {
    TakeOneMore(es, n);
  }

  lemma {:induction false} ReceivingPrefix(h: History, es: seq<Element>, copies: seq<Message>, n: nat)
    requires n <= |es| == |copies|
    requires forall i | 0 <= i < |es| :: ReceivedFrom(es[i]) == Some(copies[i])
    ensures ReceiveAll(h, es[..n]) == RecordAll(h, copies[..n])
    decreases n
  {
    if n == 0 {
    } else {
      ReceivingPrefix(h, es, copies, n - 1);
      ReceiveStep(h, es, n, copies[n - 1]);
      RecordAllStep(h, copies, n);
    }
  }

  /** Receiving the answers to a query is that replay. */
  lemma ReceivingAnswers(h: History, ms: seq<Message>, queryId: Option<string>, to: string, from: string, now: string)
    requires now != ""
    ensures ReceiveAll(h, Answers(ms, queryId, to, from, now)) == RecordAll(h, Copies(ms, now))
  {
    var es, copies := Answers(ms, queryId, to, from, now), Copies(ms, now);
    forall i | 0 <= i < |es|
      ensures ReceivedFrom(es[i]) == Some(copies[i])
    {
      ArrivesAsCopy(ms[i], queryId, to, from, now);
    }
    ReceivingPrefix(h, es, copies, |es|);
    TakeAll(es);
    TakeAll(copies);
  }

  /**
   * Replaying into an empty history gives copies of exactly the wanted messages, in order
   * and under their own keys.
   */
  lemma ReplayReproduces(archive: History, with: Option<string>, now: string)
    requires IsArchive(archive)
    requires forall m | m in Values(archive) && Matches(m, with) :: KeepsKey(m)
    ensures var r, wanted := Replayed(Empty(), archive, with, now), Wanted(Values(archive), with);
      && Values(r) == Copies(wanted, now)
      && r.keys == Keys(wanted)
  {
    var wanted := Wanted(Values(archive), with);
    WantedFits(archive, with);
    CopiesKeepKeys(wanted, now);
    RecordedFresh(Copies(wanted, now));
  }

  /** Where all of every wanted message can be carried, the replay reproduces the messages themselves. */
  lemma ReplayIsExact(archive: History, with: Option<string>, now: string)
    requires IsArchive(archive) && now != ""
    requires forall m | m in Values(archive) && Matches(m, with) :: Carried(m)
    ensures Values(Replayed(Empty(), archive, with, now)) == Wanted(Values(archive), with)
  {
    var wanted := Wanted(Values(archive), with);
    WantedFits(archive, with);
    ReplayReproduces(archive, with, now);
    forall i | 0 <= i < |wanted|
      ensures Copy(wanted[i], now) == wanted[i]
    {
      assert wanted[i] in wanted;
      CopyIsSameIff(wanted[i], now);
    }
  }
}
