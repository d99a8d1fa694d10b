/**
 * Extension elements of a message: building and parsing them (src/core/xmpp-xep-helpers.ts:46-235).
 * An element holds its direct text and its child elements; a missing attribute is absent.
 */
module XepHelpers {
  import opened Wrappers
  import opened Text

  const RECEIPTS_XMLNS := "urn:xmpp:receipts"
  const CHATSTATES_XMLNS := "urn:xmpp:chatstates"
  const DELAY_XMLNS := "urn:xmpp:delay"
  const CORRECT_XMLNS := "urn:xmpp:message-correct:0"
  const REPLY_XMLNS := "urn:xmpp:reply:0"
  const NICK_XMLNS := "http://jabber.org/protocol/nick"
  const SID_XMLNS := "urn:xmpp:sid:0"
  const CARBONS_XMLNS := "urn:xmpp:carbons:2"
  const FORWARD_XMLNS := "urn:xmpp:forward:0"

  datatype Element = Element(name: string, attrs: map<string, string>, text: string, children: seq<Element>)

  datatype Receipt = ReceiptRequest(id: string) | ReceiptReceived(receivedId: Option<string>)

  datatype ChatState = Active | Composing | Paused | Inactive | Gone

  datatype Delay = Delay(stamp: string, from: Option<string>)

  datatype Reply = Reply(id: string, to: Option<string>)

  datatype StanzaId = StanzaId(id: Option<string>, assigner: Option<string>)

  datatype Carbon = CarbonSent(message: Element) | CarbonReceived(message: Element)

  datatype Metadata = Metadata(
    receipt: Option<Receipt>,
    chatState: Option<ChatState>,
    delay: Option<Delay>,
    replace: Option<string>,
    reply: Option<Reply>,
    thread: Option<string>,
    nick: Option<string>,
    originId: Option<string>,
    stanzaId: Option<StanzaId>,
    carbon: Option<Carbon>,
    isPrivate: bool)

  datatype Options = Options(
    replace: Option<string>,
    reply: Option<Reply>,
    thread: Option<string>,
    requestReceipt: bool,
    chatState: Option<ChatState>,
    delay: Option<Delay>,
    nick: Option<string>,
    originId: Option<string>,
    stanzaId: Option<StanzaId>,
    isPrivate: bool)

  // ---------------------------------------------------------------- elements

  function Attr(e: Element, name: string): Option<string> {
    if name in e.attrs then Some(e.attrs[name]) else None
  }

  function With(attrs: map<string, string>, name: string, value: Option<string>): map<string, string> {
    if value.Some? then attrs[name := value.value] else attrs
  }

  /** JavaScript's truth of a string: a missing or empty one is false. */
  function NonEmpty(s: Option<string>): Option<string> {
    if s == Some("") then None else s
  }

  function FirstNamed(children: seq<Element>, name: string): Option<Element> {
    if children == [] then None
    else if children[0].name == name then Some(children[0])
    else FirstNamed(children[1..], name)
  }

  /** `e` is the first of `es` with its name. */
  ghost predicate IsFirst(es: seq<Element>, name: string, e: Element) {
    e.name == name && exists i | 0 <= i < |es| :: es[i] == e && forall j | 0 <= j < i :: es[j].name != name
  }

  lemma {:induction false} FirstNamedIff(es: seq<Element>, name: string, e: Element)
    ensures FirstNamed(es, name) == Some(e) <==> IsFirst(es, name, e)
    ensures FirstNamed(es, name) == None <==> forall x | x in es :: x.name != name
  {
    if es == [] {
    } else {
      FirstNamedIff(es[1..], name, e);
      FirstOfRest(es, name, e);
      assert es == [es[0]] + es[1..];
    }
  }

  lemma FirstOfRest(es: seq<Element>, name: string, e: Element)
    requires es != []
    ensures IsFirst(es, name, e) <==> if es[0].name == name then es[0] == e else IsFirst(es[1..], name, e)
  {
    if es[0].name != name && IsFirst(es[1..], name, e) {
      var i :| 0 <= i < |es[1..]| && es[1..][i] == e && forall j | 0 <= j < i :: es[1..][j].name != name;
      assert es[i + 1] == e && forall j | 0 <= j < i + 1 :: es[j].name != name;
    }
    if es[0].name != name && IsFirst(es, name, e) {
      var i :| 0 <= i < |es| && es[i] == e && forall j | 0 <= j < i :: es[j].name != name;
      assert es[1..][i - 1] == e && forall j | 0 <= j < i - 1 :: es[1..][j].name != name;
    }
  }

  /** `getChild`, and then a look at its namespace. */
  function ChildIn(e: Element, name: string, xmlns: string): Option<Element> {
    var child := FirstNamed(e.children, name);
    if child.Some? && Attr(child.value, "xmlns") == Some(xmlns) then child else None
  }

  /** Trimmed, and absent if nothing is left. */
  function Trimmed(s: Option<string>): Option<string> {
    match s
    case None => None
    case Some(text) => if Trim(text) == "" then None else Some(Trim(text))
  }

  function TrimmedText(e: Option<Element>): Option<string> {
    Trimmed(if e.Some? then Some(e.value.text) else None)
  }

  lemma TrimmedTwice(s: Option<string>)
    ensures Trimmed(Trimmed(s)) == Trimmed(s)
  {
    if s.Some? {
      TrimTrims(s.value);
    }
  }

  // ---------------------------------------------------------------- parsing

  function StateName(state: ChatState): string {
    match state
    case Active => "active"
    case Composing => "composing"
    case Paused => "paused"
    case Inactive => "inactive"
    case Gone => "gone"
  }

  const CHAT_STATES := [Active, Composing, Paused, Inactive, Gone]

  function FirstState(e: Element, states: seq<ChatState>): Option<ChatState> {
    if states == [] then None
    else if ChildIn(e, StateName(states[0]), CHATSTATES_XMLNS).Some? then Some(states[0])
    else FirstState(e, states[1..])
  }

  /** The message a carbon wraps. */
  function Forwarded(wrapper: Element): Option<Element> {
    var forwarded := ChildIn(wrapper, "forwarded", FORWARD_XMLNS);
    if forwarded.Some? then FirstNamed(forwarded.value.children, "message") else None
  }

  /** One `received` child: a receipt, a carbon, or neither. */
  function NextReceived(found: (Option<Receipt>, Option<Carbon>), child: Element): (Option<Receipt>, Option<Carbon>) {
    if child.name != "received" then found
    else if Attr(child, "xmlns") == Some(RECEIPTS_XMLNS) then (Some(ReceiptReceived(Attr(child, "id"))), found.1)
    else if Attr(child, "xmlns") == Some(CARBONS_XMLNS) && Forwarded(child).Some? then
      (found.0, Some(CarbonReceived(Forwarded(child).value)))
    else found
  }

  function ReceivedOf(start: Option<Receipt>, children: seq<Element>): (Option<Receipt>, Option<Carbon>)
    decreases |children|
  {
    if children == [] then (start, None)
    else NextReceived(ReceivedOf(start, children[..|children| - 1]), children[|children| - 1])
  }

  function RequestOf(e: Element): Option<Receipt> {
    var id := NonEmpty(Attr(e, "id"));
    if ChildIn(e, "request", RECEIPTS_XMLNS).Some? && id.Some? then Some(ReceiptRequest(id.value)) else None
  }

  function DelayOf(e: Element): Option<Delay> {
    var delay := ChildIn(e, "delay", DELAY_XMLNS);
    if delay.Some? && NonEmpty(Attr(delay.value, "stamp")).Some? then
      Some(Delay(delay.value.attrs["stamp"], Attr(delay.value, "from")))
    else None
  }

  function ReplyOf(e: Element): Option<Reply> {
    var reply := ChildIn(e, "reply", REPLY_XMLNS);
    if reply.Some? && NonEmpty(Attr(reply.value, "id")).Some? then
      Some(Reply(reply.value.attrs["id"], Attr(reply.value, "to")))
    else None
  }

  function IdOf(e: Element, name: string, xmlns: string): Option<string> {
    var child := ChildIn(e, name, xmlns);
    if child.Some? then Attr(child.value, "id") else None
  }

  function StanzaIdOf(e: Element): Option<StanzaId> {
    var child := ChildIn(e, "stanza-id", SID_XMLNS);
    if child.Some? then Some(StanzaId(Attr(child.value, "id"), Attr(child.value, "by"))) else None
  }

  function CarbonOf(e: Element): Option<Carbon> {
    var sent := ChildIn(e, "sent", CARBONS_XMLNS);
    if sent.Some? && Forwarded(sent.value).Some? then Some(CarbonSent(Forwarded(sent.value).value))
    else ReceivedOf(None, e.children).1
  }

  /** `parseXepMetadata`. */
  function Parsed(e: Element): Metadata {
    Metadata(
      ReceivedOf(RequestOf(e), e.children).0,
      FirstState(e, CHAT_STATES),
      DelayOf(e),
      IdOf(e, "replace", CORRECT_XMLNS),
      ReplyOf(e),
      TrimmedText(FirstNamed(e.children, "thread")),
      TrimmedText(ChildIn(e, "nick", NICK_XMLNS)),
      IdOf(e, "origin-id", SID_XMLNS),
      StanzaIdOf(e),
      CarbonOf(e),
      ChildIn(e, "private", CARBONS_XMLNS).Some?)
  }

  // ---------------------------------------------------------------- building

  function Leaf(name: string, attrs: map<string, string>, text: string): Element {
    Element(name, attrs, text, [])
  }

  function When(c: bool, e: Element): Option<Element> {
    if c then Some(e) else None
  }

  function DelayPart(delay: Delay): Element {
    Leaf("delay", With(map["xmlns" := DELAY_XMLNS, "stamp" := delay.stamp], "from", NonEmpty(delay.from)), "")
  }

  function ReplyPart(reply: Reply): Element {
    Leaf("reply", With(map["xmlns" := REPLY_XMLNS, "id" := reply.id], "to", NonEmpty(reply.to)), "")
  }

  function StanzaIdPart(sid: StanzaId): Element {
    Leaf("stanza-id", With(With(map["xmlns" := SID_XMLNS], "id", sid.id), "by", sid.assigner), "")
  }

  /** The element `buildXepElements` pushes in its turn `i`, if any. */
  function Part(o: Options, i: nat): Option<Element> {
    match i
    case 0 => When(o.isPrivate, Leaf("private", map["xmlns" := CARBONS_XMLNS], ""))
    case 1 => When(o.requestReceipt, Leaf("request", map["xmlns" := RECEIPTS_XMLNS], ""))
    case 2 =>
      if o.chatState.None? then None
      else Some(Leaf(StateName(o.chatState.value), map["xmlns" := CHATSTATES_XMLNS], ""))
    case 3 => if o.delay.None? then None else Some(DelayPart(o.delay.value))
    case 4 =>
      if NonEmpty(o.replace).None? then None
      else Some(Leaf("replace", map["xmlns" := CORRECT_XMLNS, "id" := o.replace.value], ""))
    case 5 => if o.reply.None? then None else Some(ReplyPart(o.reply.value))
    case 6 => if NonEmpty(o.thread).None? then None else Some(Leaf("thread", map[], o.thread.value))
    case 7 => if NonEmpty(o.nick).None? then None else Some(Leaf("nick", map["xmlns" := NICK_XMLNS], o.nick.value))
    case 8 =>
      if NonEmpty(o.originId).None? then None
      else Some(Leaf("origin-id", map["xmlns" := SID_XMLNS, "id" := o.originId.value], ""))
    case 9 => if o.stanzaId.None? then None else Some(StanzaIdPart(o.stanzaId.value))
    case _ => None
  }

  /** What is pushed has no children, and no text but a thread and a nick. */
  lemma PartsAreLeaves(o: Options, i: nat)
    requires i < 10 && Part(o, i).Some?
    ensures Part(o, i).value.children == []
    ensures Part(o, i).value.text ==
            if i == 6 then o.thread.GetOr("") else if i == 7 then o.nick.GetOr("") else ""
  {
  }

  function Pushed(part: Option<Element>): seq<Element> {
    if part.Some? then [part.value] else []
  }

  function FirstParts(o: Options, n: nat): seq<Element> {
    if n == 0 then [] else FirstParts(o, n - 1) + Pushed(Part(o, n - 1))
  }

  function Built(o: Options): seq<Element> {
    FirstParts(o, 10)
  }

  // ---------------------------------------------------------------- build, then parse

  /** The names the parser looks at. */
  const XEP_NAMES: set<string> := {
    "request", "received", "active", "composing", "paused", "inactive", "gone", "delay", "replace", "reply",
    "thread", "nick", "origin-id", "stanza-id", "private", "sent"}

  lemma {:induction false} FirstNamedAppend(a: seq<Element>, b: seq<Element>, name: string)
    ensures FirstNamed(a + b, name) == if FirstNamed(a, name).Some? then FirstNamed(a, name) else FirstNamed(b, name)
  {
    if a == [] {
      assert a + b == b;
    } else {
      assert (a + b)[1..] == a[1..] + b;
      FirstNamedAppend(a[1..], b, name);
    }
  }

  lemma {:induction false} NoneNamed(children: seq<Element>, name: string)
    requires forall c | c in children :: c.name != name
    ensures FirstNamed(children, name).None?
  {
    if children == [] {
    } else {
      NoneNamed(children[1..], name);
    }
  }

  lemma PushedFound(part: Option<Element>, name: string)
    ensures FirstNamed(Pushed(part), name) == if part.Some? && part.value.name == name then part else None
  {
  }

  /** Where only part `i` may be called `name`, it is found if it is there. */
  lemma {:induction false} FirstOfParts(o: Options, n: nat, name: string, i: nat)
    requires forall j: nat | j < n && j != i && Part(o, j).Some? :: Part(o, j).value.name != name
    ensures FirstNamed(FirstParts(o, n), name) ==
            if i < n && Part(o, i).Some? && Part(o, i).value.name == name then Part(o, i) else None
  {
    if n == 0 {
    } else {
      FirstOfParts(o, n - 1, name, i);
      FirstNamedAppend(FirstParts(o, n - 1), Pushed(Part(o, n - 1)), name);
      PushedFound(Part(o, n - 1), name);
    }
  }

  lemma {:induction false} NoPartNamed(o: Options, n: nat, name: string)
    requires forall j: nat | j < n && Part(o, j).Some? :: Part(o, j).value.name != name
    ensures forall c | c in FirstParts(o, n) :: c.name != name
  {
    if n == 0 {
    } else {
      NoPartNamed(o, n - 1, name);
    }
  }

  /** The place of a name among the parts; the chat states share one. */
  function PartOf(name: string): nat {
    if name == "private" then 0
    else if name == "request" then 1
    else if name == "delay" then 3
    else if name == "replace" then 4
    else if name == "reply" then 5
    else if name == "thread" then 6
    else if name == "nick" then 7
    else if name == "origin-id" then 8
    else if name == "stanza-id" then 9
    else 2
  }

  const PART_NAMES: seq<string> :=
    ["private", "request", "chat state", "delay", "replace", "reply", "thread", "nick", "origin-id", "stanza-id"]

  lemma PartNamed(o: Options, j: nat)
    requires j < 10 && Part(o, j).Some?
    ensures if j == 2 then o.chatState.Some? && Part(o, j).value.name == StateName(o.chatState.value)
            else Part(o, j).value.name == PART_NAMES[j]
  {
    match j
    case 0 =>
    case 1 =>
    case 2 =>
    case 3 =>
    case 4 =>
    case 5 =>
    case 6 =>
    case 7 =>
    case 8 =>
    case 9 =>
  }

  lemma LiteralsApart(j: nat)
    requires j < 10
    ensures PartOf(PART_NAMES[j]) == j
    ensures PART_NAMES[j] != "received" && PART_NAMES[j] != "sent"
  {
    assert "private"[0] != "request"[0] && "private"[0] != "replace"[0] && "request"[2] != "replace"[2];
    assert "delay"[0] != "reply"[0];
    assert "origin-id"[0] != "stanza-id"[0];
    assert "nick"[0] != "sent"[0];
  }

  lemma PartsAreInPlace(o: Options, j: nat)
    requires j < 10 && Part(o, j).Some?
    ensures PartOf(Part(o, j).value.name) == j
    ensures Part(o, j).value.name != "received" && Part(o, j).value.name != "sent"
  {
    PartNamed(o, j);
    if j == 2 {
      StateNamesApart(o.chatState.value);
    } else {
      LiteralsApart(j);
    }
  }

  lemma StateNamesApart(state: ChatState)
    ensures PartOf(StateName(state)) == 2
    ensures StateName(state) != "received" && StateName(state) != "sent"
  {
    var s := StateName(state);
    assert s[0] in ['a', 'c', 'p', 'i', 'g'];
    assert s[0] == 'p' ==> |s| == 6;
  }

  /** Built among other elements: none before or after has a name the parser looks at. */
  ghost predicate BuiltAmong(e: Element, before: seq<Element>, o: Options, after: seq<Element>) {
    && e.children == before + Built(o) + after
    && (forall c | c in before + after :: c.name !in XEP_NAMES)
  }

  lemma OtherPartsDiffer(o: Options, name: string, j: nat)
    requires j < 10 && j != PartOf(name) && Part(o, j).Some?
    ensures Part(o, j).value.name != name
  {
    PartsAreInPlace(o, j);
  }

  lemma FoundAmong(before: seq<Element>, built: seq<Element>, after: seq<Element>, name: string)
    requires forall c | c in before + after :: c.name != name
    ensures FirstNamed(before + built + after, name) == FirstNamed(built, name)
  {
    FirstNamedAppend(before + built, after, name);
    FirstNamedAppend(before, built, name);
    assert forall c | c in before :: c in before + after;
    assert forall c | c in after :: c in before + after;
    NoneNamed(before, name);
    NoneNamed(after, name);
  }

  /** The parser finds of each name what was built, or nothing. */
  lemma FoundAsBuilt(e: Element, before: seq<Element>, o: Options, after: seq<Element>, name: string)
    requires BuiltAmong(e, before, o, after) && name in XEP_NAMES
    ensures PartOf(name) < 10
    ensures var part := Part(o, PartOf(name));
      FirstNamed(e.children, name) == if part.Some? && part.value.name == name then part else None
  {
    FoundAmong(before, Built(o), after, name);
    PartFound(o, name);
  }

  lemma PartFound(o: Options, name: string)
    ensures PartOf(name) < 10
    ensures var part := Part(o, PartOf(name));
      FirstNamed(Built(o), name) == if part.Some? && part.value.name == name then part else None
  {
    forall j: nat | j < 10 && j != PartOf(name) && Part(o, j).Some?
      ensures Part(o, j).value.name != name
    {
      OtherPartsDiffer(o, name, j);
    }
    FirstOfParts(o, 10, name, PartOf(name));
  }

  /** Under the name of part `j` the parser finds that part. */
  lemma NamedPartFound(e: Element, before: seq<Element>, o: Options, after: seq<Element>, j: nat)
    requires BuiltAmong(e, before, o, after) && j < 10 && j != 2
    ensures FirstNamed(e.children, PART_NAMES[j]) == Part(o, j)
  {
    LiteralsApart(j);
    NamesKnown(j);
    FoundAsBuilt(e, before, o, after, PART_NAMES[j]);
    if Part(o, j).Some? {
      PartNamed(o, j);
    }
  }

  lemma NamesKnown(j: nat)
    requires j < 10 && j != 2
    ensures PART_NAMES[j] in XEP_NAMES
  {
  }

  lemma {:induction false} NothingReceived(start: Option<Receipt>, children: seq<Element>)
    requires forall c | c in children :: c.name != "received"
    ensures ReceivedOf(start, children) == (start, None)
    decreases |children|
  {
    if children == [] {
    } else {
      NothingReceived(start, children[..|children| - 1]);
    }
  }

  lemma BuiltReceivesNothing(e: Element, before: seq<Element>, o: Options, after: seq<Element>)
    requires BuiltAmong(e, before, o, after)
    ensures forall c | c in e.children :: c.name != "received"
  {
    forall j: nat | j < 10 && Part(o, j).Some?
      ensures Part(o, j).value.name != "received"
    {
      PartsAreInPlace(o, j);
    }
    NoPartNamed(o, 10, "received");
    forall c | c in e.children
      ensures c.name != "received"
    {
      assert c in before + after || c in Built(o);
      assert "received" in XEP_NAMES;
    }
  }

  /** What parsing gives back of what was built into an element with this id. */
  function NormalForm(o: Options, id: Option<string>): Metadata {
    Metadata(
      if o.requestReceipt && NonEmpty(id).Some? then Some(ReceiptRequest(id.value)) else None,
      o.chatState,
      if o.delay.Some? && o.delay.value.stamp != "" then Some(Delay(o.delay.value.stamp, NonEmpty(o.delay.value.from))) else None,
      NonEmpty(o.replace),
      if o.reply.Some? && o.reply.value.id != "" then Some(Reply(o.reply.value.id, NonEmpty(o.reply.value.to))) else None,
      Trimmed(o.thread),
      Trimmed(o.nick),
      NonEmpty(o.originId),
      o.stanzaId,
      None,
      o.isPrivate)
  }

  lemma StateFound(e: Element, before: seq<Element>, o: Options, after: seq<Element>)
    requires BuiltAmong(e, before, o, after)
    ensures FirstState(e, CHAT_STATES) == o.chatState
  {
    forall state: ChatState
      ensures ChildIn(e, StateName(state), CHATSTATES_XMLNS).Some? <==> o.chatState == Some(state)
    {
      StateNamesApart(state);
      FoundAsBuilt(e, before, o, after, StateName(state));
      if o.chatState.Some? {
        StatesApart(state, o.chatState.value);
      }
    }
    FirstStateIs(e, o.chatState);
  }

  lemma StatesApart(a: ChatState, b: ChatState)
    ensures StateName(a) == StateName(b) <==> a == b
  {
    assert StateName(a)[0] == StateName(b)[0] ==> a == b;
  }

  lemma FirstStateIs(e: Element, found: Option<ChatState>)
    requires forall state: ChatState :: ChildIn(e, StateName(state), CHATSTATES_XMLNS).Some? <==> found == Some(state)
    ensures FirstState(e, CHAT_STATES) == found
  {
    assert CHAT_STATES[1..] == [Composing, Paused, Inactive, Gone];
    assert CHAT_STATES[1..][1..] == [Paused, Inactive, Gone];
    assert CHAT_STATES[1..][1..][1..] == [Inactive, Gone];
    assert CHAT_STATES[1..][1..][1..][1..] == [Gone];
    assert CHAT_STATES[1..][1..][1..][1..][1..] == [];
    FirstStateMeans(e, CHAT_STATES, found);
  }

  lemma {:induction false} FirstStateMeans(e: Element, states: seq<ChatState>, found: Option<ChatState>)
    requires forall state: ChatState :: ChildIn(e, StateName(state), CHATSTATES_XMLNS).Some? <==> found == Some(state)
    ensures FirstState(e, states) == if found.Some? && found.value in states then found else None
  {
    if states == [] {
    } else {
      FirstStateMeans(e, states[1..], found);
    }
  }

  lemma RequestAndPrivateBack(e: Element, before: seq<Element>, o: Options, after: seq<Element>)
    requires BuiltAmong(e, before, o, after)
    ensures RequestOf(e) == NormalForm(o, Attr(e, "id")).receipt
    ensures ChildIn(e, "private", CARBONS_XMLNS).Some? == o.isPrivate
  {
    NamedPartFound(e, before, o, after, 0);
    NamedPartFound(e, before, o, after, 1);
  }

  lemma DelayBack(e: Element, before: seq<Element>, o: Options, after: seq<Element>)
    requires BuiltAmong(e, before, o, after)
    ensures DelayOf(e) == NormalForm(o, Attr(e, "id")).delay
  {
    NamedPartFound(e, before, o, after, 3);
  }

  lemma ReplyBack(e: Element, before: seq<Element>, o: Options, after: seq<Element>)
    requires BuiltAmong(e, before, o, after)
    ensures ReplyOf(e) == NormalForm(o, Attr(e, "id")).reply
  {
    NamedPartFound(e, before, o, after, 5);
  }

  lemma IdsBack(e: Element, before: seq<Element>, o: Options, after: seq<Element>)
    requires BuiltAmong(e, before, o, after)
    ensures IdOf(e, "replace", CORRECT_XMLNS) == NonEmpty(o.replace)
    ensures IdOf(e, "origin-id", SID_XMLNS) == NonEmpty(o.originId)
    ensures StanzaIdOf(e) == o.stanzaId
  {
    NamedPartFound(e, before, o, after, 4);
    NamedPartFound(e, before, o, after, 8);
    NamedPartFound(e, before, o, after, 9);
  }

  lemma TextsBack(e: Element, before: seq<Element>, o: Options, after: seq<Element>)
    requires BuiltAmong(e, before, o, after)
    ensures TrimmedText(FirstNamed(e.children, "thread")) == NormalForm(o, Attr(e, "id")).thread
    ensures TrimmedText(ChildIn(e, "nick", NICK_XMLNS)) == NormalForm(o, Attr(e, "id")).nick
  {
    NamedPartFound(e, before, o, after, 6);
    NamedPartFound(e, before, o, after, 7);
    assert Trim("") == "";
  }

  lemma NoCarbonBack(e: Element, before: seq<Element>, o: Options, after: seq<Element>)
    requires BuiltAmong(e, before, o, after)
    ensures CarbonOf(e) == None
    ensures ReceivedOf(RequestOf(e), e.children).0 == RequestOf(e)
  {
    assert "sent" in XEP_NAMES;
    FoundAsBuilt(e, before, o, after, "sent");
    var part := Part(o, PartOf("sent"));
    if part.Some? {
      PartsAreInPlace(o, PartOf("sent"));
    }
    BuiltReceivesNothing(e, before, o, after);
    NothingReceived(None, e.children);
    NothingReceived(RequestOf(e), e.children);
  }

  /** Whatever else an element holds, parsing gives the built options back in normal form. */
  lemma BuildThenParse(e: Element, before: seq<Element>, o: Options, after: seq<Element>)
    requires BuiltAmong(e, before, o, after)
    ensures Parsed(e) == NormalForm(o, Attr(e, "id"))
  {
    RequestAndPrivateBack(e, before, o, after);
    StateFound(e, before, o, after);
    DelayBack(e, before, o, after);
    ReplyBack(e, before, o, after);
    IdsBack(e, before, o, after);
    TextsBack(e, before, o, after);
    NoCarbonBack(e, before, o, after);
  }

  /** The options that say again what parsing gave. */
  function Again(m: Metadata): Options {
    Options(m.replace, m.reply, m.thread, m.receipt.Some? && m.receipt.value.ReceiptRequest?, m.chatState, m.delay, m.nick,
            m.originId, m.stanzaId, m.isPrivate)
  }

  /** The normal form is one: building and parsing what was parsed changes nothing more. */
  lemma SecondTripChangesNothing(o: Options, id: Option<string>)
    ensures NormalForm(Again(NormalForm(o, id)), id) == NormalForm(o, id)
  {
    TrimmedTwice(o.thread);
    TrimmedTwice(o.nick);
  }

  // ---------------------------------------------------------------- the methods

  /** The first half of `buildXepElements`. */
  method BuildLeadingElements(o: Options) returns (elements: seq<Element>)
    ensures elements == FirstParts(o, 5)
  {
    elements := [];
    if o.isPrivate {
      elements := elements + [Leaf("private", map["xmlns" := CARBONS_XMLNS], "")];
    }
    assert elements == FirstParts(o, 1);
    if o.requestReceipt {
      elements := elements + [Leaf("request", map["xmlns" := RECEIPTS_XMLNS], "")];
    }
    assert elements == FirstParts(o, 2);
    if o.chatState.Some? {
      elements := elements + [Leaf(StateName(o.chatState.value), map["xmlns" := CHATSTATES_XMLNS], "")];
    }
    assert elements == FirstParts(o, 3);
    if o.delay.Some? {
      elements := elements + [DelayPart(o.delay.value)];
    }
    assert elements == FirstParts(o, 4);
    if NonEmpty(o.replace).Some? {
      elements := elements + [Leaf("replace", map["xmlns" := CORRECT_XMLNS, "id" := o.replace.value], "")];
    }
  }

  /** `buildXepElements`: each present option pushes its element, in a fixed order. */
  method BuildXepElements(o: Options) returns (elements: seq<Element>)
    ensures elements == Built(o)
  {
    elements := BuildLeadingElements(o);
    if o.reply.Some? {
      elements := elements + [ReplyPart(o.reply.value)];
    }
    assert elements == FirstParts(o, 6);
    if NonEmpty(o.thread).Some? {
      elements := elements + [Leaf("thread", map[], o.thread.value)];
    }
    assert elements == FirstParts(o, 7);
    if NonEmpty(o.nick).Some? {
      elements := elements + [Leaf("nick", map["xmlns" := NICK_XMLNS], o.nick.value)];
    }
    assert elements == FirstParts(o, 8);
    if NonEmpty(o.originId).Some? {
      elements := elements + [Leaf("origin-id", map["xmlns" := SID_XMLNS, "id" := o.originId.value], "")];
    }
    assert elements == FirstParts(o, 9);
    if o.stanzaId.Some? {
      elements := elements + [StanzaIdPart(o.stanzaId.value)];
    }
  }

  /** `parseXepMetadata`: the last receipt wins over a request, a sent carbon over a received one. */
  method ParseXepMetadata(e: Element) returns (metadata: Metadata)
    ensures metadata == Parsed(e)
  {
    var receipt := RequestOf(e);
    var carbon: Option<Carbon> := None;
    for i := 0 to |e.children|
      invariant (receipt, carbon) == ReceivedOf(RequestOf(e), e.children[..i])
    {
      var child := e.children[i];
      assert e.children[..i + 1][..i] == e.children[..i];
      if child.name == "received" {
        if Attr(child, "xmlns") == Some(RECEIPTS_XMLNS) {
          receipt := Some(ReceiptReceived(Attr(child, "id")));
        } else if Attr(child, "xmlns") == Some(CARBONS_XMLNS) && Forwarded(child).Some? {
          carbon := Some(CarbonReceived(Forwarded(child).value));
        }
      }
    }
    assert e.children[..|e.children|] == e.children;
    CarbonIgnoresStart(RequestOf(e), None, e.children);

    var chatState: Option<ChatState> := None;
    var states := CHAT_STATES;
    var i := 0;
    while i < |states| && chatState.None?
      invariant i <= |states|
      invariant FirstState(e, CHAT_STATES) == if chatState.Some? then chatState else FirstState(e, states[i..])
    {
      if ChildIn(e, StateName(states[i]), CHATSTATES_XMLNS).Some? {
        chatState := Some(states[i]);
      }
      i := i + 1;
    }
    var sent := ChildIn(e, "sent", CARBONS_XMLNS);
    if sent.Some? && Forwarded(sent.value).Some? {
      carbon := Some(CarbonSent(Forwarded(sent.value).value));
    }
    metadata := Metadata(
      receipt, chatState, DelayOf(e), IdOf(e, "replace", CORRECT_XMLNS), ReplyOf(e),
      TrimmedText(FirstNamed(e.children, "thread")), TrimmedText(ChildIn(e, "nick", NICK_XMLNS)),
      IdOf(e, "origin-id", SID_XMLNS), StanzaIdOf(e), carbon, ChildIn(e, "private", CARBONS_XMLNS).Some?);
  }

  lemma {:induction false} CarbonIgnoresStart(a: Option<Receipt>, b: Option<Receipt>, children: seq<Element>)
    ensures ReceivedOf(a, children).1 == ReceivedOf(b, children).1
    decreases |children|
  {
    if children == [] {
    } else {
      CarbonIgnoresStart(a, b, children[..|children| - 1]);
    }
  }
}
