/**
 * Presence of server contacts, collected from their resources
 * (src/core/xmpp-client-bridge.ts:947-952 and 1160-1271; section 4.7.2.3 of RFC 6121).
 */
module ServerPresence {
  import opened Wrappers
  import opened OrderedMaps
  import opened Jids

  datatype Info = Info(show: Option<string>, status: Option<string>, priority: int)

  /** Inner map: by resource. Outer map: by bare address. No inner map stays empty. */
  type Resources = OrderedMap<string, Info>
  type Table = OrderedMap<string, Resources>

  datatype Item = Item(jid: Option<string>, nick: Option<string>, role: Option<string>, affiliation: Option<string>)

  /** What room presence carries. */
  datatype MucUser = MucUser(statusCodes: seq<string>, item: Option<Item>)

  datatype RoomEvent = RoomEvent(
    room: string, from: string, nick: string, kind: string, server: string, fromSelf: bool, muc: MucUser)

  /** The defined condition of an error, and its text without space at the ends. */
  datatype StanzaError = StanzaError(condition: Option<string>, text: Option<string>)

  /** A missing attribute is empty. `priority` is the number of the priority element, None if it is no integer. */
  datatype Stanza = Stanza(
    from: string, to: string, kind: string, muc: Option<MucUser>,
    show: Option<string>, status: Option<string>, priority: Option<int>, error: StanzaError)

  datatype Event =
    | Contact(from: string, to: string, available: bool, show: Option<string>, status: Option<string>, server: string)
    | SubscribeRequest(from: string, server: string)
    | RoomError(room: string, from: string, nick: string, server: string, error: Option<StanzaError>)
    | DefaultsError(event: RoomEvent, text: string)
    | RoomJoin(event: RoomEvent)
    | RoomLeave(event: RoomEvent)

  // ---------------------------------------------------------------- addresses

  function Bare(full: string): string {
    LowerCase(Before(full, '/'))
  }

  /** `split('@')[1]` of a bare address, or else the domain of the connection. */
  function ServerOf(from: string, domain: string): string {
    var at := IndexOf(from, '@');
    var server := if at == |from| then "" else Before(from[at + 1..], '@');
    if server == "" then domain else server
  }

  /** What a room error tells of the stanza's error: the condition with its text, or a text alone. */
  function ToldError(error: StanzaError): Option<StanzaError> {
    if error.condition.Some? || error.text.GetOr("") != "" then Some(error) else None
  }

  // ---------------------------------------------------------------- one stanza

  datatype Route = ToNobody | ToSubscription | ToRoomError | ToRoom | ToContact

  /** Which branch of `handlePresence` a stanza takes; `own` is the bare address of this account, if known. */
  function RouteOf(own: Option<string>, s: Stanza): Route {
    var from, resource := Bare(s.from), Resource(s.from);
    if from == "" || own == Some(from) then ToNobody
    else if s.kind == "subscribe" then ToSubscription
    else if s.kind == "error" && resource != "" && '@' in from then ToRoomError
    else if s.kind != "" && s.kind != "available" && s.kind != "unavailable" then ToNobody
    else if s.muc.Some? && resource != "" then ToRoom
    else ToContact
  }

  function Clamped(priority: Option<int>): int {
    match priority
    case None => 0
    case Some(p) => if p > 127 then 127 else if p < -128 then -128 else p
  }

  function InfoOf(s: Stanza): Info {
    Info(s.show, s.status, Clamped(s.priority))
  }

  /** The table after a contact's presence. */
  function Updated(t: Table, from: string, resource: string, s: Stanza): Table {
    var resources := if from in t.at then t.at[from] else Empty();
    if s.kind == "unavailable" then
      var left := if resource != "" then Delete(resources, resource) else Empty();
      if Size(left) == 0 then Delete(t, from) else Set(t, from, left)
    else Set(t, from, Set(resources, resource, InfoOf(s)))
  }

  /** `reduce` with a strict comparison: the first of the highest. */
  function Best(infos: seq<Info>): Info
    requires infos != []
    decreases |infos|
  {
    var last := infos[|infos| - 1];
    if |infos| == 1 then last
    else
      var highest := Best(infos[..|infos| - 1]);
      if last.priority > highest.priority then last else highest
  }

  /** What is told of a contact with these resources. */
  function Told(from: string, to: string, server: string, resources: Option<Resources>): Event {
    if resources.Some? && Size(resources.value) > 0 then
      var best := Best(Values(resources.value));
      Contact(from, to, true, best.show, best.status, server)
    else Contact(from, to, false, None, None, server)
  }

  /** The nick an occupant who leaves takes up instead, if any. */
  function ReplacementNick(muc: MucUser): string {
    if "303" in muc.statusCodes && muc.item.Some? then muc.item.value.nick.GetOr("") else ""
  }

  /** What is told of the occupant a room stanza comes from. */
  function RoomEventOf(s: Stanza, domain: string): RoomEvent
    requires s.muc.Some?
  {
    var room, muc := Bare(s.from), s.muc.value;
    RoomEvent(room, s.from, Resource(s.from), if s.kind == "" then "available" else s.kind, ServerOf(room, domain),
              "110" in muc.statusCodes, muc)
  }

  function RoomEvents(s: Stanza, domain: string): seq<Event>
    requires s.muc.Some?
  {
    var event := RoomEventOf(s, domain);
    if s.kind == "unavailable" then
      var next := ReplacementNick(event.muc);
      [RoomLeave(event)]
      + (if next == "" then []
         else [RoomJoin(event.(from := event.room + "/" + next, nick := next, kind := "available", fromSelf := false))])
    else [RoomJoin(event)]
  }

  /** This account has just created the room, and its defaults are not being accepted yet. */
  predicate AcceptsDefaults(own: Option<string>, s: Stanza, configuring: set<string>) {
    && RouteOf(own, s) == ToRoom && s.kind != "unavailable"
    && "110" in s.muc.value.statusCodes && "201" in s.muc.value.statusCodes
    && Bare(s.from) !in configuring
  }

  function RoomErrorOf(s: Stanza, domain: string): Event {
    var room := Bare(s.from);
    RoomError(room, s.from, Resource(s.from), ServerOf(room, domain), ToldError(s.error))
  }

  /** `handlePresence`: the table afterwards, and the events emitted. */
  function Handled(own: Option<string>, domain: string, t: Table, s: Stanza): (Table, seq<Event>) {
    var from, resource := Bare(s.from), Resource(s.from);
    match RouteOf(own, s)
    case ToNobody => (t, [])
    case ToSubscription => (t, [SubscribeRequest(from, ServerOf(from, domain))])
    case ToRoomError => (t, [RoomErrorOf(s, domain)])
    case ToRoom => (t, RoomEvents(s, domain))
    case ToContact =>
      var t' := Updated(t, from, resource, s);
      (t', [Told(from, s.to, domain, Get(t', from))])
  }

  /** The events of `clearServerPresence`, one for each contact. */
  function Withdrawals(froms: seq<string>, domain: string): (es: seq<Event>)
    ensures |es| == |froms|
    ensures forall i | 0 <= i < |froms| :: es[i] == Contact(froms[i], "", false, None, None, domain)
  {
    seq(|froms|, i requires 0 <= i < |froms| => Contact(froms[i], "", false, None, None, domain))
  }

  // ---------------------------------------------------------------- runs

  datatype Input = Presence(own: Option<string>, domain: string, stanza: Stanza) | Clear(domain: string)

  function Step(t: Table, input: Input): (Table, seq<Event>) {
    match input
    case Presence(own, domain, s) => Handled(own, domain, t, s)
    case Clear(domain) => (Empty(), Withdrawals(t.keys, domain))
  }

  function TableAfter(log: seq<Input>): Table
    decreases |log|
  {
    if log == [] then Empty() else Step(TableAfter(log[..|log| - 1]), log[|log| - 1]).0
  }

  function EventsOf(log: seq<Input>): seq<Event>
    decreases |log|
  {
    if log == [] then []
    else EventsOf(log[..|log| - 1]) + Step(TableAfter(log[..|log| - 1]), log[|log| - 1]).1
  }

  // ---------------------------------------------------------------- what the log says

  datatype Change = Nothing | AllGone | Gone(resource: string) | Here(resource: string, info: Info)

  /** What an input says of a contact. */
  function ChangeOf(input: Input, from: string): Change {
    match input
    case Clear(_) => AllGone
    case Presence(own, _, s) =>
      if RouteOf(own, s) != ToContact || Bare(s.from) != from then Nothing
      else if s.kind != "unavailable" then Here(Resource(s.from), InfoOf(s))
      else if Resource(s.from) == "" then AllGone
      else Gone(Resource(s.from))
  }

  /** A resource that is available: since which input, and what it said last. */
  datatype Session = Session(since: nat, info: Info)

  function After(session: Option<Session>, change: Change, resource: string, now: nat): Option<Session> {
    match change
    case Nothing => session
    case AllGone => None
    case Gone(r) => if r == resource then None else session
    case Here(r, info) =>
      if r != resource then session else Some(Session(if session.Some? then session.value.since else now, info))
  }

  /** What a log says of a contact. */
  function ChangesOf(log: seq<Input>, from: string): (changes: seq<Change>)
    ensures |changes| == |log|
    ensures forall i | 0 <= i < |log| :: changes[i] == ChangeOf(log[i], from)
  {
    seq(|log|, i requires 0 <= i < |log| => ChangeOf(log[i], from))
  }

  function SessionOf(changes: seq<Change>, resource: string): (session: Option<Session>)
    ensures session.Some? ==> session.value.since < |changes|
    decreases |changes|
  {
    if changes == [] then None
    else
      var most := changes[..|changes| - 1];
      After(SessionOf(most, resource), changes[|changes| - 1], resource, |most|)
  }

  predicate Withdraws(change: Change, resource: string) {
    change.AllGone? || change == Gone(resource)
  }

  predicate Announces(change: Change, resource: string) {
    change.Here? && change.resource == resource
  }

  /** The change `i` made the resource available and nothing since has withdrawn it. */
  ghost predicate StillHere(changes: seq<Change>, resource: string, i: nat) {
    && i < |changes|
    && Announces(changes[i], resource)
    && forall j | i < j < |changes| :: !Withdraws(changes[j], resource)
  }

  lemma StillHereStep(changes: seq<Change>, last: Change, resource: string, i: nat)
    requires i < |changes|
    ensures StillHere(changes + [last], resource, i) <==> StillHere(changes, resource, i) && !Withdraws(last, resource)
  {
    var all := changes + [last];
    assert all[|changes|] == last && all[i] == changes[i];
    if StillHere(all, resource, i) {
      assert forall j | i < j < |changes| :: all[j] == changes[j];
    }
  }

  /**
   * A resource has a session exactly when some available presence of it was not followed by
   * its own or a bare unavailable, and the session begins with the first such presence.
   */
  lemma {:induction false} SessionMeans(changes: seq<Change>, resource: string)
    ensures var session := SessionOf(changes, resource);
      && (session.None? ==> forall i: nat :: !StillHere(changes, resource, i))
      && (session.Some? ==> StillHere(changes, resource, session.value.since))
      && (session.Some? ==> forall i: nat | i < session.value.since :: !StillHere(changes, resource, i))
    decreases |changes|
  {
    if changes == [] {
    } else {
      var most, last := changes[..|changes| - 1], changes[|changes| - 1];
      assert changes == most + [last];
      SessionMeans(most, resource);
      forall i: nat | i < |most|
        ensures StillHere(changes, resource, i) <==> StillHere(most, resource, i) && !Withdraws(last, resource)
      {
        StillHereStep(most, last, resource, i);
      }
      assert StillHere(changes, resource, |most|) <==> Announces(last, resource);
    }
  }

  /** A session carries what the last available presence of the resource said. */
  lemma {:induction false} SessionSaysLatest(changes: seq<Change>, resource: string, i: nat)
    requires StillHere(changes, resource, i) && forall j: nat | i < j < |changes| :: !Announces(changes[j], resource)
    ensures SessionOf(changes, resource).Some? && SessionOf(changes, resource).value.info == changes[i].info
    decreases |changes|
  {
    if i == |changes| - 1 {
    } else {
      var most, last := changes[..|changes| - 1], changes[|changes| - 1];
      assert changes == most + [last];
      StillHereStep(most, last, resource, i);
      assert forall j: nat | i < j < |most| :: most[j] == changes[j];
      SessionSaysLatest(most, resource, i);
    }
  }

  // ---------------------------------------------------------------- the table holds what the log says

  /** The resources held for a contact are its sessions, earliest first. */
  ghost predicate Holds(held: Option<Resources>, changes: seq<Change>) {
    match held
    case None => forall r :: SessionOf(changes, r).None?
    case Some(resources) =>
      && Size(resources) > 0
      && (forall r :: r in resources.at <==> SessionOf(changes, r).Some?)
      && (forall r | r in resources.at :: resources.at[r] == SessionOf(changes, r).value.info)
      && InOrder(resources.keys, changes)
  }

  ghost predicate InOrder(keys: seq<string>, changes: seq<Change>) {
    && (forall k | k in keys :: SessionOf(changes, k).Some?)
    && (forall i, j | 0 <= i < j < |keys| :: Earlier(keys[i], keys[j], changes))
  }

  ghost predicate Earlier(a: string, b: string, changes: seq<Change>) {
    var x, y := SessionOf(changes, a), SessionOf(changes, b);
    x.Some? && y.Some? && x.value.since < y.value.since
  }

  /** A change on the resources of one contact. */
  function HeldAfter(held: Option<Resources>, change: Change): Option<Resources> {
    match change
    case Nothing => held
    case AllGone => None
    case Gone(r) =>
      if held.None? then None
      else
        var left := Delete(held.value, r);
        if Size(left) == 0 then None else Some(left)
    case Here(r, info) => Some(Set(if held.Some? then held.value else Empty(), r, info))
  }

  /** An input does to every contact what it says of that contact. */
  lemma StepHeld(t: Table, input: Input, from: string)
    requires from in t.at ==> Size(t.at[from]) > 0
    ensures Get(Step(t, input).0, from) == HeldAfter(Get(t, from), ChangeOf(input, from))
  {
    match input
    case Clear(_) =>
    case Presence(own, _, s) =>
      if RouteOf(own, s) == ToContact {
        var bare, resource := Bare(s.from), Resource(s.from);
        UpdatedHeld(t, bare, resource, s, from);
        assert Step(t, input).0 == Updated(t, bare, resource, s);
      } else {
        assert Step(t, input).0 == t;
      }
  }

  lemma UpdatedHeld(t: Table, from: string, resource: string, s: Stanza, other: string)
    requires other in t.at ==> Size(t.at[other]) > 0
    ensures Get(Updated(t, from, resource, s), other) ==
            if other != from then Get(t, other)
            else if s.kind != "unavailable" then HeldAfter(Get(t, from), Here(resource, InfoOf(s)))
            else if resource == "" then None
            else HeldAfter(Get(t, from), Gone(resource))
  {
    var t' := Updated(t, from, resource, s);
    if s.kind == "unavailable" {
      assert t'.at == t.at - {from} || t'.at == t.at[from := t'.at[from]];
    } else {
      assert t'.at == t.at[from := t'.at[from]];
    }
  }

  lemma {:induction false} WithoutKeepsOrder(keys: seq<string>, k: string, changes: seq<Change>)
    requires InOrder(keys, changes)
    ensures InOrder(Without(keys, k), changes)
  {
    if keys == [] {
    } else {
      assert InOrder(keys[1..], changes);
      WithoutKeepsOrder(keys[1..], k, changes);
      var rest := Without(keys[1..], k);
      forall j | 0 <= j < |rest|
        ensures Earlier(keys[0], rest[j], changes)
      {
        assert rest[j] in keys[1..];
        var i :| 0 <= i < |keys[1..]| && keys[1..][i] == rest[j];
        assert keys[i + 1] == rest[j];
      }
    }
  }

  lemma EmptyWhenNoKeys(resources: Resources)
    requires Size(resources) == 0
    ensures forall r :: r !in resources.at
  {
    assert forall r | r in resources.at :: r in resources.keys;
  }

  lemma HoldsAfterGone(resources: Resources, changes: seq<Change>, r: string)
    requires Holds(Some(resources), changes)
    ensures Holds(HeldAfter(Some(resources), Gone(r)), changes + [Gone(r)])
  {
    var all := changes + [Gone(r)];
    assert all[..|changes|] == changes;
    assert forall x :: SessionOf(all, x) == if x == r then None else SessionOf(changes, x);
    var left := Delete(resources, r);
    assert forall x :: x in left.at <==> SessionOf(all, x).Some?;
    if Size(left) == 0 {
      EmptyWhenNoKeys(left);
    } else {
      WithoutKeepsOrder(resources.keys, r, changes);
      OrderSurvives(left.keys, changes, all);
    }
  }

  lemma OrderSurvives(keys: seq<string>, changes: seq<Change>, all: seq<Change>)
    requires InOrder(keys, changes)
    requires forall k | k in keys :: SessionOf(all, k) == SessionOf(changes, k)
    ensures InOrder(keys, all)
  {
    forall i, j | 0 <= i < j < |keys|
      ensures Earlier(keys[i], keys[j], all)
    {
      assert keys[i] in keys && keys[j] in keys;
      assert Earlier(keys[i], keys[j], changes);
    }
  }

  lemma HoldsAfterHere(held: Option<Resources>, changes: seq<Change>, r: string, info: Info)
    requires Holds(held, changes)
    ensures Holds(HeldAfter(held, Here(r, info)), changes + [Here(r, info)])
  {
    HoldsAfterSet(if held.Some? then held.value else Empty(), changes, r, info);
  }

  lemma HoldsAfterSet(resources: Resources, changes: seq<Change>, r: string, info: Info)
    requires forall x :: x in resources.at <==> SessionOf(changes, x).Some?
    requires forall x | x in resources.at :: resources.at[x] == SessionOf(changes, x).value.info
    requires InOrder(resources.keys, changes)
    ensures Holds(Some(Set(resources, r, info)), changes + [Here(r, info)])
  {
    forall x
      ensures SessionOf(changes + [Here(r, info)], x) == After(SessionOf(changes, x), Here(r, info), x, |changes|)
    {
      SessionNext(changes, Here(r, info), x);
    }
    KeyOfKeys(resources, r);
    InOrderAfterHere(resources.keys, changes, r, info);
  }

  lemma SessionNext(changes: seq<Change>, change: Change, x: string)
    ensures SessionOf(changes + [change], x) == After(SessionOf(changes, x), change, x, |changes|)
  {
    assert (changes + [change])[..|changes|] == changes;
  }

  lemma EarlierStill(a: string, b: string, changes: seq<Change>, r: string, info: Info)
    requires SessionOf(changes, a).Some? && (Earlier(a, b, changes) || (b == r && SessionOf(changes, r).None?))
    ensures Earlier(a, b, changes + [Here(r, info)])
  {
    SessionNext(changes, Here(r, info), a);
    SessionNext(changes, Here(r, info), b);
  }

  lemma InOrderAfterHere(keys: seq<string>, changes: seq<Change>, r: string, info: Info)
    requires InOrder(keys, changes) && (r !in keys ==> SessionOf(changes, r).None?)
    ensures InOrder(if r in keys then keys else keys + [r], changes + [Here(r, info)])
  {
    var next := if r in keys then keys else keys + [r];
    forall k | k in next
      ensures SessionOf(changes + [Here(r, info)], k).Some?
    {
      SessionNext(changes, Here(r, info), k);
    }
    forall i, j | 0 <= i < j < |next|
      ensures Earlier(next[i], next[j], changes + [Here(r, info)])
    {
      assert next[i] == keys[i] && keys[i] in keys;
      assert j < |keys| ==> Earlier(keys[i], keys[j], changes);
      EarlierStill(next[i], next[j], changes, r, info);
    }
  }

  lemma HoldsAfter(held: Option<Resources>, changes: seq<Change>, change: Change)
    requires Holds(held, changes)
    ensures Holds(HeldAfter(held, change), changes + [change])
  {
    assert (changes + [change])[..|changes|] == changes;
    match change
    case Nothing =>
      assert forall x :: SessionOf(changes + [change], x) == SessionOf(changes, x);
    case AllGone =>
    case Gone(r) =>
      if held.Some? {
        HoldsAfterGone(held.value, changes, r);
      }
    case Here(r, info) => HoldsAfterHere(held, changes, r, info);
  }

  lemma {:induction false} TableHolds(log: seq<Input>, from: string)
    ensures Holds(Get(TableAfter(log), from), ChangesOf(log, from))
    decreases |log|
  {
    if log == [] {
    } else {
      var most, last := log[..|log| - 1], log[|log| - 1];
      var t := TableAfter(most);
      forall f | f in t.at
        ensures Size(t.at[f]) > 0
      {
        TableHolds(most, f);
      }
      TableHolds(most, from);
      StepHeld(t, last, from);
      HoldsAfter(Get(t, from), ChangesOf(most, from), ChangeOf(last, from));
      assert ChangesOf(log, from) == ChangesOf(most, from) + [ChangeOf(last, from)];
    }
  }

  // ---------------------------------------------------------------- the best resource

  /** `i` has the highest priority, and is the first that has it. */
  ghost predicate IsFirstOfHighest(infos: seq<Info>, i: nat) {
    && i < |infos|
    && (forall j | 0 <= j < |infos| :: infos[j].priority <= infos[i].priority)
    && (forall j | 0 <= j < i :: infos[j].priority < infos[i].priority)
  }

  /** What `reduce` finds is the first of those with the highest priority. */
  lemma {:induction false} BestIsFirstOfHighest(infos: seq<Info>) returns (i: nat)
    requires infos != []
    ensures IsFirstOfHighest(infos, i) && infos[i] == Best(infos)
    decreases |infos|
  {
    i := |infos| - 1;
    if |infos| == 1 {
    } else {
      var most := infos[..|infos| - 1];
      var k := BestIsFirstOfHighest(most);
      assert most[k] == infos[k];
      assert forall j | 0 <= j < |most| :: infos[j] == most[j];
      if infos[|infos| - 1].priority <= most[k].priority {
        i := k;
      }
    }
  }

  /** `resource` is online and stands before every other: higher priority, or as high and online longer. */
  ghost predicate IsBest(changes: seq<Change>, resource: string) {
    var best := SessionOf(changes, resource);
    && best.Some?
    && forall r | r != resource && SessionOf(changes, r).Some? ::
         var other := SessionOf(changes, r).value;
         other.info.priority < best.value.info.priority
         || (other.info.priority == best.value.info.priority && best.value.since < other.since)
  }

  /** The event tells the truth about the contact. */
  ghost predicate Truthful(event: Event, changes: seq<Change>) {
    && event.Contact?
    && (event.available <==> exists r :: SessionOf(changes, r).Some?)
    && (event.available ==> exists r :: IsBest(changes, r) && Shows(event, SessionOf(changes, r).value.info))
  }

  predicate Shows(event: Event, info: Info)
    requires event.Contact?
  {
    event.show == info.show && event.status == info.status
  }

  lemma ToldIsTruthful(from: string, to: string, server: string, held: Option<Resources>, changes: seq<Change>)
    requires Holds(held, changes)
    ensures Truthful(Told(from, to, server, held), changes)
  {
    if held.Some? {
      var resources := held.value;
      var infos, keys := Values(resources), resources.keys;
      var i := BestIsFirstOfHighest(infos);
      assert keys[i] in keys && SessionOf(changes, keys[i]).Some?;
      forall r | r != keys[i] && SessionOf(changes, r).Some?
        ensures var other, best := SessionOf(changes, r).value, SessionOf(changes, keys[i]).value;
          other.info.priority < best.info.priority
          || (other.info.priority == best.info.priority && best.since < other.since)
      {
        assert r in resources.at && r in keys;
        var j :| 0 <= j < |keys| && keys[j] == r;
        assert infos[j] == SessionOf(changes, r).value.info;
        if i < j {
          assert Earlier(keys[i], keys[j], changes);
        }
      }
      assert IsBest(changes, keys[i]);
    }
  }

  // ---------------------------------------------------------------- what an observer has been told

  /** The last that was told of a contact. */
  function LastTold(events: seq<Event>, from: string): Option<Event>
    decreases |events|
  {
    if events == [] then None
    else
      var last := events[|events| - 1];
      if last.Contact? && last.from == from then Some(last) else LastTold(events[..|events| - 1], from)
  }

  lemma {:induction false} LastToldAppend(before: seq<Event>, more: seq<Event>, from: string)
    ensures LastTold(before + more, from) == if LastTold(more, from).Some? then LastTold(more, from) else LastTold(before, from)
    decreases |more|
  {
    if more == [] {
      assert before + more == before;
    } else {
      assert (before + more)[..|before + more| - 1] == before + more[..|more| - 1];
      LastToldAppend(before, more[..|more| - 1], from);
    }
  }

  lemma {:induction false} WithdrawalsTell(froms: seq<string>, domain: string, from: string)
    ensures LastTold(Withdrawals(froms, domain), from) ==
            if from in froms then Some(Contact(from, "", false, None, None, domain)) else None
    decreases |froms|
  {
    if froms == [] {
    } else {
      var most := froms[..|froms| - 1];
      WithdrawalsTell(most, domain, from);
      assert froms == most + [froms[|froms| - 1]];
      assert Withdrawals(froms, domain)[..|most|] == Withdrawals(most, domain);
    }
  }

  lemma RoomEventsTellNothing(s: Stanza, domain: string, from: string)
    requires s.muc.Some?
    ensures LastTold(RoomEvents(s, domain), from).None?
  {
    var events := RoomEvents(s, domain);
    if |events| == 2 {
      assert events[..1] == [events[0]];
      assert LastTold([events[0]], from).None?;
    }
  }

  lemma OneEventTells(event: Event, from: string)
    ensures LastTold([event], from) == if event.Contact? && event.from == from then Some(event) else None
  {
    assert [event][..0] == [];
  }

  /** An input that changes something for a contact tells of it. */
  lemma StepTells(t: Table, input: Input, from: string)
    ensures var (next, events) := Step(t, input);
      var told, change := LastTold(events, from), ChangeOf(input, from);
      && (change.Nothing? ==> told.None?)
      && (input.Presence? && !change.Nothing? ==> told == Some(Told(from, input.stanza.to, input.domain, Get(next, from))))
      && (input.Clear? ==> told == if from in t.at then Some(Contact(from, "", false, None, None, input.domain)) else None)
  {
    match input
    case Clear(domain) =>
      assert from in t.keys <==> from in t.at;
      WithdrawalsTell(t.keys, domain, from);
    case Presence(own, domain, s) =>
      var next := Updated(t, Bare(s.from), Resource(s.from), s);
      match RouteOf(own, s)
      case ToNobody =>
      case ToSubscription => OneEventTells(SubscribeRequest(Bare(s.from), ServerOf(Bare(s.from), domain)), from);
      case ToRoomError => OneEventTells(RoomErrorOf(s, domain), from);
      case ToRoom => RoomEventsTellNothing(s, domain, from);
      case ToContact => OneEventTells(Told(Bare(s.from), s.to, domain, Get(next, Bare(s.from))), from);
  }

  lemma TruthSurvives(event: Event, changes: seq<Change>, all: seq<Change>)
    requires Truthful(event, changes)
    requires forall r :: SessionOf(all, r) == SessionOf(changes, r)
    ensures Truthful(event, all)
  {
    if event.available {
      var r :| IsBest(changes, r) && Shows(event, SessionOf(changes, r).value.info);
      assert IsBest(all, r);
    }
  }

  /**
   * After any run, the last that was told of a contact is true: it is available exactly when
   * some resource of it is, and its show and status are those of the best resource. A
   * contact of which nothing was told has no resource online.
   */
  lemma {:induction false} ToldTheTruth(log: seq<Input>, from: string)
    ensures var told, changes := LastTold(EventsOf(log), from), ChangesOf(log, from);
      && (told.Some? ==> Truthful(told.value, changes))
      && (told.None? ==> forall r :: SessionOf(changes, r).None?)
    decreases |log|
  {
    if log == [] {
    } else {
      var most, last := log[..|log| - 1], log[|log| - 1];
      var t := TableAfter(most);
      var changes, change := ChangesOf(most, from), ChangeOf(last, from);
      assert ChangesOf(log, from) == changes + [change];
      assert (changes + [change])[..|changes|] == changes;
      ToldTheTruth(most, from);
      TableHolds(most, from);
      TableHolds(log, from);
      StepTells(t, last, from);
      LastToldAppend(EventsOf(most), Step(t, last).1, from);
      var told := LastTold(EventsOf(most), from);
      if change.Nothing? || (last.Clear? && from !in t.at) {
        assert forall r :: SessionOf(changes + [change], r) == SessionOf(changes, r);
        if told.Some? {
          TruthSurvives(told.value, changes, changes + [change]);
        }
      } else if last.Presence? {
        ToldIsTruthful(from, last.stanza.to, last.domain, Get(TableAfter(log), from), changes + [change]);
      }
    }
  }
}
