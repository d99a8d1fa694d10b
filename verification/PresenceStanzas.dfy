/**
 * What each presence stanza does, said of its fields alone (src/core/xmpp-client-bridge.ts:1160-1271):
 * who it is about, which change it makes to the resources of that contact, and what is told.
 */
module PresenceStanzas {
  import opened Wrappers
  import opened OrderedMaps
  import opened Jids
  import opened ServerPresence

  /** The stanza comes from `bare`, in any case, with resource `r`, or with none if `r` is empty. */
  ghost predicate ComesFrom(s: Stanza, bare: string, r: string) {
    exists a :: '/' !in a && IsFolded(bare, a) && (s.from == a + "/" + r || (r == "" && s.from == a))
  }

  /** A kind that is neither missing nor available nor unavailable. */
  predicate OtherKind(kind: string) {
    kind != "" && kind != "available" && kind != "unavailable"
  }

  predicate RoomPayload(s: Stanza, r: string) {
    s.muc.Some? && r != ""
  }

  lemma SenderIs(s: Stanza, bare: string, r: string)
    requires ComesFrom(s, bare, r)
    ensures Bare(s.from) == bare && Resource(s.from) == r
  {
    var a :| '/' !in a && IsFolded(bare, a) && (s.from == a + "/" + r || (r == "" && s.from == a));
    ResourceIs(a, r);
    LowerCaseFolds(a, bare);
  }

  /** The priority of a stanza, cut to a signed byte; 0 when it has none. */
  lemma InfoIs(s: Stanza)
    ensures InfoOf(s).show == s.show && InfoOf(s).status == s.status
    ensures -128 <= InfoOf(s).priority <= 127
    ensures s.priority.None? ==> InfoOf(s).priority == 0
    ensures s.priority.Some? && -128 <= s.priority.value <= 127 ==> InfoOf(s).priority == s.priority.value
    ensures s.priority.Some? && s.priority.value > 127 ==> InfoOf(s).priority == 127
    ensures s.priority.Some? && s.priority.value < -128 ==> InfoOf(s).priority == -128
  {
  }

  /**
   * The change a stanza makes to the contact it comes from: `unavailable` takes away its
   * resource, or all when it is bare; no kind or `available` sets the resource to what the
   * stanza says; anything else, room presence and one's own presence change nothing. No
   * stanza changes any other contact.
   */
  lemma ChangeIs(own: Option<string>, domain: string, s: Stanza, bare: string, r: string, contact: string)
    requires ComesFrom(s, bare, r)
    ensures var change := ChangeOf(Presence(own, domain, s), contact);
      if contact != bare || bare == "" || own == Some(bare) || OtherKind(s.kind) || RoomPayload(s, r) then
        change == Nothing
      else if s.kind == "unavailable" then
        change == if r == "" then AllGone else Gone(r)
      else
        change == Here(r, InfoOf(s))
  {
    SenderIs(s, bare, r);
    KindsDiffer();
  }

  lemma KindsDiffer()
    ensures "subscribe" != "available" && "subscribe" != "unavailable" && "error" != "available" && "error" != "unavailable"
    ensures "subscribe" != "" && "error" != "" && "subscribe" != "error"
  {
    assert "subscribe"[0] == 's' && "error"[0] == 'e' && "available"[0] == 'a' && "unavailable"[0] == 'u';
  }

  /** A contact that says it is unavailable loses that resource and no other, and all of them when it says so bare. */
  lemma UnavailableTakesAway(log: seq<Input>, own: Option<string>, domain: string, s: Stanza, bare: string, r: string)
    requires ComesFrom(s, bare, r) && bare != "" && own != Some(bare)
    requires s.kind == "unavailable" && !RoomPayload(s, r)
    ensures var all := ChangesOf(log + [Presence(own, domain, s)], bare);
      && SessionOf(all, r) == None
      && (r == "" ==> forall x :: SessionOf(all, x) == None)
      && (r != "" ==> forall x | x != r :: SessionOf(all, x) == SessionOf(ChangesOf(log, bare), x))
  {
    ChangeIs(own, domain, s, bare, r, bare);
    LastChange(log, Presence(own, domain, s), bare);
  }

  /** A contact that says it is available has that resource, with what it says, and the others as before. */
  lemma AvailableSets(log: seq<Input>, own: Option<string>, domain: string, s: Stanza, bare: string, r: string)
    requires ComesFrom(s, bare, r) && bare != "" && own != Some(bare)
    requires (s.kind == "" || s.kind == "available") && !RoomPayload(s, r)
    ensures var all := ChangesOf(log + [Presence(own, domain, s)], bare);
      && SessionOf(all, r).Some? && SessionOf(all, r).value.info == InfoOf(s)
      && forall x | x != r :: SessionOf(all, x) == SessionOf(ChangesOf(log, bare), x)
  {
    ChangeIs(own, domain, s, bare, r, bare);
    LastChange(log, Presence(own, domain, s), bare);
  }

  lemma LastChange(log: seq<Input>, input: Input, bare: string)
    ensures var all := ChangesOf(log + [input], bare);
      all == ChangesOf(log, bare) + [ChangeOf(input, bare)] && all[..|log|] == ChangesOf(log, bare)
  {
  }

  // ---------------------------------------------------------------- what is told

  /** The part of an address behind its first at sign, up to the next; the domain of the connection without one. */
  lemma ServerIs(user: string, host: string, more: string, domain: string)
    requires '@' !in user && '@' !in host
    ensures ServerOf(user, domain) == domain
    ensures var server := if host == "" then domain else host;
      ServerOf(user + "@" + host, domain) == server && ServerOf(user + "@" + host + "@" + more, domain) == server
  {
    FirstIsAt(user, '@', |user|);
    ServerAfter(user, host, user + "@" + host, domain);
    ServerAfter(user, host, user + "@" + host + "@" + more, domain);
  }

  lemma ServerAfter(user: string, host: string, full: string, domain: string)
    requires '@' !in user && '@' !in host
    requires user + "@" + host <= full && (full == user + "@" + host || full[|user| + 1 + |host|] == '@')
    ensures ServerOf(full, domain) == if host == "" then domain else host
  {
    var rest := full[|user| + 1..];
    assert full[..|user|] == user && full[|user|] == '@';
    FirstIsAt(full, '@', |user|);
    assert rest[..|host|] == host;
    FirstIsAt(rest, '@', |host|);
  }

  /**
   * What a stanza has told, by its kind and its payload: nothing for one's own presence or an
   * unknown kind; a request; an error of a room; the events of a room; or how the contact is now.
   */
  lemma ToldIs(own: Option<string>, domain: string, t: Table, s: Stanza, bare: string, r: string)
    requires ComesFrom(s, bare, r)
    ensures var events := Handled(own, domain, t, s).1;
      if bare == "" || own == Some(bare) then events == []
      else if s.kind == "subscribe" then events == [SubscribeRequest(bare, ServerOf(bare, domain))]
      else if s.kind == "error" && r != "" && '@' in bare then
        events == [RoomError(bare, s.from, r, ServerOf(bare, domain), ToldError(s.error))]
      else if OtherKind(s.kind) then events == []
      else if RoomPayload(s, r) then RoomTold(events, s, bare, r, ServerOf(bare, domain))
      else events == [Told(bare, s.to, domain, Get(Handled(own, domain, t, s).0, bare))]
  {
    SenderIs(s, bare, r);
    KindsDiffer();
    if RoomPayload(s, r) && !OtherKind(s.kind) {
      RoomToldIs(s, bare, r, domain);
    }
  }

  /**
   * What is told of an occupant: that it joined, or that it left and, with status 303 and a
   * new nick, that it joined under that nick. Status 110 marks one's own presence.
   */
  ghost predicate RoomTold(events: seq<Event>, s: Stanza, room: string, nick: string, server: string)
    requires s.muc.Some?
  {
    var muc := s.muc.value;
    var event := RoomEvent(room, s.from, nick, if s.kind == "unavailable" then "unavailable" else "available", server,
                           "110" in muc.statusCodes, muc);
    if s.kind != "unavailable" then events == [RoomJoin(event)]
    else if "303" in muc.statusCodes && muc.item.Some? && muc.item.value.nick.Some? && muc.item.value.nick.value != "" then
      var next := muc.item.value.nick.value;
      events == [RoomLeave(event),
                 RoomJoin(event.(from := room + "/" + next, nick := next, kind := "available", fromSelf := false))]
    else events == [RoomLeave(event)]
  }

  lemma RoomToldIs(s: Stanza, bare: string, r: string, domain: string)
    requires ComesFrom(s, bare, r) && RoomPayload(s, r) && !OtherKind(s.kind)
    ensures RoomTold(RoomEvents(s, domain), s, bare, r, ServerOf(bare, domain))
  {
    SenderIs(s, bare, r);
    assert "available" != "unavailable" by { KindsDiffer(); assert "available"[0] != "unavailable"[0]; }
  }

  /** What is told of a contact names it, whom the stanza was for, and the domain. */
  lemma ToldNames(from: string, to: string, server: string, resources: Option<Resources>)
    ensures var told := Told(from, to, server, resources);
      && told.Contact? && told.from == from && told.to == to && told.server == server
      && (!told.available ==> told.show == None && told.status == None)
  {
  }

  /** An error without a condition and without text is told as none. */
  lemma ErrorIs(error: StanzaError)
    ensures ToldError(error) ==
            if error == StanzaError(None, None) || error == StanzaError(None, Some("")) then None else Some(error)
  {
  }

  /** The defaults of a room are accepted by the account that has just created it, once. */
  lemma AcceptsIff(own: Option<string>, s: Stanza, configuring: set<string>, bare: string, r: string)
    requires ComesFrom(s, bare, r)
    ensures AcceptsDefaults(own, s, configuring) <==>
      && bare != "" && own != Some(bare) && RoomPayload(s, r) && (s.kind == "" || s.kind == "available")
      && "110" in s.muc.value.statusCodes && "201" in s.muc.value.statusCodes && bare !in configuring
  {
    SenderIs(s, bare, r);
    KindsDiffer();
  }
}
