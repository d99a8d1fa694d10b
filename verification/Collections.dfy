/**
 * Collections of feeds and the index from a feed to the collections that carry it
 * (src/core/xmpp-collection.ts:164-247, src/core/xmpp-records.ts:512-531,
 * src/core/xmpp-persistence.ts:171-193). Each operation runs atomically.
 */
module Collections {
  import opened Text
  import opened Wrappers

  /** An empty time stamp stands for a missing one. */
  datatype Member = Member(jid: string, peerId: string, feedTopic: string, addedAt: string)

  datatype Collection = Collection(
    id: string, name: Option<string>, topic: string, members: seq<Member>, createdAt: string, updatedAt: string)

  type Index = map<string, set<string>>

  datatype State = State(collections: map<string, Collection>, index: Index)

  // ---------------------------------------------------------------- records

  function CollectionTopicForId(id: string): string {
    "xmpp-collection:" + id
  }

  function FeedTopicForPeer(peerId: string): string {
    "xmpp-feed:" + peerId
  }

  function NormalizeMember(m: Member, now: string): Member {
    m.(addedAt := Or(m.addedAt, now))
  }

  function NormalizeMembers(members: seq<Member>, now: string): (r: seq<Member>)
    ensures FeedTopics(r) == FeedTopics(members)
  {
    var r := seq(|members|, i requires 0 <= i < |members| => NormalizeMember(members[i], now));
    assert forall i | 0 <= i < |members| :: r[i] in r && members[i] in members && r[i].feedTopic == members[i].feedTopic;
    r
  }

  function NormalizeCollection(c: Collection, now: string): Collection {
    c.(
      topic := Or(c.topic, CollectionTopicForId(c.id)),
      members := NormalizeMembers(c.members, now),
      createdAt := Or(c.createdAt, now),
      updatedAt := Or(c.updatedAt, now))
  }

  function FeedTopics(members: seq<Member>): set<string> {
    set m | m in members :: m.feedTopic
  }

  // ---------------------------------------------------------------- the index

  function Ids(index: Index, topic: string): set<string> {
    if topic in index then index[topic] else {}
  }

  /** The index after every topic of `topics` has been given `id`. */
  function Linked(index: Index, id: string, topics: set<string>): Index {
    map topic | topic in index.Keys + topics :: if topic in topics then Ids(index, topic) + {id} else Ids(index, topic)
  }

  /** The index after every topic of `topics` has lost `id`, and its entry with the last one. */
  function Unlinked(index: Index, id: string, topics: set<string>): Index {
    map topic | topic in index && !(topic in topics && index[topic] <= {id}) ::
      if topic in topics then index[topic] - {id} else index[topic]
  }

  /** What a scan of all collections finds for `topic`. */
  function Scan(collections: map<string, Collection>, topic: string): set<string> {
    set id | id in collections && topic in FeedTopics(collections[id].members)
  }

  /** The index is the inverse of membership, and holds no empty set. */
  ghost predicate Consistent(s: State) {
    && (forall id | id in s.collections :: s.collections[id].id == id)
    && (forall topic :: Ids(s.index, topic) == Scan(s.collections, topic))
    && (forall topic | topic in s.index :: s.index[topic] != {})
  }

  // ---------------------------------------------------------------- operations

  /** `createCollection`, also for an id that exists. */
  function Created(s: State, id: string, name: Option<string>, now: string): State {
    var existing := if id in s.collections then s.collections[id] else Collection(id, None, "", [], now, now);
    var c := NormalizeCollection(
               Collection(
                 id, if name.Some? then name else existing.name, CollectionTopicForId(id),
                 existing.members, existing.createdAt, now),
               now);
    State(s.collections[id := c], Linked(s.index, id, FeedTopics(c.members)))
  }

  /** `members.find(m => m.feedTopic === feedTopic)`. */
  function Find(members: seq<Member>, feedTopic: string): Option<Member> {
    if members == [] then None
    else if members[0].feedTopic == feedTopic then Some(members[0])
    else Find(members[1..], feedTopic)
  }

  function Replace(members: seq<Member>, next: Member): (r: seq<Member>)
    ensures |r| == |members|
    ensures forall i | 0 <= i < |r| :: r[i] == if members[i].feedTopic == next.feedTopic then next else members[i]
  {
    seq(|members|, i requires 0 <= i < |members| => if members[i].feedTopic == next.feedTopic then next else members[i])
  }

  function WithFeed(members: seq<Member>, peerId: string, now: string): seq<Member> {
    var feedTopic := FeedTopicForPeer(peerId);
    var existing := Find(members, feedTopic);
    var next := NormalizeMember(
                  Member(peerId + "@p2p", peerId, feedTopic, if existing.Some? then existing.value.addedAt else ""), now);
    if existing.Some? then Replace(members, next) else members + [next]
  }

  /** `addFeedToCollection`, which creates a missing collection. */
  function Added(s: State, id: string, peerId: string, now: string): State {
    var known := if id in s.collections then s else Created(s, id, None, now);
    var current := known.collections[id];
    var next := NormalizeCollection(current.(members := WithFeed(current.members, peerId, now), updatedAt := now), now);
    State(
      known.collections[id := next],
      Linked(Unlinked(known.index, current.id, FeedTopics(current.members)), next.id, FeedTopics(next.members)))
  }

  /** One record of `loadCollectionState`. */
  function LoadedOne(s: State, record: Collection, now: string): State {
    var c := NormalizeCollection(record, now);
    State(s.collections[c.id := c], Linked(s.index, c.id, FeedTopics(c.members)))
  }

  function Loaded(s: State, records: seq<Collection>, now: string): State
    decreases |records|
  {
    if records == [] then s
    else LoadedOne(Loaded(s, records[..|records| - 1], now), records[|records| - 1], now)
  }

  // ---------------------------------------------------------------- what they keep

  /** The index and a scan agree, so publishing along the index reaches exactly what a scan would. */
  lemma CreatedConsistent(s: State, id: string, name: Option<string>, now: string)
    requires Consistent(s)
    ensures Consistent(Created(s, id, name, now))
  {
    var t := Created(s, id, name, now);
    forall topic
      ensures Ids(t.index, topic) == Scan(t.collections, topic)
    {
      assert Ids(s.index, topic) == Scan(s.collections, topic);
    }
  }

  lemma {:induction false} FindMeans(members: seq<Member>, feedTopic: string)
    ensures Find(members, feedTopic).Some? <==> feedTopic in FeedTopics(members)
    ensures Find(members, feedTopic).Some? ==>
              Find(members, feedTopic).value in members && Find(members, feedTopic).value.feedTopic == feedTopic
  {
    if members == [] {
    } else {
      FindMeans(members[1..], feedTopic);
      assert members == [members[0]] + members[1..];
    }
  }

  /** Adding a feed adds its topic and leaves every other member as it was; re-adding keeps the time it was added. */
  lemma WithFeedMeans(members: seq<Member>, peerId: string, now: string)
    ensures FeedTopics(WithFeed(members, peerId, now)) == FeedTopics(members) + {FeedTopicForPeer(peerId)}
    ensures forall m: Member | m.feedTopic != FeedTopicForPeer(peerId) ::
              m in members <==> m in WithFeed(members, peerId, now)
    ensures forall m | m in WithFeed(members, peerId, now) && m.feedTopic == FeedTopicForPeer(peerId) ::
              && m.jid == peerId + "@p2p" && m.peerId == peerId
              && (m.addedAt == now || exists was :: was in members && was.feedTopic == m.feedTopic && was.addedAt == m.addedAt)
  {
    var feedTopic := FeedTopicForPeer(peerId);
    FindMeans(members, feedTopic);
    var r := WithFeed(members, peerId, now);
    forall m | m in members
      ensures m.feedTopic in FeedTopics(r)
      ensures m.feedTopic != feedTopic ==> m in r
    {
      var i :| 0 <= i < |members| && members[i] == m;
      assert r[i] in r;
    }
    forall m | m in r
      ensures m.feedTopic in FeedTopics(members) + {feedTopic}
      ensures m.feedTopic != feedTopic ==> m in members
    {
      var i :| 0 <= i < |r| && r[i] == m;
      assert i < |members| ==> members[i] in members;
    }
    if Find(members, feedTopic).Some? {
      var was := Find(members, feedTopic).value;
      var i :| 0 <= i < |members| && members[i] == was;
      assert r[i] in r;
    } else {
      assert r[|members|] in r;
    }
  }

  lemma RelinkedConsistent(s: State, current: Collection, next: Collection)
    requires Consistent(s) && current.id in s.collections && s.collections[current.id] == current
    requires next.id == current.id
    ensures Consistent(State(
                         s.collections[next.id := next],
                         Linked(Unlinked(s.index, current.id, FeedTopics(current.members)), next.id, FeedTopics(next.members))))
  {
    var id := next.id;
    var unlinked := Unlinked(s.index, id, FeedTopics(current.members));
    var t := State(s.collections[id := next], Linked(unlinked, id, FeedTopics(next.members)));
    forall topic
      ensures Ids(t.index, topic) == Scan(t.collections, topic)
      ensures topic in t.index ==> t.index[topic] != {}
    {
      assert Ids(s.index, topic) == Scan(s.collections, topic);
      assert Ids(unlinked, topic) == Scan(s.collections, topic) - {id};
      assert topic in unlinked ==> unlinked[topic] != {};
    }
  }

  lemma AddedConsistent(s: State, id: string, peerId: string, now: string)
    requires Consistent(s)
    ensures Consistent(Added(s, id, peerId, now))
  {
    var known := if id in s.collections then s else Created(s, id, None, now);
    if id !in s.collections {
      CreatedConsistent(s, id, None, now);
    }
    var current := known.collections[id];
    var next := NormalizeCollection(current.(members := WithFeed(current.members, peerId, now), updatedAt := now), now);
    RelinkedConsistent(known, current, next);
  }

  // ---------------------------------------------------------------- loading

  /** `topic` is in some record of `id`. */
  ghost predicate Mentioned(records: seq<Collection>, id: string, topic: string) {
    exists r | r in records :: r.id == id && topic in FeedTopics(r.members)
  }

  /** The last record of `id`. */
  function LastOf(records: seq<Collection>, id: string): Option<Collection>
    decreases |records|
  {
    if records == [] then None
    else if records[|records| - 1].id == id then Some(records[|records| - 1])
    else LastOf(records[..|records| - 1], id)
  }

  /**
   * No earlier record of an id, and no collection it replaces, names a feed that the last
   * record of that id does not.
   */
  ghost predicate NothingStale(s: State, records: seq<Collection>) {
    forall id, topic | LastOf(records, id).Some? && (Mentioned(records, id, topic) || id in Ids(s.index, topic)) ::
      topic in FeedTopics(LastOf(records, id).value.members)
  }

  lemma {:induction false} LoadedMeans(s: State, records: seq<Collection>, now: string)
    ensures var t := Loaded(s, records, now);
      && (forall id, topic :: id in Ids(t.index, topic) <==> id in Ids(s.index, topic) || Mentioned(records, id, topic))
      && (forall id :: (id in t.collections <==> id in s.collections || LastOf(records, id).Some?))
      && (forall id | id in t.collections :: t.collections[id] ==
            (match LastOf(records, id)
             case Some(r) => NormalizeCollection(r, now)
             case None => s.collections[id]))
    ensures (forall topic | topic in s.index :: s.index[topic] != {}) ==>
              forall topic | topic in Loaded(s, records, now).index :: Loaded(s, records, now).index[topic] != {}
    decreases |records|
  {
    if records == [] {
    } else {
      var most, r := records[..|records| - 1], records[|records| - 1];
      LoadedMeans(s, most, now);
      forall id, topic
        ensures Mentioned(records, id, topic) <==>
                Mentioned(most, id, topic) || (r.id == id && topic in FeedTopics(r.members))
      {
        assert records == most + [r];
      }
    }
  }

  lemma {:induction false} LastOfHasId(records: seq<Collection>, id: string)
    requires LastOf(records, id).Some?
    ensures LastOf(records, id).value.id == id && LastOf(records, id).value in records
    decreases |records|
  {
    if records[|records| - 1].id == id {
    } else {
      LastOfHasId(records[..|records| - 1], id);
    }
  }

  lemma LoadedIds(s: State, records: seq<Collection>, now: string)
    requires Consistent(s)
    ensures forall id | id in Loaded(s, records, now).collections :: Loaded(s, records, now).collections[id].id == id
    ensures forall topic | topic in Loaded(s, records, now).index :: Loaded(s, records, now).index[topic] != {}
  {
    LoadedMeans(s, records, now);
    var t := Loaded(s, records, now);
    forall id | id in t.collections
      ensures t.collections[id].id == id
    {
      if LastOf(records, id).Some? {
        LastOfHasId(records, id);
      }
    }
  }

  lemma FreshLoadConsistent(s: State, records: seq<Collection>, now: string)
    requires Consistent(s) && NothingStale(s, records)
    ensures Consistent(Loaded(s, records, now))
  {
    var t := Loaded(s, records, now);
    LoadedIds(s, records, now);
    forall topic
      ensures Ids(t.index, topic) == Scan(t.collections, topic)
    {
      forall id
        ensures id in Ids(t.index, topic) <==> id in Scan(t.collections, topic)
      {
        LoadedLinkFresh(s, records, now, id, topic);
      }
    }
  }

  /** A link that is stale: the last record of `id` does not name the feed, and something before it does. */
  lemma StaleLoadInconsistent(s: State, records: seq<Collection>, now: string, id: string, topic: string)
    requires LastOf(records, id).Some? && topic !in FeedTopics(LastOf(records, id).value.members)
    requires Mentioned(records, id, topic) || id in Ids(s.index, topic)
    ensures !Consistent(Loaded(s, records, now))
  {
    LoadedMeans(s, records, now);
    var t := Loaded(s, records, now);
    assert id in Ids(t.index, topic) && id !in Scan(t.collections, topic);
  }

  /** A load keeps the index consistent exactly when the records leave nothing stale. */
  lemma LoadConsistentIff(s: State, records: seq<Collection>, now: string)
    requires Consistent(s)
    ensures Consistent(Loaded(s, records, now)) <==> NothingStale(s, records)
  {
    if NothingStale(s, records) {
      FreshLoadConsistent(s, records, now);
    } else {
      var id, topic :| LastOf(records, id).Some? && (Mentioned(records, id, topic) || id in Ids(s.index, topic))
        && topic !in FeedTopics(LastOf(records, id).value.members);
      StaleLoadInconsistent(s, records, now, id, topic);
    }
  }

  /** What a load makes of one link. */
  lemma LoadedLink(s: State, records: seq<Collection>, now: string, id: string, topic: string)
    ensures var t := Loaded(s, records, now);
      && (id in Ids(t.index, topic) <==> id in Ids(s.index, topic) || Mentioned(records, id, topic))
      && (id in Scan(t.collections, topic) <==>
           match LastOf(records, id)
           case Some(r) => topic in FeedTopics(r.members)
           case None => id in Scan(s.collections, topic))
  {
    LoadedMeans(s, records, now);
  }

  lemma LoadedLinkFresh(s: State, records: seq<Collection>, now: string, id: string, topic: string)
    requires Consistent(s) && NothingStale(s, records)
    ensures var t := Loaded(s, records, now);
      id in Ids(t.index, topic) <==> id in Scan(t.collections, topic)
  {
    LoadedLink(s, records, now, id, topic);
    assert Ids(s.index, topic) == Scan(s.collections, topic);
    if LastOf(records, id).Some? {
      LastOfHasId(records, id);
      assert topic in FeedTopics(LastOf(records, id).value.members) ==> Mentioned(records, id, topic);
    } else {
      NotMentioned(records, id, topic);
    }
  }

  lemma {:induction false} NotMentioned(records: seq<Collection>, id: string, topic: string)
    requires LastOf(records, id).None?
    ensures !Mentioned(records, id, topic)
    decreases |records|
  {
    if records == [] {
    } else {
      NotMentioned(records[..|records| - 1], id, topic);
      assert records == records[..|records| - 1] + [records[|records| - 1]];
    }
  }

  /** Distinct ids, none of them in use, leave nothing stale. */
  lemma DistinctIdsLoad(s: State, records: seq<Collection>, now: string)
    requires Consistent(s)
    requires forall i, j | 0 <= i < j < |records| :: records[i].id != records[j].id
    requires forall r | r in records :: r.id !in s.collections
    ensures Consistent(Loaded(s, records, now))
  {
    forall id, topic | LastOf(records, id).Some? && (Mentioned(records, id, topic) || id in Ids(s.index, topic))
      ensures topic in FeedTopics(LastOf(records, id).value.members)
    {
      LastOfHasId(records, id);
      var last := LastOf(records, id).value;
      assert id !in Scan(s.collections, topic);
      var r :| r in records && r.id == id && topic in FeedTopics(r.members);
      var i :| 0 <= i < |records| && records[i] == r;
      var j :| 0 <= j < |records| && records[j] == last;
      assert i == j;
    }
    LoadConsistentIff(s, records, now);
  }

  /** Two records of one id: the feed of the first is still propagated to the collection, which no longer carries it. */
  lemma DuplicateIdLeavesStaleLink(now: string)
    ensures var first := Collection("c", None, "", [Member("a@p2p", "a", "xmpp-feed:a", "")], "", "");
      var t := Loaded(State(map[], map[]), [first, first.(members := [])], now);
      "c" in Ids(t.index, "xmpp-feed:a") && Scan(t.collections, "xmpp-feed:a") == {}
  {
    var member := Member("a@p2p", "a", "xmpp-feed:a", "");
    var first := Collection("c", None, "", [member], "", "");
    var s := State(map[], map[]);
    var records := [first, first.(members := [])];
    var t := Loaded(s, records, now);
    LoadedMeans(s, records, now);
    assert member in first.members;
    assert first in records;
    assert Mentioned(records, "c", "xmpp-feed:a");
    assert LastOf(records, "c") == Some(records[1]);
    forall id | LastOf(records, id).Some?
      ensures id == "c"
    {
      LastOfHasId(records, id);
    }
  }

  // ---------------------------------------------------------------- runs

  datatype Operation =
    | Load(records: seq<Collection>)
    | Create(id: string, name: Option<string>)
    | Add(id: string, peerId: string)

  function Apply(s: State, op: Operation, now: string): State {
    match op
    case Load(records) => Loaded(s, records, now)
    case Create(id, name) => Created(s, id, name, now)
    case Add(id, peerId) => Added(s, id, peerId, now)
  }

  function ApplyAll(s: State, ops: seq<(Operation, string)>): State
    decreases |ops|
  {
    if ops == [] then s
    else
      var (op, now) := ops[|ops| - 1];
      Apply(ApplyAll(s, ops[..|ops| - 1]), op, now)
  }

  /** Every load of the run leaves nothing stale. */
  ghost predicate CleanLoads(s: State, ops: seq<(Operation, string)>) {
    forall i | 0 <= i < |ops| && ops[i].0.Load? :: NothingStale(ApplyAll(s, ops[..i]), ops[i].0.records)
  }

  /** After any such run, the index of a feed is what a scan of all collections finds. */
  lemma {:induction false} EveryRunConsistent(s: State, ops: seq<(Operation, string)>)
    requires Consistent(s) && CleanLoads(s, ops)
    ensures Consistent(ApplyAll(s, ops))
    decreases |ops|
  {
    if ops == [] {
    } else {
      var most := ops[..|ops| - 1];
      var (op, now) := ops[|ops| - 1];
      forall i | 0 <= i < |most| && most[i].0.Load?
        ensures NothingStale(ApplyAll(s, most[..i]), most[i].0.records)
      {
        assert most[..i] == ops[..i];
      }
      EveryRunConsistent(s, most);
      var u := ApplyAll(s, most);
      match op
      case Load(records) => LoadConsistentIff(u, records, now);
      case Create(id, name) => CreatedConsistent(u, id, name, now);
      case Add(id, peerId) => AddedConsistent(u, id, peerId, now);
    }
  }

  // ---------------------------------------------------------------- what the operations make of a collection

  /** The same members, each added `now` if it does not say when. */
  ghost predicate SameMembers(ms: seq<Member>, was: seq<Member>, now: string) {
    && |ms| == |was|
    && forall i | 0 <= i < |ms| ::
         && ms[i].jid == was[i].jid && ms[i].peerId == was[i].peerId && ms[i].feedTopic == was[i].feedTopic
         && ms[i].addedAt == if was[i].addedAt == "" then now else was[i].addedAt
  }

  /** No collection but that of `id` changes. */
  ghost predicate OthersStay(s: State, t: State, id: string) {
    forall x | x != id :: (x in t.collections <==> x in s.collections) && (x in s.collections ==> t.collections[x] == s.collections[x])
  }

  /**
   * Creating a collection takes the name given, and else keeps the old one; it keeps the
   * members and the time of creation of a collection that exists, and starts one that does
   * not empty.
   */
  lemma CreatedMeans(s: State, id: string, name: Option<string>, now: string)
    ensures var t := Created(s, id, name, now);
      && OthersStay(s, t, id) && id in t.collections
      && var c := t.collections[id];
         && c.id == id && c.topic == "xmpp-collection:" + id && c.updatedAt == now
         && (name.Some? ==> c.name == name)
         && if id in s.collections then
              var was := s.collections[id];
              && (name.None? ==> c.name == was.name)
              && SameMembers(c.members, was.members, now)
              && c.createdAt == if was.createdAt == "" then now else was.createdAt
            else
              (name.None? ==> c.name == None) && c.members == [] && c.createdAt == now
  {
    assert CollectionTopicForId(id)[0] == 'x';
  }

  /** Adding a feed changes nothing but the members and the time of the update; a missing collection is created first. */
  lemma AddedMeans(s: State, id: string, peerId: string, now: string)
    requires id in s.collections
    ensures var t, was := Added(s, id, peerId, now), s.collections[id];
      && OthersStay(s, t, id) && id in t.collections
      && var c := t.collections[id];
         && c.id == was.id && c.name == was.name && c.updatedAt == now
         && c.topic == (if was.topic == "" then "xmpp-collection:" + was.id else was.topic)
         && c.createdAt == (if was.createdAt == "" then now else was.createdAt)
         && SameMembers(c.members, WithFeed(was.members, peerId, now), now)
         && "xmpp-feed:" + peerId in FeedTopics(c.members)
  {
    WithFeedMeans(s.collections[id].members, peerId, now);
  }

  lemma AddedToNew(s: State, id: string, peerId: string, now: string)
    requires id !in s.collections
    ensures Added(s, id, peerId, now) == Added(Created(s, id, None, now), id, peerId, now)
  {
  }

  /** A record that is loaded keeps what it says; what it does not say is filled in. */
  lemma LoadedOneMeans(s: State, record: Collection, now: string)
    ensures var t := LoadedOne(s, record, now);
      && OthersStay(s, t, record.id) && record.id in t.collections
      && var c := t.collections[record.id];
         && c.id == record.id && c.name == record.name
         && c.topic == (if record.topic == "" then "xmpp-collection:" + record.id else record.topic)
         && SameMembers(c.members, record.members, now)
         && c.createdAt == (if record.createdAt == "" then now else record.createdAt)
         && c.updatedAt == (if record.updatedAt == "" then now else record.updatedAt)
  {
  }

  /** A run is its operations, one after the other. */
  lemma RunGoesOn(s: State, ops: seq<(Operation, string)>, now: string, records: seq<Collection>, id: string,
                  name: Option<string>, peerId: string)
    ensures ApplyAll(s, []) == s
    ensures var t := ApplyAll(s, ops);
      && ApplyAll(s, ops + [(Load(records), now)]) == Loaded(t, records, now)
      && ApplyAll(s, ops + [(Create(id, name), now)]) == Created(t, id, name, now)
      && ApplyAll(s, ops + [(Add(id, peerId), now)]) == Added(t, id, peerId, now)
  {
    assert forall op :: (ops + [op])[..|ops|] == ops;
  }
}
