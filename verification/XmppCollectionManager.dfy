/**
 * The collection manager as the source keeps it (src/core/xmpp-collection.ts:63-247 and 434-521,
 * src/core/xmpp-node.ts:1083-1092).
 */
module XmppCollections {
  import opened Wrappers
  import opened OrderedMaps
  import opened Sorting
  import opened Collections
  import Attachments

  lemma FeedTopicsStep(members: seq<Member>, i: nat)
    requires i < |members|
    ensures FeedTopics(members[..i + 1]) == FeedTopics(members[..i]) + {members[i].feedTopic}
  {
    assert members[..i + 1] == members[..i] + [members[i]];
  }

  lemma LinkNothing(index: Index, id: string)
    ensures Linked(index, id, FeedTopics([])) == index
  {
  }

  lemma LinkOneMore(index: Index, id: string, topics: set<string>, topic: string)
    ensures var linked := Linked(index, id, topics);
      Linked(index, id, topics + {topic}) == linked[topic := Ids(linked, topic) + {id}]
  {
  }

  lemma UnlinkNothing(index: Index, id: string)
    ensures Unlinked(index, id, FeedTopics([])) == index
  {
  }

  lemma UnlinkOneMore(index: Index, id: string, topics: set<string>, topic: string)
    ensures var unlinked := Unlinked(index, id, topics);
      Unlinked(index, id, topics + {topic}) ==
        (if topic !in unlinked then unlinked
         else if unlinked[topic] - {id} == {} then unlinked - {topic}
         else unlinked[topic := unlinked[topic] - {id}])
  {
    var unlinked, more := Unlinked(index, id, topics), Unlinked(index, id, topics + {topic});
    forall t
      ensures t in more <==> t in unlinked && !(t == topic && unlinked[t] - {id} == {})
      ensures t in more ==> more[t] == if t == topic then unlinked[t] - {id} else unlinked[t]
    {
    }
  }

  class XmppCollectionManager {
    var collections: map<string, Collection>
    var collectionFeedIndex: Index
    /** Posts published, as collection and post. */
    var published: seq<(string, string)>
    var attachmentHistory: Attachments.History

    constructor ()
      ensures Contents() == State(map[], map[]) && Consistent(Contents()) && published == []
      ensures attachmentHistory == Empty()
    {
      collections, collectionFeedIndex, published := map[], map[], [];
      attachmentHistory := Empty();
    }

    function Contents(): State
      reads this`collections, this`collectionFeedIndex
    {
      State(collections, collectionFeedIndex)
    }

    method IndexCollectionMembers(collection: Collection)
      modifies this`collectionFeedIndex
      ensures collectionFeedIndex == Linked(old(collectionFeedIndex), collection.id, FeedTopics(collection.members))
    {
      ghost var was := collectionFeedIndex;
      LinkNothing(was, collection.id);
      for i := 0 to |collection.members|
        invariant collectionFeedIndex == Linked(was, collection.id, FeedTopics(collection.members[..i]))
      {
        var feedTopic := collection.members[i].feedTopic;
        FeedTopicsStep(collection.members, i);
        LinkOneMore(was, collection.id, FeedTopics(collection.members[..i]), feedTopic);
        if feedTopic !in collectionFeedIndex {
          collectionFeedIndex := collectionFeedIndex[feedTopic := {}];
        }
        collectionFeedIndex := collectionFeedIndex[feedTopic := collectionFeedIndex[feedTopic] + {collection.id}];
      }
      assert collection.members[..|collection.members|] == collection.members;
    }

    method UnindexCollectionMembers(collection: Collection)
      modifies this`collectionFeedIndex
      ensures collectionFeedIndex == Unlinked(old(collectionFeedIndex), collection.id, FeedTopics(collection.members))
    {
      ghost var was := collectionFeedIndex;
      UnlinkNothing(was, collection.id);
      for i := 0 to |collection.members|
        invariant collectionFeedIndex == Unlinked(was, collection.id, FeedTopics(collection.members[..i]))
      {
        var feedTopic := collection.members[i].feedTopic;
        FeedTopicsStep(collection.members, i);
        UnlinkOneMore(was, collection.id, FeedTopics(collection.members[..i]), feedTopic);
        if feedTopic in collectionFeedIndex {
          var ids := collectionFeedIndex[feedTopic] - {collection.id};
          if |ids| == 0 {
            collectionFeedIndex := collectionFeedIndex - {feedTopic};
          } else {
            collectionFeedIndex := collectionFeedIndex[feedTopic := ids];
          }
        }
      }
      assert collection.members[..|collection.members|] == collection.members;
    }

    /** Creates a collection, or renames one and keeps its members. */
    method CreateCollection(id: string, name: Option<string>, now: string) returns (collection: Collection)
      modifies this`collections, this`collectionFeedIndex
      ensures Contents() == Created(old(Contents()), id, name, now)
      ensures id in collections && collections[id] == collection && collection.id == id
      ensures old(Consistent(Contents())) ==> Consistent(Contents())
    {
      CreatedConsistentIf(Contents(), id, name, now);
      var existing := if id in collections then collections[id] else Collection(id, None, "", [], now, now);
      collection := NormalizeCollection(
        Collection(
          id, if name.Some? then name else existing.name, CollectionTopicForId(id),
          existing.members, existing.createdAt, now),
        now);
      collections := collections[id := collection];
      IndexCollectionMembers(collection);
    }

    method AddFeedToCollection(collectionId: string, peerId: string, now: string) returns (next: Collection)
      modifies this`collections, this`collectionFeedIndex
      ensures Contents() == Added(old(Contents()), collectionId, peerId, now)
      ensures old(Consistent(Contents())) ==> Consistent(Contents())
    {
      AddedConsistentIf(Contents(), collectionId, peerId, now);
      var current: Collection;
      if collectionId in collections {
        current := collections[collectionId];
      } else {
        current := CreateCollection(collectionId, None, now);
      }
      next := NormalizeCollection(current.(members := WithFeed(current.members, peerId, now), updatedAt := now), now);
      UnindexCollectionMembers(current);
      collections := collections[collectionId := next];
      IndexCollectionMembers(next);
    }

    method LoadCollectionState(records: seq<Collection>, now: string)
      modifies this`collections, this`collectionFeedIndex
      ensures Contents() == Loaded(old(Contents()), records, now)
    {
      for i := 0 to |records|
        invariant Contents() == Loaded(old(Contents()), records[..i], now)
      {
        assert records[..i + 1][..i] == records[..i];
        var normalized := NormalizeCollection(records[i], now);
        collections := collections[normalized.id := normalized];
        IndexCollectionMembers(normalized);
      }
      assert records[..|records|] == records;
    }

    /** Fails for an unknown collection. */
    method PublishCollectionPost(collectionId: string, post: string) returns (ok: bool)
      modifies this`published
      ensures ok <==> collectionId in collections
      ensures published == old(published) + (if ok then [(collectionId, post)] else [])
    {
      ok := collectionId in collections;
      if ok {
        published := published + [(collectionId, post)];
      }
    }

    /**
     * A post of a feed goes once to each collection the index names, until one is unknown.
     * With a consistent index none is, and the index names exactly what a scan finds.
     */
    method PropagateFeedToCollections(feedTopic: string, post: string) returns (ok: bool, ghost ids: seq<string>)
      modifies this`published
      ensures ok <==> forall id | id in Ids(collectionFeedIndex, feedTopic) :: id in collections
      ensures published == old(published) + Posts(ids, post)
      ensures forall i, j | 0 <= i < j < |ids| :: ids[i] != ids[j]
      ensures forall id | id in ids :: id in Ids(collectionFeedIndex, feedTopic) && id in collections
      ensures ok ==> forall id | id in Ids(collectionFeedIndex, feedTopic) :: id in ids
      ensures Consistent(Contents()) ==> ok && forall id :: id in ids <==> id in Scan(collections, feedTopic)
    {
      ok, ids := true, [];
      ghost var named := Ids(collectionFeedIndex, feedTopic);
      if feedTopic in collectionFeedIndex {
        var left := collectionFeedIndex[feedTopic];
        while left != {}
          invariant ok && left <= named
          invariant forall id :: id in ids <==> id in named && id !in left
          invariant forall id | id in ids :: id in collections
          invariant forall i, j | 0 <= i < j < |ids| :: ids[i] != ids[j]
          invariant published == old(published) + Posts(ids, post)
          decreases |left|
        {
          var collectionId :| collectionId in left;
          ok := PublishCollectionPost(collectionId, post);
          if !ok {
            assert Ids(Contents().index, feedTopic) != Scan(Contents().collections, feedTopic);
            return;
          }
          ids := ids + [collectionId];
          left := left - {collectionId};
        }
      }
      assert Consistent(Contents()) ==> named == Scan(collections, feedTopic);
    }

    // -------------------------------------------------------------- attachments

    method RecordAttachment(attachment: Attachments.Attachment) returns (recorded: bool)
      modifies this`attachmentHistory
      ensures attachmentHistory == Attachments.Record(old(attachmentHistory), attachment)
      ensures recorded <==> !Attachments.Repeats(old(attachmentHistory), attachment)
    {
      if Attachments.Repeats(attachmentHistory, attachment) {
        return false;
      }
      attachmentHistory := Set(attachmentHistory, Attachments.KeyOf(attachment), attachment);
      attachmentHistory := TrimMap(attachmentHistory, Attachments.ATTACHMENT_HISTORY_LIMIT);
      return true;
    }

    /** Filters the history and summarises what is left: the counts are those of the target's attachments. */
    method BuildAttachmentSummary(topic: string, targetId: string, now: int) returns (s: Attachments.Summary)
      ensures var own := Attachments.OfTarget(Values(attachmentHistory), topic, targetId);
        && s == Attachments.Built(topic, targetId, own, now)
        && s.total == |own| == s.noticed + s.reactions
        && Attachments.Counts(s, own)
    {
      var all := Values(attachmentHistory);
      var own: seq<Attachments.Attachment> := [];
      for i := 0 to |all|
        invariant own == Attachments.OfTarget(all[..i], topic, targetId)
      {
        assert all[..i + 1][..i] == all[..i];
        if all[i].topic == topic && all[i].targetId == targetId {
          own := own + [all[i]];
        }
      }
      assert all[..|all|] == all;

      s := Attachments.BuildAttachmentSummary(topic, targetId, own, now);
    }

    /** All summaries, or those of one topic, in one pass; the latest first. */
    method GetAttachmentSummaries(topic: string) returns (sorted: seq<Attachments.Summary>)
      ensures var summaries := Values(Attachments.Grouped(Attachments.OfTopic(Values(attachmentHistory), topic)));
        && sorted == SortBy(summaries, LatestFirst)
        && multiset(sorted) == multiset(summaries)
        && forall i, j | 0 <= i < j < |sorted| :: sorted[i].updatedAt >= sorted[j].updatedAt
    {
      var summaries := Attachments.Summaries(Values(attachmentHistory), topic);
      sorted := SortBy(Values(summaries), LatestFirst);
      SortedLatestFirst(Values(summaries));
    }
  }

  function LatestFirst(s: Attachments.Summary): int {
    -s.updatedAt
  }

  lemma SortedLatestFirst(summaries: seq<Attachments.Summary>)
    ensures var sorted := SortBy(summaries, LatestFirst);
      forall i, j | 0 <= i < j < |sorted| :: sorted[i].updatedAt >= sorted[j].updatedAt
  {
    SortAscends(summaries, LatestFirst);
    var sorted := SortBy(summaries, LatestFirst);
    assert forall i, j | 0 <= i < j < |sorted| :: LatestFirst(sorted[i]) <= LatestFirst(sorted[j]);
  }

  /** The posts of `post` to `ids`, in order. */
  function Posts(ids: seq<string>, post: string): (ps: seq<(string, string)>)
    ensures |ps| == |ids|
    ensures forall i | 0 <= i < |ids| :: ps[i] == (ids[i], post)
  {
    seq(|ids|, i requires 0 <= i < |ids| => (ids[i], post))
  }

  lemma CreatedConsistentIf(s: State, id: string, name: Option<string>, now: string)
    ensures Consistent(s) ==> Consistent(Created(s, id, name, now))
  {
    if Consistent(s) {
      CreatedConsistent(s, id, name, now);
    }
  }

  lemma AddedConsistentIf(s: State, id: string, peerId: string, now: string)
    ensures Consistent(s) ==> Consistent(Added(s, id, peerId, now))
  {
    if Consistent(s) {
      AddedConsistent(s, id, peerId, now);
    }
  }
}
