/** The mutable history of src/core/xmpp-muc.ts, proved against MucHistory. */
module XmppMuc {
  import opened OrderedMaps
  import opened Sequences
  import opened Sorting
  import opened MucHistory

  function InRoom(room: string): Message -> bool {
    (m: Message) => m.room == room
  }

  lemma RoomMessages(values: seq<Message>, room: string)
    ensures var messages := SortBy(Filter(values, InRoom(room)), Stamp);
      && (forall m :: m in messages <==> m in values && m.room == room)
      && Ascending(messages, Stamp)
  {
    var inRoom := Filter(values, InRoom(room));
    FilterMeans(values, InRoom(room));
    SortAscends(inRoom, Stamp);
    forall m
      ensures m in SortBy(inRoom, Stamp) <==> m in inRoom
    {
      SortKeepsElements(inRoom, Stamp, m);
    }
  }

  class XmppMucManager {
    var mucHistory: OrderedMap<string, Message>
    var stored: seq<RawMessage>   // the 'muc_history' record of the storage

    constructor ()
      ensures mucHistory == Empty() && stored == []
    {
      mucHistory := Empty();
      stored := [];
    }

    method RecordMucMessage(msg: RawMessage, now: int) returns (recorded: bool)
      modifies this`mucHistory
      ensures mucHistory == Record(old(mucHistory), Normalize(msg, now))
      ensures recorded == Accepts(old(mucHistory), Normalize(msg, now))
    {
      var normalized := Normalize(msg, now);
      var key := KeyOf(normalized);
      if key in mucHistory.at {
        return false;
      }
      var values := Values(mucHistory);
      for i := 0 to |values|
        invariant forall j | 0 <= j < i :: !Corrects(values[j], normalized)
      {
        if Corrects(values[i], normalized) {
          return false;
        }
      }
      if normalized.replace.Some? {
        mucHistory := Delete(mucHistory, Key(normalized.room, normalized.replace.value));
      }
      mucHistory := Set(mucHistory, key, normalized);
      mucHistory := TrimMap(mucHistory, MUC_HISTORY_LIMIT);
      return true;
    }

    /** `getMucHistory`: the room's messages, once each, oldest first and otherwise as recorded. */
    method GetMucHistory(room: string) returns (messages: seq<Message>)
      ensures messages == SortBy(Filter(Values(mucHistory), InRoom(room)), Stamp)
      ensures forall m :: m in messages <==> m in Values(mucHistory) && m.room == room
      ensures Ascending(messages, Stamp)
    {
      var values := Values(mucHistory);
      var inRoom: seq<Message> := [];
      for i := 0 to |values|
        invariant inRoom == Filter(values[..i], InRoom(room))
      {
        TakeOneMore(values, i + 1);
        if values[i].room == room {
          inRoom := inRoom + [values[i]];
        }
      }
      TakeAll(values);
      messages := SortBy(inRoom, Stamp);
      RoomMessages(values, room);
    }

    /** `persistMucHistoryState`. */
    method PersistMucHistory()
      modifies this`stored
      ensures stored == AllToRaw(Persisted(mucHistory))
    {
      stored := AllToRaw(SortBy(Values(mucHistory), Stamp));
    }

    /** `loadMucHistoryState` into an empty history. */
    method LoadMucHistory(now: int)
      requires mucHistory == Empty()
      modifies this`mucHistory
      ensures mucHistory == Loaded(AllNormalized(stored, now))
    {
      ghost var ms := AllNormalized(stored, now);
      for i := 0 to |stored|
        invariant mucHistory == Filled(ms[..i])
      {
        var normalized := Normalize(stored[i], now);
        mucHistory := Set(mucHistory, KeyOf(normalized), normalized);
        assert ms[..i + 1] == ms[..i] + [ms[i]];
        FilledNext(ms[..i], ms[i]);
      }
      assert ms[..|ms|] == ms;
      mucHistory := TrimMap(mucHistory, MUC_HISTORY_LIMIT);
    }
  }
}
