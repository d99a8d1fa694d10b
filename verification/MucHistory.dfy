/**
 * Group chat history with corrections (src/core/xmpp-muc.ts:395-428), its persistence
 * (src/core/xmpp-persistence.ts:104-112, 222-234, 354-360) and the normalisation of
 * records (src/core/xmpp-records.ts:633-652).
 *
 * Times are ranks: two timestamps compare as their `localeCompare` does.
 */
module MucHistory {
  import opened Wrappers
  import opened CompositeKeys
  import opened OrderedMaps
  import opened Sorting
  import XepHelpers

  const MUC_HISTORY_LIMIT: nat := 500

  datatype Message = Message(
    id: string,
    room: string,
    from: string,
    fromPeerId: string,
    body: string,
    timestamp: int,
    encrypted: bool,
    replace: Option<string>,
    reply: Option<XepHelpers.Reply>,
    thread: Option<string>)

  /** A record as gossip or storage delivers it: fields may be missing or empty. */
  datatype RawMessage = RawMessage(
    id: string,
    room: string,
    from: string,
    fromPeerId: string,
    body: string,
    timestamp: Option<int>,
    encrypted: Option<bool>,
    replace: Option<string>,
    reply: Option<XepHelpers.Reply>,
    thread: Option<string>)

  function Normalize(raw: RawMessage, now: int): Message {
    Message(raw.id, raw.room, raw.from, raw.fromPeerId, raw.body, raw.timestamp.GetOr(now),
            raw.encrypted.GetOr(false),
            if raw.replace == Some("") then None else raw.replace,
            if raw.reply.Some? && raw.reply.value.id == "" then None else raw.reply,
            raw.thread)
  }

  /** A normalised record as it is written to storage. */
  function ToRaw(m: Message): RawMessage {
    RawMessage(m.id, m.room, m.from, m.fromPeerId, m.body, Some(m.timestamp), if m.encrypted then Some(true) else None,
               m.replace, m.reply, m.thread)
  }

  function AllToRaw(ms: seq<Message>): seq<RawMessage> {
    seq(|ms|, i requires 0 <= i < |ms| => ToRaw(ms[i]))
  }

  function AllNormalized(raws: seq<RawMessage>, now: int): seq<Message> {
    seq(|raws|, i requires 0 <= i < |raws| => Normalize(raws[i], now))
  }

  /** A message as normalisation leaves it. */
  predicate IsNormal(m: Message) {
    m.replace != Some("") && (m.reply.Some? ==> m.reply.value.id != "")
  }

  /** Storage gives normalised messages back unchanged. */
  lemma StorageRoundTrip(ms: seq<Message>, later: int)
    requires forall m | m in ms :: IsNormal(m)
    ensures AllNormalized(AllToRaw(ms), later) == ms
  {
    forall i | 0 <= i < |ms|
      ensures Normalize(ToRaw(ms[i]), later) == ms[i]
    {
      assert ms[i] in ms;
    }
  }

  /** Loading a stored record at any later time gives the record back. */
  lemma NormalizeStored(raw: RawMessage, now: int, later: int)
    ensures Normalize(ToRaw(Normalize(raw, now)), later) == Normalize(raw, now)
  {
  }

  type History = OrderedMap<string, Message>

  function Key(room: string, id: string): string {
    Joined(room, id)
  }

  function KeyOf(m: Message): string {
    Key(m.room, m.id)
  }

  /** `f` is a correction of `e`. */
  predicate Corrects(f: Message, e: Message) {
    f.room == e.room && f.replace == Some(e.id)
  }

  predicate IsCorrected(h: History, m: Message) {
    exists i | 0 <= i < |Values(h)| :: Corrects(Values(h)[i], m)
  }

  function WithoutTarget(h: History, m: Message): History {
    match m.replace
    case Some(id) => Delete(h, Key(m.room, id))
    case None => h
  }

  predicate Accepts(h: History, m: Message) {
    KeyOf(m) !in h.at && !IsCorrected(h, m)
  }

  /** `recordMucMessage` on a normalised message. */
  function Record(h: History, m: Message): History {
    if Accepts(h, m) then Trim(Set(WithoutTarget(h, m), KeyOf(m), m), MUC_HISTORY_LIMIT) else h
  }

  function RecordAll(h: History, ms: seq<Message>): History
    decreases |ms|
  {
    if ms == [] then h else Record(RecordAll(h, ms[..|ms| - 1]), ms[|ms| - 1])
  }

  // ---------------------------------------------------------------- persistence

  function Stamp(m: Message): int {
    m.timestamp
  }

  /** What `persistMucHistoryState` writes. */
  function Persisted(h: History): seq<Message> {
    SortBy(Values(h), Stamp)
  }

  /** The loop of `loadMucHistoryState`, on an empty history. */
  function Filled(ms: seq<Message>): History
    decreases |ms|
  {
    if ms == [] then Empty()
    else var m := ms[|ms| - 1]; Set(Filled(ms[..|ms| - 1]), KeyOf(m), m)
  }

  function Loaded(ms: seq<Message>): History {
    Trim(Filled(ms), MUC_HISTORY_LIMIT)
  }

  // ---------------------------------------------------------------- keys

  /** Keys tell rooms and ids apart, unless one room name goes on after the other and a colon. */
  lemma KeyInjective(room: string, id: string, room': string, id': string)
    requires !Overlap(room, room')
    requires Key(room, id) == Key(room', id')
    ensures room == room' && id == id'
  {
    JoinedInjective(room, id, room', id');
  }

  /** Which rooms can hold messages of one key: exactly those where one name goes on after the other and a colon. */
  lemma RoomsCollideIff(room: string, room': string)
    requires room != room'
    ensures (exists id, id' :: Key(room, id) == Key(room', id')) <==> Overlap(room, room')
  {
    JoinedCollideIff(room, room');
    if exists id, id' :: Joined(room, id) == Joined(room', id') {
      var id, id' :| Joined(room, id) == Joined(room', id');
      assert Key(room, id) == Key(room', id');
    }
    if exists id, id' :: Key(room, id) == Key(room', id') {
      var id, id' :| Key(room, id) == Key(room', id');
      assert Joined(room, id) == Joined(room', id');
    }
  }

  /** With a colon in a room name, a message of one room keeps a message of another from being recorded. */
  lemma RoomsCanCollide(m: Message)
    ensures var a := m.(room := "a", id := "b:c");
      var b := m.(room := "a:b", id := "c");
      a.room != b.room && !Accepts(Set(Empty(), KeyOf(a), a), b)
  {
    assert Key("a", "b:c") == "a:b:c" == Key("a:b", "c");
  }

  // ---------------------------------------------------------------- the invariant of every run

  ghost predicate Keyed(h: History) {
    forall k | k in h.at :: KeyOf(h.at[k]) == k
  }

  /** No message is stored beside its own correction. */
  ghost predicate NoneBesideCorrection(h: History) {
    forall k, l | k in h.at && l in h.at :: !Corrects(h.at[k], h.at[l])
  }

  lemma IsCorrectedMeans(h: History, m: Message)
    ensures IsCorrected(h, m) <==> exists k :: k in h.at && Corrects(h.at[k], m)
  {
    if IsCorrected(h, m) {
      var i :| 0 <= i < |Values(h)| && Corrects(Values(h)[i], m);
      assert h.keys[i] in h.at;
    }
    if k :| k in h.at && Corrects(h.at[k], m) {
      ValuesAreThoseMapped(h, h.at[k]);
      var i :| 0 <= i < |Values(h)| && Values(h)[i] == h.at[k];
    }
  }

  /** What the history holds before it is trimmed. */
  lemma BeforeTrim(h: History, m: Message)
    requires Keyed(h) && NoneBesideCorrection(h) && Accepts(h, m)
    ensures var r := Set(WithoutTarget(h, m), KeyOf(m), m);
      && Keyed(r)
      && (NoneBesideCorrection(r) <==> m.replace != Some(m.id))
  {
    var r := Set(WithoutTarget(h, m), KeyOf(m), m);
    assert r.at[KeyOf(m)] == m;
    IsCorrectedMeans(h, m);
    if m.replace == Some(m.id) {
      assert Corrects(r.at[KeyOf(m)], r.at[KeyOf(m)]);
    } else {
      forall k, l | k in r.at && l in r.at
        ensures !Corrects(r.at[k], r.at[l])
      {
        if k == KeyOf(m) && l != KeyOf(m) {
          assert l in h.at && KeyOf(h.at[l]) == l;
        } else if k != KeyOf(m) {
          assert k in h.at && !Corrects(h.at[k], m);
        }
      }
    }
  }

  /** Recording keeps the history bounded, keyed, and free of messages beside their corrections. */
  lemma RecordKeeps(h: History, m: Message)
    requires Keyed(h) && NoneBesideCorrection(h) && Size(h) <= MUC_HISTORY_LIMIT
    requires m.replace != Some(m.id)
    ensures var r := Record(h, m); Keyed(r) && NoneBesideCorrection(r) && Size(r) <= MUC_HISTORY_LIMIT
  {
    if Accepts(h, m) {
      BeforeTrim(h, m);
    }
  }

  /** Every run keeps all three, as long as no message claims to correct itself. */
  lemma {:induction false} EveryRunKeeps(ms: seq<Message>)
    requires forall m | m in ms :: m.replace != Some(m.id)
    ensures var r := RecordAll(Empty(), ms); Keyed(r) && NoneBesideCorrection(r) && Size(r) <= MUC_HISTORY_LIMIT
    decreases |ms|
  {
    if ms == [] {
    } else {
      var most, last := ms[..|ms| - 1], ms[|ms| - 1];
      EveryRunKeeps(most);
      assert last in ms;
      RecordKeeps(RecordAll(Empty(), most), last);
    }
  }

  // ---------------------------------------------------------------- small histories

  function Single(m: Message): History {
    OrderedMap([KeyOf(m)], map[KeyOf(m) := m])
  }

  lemma SingleCorrects(x: Message, m: Message)
    ensures IsCorrected(Single(x), m) <==> Corrects(x, m)
  {
    assert Values(Single(x)) == [x];
    assert Values(Single(x))[0] == x;
  }

  /** A correction takes the place of what it corrects. */
  lemma CorrectionReplaces(x: Message, m: Message)
    requires Corrects(m, x) && KeyOf(m) != KeyOf(x) && !Corrects(x, m)
    ensures Record(Single(x), m) == Single(m)
  {
    SingleCorrects(x, m);
    var h := Single(x);
    assert Key(m.room, m.replace.value) == KeyOf(x);
    assert Without([KeyOf(x)], KeyOf(x)) == Without([], KeyOf(x)) == [];
    assert WithoutTarget(h, m) == OrderedMap([], map[]);
    assert Set(WithoutTarget(h, m), KeyOf(m), m) == Single(m);
  }

  lemma FirstIsRecorded(m: Message)
    requires m.replace.None?
    ensures Record(Empty(), m) == Single(m)
  {
    var h: History := Empty();
    assert |Values(h)| == 0;
  }

  /**
   * A correction of a correction breaks it. Delivering the original, its repeat, and then
   * both corrections leaves only the last; if the repeat comes last, it is taken as new.
   */
  lemma ChainsDependOnOrder(m: Message)
    ensures var a := m.(id := "a", replace := None);
      var b := m.(id := "b", replace := Some("a"));
      var c := m.(id := "c", replace := Some("b"));
      && Record(Empty(), a) == Single(a) && Record(Single(a), a) == Single(a)
      && Record(Single(a), b) == Single(b) && Record(Single(b), c) == Single(c)
      && Record(Single(c), a).at == map[KeyOf(c) := c, KeyOf(a) := a] != Single(c).at
  {
    var a := m.(id := "a", replace := None);
    var b := m.(id := "b", replace := Some("a"));
    var c := m.(id := "c", replace := Some("b"));
    var ka, kb, kc := KeyOf(a), KeyOf(b), KeyOf(c);
    assert ka[|m.room| + 1] == 'a' && kb[|m.room| + 1] == 'b' && kc[|m.room| + 1] == 'c';
    FirstIsRecorded(a);
    CorrectionReplaces(a, b);
    CorrectionReplaces(b, c);
    UnrelatedIsAdded(c, a);
    assert ka !in Single(c).at;
  }

  lemma UnrelatedIsAdded(x: Message, m: Message)
    requires !Corrects(x, m) && m.replace.None? && KeyOf(x) != KeyOf(m)
    ensures Record(Single(x), m).at == map[KeyOf(x) := x, KeyOf(m) := m]
  {
    SingleCorrects(x, m);
  }

  // ---------------------------------------------------------------- persist, then load

  lemma KeysComeFromValues(h: History)
    requires Keyed(h)
    ensures forall k | k in h.at :: exists i :: 0 <= i < |Values(h)| && KeyOf(Values(h)[i]) == k
  {
    forall k | k in h.at
      ensures exists i :: 0 <= i < |Values(h)| && KeyOf(Values(h)[i]) == k
    {
      assert k in h.keys;
      var i :| 0 <= i < |h.keys| && h.keys[i] == k;
      assert KeyOf(Values(h)[i]) == k;
    }
  }

  lemma FilledStep(before: History, most: seq<Message>, m: Message)
    requires Keyed(before) && Values(before) == most
    requires forall i | 0 <= i < |most| :: KeyOf(most[i]) != KeyOf(m)
    ensures Keyed(Set(before, KeyOf(m), m)) && Values(Set(before, KeyOf(m), m)) == most + [m]
  {
    KeysComeFromValues(before);
    ValuesOfNewKey(before, KeyOf(m), m);
  }

  lemma FilledNext(most: seq<Message>, m: Message)
    ensures Filled(most + [m]) == Set(Filled(most), KeyOf(m), m)
  {
    assert (most + [m])[..|most|] == most;
  }

  lemma {:induction false} FilledHolds(ms: seq<Message>)
    requires forall i, j | 0 <= i < j < |ms| :: KeyOf(ms[i]) != KeyOf(ms[j])
    ensures Keyed(Filled(ms)) && Values(Filled(ms)) == ms
    decreases |ms|
  {
    if ms == [] {
    } else {
      var most, m := ms[..|ms| - 1], ms[|ms| - 1];
      assert most + [m] == ms;
      FilledHolds(most);
      FilledStep(Filled(most), most, m);
      FilledNext(most, m);
    }
  }

  /** Keyed histories with the same values are the same up to order. */
  lemma SameValuesSameRecords(r: History, h: History)
    requires Keyed(r) && Keyed(h)
    requires forall v :: v in Values(r) <==> v in Values(h)
    ensures r.at == h.at
  {
    forall k | k in r.at
      ensures k in h.at && h.at[k] == r.at[k]
    {
      ValuesAreThoseMapped(r, r.at[k]);
      ValuesAreThoseMapped(h, r.at[k]);
    }
    forall k | k in h.at
      ensures k in r.at
    {
      ValuesAreThoseMapped(h, h.at[k]);
      ValuesAreThoseMapped(r, h.at[k]);
    }
  }

  /** In a keyed history, the values in order have distinct keys. */
  lemma SortedKeysDiffer(h: History)
    requires Keyed(h)
    ensures var ms := Persisted(h); forall i, j | 0 <= i < j < |ms| :: KeyOf(ms[i]) != KeyOf(ms[j])
  {
    var vs := Values(h);
    var ms := Persisted(h);
    forall i, j | 0 <= i < j < |ms|
      ensures KeyOf(ms[i]) != KeyOf(ms[j])
    {
      if KeyOf(ms[i]) == KeyOf(ms[j]) {
        SortKeepsElements(vs, Stamp, ms[i]);
        SortKeepsElements(vs, Stamp, ms[j]);
        assert ms[i] in vs && ms[j] in vs;
        assert ms[i] == h.at[KeyOf(ms[i])] == ms[j];
        TwiceInMultiset(ms, i, j);
        OnceInValues(h, ms[i]);
      }
    }
  }

  lemma TwiceInMultiset(ms: seq<Message>, i: nat, j: nat)
    requires i < j < |ms| && ms[i] == ms[j]
    ensures multiset(ms)[ms[i]] >= 2
  {
    assert ms == ms[..j] + ms[j..];
    assert ms[..j][i] == ms[i] && ms[j..][0] == ms[j];
    assert multiset(ms) == multiset(ms[..j]) + multiset(ms[j..]);
    assert ms[i] in multiset(ms[..j]) && ms[i] in multiset(ms[j..]);
  }

  lemma OnceInValues(h: History, m: Message)
    requires Keyed(h)
    ensures multiset(Values(h))[m] <= 1
  {
    var vs := Values(h);
    assert forall i | 0 <= i < |vs| :: KeyOf(vs[i]) == h.keys[i];
    OnceIfDistinct(vs, m);
  }

  lemma {:induction false} OnceIfDistinct(vs: seq<Message>, m: Message)
    requires forall i, j | 0 <= i < j < |vs| :: vs[i] != vs[j]
    ensures multiset(vs)[m] <= 1
  {
    if vs == [] {
    } else {
      OnceIfDistinct(vs[1..], m);
      assert vs == [vs[0]] + vs[1..];
      assert multiset(vs) == multiset{vs[0]} + multiset(vs[1..]);
      if m == vs[0] {
        assert m !in vs[1..];
      }
    }
  }

  /** Reloading a persisted history gives the same records, oldest first. */
  lemma PersistThenLoad(h: History)
    requires Keyed(h) && Size(h) <= MUC_HISTORY_LIMIT
    ensures var r := Loaded(Persisted(h));
      && r.at == h.at
      && Values(r) == Persisted(h)
      && Ascending(Values(r), Stamp)
  {
    var ms := Persisted(h);
    SortedKeysDiffer(h);
    FilledHolds(ms);
    forall v
      ensures v in ms <==> v in Values(h)
    {
      SortKeepsElements(Values(h), Stamp, v);
    }
    SameValuesSameRecords(Filled(ms), h);
    assert Size(Filled(ms)) == |ms| == Size(h);
    SortAscends(Values(h), Stamp);
  }

  /** So the next eviction after a reload removes a message none of the others is older than. */
  lemma EvictionAfterReloadRemovesOldest(h: History, m: Message)
    requires Keyed(h) && Size(h) == MUC_HISTORY_LIMIT
    requires Accepts(Loaded(Persisted(h)), m) && m.replace.None?
    ensures var r := Loaded(Persisted(h));
      && r.keys[0] in h.at
      && (forall k | k in h.at :: h.at[r.keys[0]].timestamp <= h.at[k].timestamp)
      && Record(r, m).keys == r.keys[1..] + [KeyOf(m)]
  {
    var r := Loaded(Persisted(h));
    PersistThenLoad(h);
    assert Size(r) == |Persisted(h)| == Size(h);
    OldestFirst(r);
    FullEvictsFirst(r, m);
  }

  /** A full history makes room by dropping its first key. */
  lemma FullEvictsFirst(r: History, m: Message)
    requires Size(r) == MUC_HISTORY_LIMIT && Accepts(r, m) && m.replace.None?
    ensures Record(r, m).keys == r.keys[1..] + [KeyOf(m)]
  {
    assert (r.keys + [KeyOf(m)])[1..] == r.keys[1..] + [KeyOf(m)];
  }

  lemma OldestFirst(r: History)
    requires Size(r) > 0 && Ascending(Values(r), Stamp)
    ensures r.keys[0] in r.at
    ensures forall k | k in r.at :: r.at[r.keys[0]].timestamp <= r.at[k].timestamp
  {
    assert r.keys[0] in r.keys;
    forall k | k in r.at
      ensures r.at[r.keys[0]].timestamp <= r.at[k].timestamp
    {
      assert k in r.keys;
      var i :| 0 <= i < |r.keys| && r.keys[i] == k;
      assert Stamp(Values(r)[0]) <= Stamp(Values(r)[i]);
    }
  }

  /** Normalising fills in what is missing, drops an empty correction and a reply without an id, and keeps the rest. */
  lemma NormalizeMeans(raw: RawMessage, now: int)
    ensures var m := Normalize(raw, now);
      && IsNormal(m)
      && m.id == raw.id && m.room == raw.room && m.from == raw.from && m.fromPeerId == raw.fromPeerId && m.body == raw.body
      && m.thread == raw.thread
      && (raw.timestamp.Some? ==> m.timestamp == raw.timestamp.value) && (raw.timestamp.None? ==> m.timestamp == now)
      && (m.encrypted <==> raw.encrypted == Some(true))
      && (raw.replace != Some("") ==> m.replace == raw.replace)
      && (raw.reply.Some? && raw.reply.value.id != "" ==> m.reply == raw.reply)
  {
  }
}
