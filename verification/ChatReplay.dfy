/**
 * Replaying a chat archive twice (src/core/xmpp-chat.ts:112-114, 159-169, 211-312): exactly
 * when the second replay changes nothing, and what it does otherwise.
 */
module ChatReplay {
  import opened Wrappers
  import opened OrderedMaps
  import opened ChatArchive

  /** The last of the messages that have this key. */
  function Latest(ms: seq<Message>, k: string): Option<Message>
    decreases |ms|
  {
    if ms == [] then None
    else if KeyOf(ms[|ms| - 1]) == k then Some(ms[|ms| - 1])
    else Latest(ms[..|ms| - 1], k)
  }

  lemma {:induction false} LatestIsOne(ms: seq<Message>, k: string)
    ensures Latest(ms, k).Some? <==> exists m :: m in ms && KeyOf(m) == k
    ensures Latest(ms, k).Some? ==> Latest(ms, k).value in ms && KeyOf(Latest(ms, k).value) == k
    decreases |ms|
  {
    if ms == [] {
    } else {
      LatestIsOne(ms[..|ms| - 1], k);
      assert ms == ms[..|ms| - 1] + [ms[|ms| - 1]];
    }
  }

  // ---------------------------------------------------------------- recording over what is there

  /** Up to 500 messages recorded into an empty history: under each key is the last that has it. */
  lemma {:induction false} RecordedLatest(ms: seq<Message>)
    requires |ms| <= CHAT_HISTORY_LIMIT
    ensures Size(RecordAll(Empty(), ms)) <= |ms|
    ensures forall k :: Get(RecordAll(Empty(), ms), k) == Latest(ms, k)
    decreases |ms|
  {
    if ms == [] {
    } else {
      RecordedLatest(ms[..|ms| - 1]);
    }
  }

  /** Messages whose keys are all there replace what is there. */
  lemma {:induction false} RecordedWithin(h: History, ms: seq<Message>)
    requires Size(h) <= CHAT_HISTORY_LIMIT && forall m | m in ms :: KeyOf(m) in h.at
    ensures RecordAll(h, ms).keys == h.keys
    ensures forall k :: Get(RecordAll(h, ms), k) == if Latest(ms, k).Some? then Latest(ms, k) else Get(h, k)
    decreases |ms|
  {
    if ms == [] {
    } else {
      var most, m := ms[..|ms| - 1], ms[|ms| - 1];
      assert ms == most + [m];
      RecordedWithin(h, most);
      var before := RecordAll(h, most);
      assert Get(before, KeyOf(m)).Some?;
    }
  }

  /** `t` came from `h` by dropping its first `d` keys and adding at most `n` new ones, under which are the last messages. */
  ghost predicate CameFrom(t: History, h: History, d: nat, n: nat, ms: seq<Message>) {
    && d <= |h.keys| && h.keys[d..] <= t.keys && |t.keys| <= |h.keys| - d + n
    && forall k | k !in h.at :: Get(t, k) == Latest(ms, k)
  }

  lemma RecordNext(t: History, h: History, d: nat, most: seq<Message>, m: Message) returns (d': nat)
    requires CameFrom(t, h, d, |most|, most) && |most| < CHAT_HISTORY_LIMIT && Size(t) <= CHAT_HISTORY_LIMIT
    ensures CameFrom(Record(t, m), h, d', |most| + 1, most + [m])
  {
    var u := Set(t, KeyOf(m), m);
    SetNextOver(t, h, d, most, m);
    RecordedOne(t, m);
    if Record(t, m) == u {
      d' := d;
    } else {
      d' := d + 1;
      FirstDropped(u, Record(t, m), h, d, most + [m]);
    }
  }

  lemma RecordedOne(t: History, m: Message)
    requires Size(t) <= CHAT_HISTORY_LIMIT
    ensures var u, r := Set(t, KeyOf(m), m), Record(t, m);
      r == u || (Dropped(u, r) && |u.keys| > CHAT_HISTORY_LIMIT)
  {
    TrimOne(Set(t, KeyOf(m), m), CHAT_HISTORY_LIMIT);
  }

  lemma SetNextOver(t: History, h: History, d: nat, most: seq<Message>, m: Message)
    requires CameFrom(t, h, d, |most|, most)
    ensures CameFrom(Set(t, KeyOf(m), m), h, d, |most| + 1, most + [m])
  {
    assert (most + [m])[..|most|] == most;
  }

  /** With more keys than there are new ones, the first is an old one. */
  lemma FirstDropped(u: History, r: History, h: History, d: nat, ms: seq<Message>)
    requires CameFrom(u, h, d, |ms|, ms) && |u.keys| > |ms| && Dropped(u, r)
    ensures CameFrom(r, h, d + 1, |ms|, ms)
  {
    var first := h.keys[d];
    assert h.keys[d..][0] == first && u.keys[0] == first && first in h.keys;
    assert h.keys[d + 1..] == h.keys[d..][1..];
    forall k | k !in h.at
      ensures Get(r, k) == Get(u, k)
    {
      OthersStay(u, r, k);
    }
  }

  /** Dropping the first key keeps the rest. */
  lemma OthersStay(u: History, r: History, k: string)
    requires Dropped(u, r) && k != u.keys[0]
    ensures Get(r, k) == Get(u, k)
  {
    KeyOfKeys(u, k);
    KeyOfKeys(r, k);
    if k in u.keys {
      var i :| 0 <= i < |u.keys| && u.keys[i] == k;
      assert r.keys[i - 1] == k;
    }
  }

  /** A key that was not there is never dropped again while 500 messages are recorded. */
  lemma {:induction false} RecordedOver(h: History, ms: seq<Message>) returns (d: nat)
    requires Size(h) <= CHAT_HISTORY_LIMIT && |ms| <= CHAT_HISTORY_LIMIT
    ensures CameFrom(RecordAll(h, ms), h, d, |ms|, ms) && Size(RecordAll(h, ms)) <= CHAT_HISTORY_LIMIT
    decreases |ms|
  {
    if ms == [] {
      d := 0;
    } else {
      var most, m := ms[..|ms| - 1], ms[|ms| - 1];
      assert ms == most + [m];
      d := RecordedOver(h, most);
      d := RecordNext(RecordAll(h, most), h, d, most, m);
    }
  }

  /** Up to 500 messages, recorded, change nothing exactly when the last under each key is what is there. */
  lemma RecordedAgainIff(h: History, ms: seq<Message>)
    requires Size(h) <= CHAT_HISTORY_LIMIT && |ms| <= CHAT_HISTORY_LIMIT
    ensures RecordAll(h, ms) == h <==> forall m | m in ms :: Latest(ms, KeyOf(m)) == Get(h, KeyOf(m))
  {
    var r := RecordAll(h, ms);
    if forall m | m in ms :: KeyOf(m) in h.at {
      RecordedWithin(h, ms);
      WithinSameIff(h, ms, r);
    } else {
      var m :| m in ms && KeyOf(m) !in h.at;
      var d := RecordedOver(h, ms);
      LatestIsOne(ms, KeyOf(m));
      assert Get(r, KeyOf(m)) == Latest(ms, KeyOf(m)) != Get(h, KeyOf(m));
    }
  }

  lemma WithinSameIff(h: History, ms: seq<Message>, r: History)
    requires r.keys == h.keys
    requires forall k :: Get(r, k) == if Latest(ms, k).Some? then Latest(ms, k) else Get(h, k)
    ensures r == h <==> forall m | m in ms :: Latest(ms, KeyOf(m)) == Get(h, KeyOf(m))
  {
    forall m | m in ms
      ensures Get(r, KeyOf(m)) == Latest(ms, KeyOf(m))
    {
      LatestIsOne(ms, KeyOf(m));
    }
    if forall m | m in ms :: Latest(ms, KeyOf(m)) == Get(h, KeyOf(m)) {
      forall k
        ensures Get(r, k) == Get(h, k)
      {
        LatestIsOne(ms, k);
      }
      SameEntries(h, r);
    }
  }

  lemma SameEntries(h: History, r: History)
    requires r.keys == h.keys && forall k :: Get(r, k) == Get(h, k)
    ensures r == h
  {
    forall k
      ensures k in r.at <==> k in h.at
      ensures k in r.at ==> r.at[k] == h.at[k]
    {
      assert Get(r, k) == Get(h, k);
    }
    assert r.at == h.at;
  }

  // ---------------------------------------------------------------- the second replay

  /**
   * A second replay changes nothing exactly when under the key of every new copy the last of
   * the new copies is the last of the first ones.
   */
  lemma SecondReplayKeepsIff(archive: History, with: Option<string>, now: string, later: string)
    requires IsArchive(archive)
    ensures var wanted := Wanted(Values(archive), with);
      var first, second := Copies(wanted, now), Copies(wanted, later);
      var r := Replayed(Empty(), archive, with, now);
      Replayed(r, archive, with, later) == r <==>
        forall m | m in second :: Latest(second, KeyOf(m)) == Latest(first, KeyOf(m))
  {
    var wanted := Wanted(Values(archive), with);
    WantedFits(archive, with);
    RecordedLatest(Copies(wanted, now));
    RecordedAgainIff(RecordAll(Empty(), Copies(wanted, now)), Copies(wanted, later));
  }

  /** No two of the messages ever share a key, whenever each is copied. */
  ghost predicate KeysApart(ms: seq<Message>, now: string, later: string) {
    forall a, b, s, t | a in ms && b in ms && a != b && s in [now, later] && t in [now, later] ::
      KeyOf(Copy(a, s)) != KeyOf(Copy(b, t))
  }

  lemma {:induction false} LatestCopy(ms: seq<Message>, m: Message, s: string, t: string)
    requires m in ms
    requires forall a | a in ms && a != m :: KeyOf(Copy(a, s)) != KeyOf(Copy(m, t))
    ensures Latest(Copies(ms, s), KeyOf(Copy(m, t))) ==
            if KeyOf(Copy(m, s)) == KeyOf(Copy(m, t)) then Some(Copy(m, s)) else None
  {
    var copies, k := Copies(ms, s), KeyOf(Copy(m, t));
    LatestIsOne(copies, k);
    forall i | 0 <= i < |ms| && KeyOf(copies[i]) == k
      ensures ms[i] == m
    {
      assert ms[i] in ms;
    }
    var i :| 0 <= i < |ms| && ms[i] == m;
    assert copies[i] in copies;
  }

  /** A message without a time stamp is kept anew. */
  lemma UnstampedIsNew(ms: seq<Message>, m: Message, now: string, later: string)
    requires m in ms && !Stamped(m) && now != later && KeysApart(ms, now, later)
    ensures Latest(Copies(ms, later), KeyOf(Copy(m, later))) == Some(Copy(m, later))
    ensures Latest(Copies(ms, now), KeyOf(Copy(m, later))) != Some(Copy(m, later))
  {
    LatestCopy(ms, m, later, later);
    LatestCopy(ms, m, now, later);
    assert Copy(m, now).meta.delay != Copy(m, later).meta.delay;
  }

  /**
   * So it changes nothing if every wanted message has a time stamp, and only then, unless
   * copies of different messages share a key.
   */
  lemma SecondReplayIff(archive: History, with: Option<string>, now: string, later: string)
    requires IsArchive(archive) && now != later
    ensures var wanted := Wanted(Values(archive), with);
      var r := Replayed(Empty(), archive, with, now);
      && ((forall m | m in wanted :: Stamped(m)) ==> Replayed(r, archive, with, later) == r)
      && (KeysApart(wanted, now, later) ==>
           (Replayed(r, archive, with, later) == r <==> forall m | m in wanted :: Stamped(m)))
  {
    var wanted := Wanted(Values(archive), with);
    SecondReplayKeepsIff(archive, with, now, later);
    if forall m | m in wanted :: Stamped(m) {
      StampedCopiesSame(wanted, now, later);
    } else if KeysApart(wanted, now, later) {
      SomeCopyIsNew(wanted, now, later);
    }
  }

  lemma StampedCopiesSame(ms: seq<Message>, now: string, later: string)
    requires forall m | m in ms :: Stamped(m)
    ensures Copies(ms, now) == Copies(ms, later)
  {
    assert forall i | 0 <= i < |ms| :: ms[i] in ms;
  }

  lemma SomeCopyIsNew(ms: seq<Message>, now: string, later: string)
    requires now != later && KeysApart(ms, now, later) && !forall m | m in ms :: Stamped(m)
    ensures exists m :: m in Copies(ms, later) && Latest(Copies(ms, later), KeyOf(m)) != Latest(Copies(ms, now), KeyOf(m))
  {
    var m :| m in ms && !Stamped(m);
    UnstampedIsNew(ms, m, now, later);
    var i :| 0 <= i < |ms| && ms[i] == m;
    assert Copies(ms, later)[i] in Copies(ms, later);
  }

  /** A wanted message with neither id nor time stamp is stored again by a second replay, under a new key. */
  lemma KeylessStoredAgain(archive: History, with: Option<string>, now: string, later: string, m: Message)
    requires IsArchive(archive) && now != later
    requires var wanted := Wanted(Values(archive), with);
      m in wanted && !KeepsKey(m) && KeysApart(wanted, now, later)
    ensures var r := Replayed(Empty(), archive, with, now);
      && Get(r, KeyOf(Copy(m, now))) == Some(Copy(m, now))
      && Get(r, KeyOf(Copy(m, later))) == None
      && Get(Replayed(r, archive, with, later), KeyOf(Copy(m, later))) == Some(Copy(m, later))
  {
    var wanted := Wanted(Values(archive), with);
    var r := Replayed(Empty(), archive, with, now);
    WantedFits(archive, with);
    RecordedLatest(Copies(wanted, now));
    KeylessKeysDiffer(m, now, later);
    LatestCopy(wanted, m, now, now);
    LatestCopy(wanted, m, now, later);
    LatestCopy(wanted, m, later, later);
    var d := RecordedOver(r, Copies(wanted, later));
  }

  lemma KeylessKeysDiffer(m: Message, now: string, later: string)
    requires !KeepsKey(m) && now != later
    ensures KeyOf(Copy(m, now)) != KeyOf(Copy(m, later))
  {
    var before := m.from + ":" + m.to + ":" + m.body + ":";
    assert KeyOf(Copy(m, now))[|before|..] == now;
    assert KeyOf(Copy(m, later))[|before|..] == later;
  }

  lemma OneRecorded(h: History, m: Message)
    ensures RecordAll(h, [m]) == Record(h, m)
  {
    assert [m][..0] == [];
  }

  lemma AddedLast(h: History, m: Message)
    requires Size(h) < CHAT_HISTORY_LIMIT && KeyOf(m) !in h.keys
    ensures Values(Record(h, m)) == Values(h) + [m]
  {
    KeyOfKeys(h, KeyOf(m));
    RecordFits(h, m);
    ValuesOfNewKey(h, KeyOf(m), m);
  }

  /** For example, one such message is stored twice. */
  lemma StoredTwice(m: Message, now: string, later: string)
    requires !KeepsKey(m) && now != later
    ensures var archive := RecordAll(Empty(), [m]);
      var r := Replayed(Replayed(Empty(), archive, None, now), archive, None, later);
      IsArchive(archive) && Values(r) == [Copy(m, now), Copy(m, later)]
  {
    var archive, first := RecordAll(Empty(), [m]), RecordAll(Empty(), [Copy(m, now)]);
    OneArchived(m);
    ReplayedOne(Empty(), archive, m, now);
    ReplayedOne(first, archive, m, later);
    KeylessKeysDiffer(m, now, later);
    TwoInTurn(Copy(m, now), Copy(m, later));
  }

  lemma OneArchived(m: Message)
    ensures IsArchive(RecordAll(Empty(), [m])) && Values(RecordAll(Empty(), [m])) == [m]
  {
    RecordedFresh([m]);
    RecordingKeepsArchive(Empty(), [m]);
  }

  lemma TwoInTurn(a: Message, b: Message)
    requires KeyOf(a) != KeyOf(b)
    ensures Values(RecordAll(RecordAll(Empty(), [a]), [b])) == [a, b]
  {
    RecordedFresh([a]);
    OneRecorded(RecordAll(Empty(), [a]), b);
    AddedLast(RecordAll(Empty(), [a]), b);
  }

  lemma ReplayedOne(into: History, archive: History, m: Message, now: string)
    requires Values(archive) == [m]
    ensures Replayed(into, archive, None, now) == RecordAll(into, [Copy(m, now)])
  {
    WantedMeans(Values(archive), None);
    assert Copies([m], now) == [Copy(m, now)];
  }

  /**
   * And the keys have to be apart: beside a message that is already what the second replay
   * makes of it, one with neither id nor time stamp is not stored again.
   */
  lemma HiddenByItsCopy(m: Message, now: string, later: string)
    requires !KeepsKey(m) && now != "" && later != "" && now != later
    ensures var archive := RecordAll(Empty(), [Copy(m, later), m]);
      var r := Replayed(Empty(), archive, None, now);
      IsArchive(archive) && Values(archive) == [Copy(m, later), m] && Replayed(r, archive, None, later) == r
  {
    var w := Copy(m, later);
    CopyKeepsKeyIff(m, later);
    RecordedFresh([w, m]);
    var archive := RecordAll(Empty(), [w, m]);
    RecordingKeepsArchive(Empty(), [w, m]);
    WantedMeans(Values(archive), None);
    SecondReplayKeepsIff(archive, None, now, later);
    LatestAgree(w, m, now, later);
  }

  lemma LatestAgree(w: Message, m: Message, now: string, later: string)
    requires !KeepsKey(m) && now != "" && later != "" && now != later && w == Copy(m, later)
    ensures forall x | x in Copies([w, m], later) ::
              Latest(Copies([w, m], later), KeyOf(x)) == Latest(Copies([w, m], now), KeyOf(x))
  {
    CopyOfCopy(m, later, now);
    CopyOfCopy(m, later, later);
    assert Copies([w, m], now) == [w, Copy(m, now)] && Copies([w, m], later) == [w, w];
    LatestOfTwo(w, w);
    LatestOfTwo(w, Copy(m, now));
    KeylessKeysDiffer(m, now, later);
  }

  lemma LatestOfTwo(w: Message, x: Message)
    ensures Latest([w, x], KeyOf(w)) == if KeyOf(x) == KeyOf(w) then Some(x) else Some(w)
  {
    assert [w, x][..1] == [w];
  }
}
