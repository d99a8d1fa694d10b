/**
 * Reactions and other attachments, and the summaries of them
 * (src/core/xmpp-collection.ts:434-521, src/core/xmpp-records.ts:478-480, 576-612).
 * Times are ranks that compare as the time stamps do.
 */
module Attachments {
  import opened Wrappers
  import opened CompositeKeys
  import opened OrderedMaps
  import opened Sequences

  const ATTACHMENT_HISTORY_LIMIT: nat := 200

  datatype Kind = Noticed | Reactions

  /** A missing value is empty. */
  datatype Attachment = Attachment(
    id: string, topic: string, targetId: string, from: string, kind: Kind, value: string, publishedAt: int)

  datatype Summary = Summary(
    topic: string, targetId: string, total: nat, noticed: nat, reactions: nat,
    reactionCounts: OrderedMap<string, nat>, updatedAt: int)

  type History = OrderedMap<string, Attachment>

  function KeyOf(a: Attachment): string {
    Joined(GroupOf(a), a.from)
  }

  function GroupKey(topic: string, targetId: string): string {
    Joined(topic, targetId)
  }

  function GroupOf(a: Attachment): string {
    GroupKey(a.topic, a.targetId)
  }

  // ---------------------------------------------------------------- recording

  predicate Repeats(h: History, a: Attachment) {
    KeyOf(a) in h.at && h.at[KeyOf(a)].kind == a.kind && h.at[KeyOf(a)].value == a.value
  }

  /** `recordAttachment` on a normalised attachment. */
  function Record(h: History, a: Attachment): History {
    if Repeats(h, a) then h else Trim(Set(h, KeyOf(a), a), ATTACHMENT_HISTORY_LIMIT)
  }

  function RecordAll(xs: seq<Attachment>): History
    decreases |xs|
  {
    if xs == [] then Empty() else Record(RecordAll(xs[..|xs| - 1]), xs[|xs| - 1])
  }

  function LastWithKey(xs: seq<Attachment>, key: string): Option<Attachment>
    decreases |xs|
  {
    if xs == [] then None
    else if KeyOf(xs[|xs| - 1]) == key then Some(xs[|xs| - 1])
    else LastWithKey(xs[..|xs| - 1], key)
  }

  /** `kept` holds, under `key`, the kind and value last delivered under it. */
  ghost predicate IsLatestUnder(kept: Attachment, key: string, last: Option<Attachment>) {
    && KeyOf(kept) == key
    && last.Some? && kept.kind == last.value.kind && kept.value == last.value.value
  }

  lemma LatestAfter(h: History, last: Option<Attachment>, a: Attachment, key: string)
    requires key in h.at ==> IsLatestUnder(h.at[key], key, last)
    ensures key in Record(h, a).at ==> IsLatestUnder(Record(h, a).at[key], key, if KeyOf(a) == key then Some(a) else last)
  {
    assert key in Record(h, a).at ==> Record(h, a).at[key] == if !Repeats(h, a) && key == KeyOf(a) then a else h.at[key];
  }

  lemma {:induction false} LatestUnder(xs: seq<Attachment>, key: string)
    ensures key in RecordAll(xs).at ==> IsLatestUnder(RecordAll(xs).at[key], key, LastWithKey(xs, key))
    decreases |xs|
  {
    if xs == [] {
    } else {
      var most, a := xs[..|xs| - 1], xs[|xs| - 1];
      var h, last := RecordAll(most), LastWithKey(most, key);
      LatestUnder(most, key);
      LatestAfter(h, last, a, key);
      assert RecordAll(xs) == Record(h, a);
      assert LastWithKey(xs, key) == if KeyOf(a) == key then Some(a) else last;
    }
  }

  lemma {:induction false} AtMostLimit(xs: seq<Attachment>)
    ensures Size(RecordAll(xs)) <= ATTACHMENT_HISTORY_LIMIT
    decreases |xs|
  {
    if xs == [] {
    } else {
      AtMostLimit(xs[..|xs| - 1]);
    }
  }

  /**
   * Every run keeps at most 200 attachments, each under its own key, and what is kept for
   * a sender is the kind and value of the last attachment delivered under that key.
   */
  lemma EveryRunKeepsLatest(xs: seq<Attachment>)
    ensures Size(RecordAll(xs)) <= ATTACHMENT_HISTORY_LIMIT
    ensures forall k | k in RecordAll(xs).at :: IsLatestUnder(RecordAll(xs).at[k], k, LastWithKey(xs, k))
  {
    AtMostLimit(xs);
    forall k | k in RecordAll(xs).at
      ensures IsLatestUnder(RecordAll(xs).at[k], k, LastWithKey(xs, k))
    {
      LatestUnder(xs, k);
    }
  }

  /** As long as no more than 200 keys are delivered, every one of them is kept. */
  lemma {:induction false} FewKeysAreAllKept(xs: seq<Attachment>, keys: set<string>)
    requires forall a | a in xs :: KeyOf(a) in keys
    requires |keys| <= ATTACHMENT_HISTORY_LIMIT
    ensures forall k :: k in RecordAll(xs).at <==> exists a | a in xs :: KeyOf(a) == k
    decreases |xs|
  {
    if xs == [] {
    } else {
      var most, a := xs[..|xs| - 1], xs[|xs| - 1];
      assert xs == most + [a];
      FewKeysAreAllKept(most, keys);
      RecordKeepsKeys(RecordAll(most), a, keys);
    }
  }

  lemma RecordKeepsKeys(h: History, a: Attachment, keys: set<string>)
    requires KeyOf(a) in keys && forall k | k in h.at :: k in keys
    requires |keys| <= ATTACHMENT_HISTORY_LIMIT
    ensures forall k :: k in Record(h, a).at <==> k in h.at || k == KeyOf(a)
  {
    SizeAtMost(Set(h, KeyOf(a), a), keys);
    TrimOne(Set(h, KeyOf(a), a), ATTACHMENT_HISTORY_LIMIT);
  }

  // ---------------------------------------------------------------- one summary

  function CountReaction(counts: OrderedMap<string, nat>, value: string): OrderedMap<string, nat> {
    if value == "" then counts else Set(counts, value, (if value in counts.at then counts.at[value] else 0) + 1)
  }

  /** One turn of either loop, but for the total and the time. */
  function Tally(s: Summary, a: Attachment): Summary {
    if a.kind.Noticed? then s.(noticed := s.noticed + 1)
    else s.(reactions := s.reactions + 1, reactionCounts := CountReaction(s.reactionCounts, a.value))
  }

  function TallyAll(s: Summary, xs: seq<Attachment>): Summary
    decreases |xs|
  {
    if xs == [] then s else Tally(TallyAll(s, xs[..|xs| - 1]), xs[|xs| - 1])
  }

  /** `buildAttachmentSummary` (src/core/xmpp-records.ts:589-612). */
  function Built(topic: string, targetId: string, xs: seq<Attachment>, now: int): Summary {
    TallyAll(Summary(topic, targetId, |xs|, 0, 0, Empty(), now), xs)
  }

  /** The non-empty values of the reactions among `xs`. */
  function ReactionValues(xs: seq<Attachment>): seq<string>
    decreases |xs|
  {
    if xs == [] then []
    else
      var a := xs[|xs| - 1];
      ReactionValues(xs[..|xs| - 1]) + (if a.kind.Reactions? && a.value != "" then [a.value] else [])
  }

  function OfKind(xs: seq<Attachment>, kind: Kind): seq<Attachment> {
    Filter(xs, (a: Attachment) => a.kind == kind)
  }

  function Itself(n: nat): nat {
    n
  }

  function Multiplicities<T>(keys: seq<T>, ms: multiset<T>): seq<nat> {
    seq(|keys|, i requires 0 <= i < |keys| => ms[keys[i]])
  }

  /** The multiplicities of all elements add up to the size. */
  lemma {:induction false} MultiplicitiesAddUp<T>(keys: seq<T>, ms: multiset<T>)
    requires Distinct(keys) && forall v :: v in ms <==> v in keys
    ensures Sum(Multiplicities(keys, ms), Itself) == |ms|
    decreases |keys|
  {
    if keys == [] {
      assert ms == multiset{};
    } else {
      var k, others := keys[0], keys[1..];
      var rest := ms[k := 0];
      assert keys == [k] + others;
      assert |ms| == |rest| + ms[k];
      assert k !in others;
      MultiplicitiesAddUp(others, rest);
      OtherMultiplicities(keys, ms);
    }
  }

  lemma OtherMultiplicities<T>(keys: seq<T>, ms: multiset<T>)
    requires keys != [] && keys[0] !in keys[1..]
    ensures Multiplicities(keys, ms)[0] == ms[keys[0]]
    ensures Multiplicities(keys, ms)[1..] == Multiplicities(keys[1..], ms[keys[0] := 0])
  {
    forall i | 0 <= i < |keys| - 1
      ensures Multiplicities(keys, ms)[i + 1] == ms[keys[0] := 0][keys[1..][i]]
    {
      assert keys[1..][i] in keys[1..];
    }
  }

  /** `s` is the count of `xs`: each kind, each reaction value, and no other value. */
  ghost predicate Counts(s: Summary, xs: seq<Attachment>) {
    && s.noticed == |OfKind(xs, Noticed)|
    && s.reactions == |OfKind(xs, Reactions)|
    && (forall v :: v in s.reactionCounts.at <==> v in ReactionValues(xs))
    && (forall v | v in s.reactionCounts.at :: s.reactionCounts.at[v] == multiset(ReactionValues(xs))[v])
  }

  lemma TallyCounts(s: Summary, xs: seq<Attachment>, a: Attachment)
    requires Counts(s, xs)
    ensures Counts(Tally(s, a), xs + [a])
  {
    var vs := ReactionValues(xs);
    assert (xs + [a])[..|xs|] == xs;
    assert ReactionValues(xs + [a]) == vs + (if a.kind.Reactions? && a.value != "" then [a.value] else []);
    assert vs + [] == vs;
    assert forall v :: v in vs <==> multiset(vs)[v] > 0;
  }

  /** The counts of a summary add up to the reactions that carry a value. */
  lemma CountsAddUp(s: Summary, xs: seq<Attachment>)
    requires Counts(s, xs)
    ensures Sum(Values(s.reactionCounts), Itself) == |ReactionValues(xs)|
  {
    var vs, keys := ReactionValues(xs), s.reactionCounts.keys;
    forall i | 0 <= i < |keys|
      ensures Values(s.reactionCounts)[i] == multiset(vs)[keys[i]]
    {
      assert keys[i] in keys;
    }
    MultiplicitiesAddUp(keys, multiset(vs));
    assert Values(s.reactionCounts) == Multiplicities(keys, multiset(vs));
  }

  lemma {:induction false} TallyAllCounts(s: Summary, xs: seq<Attachment>)
    requires Counts(s, [])
    ensures Counts(TallyAll(s, xs), xs)
    decreases |xs|
  {
    if xs == [] {
    } else {
      var most, a := xs[..|xs| - 1], xs[|xs| - 1];
      TallyAllCounts(s, most);
      var tallied := TallyAll(s, most);
      TallyCounts(tallied, most, a);
      assert TallyAll(s, xs) == Tally(tallied, a);
      assert most + [a] == xs;
    }
  }

  lemma {:induction false} KindsPartition(xs: seq<Attachment>)
    ensures |OfKind(xs, Noticed)| + |OfKind(xs, Reactions)| == |xs|
    decreases |xs|
  {
    if xs == [] {
    } else {
      KindsPartition(xs[..|xs| - 1]);
    }
  }

  /** A summary counts what it was built from, and its total is the noticed and the reactions. */
  lemma BuiltCounts(topic: string, targetId: string, xs: seq<Attachment>, now: int)
    ensures var s := Built(topic, targetId, xs, now);
      && s.topic == topic && s.targetId == targetId
      && s.total == |xs| == s.noticed + s.reactions
      && Counts(s, xs)
      && Sum(Values(s.reactionCounts), Itself) == |ReactionValues(xs)|
  {
    var s := Summary(topic, targetId, |xs|, 0, 0, Empty(), now);
    TallyAllCounts(s, xs);
    TallyAllKeeps(s, xs);
    KindsPartition(xs);
    CountsAddUp(TallyAll(s, xs), xs);
  }

  lemma {:induction false} TallyAllKeeps(s: Summary, xs: seq<Attachment>)
    ensures var r := TallyAll(s, xs);
      r.topic == s.topic && r.targetId == s.targetId && r.total == s.total && r.updatedAt == s.updatedAt
    decreases |xs|
  {
    if xs == [] {
    } else {
      TallyAllKeeps(s, xs[..|xs| - 1]);
    }
  }

  method BuildAttachmentSummary(topic: string, targetId: string, attachments: seq<Attachment>, now: int)
    returns (summary: Summary)
    ensures summary == Built(topic, targetId, attachments, now)
    ensures summary.total == |attachments| == summary.noticed + summary.reactions
    ensures Counts(summary, attachments)
  {
    summary := Summary(topic, targetId, |attachments|, 0, 0, Empty(), now);
    ghost var start := summary;
    for i := 0 to |attachments|
      invariant summary == TallyAll(start, attachments[..i])
    {
      assert attachments[..i + 1][..i] == attachments[..i];
      summary := CountKind(summary, attachments[i]);
    }
    assert attachments[..|attachments|] == attachments;
    BuiltCounts(topic, targetId, attachments, now);
  }

  /** The part the two loops share. */
  method CountKind(current: Summary, attachment: Attachment) returns (next: Summary)
    ensures next == Tally(current, attachment)
  {
    next := current;
    if attachment.kind.Noticed? {
      next := next.(noticed := next.noticed + 1);
    } else {
      next := next.(reactions := next.reactions + 1);
      var value := attachment.value;
      if value != "" {
        var count := if value in next.reactionCounts.at then next.reactionCounts.at[value] else 0;
        next := next.(reactionCounts := Set(next.reactionCounts, value, count + 1));
      }
    }
  }

  // ---------------------------------------------------------------- all summaries in one pass

  /** One turn of the loop of `getAttachmentSummaries` for an attachment of the wanted topic. */
  function AddOne(current: Summary, a: Attachment): Summary {
    var tallied := Tally(current.(total := current.total + 1), a);
    if a.publishedAt > tallied.updatedAt then tallied.(updatedAt := a.publishedAt) else tallied
  }

  function Fresh(a: Attachment): Summary {
    Summary(a.topic, a.targetId, 0, 0, 0, Empty(), a.publishedAt)
  }

  /** The summary an attachment leaves under its key. */
  function NextSummary(current: Option<Summary>, a: Attachment): Summary {
    AddOne(if current.Some? then current.value else Fresh(a), a)
  }

  function Grouped(xs: seq<Attachment>): OrderedMap<string, Summary>
    decreases |xs|
  {
    if xs == [] then Empty()
    else
      var a := xs[|xs| - 1];
      var summaries := Grouped(xs[..|xs| - 1]);
      Set(summaries, GroupOf(a), NextSummary(Get(summaries, GroupOf(a)), a))
  }

  lemma GroupedOneMore(xs: seq<Attachment>, a: Attachment)
    ensures Grouped(xs + [a]) == Set(Grouped(xs), GroupOf(a), NextSummary(Get(Grouped(xs), GroupOf(a)), a))
  {
    assert (xs + [a])[..|xs|] == xs;
  }

  method CountAttachment(current: Summary, attachment: Attachment) returns (next: Summary)
    ensures next == AddOne(current, attachment)
  {
    next := CountKind(current.(total := current.total + 1), attachment);
    if attachment.publishedAt > next.updatedAt {
      next := next.(updatedAt := attachment.publishedAt);
    }
  }

  /** The attachments whose group key is `key`. */
  function InGroup(xs: seq<Attachment>, key: string): seq<Attachment> {
    Filter(xs, (a: Attachment) => GroupOf(a) == key)
  }

  /** The attachments of a target, as `buildAttachmentSummary` filters them (src/core/xmpp-collection.ts:459-462). */
  function OfTarget(xs: seq<Attachment>, topic: string, targetId: string): (r: seq<Attachment>)
    ensures forall a | a in r :: a in xs && a.topic == topic && a.targetId == targetId
  {
    var p := (a: Attachment) => a.topic == topic && a.targetId == targetId;
    FilterMeans(xs, p);
    Filter(xs, p)
  }

  ghost predicate IsLatest(t: int, xs: seq<Attachment>) {
    (exists a | a in xs :: a.publishedAt == t) && (forall a | a in xs :: a.publishedAt <= t)
  }

  /** `s` is what one pass makes of the attachments `xs` of one group. */
  ghost predicate Summarizes(s: Summary, xs: seq<Attachment>) {
    && xs != []
    && s.topic == xs[0].topic && s.targetId == xs[0].targetId
    && s.total == |xs|
    && Counts(s, xs)
    && IsLatest(s.updatedAt, xs)
  }

  lemma LatestWithOne(t: int, xs: seq<Attachment>, a: Attachment)
    requires xs != [] ==> IsLatest(t, xs)
    ensures IsLatest(if xs == [] || a.publishedAt > t then a.publishedAt else t, xs + [a])
  {
    assert a in xs + [a];
    if xs != [] {
      var b :| b in xs && b.publishedAt == t;
      assert b in xs + [a];
    }
  }

  /** Counting an attachment counts it and takes the later time. */
  lemma AddOneCounts(s: Summary, xs: seq<Attachment>, a: Attachment)
    requires Counts(s, xs)
    ensures var t := AddOne(s, a);
      && Counts(t, xs + [a])
      && t.topic == s.topic && t.targetId == s.targetId && t.total == s.total + 1
      && t.updatedAt == (if a.publishedAt > s.updatedAt then a.publishedAt else s.updatedAt)
  {
    TallyCounts(s.(total := s.total + 1), xs, a);
  }

  lemma AddOneSummarizes(s: Summary, xs: seq<Attachment>, a: Attachment)
    requires if xs == [] then s == Fresh(a) else Summarizes(s, xs)
    ensures Summarizes(AddOne(s, a), xs + [a])
  {
    assert Counts(s, xs);
    AddOneCounts(s, xs, a);
    LatestWithOne(s.updatedAt, xs, a);
    assert (xs + [a])[0] == if xs == [] then a else xs[0];
  }

  /** There is a summary exactly if there are attachments, and it is theirs. */
  ghost predicate GroupDone(found: Option<Summary>, group: seq<Attachment>) {
    if found.None? then group == [] else Summarizes(found.value, group)
  }

  lemma GroupStep(found: Option<Summary>, group: seq<Attachment>, a: Attachment)
    requires GroupDone(found, group)
    ensures GroupDone(Some(NextSummary(found, a)), group + [a])
  {
    AddOneSummarizes(if found.Some? then found.value else Fresh(a), group, a);
  }

  /** The one pass summarises every group, and no other. */
  lemma {:induction false} GroupedSummarizes(xs: seq<Attachment>, key: string)
    ensures GroupDone(Get(Grouped(xs), key), InGroup(xs, key))
    decreases |xs|
  {
    if xs == [] {
    } else {
      var most, a := xs[..|xs| - 1], xs[|xs| - 1];
      var found, group := Get(Grouped(most), key), InGroup(most, key);
      GroupedSummarizes(most, key);
      if GroupOf(a) == key {
        GroupStep(found, group, a);
      } else {
        assert group + [] == group;
        assert Get(Grouped(xs), key) == found;
      }
    }
  }

  // ---------------------------------------------------------------- agreement

  /** No two targets share a group key. */
  ghost predicate TargetsApart(xs: seq<Attachment>) {
    forall a, b | a in xs && b in xs && GroupOf(a) == GroupOf(b) :: a.topic == b.topic && a.targetId == b.targetId
  }

  /** The summary of the one pass says of a target what `buildAttachmentSummary` says. */
  ghost predicate Agree(xs: seq<Attachment>, topic: string, targetId: string) {
    var own := OfTarget(xs, topic, targetId);
    && GroupKey(topic, targetId) in Grouped(xs).at
    && var one, built := Grouped(xs).at[GroupKey(topic, targetId)], Built(topic, targetId, own, 0);
       && one.topic == topic && one.targetId == targetId
       && one.total == built.total && one.noticed == built.noticed && one.reactions == built.reactions
       && one.reactionCounts.at == built.reactionCounts.at
       && IsLatest(one.updatedAt, own)
  }

  lemma {:induction false} OfTargetLength(xs: seq<Attachment>, topic: string, targetId: string)
    ensures var r, g := OfTarget(xs, topic, targetId), InGroup(xs, GroupKey(topic, targetId));
      && |r| <= |g|
      && (|r| == |g| ==> r == g)
      && (forall b | b in xs && GroupOf(b) == GroupKey(topic, targetId) && !(b.topic == topic && b.targetId == targetId) :: |r| < |g|)
      && (forall b | b in xs && b.topic == topic && b.targetId == targetId :: b in r)
    decreases |xs|
  {
    if xs == [] {
    } else {
      var most, a := xs[..|xs| - 1], xs[|xs| - 1];
      assert xs == most + [a];
      OfTargetLength(most, topic, targetId);
    }
  }

  lemma {:induction false} ApartGroupIsTarget(xs: seq<Attachment>, topic: string, targetId: string)
    requires forall b | b in xs && GroupOf(b) == GroupKey(topic, targetId) :: b.topic == topic && b.targetId == targetId
    ensures InGroup(xs, GroupKey(topic, targetId)) == OfTarget(xs, topic, targetId)
    decreases |xs|
  {
    if xs == [] {
    } else {
      ApartGroupIsTarget(xs[..|xs| - 1], topic, targetId);
    }
  }

  lemma SameCounts(s: Summary, t: Summary, xs: seq<Attachment>)
    requires Counts(s, xs) && Counts(t, xs)
    ensures s.noticed == t.noticed && s.reactions == t.reactions && s.reactionCounts.at == t.reactionCounts.at
  {
    assert s.reactionCounts.at.Keys == t.reactionCounts.at.Keys;
  }

  lemma AgreeWhenApart(xs: seq<Attachment>, a: Attachment)
    requires TargetsApart(xs) && a in xs
    ensures Agree(xs, a.topic, a.targetId)
  {
    var own := OfTarget(xs, a.topic, a.targetId);
    GroupedSummarizes(xs, GroupOf(a));
    ApartGroupIsTarget(xs, a.topic, a.targetId);
    OfTargetLength(xs, a.topic, a.targetId);
    BuiltCounts(a.topic, a.targetId, own, 0);
    assert own[0] in own;
    SameCounts(Grouped(xs).at[GroupOf(a)], Built(a.topic, a.targetId, own, 0), own);
  }

  lemma DisagreeWhenShared(xs: seq<Attachment>, a: Attachment, b: Attachment)
    requires a in xs && b in xs && GroupOf(a) == GroupOf(b) && !(a.topic == b.topic && a.targetId == b.targetId)
    ensures !Agree(xs, a.topic, a.targetId)
  {
    var own := OfTarget(xs, a.topic, a.targetId);
    GroupedSummarizes(xs, GroupOf(a));
    OfTargetLength(xs, a.topic, a.targetId);
    BuiltCounts(a.topic, a.targetId, own, 0);
  }

  /** The one pass agrees with the scan on every target exactly when no two targets share a key. */
  lemma SummariesAgreeIff(xs: seq<Attachment>)
    ensures (forall a | a in xs :: Agree(xs, a.topic, a.targetId)) <==> TargetsApart(xs)
  {
    if TargetsApart(xs) {
      forall a | a in xs
        ensures Agree(xs, a.topic, a.targetId)
      {
        AgreeWhenApart(xs, a);
      }
    } else {
      var a, b :| a in xs && b in xs && GroupOf(a) == GroupOf(b) && !(a.topic == b.topic && a.targetId == b.targetId);
      DisagreeWhenShared(xs, a, b);
    }
  }

  /** Which topics can share a group key: exactly those where one goes on after the other and a colon. */
  lemma TopicsCollideIff(topic: string, topic': string)
    requires topic != topic'
    ensures (exists x, y :: GroupKey(topic, x) == GroupKey(topic', y)) <==> Overlap(topic, topic')
  {
    JoinedCollideIff(topic, topic');
    if exists x, y :: Joined(topic, x) == Joined(topic', y) {
      var x, y :| Joined(topic, x) == Joined(topic', y);
      assert GroupKey(topic, x) == GroupKey(topic', y);
    }
    if exists x, y :: GroupKey(topic, x) == GroupKey(topic', y) {
      var x, y :| GroupKey(topic, x) == GroupKey(topic', y);
      assert Joined(topic, x) == Joined(topic', y);
    }
  }

  /** For some senders two attachments share a key exactly when they share the group key or these overlap. */
  lemma KeysCollideIff(a: Attachment, b: Attachment)
    ensures (exists x, y :: KeyOf(a.(from := x)) == KeyOf(b.(from := y))) <==>
            GroupOf(a) == GroupOf(b) || Overlap(GroupOf(a), GroupOf(b))
  {
    var g, h := GroupOf(a), GroupOf(b);
    if g == h {
      assert KeyOf(a.(from := "")) == KeyOf(b.(from := ""));
    } else {
      JoinedCollideIff(g, h);
      if exists x, y :: Joined(g, x) == Joined(h, y) {
        var x, y :| Joined(g, x) == Joined(h, y);
        assert KeyOf(a.(from := x)) == KeyOf(b.(from := y));
      }
      if exists x, y :: KeyOf(a.(from := x)) == KeyOf(b.(from := y)) {
        var x, y :| KeyOf(a.(from := x)) == KeyOf(b.(from := y));
        assert Joined(g, x) == Joined(h, y);
      }
    }
  }

  /** Two targets that share a key, for a topic that itself holds a colon. */
  lemma TargetsCanShareKey(a: Attachment)
    ensures var b, c := a.(topic := "t", targetId := "x:y"), a.(topic := "t:x", targetId := "y");
      GroupOf(b) == GroupOf(c) && !TargetsApart([b, c])
  {
    var b, c := a.(topic := "t", targetId := "x:y"), a.(topic := "t:x", targetId := "y");
    assert "t" + ":" + "x:y" == "t:x" + ":" + "y";
    assert b in [b, c] && c in [b, c];
  }

  function OfTopic(xs: seq<Attachment>, topic: string): (r: seq<Attachment>)
    ensures forall a | a in r :: a in xs && (topic == "" || a.topic == topic)
  {
    var p := (a: Attachment) => topic == "" || a.topic == topic;
    FilterMeans(xs, p);
    Filter(xs, p)
  }

  /** The loop of `getAttachmentSummaries`. */
  method Summaries(all: seq<Attachment>, topic: string) returns (summaries: OrderedMap<string, Summary>)
    ensures summaries == Grouped(OfTopic(all, topic))
  {
    summaries := Empty();
    for i := 0 to |all|
      invariant summaries == Grouped(OfTopic(all[..i], topic))
    {
      var attachment := all[i];
      SummariesOneMore(all, i, topic);
      if topic != "" && attachment.topic != topic {
        continue;
      }
      var key := GroupOf(attachment);
      var current := CountAttachment(if key in summaries.at then summaries.at[key] else Fresh(attachment), attachment);
      summaries := Set(summaries, key, current);
    }
    TakeAll(all);
  }

  lemma SummariesOneMore(all: seq<Attachment>, i: nat, topic: string)
    requires i < |all|
    ensures var before, a := Grouped(OfTopic(all[..i], topic)), all[i];
      Grouped(OfTopic(all[..i + 1], topic)) ==
        if topic != "" && a.topic != topic then before
        else Set(before, GroupOf(a), NextSummary(Get(before, GroupOf(a)), a))
  {
    OfTopicOneMore(all, i, topic);
    GroupedOneMore(OfTopic(all[..i], topic), all[i]);
  }

  lemma OfTopicOneMore(all: seq<Attachment>, i: nat, topic: string)
    requires i < |all|
    ensures OfTopic(all[..i + 1], topic) ==
            if topic != "" && all[i].topic != topic then OfTopic(all[..i], topic) else OfTopic(all[..i], topic) + [all[i]]
  {
    TakeOneMore(all, i + 1);
    assert OfTopic(all[..i], topic) + [] == OfTopic(all[..i], topic);
  }

  lemma {:induction false} OfTopicKeepsTargets(xs: seq<Attachment>, topic: string, targetId: string)
    ensures OfTarget(OfTopic(xs, topic), topic, targetId) == OfTarget(xs, topic, targetId)
    decreases |xs|
  {
    if xs == [] {
    } else {
      var most, a := xs[..|xs| - 1], xs[|xs| - 1];
      OfTopicKeepsTargets(most, topic, targetId);
      var r := OfTopic(most, topic);
      assert (r + [a])[..|r|] == r;
      assert r + [] == r;
    }
  }

  /** Asked for one topic, the one pass agrees with the scan of all attachments on every target of it. */
  lemma OneTopicAgrees(xs: seq<Attachment>, topic: string, a: Attachment)
    requires topic != "" && a in OfTopic(xs, topic)
    ensures Agree(OfTopic(xs, topic), topic, a.targetId)
    ensures OfTarget(OfTopic(xs, topic), topic, a.targetId) == OfTarget(xs, topic, a.targetId)
  {
    var of := OfTopic(xs, topic);
    forall x, y | x in of && y in of && GroupOf(x) == GroupOf(y)
      ensures x.targetId == y.targetId
    {
      assert x.targetId == GroupOf(x)[|topic| + 1..];
      assert y.targetId == GroupOf(y)[|topic| + 1..];
    }
    AgreeWhenApart(of, a);
    OfTopicKeepsTargets(xs, topic, a.targetId);
  }

  // ---------------------------------------------------------------- senders count once

  function Senders(xs: seq<Attachment>): set<string> {
    set a | a in xs :: a.from
  }

  ghost predicate SendersDistinct(xs: seq<Attachment>) {
    forall i, j | 0 <= i < j < |xs| :: xs[i].from != xs[j].from
  }

  lemma {:induction false} DistinctSenders(xs: seq<Attachment>)
    requires SendersDistinct(xs)
    ensures |Senders(xs)| == |xs|
    decreases |xs|
  {
    if xs == [] {
    } else {
      var most, a := xs[..|xs| - 1], xs[|xs| - 1];
      DistinctSenders(most);
      assert xs == most + [a];
      assert Senders(xs) == Senders(most) + {a.from};
      assert a.from !in Senders(most);
    }
  }

  lemma {:induction false} KeptSendersDistinct(xs: seq<Attachment>, topic: string, targetId: string)
    requires forall i, j | 0 <= i < j < |xs| :: KeyOf(xs[i]) != KeyOf(xs[j])
    ensures SendersDistinct(OfTarget(xs, topic, targetId))
    decreases |xs|
  {
    if xs == [] {
    } else {
      var most, a := xs[..|xs| - 1], xs[|xs| - 1];
      KeptSendersDistinct(most, topic, targetId);
      var r := OfTarget(most, topic, targetId);
      forall i | 0 <= i < |r| && a.topic == topic && a.targetId == targetId
        ensures r[i].from != a.from
      {
        assert r[i] in most;
        var j :| 0 <= j < |most| && most[j] == r[i];
        assert KeyOf(xs[j]) != KeyOf(a);
      }
    }
  }

  /** After any run, the total of a target is the number of senders with an attachment kept on it. */
  lemma TotalCountsSenders(xs: seq<Attachment>, topic: string, targetId: string, now: int)
    ensures var own := OfTarget(Values(RecordAll(xs)), topic, targetId);
      Built(topic, targetId, own, now).total == |Senders(own)|
  {
    var h := RecordAll(xs);
    EveryRunKeepsLatest(xs);
    var vs := Values(h);
    forall i, j | 0 <= i < j < |vs|
      ensures KeyOf(vs[i]) != KeyOf(vs[j])
    {
      assert h.keys[i] in h.keys && h.keys[j] in h.keys;
    }
    KeptSendersDistinct(vs, topic, targetId);
    DistinctSenders(OfTarget(vs, topic, targetId));
    BuiltCounts(topic, targetId, OfTarget(vs, topic, targetId), now);
  }

  /**
   * Recording tells whether the attachment is news: it is not exactly if the history has one
   * of the same topic, target and sender with the same kind and value. News is kept last,
   * or in the place of what that sender had attached before.
   */
  lemma RecordMeans(h: History, a: Attachment)
    requires Size(h) <= 200
    ensures var key := a.topic + ":" + a.targetId + ":" + a.from;
      && (Repeats(h, a) <==> key in h.at && h.at[key].kind == a.kind && h.at[key].value == a.value)
      && (Repeats(h, a) ==> Record(h, a) == h)
      && (!Repeats(h, a) ==> Get(Record(h, a), key) == Some(a))
      && (!Repeats(h, a) && key in h.at ==> Record(h, a).keys == h.keys)
      && (!Repeats(h, a) && key !in h.at ==>
            Record(h, a).keys == (if Size(h) < 200 then h.keys else h.keys[1..]) + [key])
  {
    var key := a.topic + ":" + a.targetId + ":" + a.from;
    assert KeyOf(a) == key;
    TrimOne(Set(h, key, a), ATTACHMENT_HISTORY_LIMIT);
    if !Repeats(h, a) && key !in h.at && Size(h) == 200 {
      NewKeyStays(h, key, a, Record(h, a));
    }
  }

  lemma NewKeyStays(h: History, key: string, a: Attachment, r: History)
    requires key !in h.at && h.keys != [] && Dropped(Set(h, key, a), r)
    ensures r.keys == h.keys[1..] + [key] && Get(r, key) == Some(a)
  {
    assert (h.keys + [key])[1..] == h.keys[1..] + [key];
    assert r.keys[|r.keys| - 1] == key;
    KeyOfKeys(r, key);
  }
}
