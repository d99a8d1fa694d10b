/**
 * When the order and the repetition of deliveries matter to a group chat history
 * (src/core/xmpp-muc.ts:395-422): the exact condition on the set of messages delivered.
 *
 * The argument is about the set of messages a history holds; the last section ties that set
 * to the history itself.
 */
module MucOrder {
  import opened OrderedMaps
  import opened CompositeKeys
  import opened MucHistory

  /** `f` is a correction of `e`, not of itself: a message that claims to correct itself changes nothing. */
  predicate Over(f: Message, e: Message) {
    Corrects(f, e) && f != e
  }

  predicate Overruled(ds: set<Message>, e: Message) {
    exists f | f in ds :: Over(f, e)
  }

  /** Delivered, and corrected by nothing that was delivered. */
  predicate Current(ds: set<Message>, e: Message) {
    e in ds && !Overruled(ds, e)
  }

  /** Every corrected message is corrected by one that nothing corrects. */
  ghost predicate Settled(ds: set<Message>) {
    forall e | e in ds && Overruled(ds, e) :: exists f :: Over(f, e) && Current(ds, f)
  }

  // ---------------------------------------------------------------- what a history holds, as a set

  function Deliver(held: set<Message>, m: Message): set<Message> {
    if m in held || Overruled(held, m) then held else (set x | x in held && !Over(m, x)) + {m}
  }

  function DeliverAll(held: set<Message>, ds: seq<Message>): set<Message>
    decreases |ds|
  {
    if ds == [] then held else Deliver(DeliverAll(held, ds[..|ds| - 1]), ds[|ds| - 1])
  }

  function Elements(ds: seq<Message>): set<Message> {
    set d | d in ds
  }

  lemma {:induction false} DeliverInTurn(held: set<Message>, ds: seq<Message>, es: seq<Message>)
    ensures DeliverAll(held, ds + es) == DeliverAll(DeliverAll(held, ds), es)
    decreases |es|
  {
    if es == [] {
      assert ds + es == ds;
    } else {
      assert (ds + es)[..|ds + es| - 1] == ds + es[..|es| - 1];
      DeliverInTurn(held, ds, es[..|es| - 1]);
    }
  }

  /** Nothing is held but what was held or delivered. */
  lemma {:induction false} HoldsOnlyDelivered(held: set<Message>, ds: seq<Message>)
    ensures DeliverAll(held, ds) <= held + Elements(ds)
    decreases |ds|
  {
    if ds == [] {
    } else {
      var most, m := ds[..|ds| - 1], ds[|ds| - 1];
      assert ds == most + [m];
      HoldsOnlyDelivered(held, most);
    }
  }

  // ---------------------------------------------------------------- settled: order does not matter

  /**
   * After any of the deliveries, every current message that was delivered is held, and
   * nothing it corrects is.
   */
  ghost predicate CurrentPrevail(held: set<Message>, ds: set<Message>, all: set<Message>) {
    && held <= ds
    && (forall u | u in ds && Current(all, u) :: u in held)
    && (forall u, e | u in ds && Current(all, u) && Over(u, e) :: e !in held)
  }

  lemma CurrentStillPrevail(held: set<Message>, ds: set<Message>, m: Message, all: set<Message>)
    requires CurrentPrevail(held, ds, all) && ds + {m} <= all
    ensures CurrentPrevail(Deliver(held, m), ds + {m}, all)
  {
  }

  lemma {:induction false} CurrentPrevailAfter(ds: seq<Message>, all: set<Message>)
    requires Elements(ds) <= all
    ensures CurrentPrevail(DeliverAll({}, ds), Elements(ds), all)
    decreases |ds|
  {
    if ds == [] {
    } else {
      var most, m := ds[..|ds| - 1], ds[|ds| - 1];
      assert ds == most + [m];
      assert Elements(ds) == Elements(most) + {m};
      CurrentPrevailAfter(most, all);
      CurrentStillPrevail(DeliverAll({}, most), Elements(most), m, all);
    }
  }

  /** If the messages are settled, exactly the current ones are held in the end. */
  lemma SettledHoldsCurrent(ds: seq<Message>)
    requires Settled(Elements(ds))
    ensures forall m :: m in DeliverAll({}, ds) <==> Current(Elements(ds), m)
  {
    var all := Elements(ds);
    CurrentPrevailAfter(ds, all);
    forall m | m in all && Overruled(all, m)
      ensures m !in DeliverAll({}, ds)
    {
      OverruledIsGone(DeliverAll({}, ds), all, m);
    }
  }

  lemma OverruledIsGone(held: set<Message>, all: set<Message>, m: Message)
    requires CurrentPrevail(held, all, all) && Settled(all) && m in all && Overruled(all, m)
    ensures m !in held
  {
    var f :| Over(f, m) && Current(all, f);
  }

  // ---------------------------------------------------------------- not settled: it does

  /** A message corrects at most one other. */
  ghost predicate OneTarget(all: set<Message>) {
    forall g, d, e | g in all && d in all && e in all && Over(g, d) && Over(g, e) :: d == e
  }

  lemma ElementsAppend(ds: seq<Message>, es: seq<Message>)
    ensures Elements(ds + es) == Elements(ds) + Elements(es)
  {
  }

  ghost function Listed(ds: set<Message>): (es: seq<Message>)
    ensures Elements(es) == ds
  {
    if ds == {} then []
    else
      var m :| m in ds;
      var rest := Listed(ds - {m});
      ElementsAppend(rest, [m]);
      rest + [m]
  }

  lemma {:induction false} StaysOut(held: set<Message>, ds: seq<Message>, e: Message)
    requires e !in held && e !in ds
    ensures e !in DeliverAll(held, ds)
  {
    HoldsOnlyDelivered(held, ds);
  }

  lemma {:induction false} StaysIn(held: set<Message>, ds: seq<Message>, e: Message)
    requires e in held && forall d | d in ds :: !Over(d, e)
    ensures e in DeliverAll(held, ds)
    decreases |ds|
  {
    if ds == [] {
    } else {
      assert ds == ds[..|ds| - 1] + [ds[|ds| - 1]];
      StaysIn(held, ds[..|ds| - 1], e);
    }
  }

  /** What is held, or corrected by what is held, changes nothing. */
  lemma {:induction false} NothingNew(held: set<Message>, ds: seq<Message>)
    requires forall d | d in ds :: d in held || Overruled(held, d)
    ensures DeliverAll(held, ds) == held
    decreases |ds|
  {
    if ds == [] {
    } else {
      assert ds == ds[..|ds| - 1] + [ds[|ds| - 1]];
      NothingNew(held, ds[..|ds| - 1]);
    }
  }

  /** Messages none of which corrects another are all held. */
  lemma {:induction false} AllHeld(ds: seq<Message>)
    requires forall f, e | f in ds && e in ds :: !Over(f, e)
    ensures DeliverAll({}, ds) == Elements(ds)
    decreases |ds|
  {
    if ds == [] {
    } else {
      var most, m := ds[..|ds| - 1], ds[|ds| - 1];
      assert ds == most + [m];
      AllHeld(most);
    }
  }

  /** A delivery of `all` after which `e` is not held: `d` comes last of those that could stop it. */
  lemma CorrectedCanBeMissing(all: set<Message>, e: Message, d: Message) returns (ds: seq<Message>)
    requires e in all && d in all && Over(d, e)
    ensures Elements(ds) == all && e !in DeliverAll({}, ds)
  {
    var above := set g | g in all && Over(g, d);
    var first, last := Listed(all - above - {d}), Listed(above - {e});
    var held := DeliverAll({}, first);
    HoldsOnlyDelivered({}, first);
    assert d !in held && !Overruled(held, d);
    var next := Deliver(Deliver(held, d), e);
    assert d in next && e !in next;
    ds := first + [d, e] + last;
    ElementsAppend(first + [d, e], last);
    ElementsAppend(first, [d, e]);
    assert Elements([d, e]) == {d, e};
    DeliverInTurn({}, first + [d, e], last);
    DeliverInTurn({}, first, [d, e]);
    TwoInTurn(held, d, e);
    StaysOut(next, last, e);
  }

  lemma TwoInTurn(held: set<Message>, d: Message, e: Message)
    ensures DeliverAll(held, [d, e]) == Deliver(Deliver(held, d), e)
  {
    assert [d, e][..1] == [d] && [d][..0] == [];
    assert DeliverAll(held, [d]) == Deliver(held, d);
  }

  /**
   * A delivery of `all` after which `e` is held, if all that correct it are corrected
   * themselves: what corrects those comes first and keeps them out.
   */
  lemma UnsettledCanBeHeld(all: set<Message>, e: Message) returns (ds: seq<Message>)
    requires OneTarget(all) && e in all
    requires forall d | d in all && Over(d, e) :: Overruled(all, d)
    ensures Elements(ds) == all && e in DeliverAll({}, ds)
  {
    var correcting := set d | d in all && Over(d, e);
    var above := set g | g in all && exists d | d in correcting :: Over(g, d);
    AboveIsQuiet(all, e, correcting, above);
    ds := HeldFrom(all, e, above, correcting);
  }

  lemma HeldFrom(all: set<Message>, e: Message, above: set<Message>, correcting: set<Message>) returns (ds: seq<Message>)
    requires e in all && above <= all && correcting <= all
    requires forall f, g | f in above && g in above :: !Over(f, g)
    requires forall d | d in correcting :: Overruled(above, d)
    requires forall g | g in above || g in all - correcting :: !Over(g, e)
    ensures Elements(ds) == all && e in DeliverAll({}, ds)
  {
    var first, second, last := Listed(above), Listed(correcting), Listed(all - correcting);
    HeldInTheEnd(first, second, e, last);
    ElementsInTurn(first, second, e, last);
    ds := first + second + [e] + last;
    assert above + correcting + {e} + (all - correcting) == all;
  }

  lemma ElementsInTurn(first: seq<Message>, second: seq<Message>, e: Message, last: seq<Message>)
    ensures Elements(first + second + [e] + last) == Elements(first) + Elements(second) + {e} + Elements(last)
  {
    ElementsAppend(first + second + [e], last);
    ElementsAppend(first + second, [e]);
    ElementsAppend(first, second);
  }

  lemma HeldInTheEnd(first: seq<Message>, second: seq<Message>, e: Message, last: seq<Message>)
    requires forall f, g | f in Elements(first) && g in Elements(first) :: !Over(f, g)
    requires forall d | d in Elements(second) :: Overruled(Elements(first), d)
    requires forall g | g in Elements(first) || g in Elements(last) :: !Over(g, e)
    ensures e in DeliverAll({}, first + second + [e] + last)
  {
    var held := Elements(first);
    assert forall g | g in first :: g in held;
    assert forall d | d in second :: d in Elements(second);
    assert forall g | g in last :: g in Elements(last);
    AllHeld(first);
    NothingNew(held, second);
    StaysIn(Deliver(held, e), last, e);
    DeliverInTurn({}, first + second + [e], last);
    DeliverInTurn({}, first + second, [e]);
    DeliverInTurn({}, first, second);
    assert [e][..0] == [];
  }

  /** Those above the corrections of `e` correct neither each other nor `e`. */
  lemma AboveIsQuiet(all: set<Message>, e: Message, correcting: set<Message>, above: set<Message>)
    requires OneTarget(all) && e in all
    requires correcting == set d | d in all && Over(d, e)
    requires above == set g | g in all && exists d | d in correcting :: Over(g, d)
    requires forall d | d in all && Over(d, e) :: Overruled(all, d)
    ensures forall f, g | f in above && g in above :: !Over(f, g)
    ensures forall g | g in above :: !Over(g, e)
    ensures forall d | d in correcting :: Overruled(above, d)
  {
    forall g | g in above
      ensures !Over(g, e)
    {
      var d :| d in correcting && Over(g, d);
    }
    forall f, g | f in above && g in above
      ensures !Over(f, g)
    {
      var d :| d in correcting && Over(f, d);
    }
    forall d | d in correcting
      ensures Overruled(above, d)
    {
      var g :| g in all && Over(g, d);
      assert g in above;
    }
  }

  // ---------------------------------------------------------------- the history itself

  function Keys(ds: set<Message>): set<string> {
    set d | d in ds :: KeyOf(d)
  }

  /**
   * What a history can tell apart and hold: an id determines its record, no room name goes
   * on after another and a colon, and there are at most 500 ids.
   */
  ghost predicate Orderly(all: set<Message>) {
    && (forall d, e | d in all && e in all && d.room == e.room && d.id == e.id :: d == e)
    && (forall d, e | d in all && e in all :: !Overlap(d.room, e.room))
    && |Keys(all)| <= MUC_HISTORY_LIMIT
  }

  lemma OrderlyOneTarget(all: set<Message>)
    requires Orderly(all)
    ensures OneTarget(all)
  {
  }

  lemma SameKeySameMessage(all: set<Message>, d: Message, e: Message)
    requires Orderly(all) && d in all && e in all && KeyOf(d) == KeyOf(e)
    ensures d == e
  {
    KeyInjective(d.room, d.id, e.room, e.id);
  }

  /** The history holds exactly these messages, each under its key. */
  ghost predicate Holds(h: History, held: set<Message>) {
    && (forall m | m in held :: KeyOf(m) in h.at && h.at[KeyOf(m)] == m)
    && (forall k | k in h.at :: h.at[k] in held && KeyOf(h.at[k]) == k)
  }

  lemma AcceptsIff(h: History, held: set<Message>, m: Message, all: set<Message>)
    requires Orderly(all) && held <= all && m in all && Holds(h, held)
    ensures Accepts(h, m) <==> m !in held && !Overruled(held, m)
  {
    IsCorrectedMeans(h, m);
    if KeyOf(m) in h.at {
      SameKeySameMessage(all, h.at[KeyOf(m)], m);
    }
    if m !in held && Overruled(held, m) {
      var f :| f in held && Over(f, m);
      assert Corrects(h.at[KeyOf(f)], m);
    }
  }

  lemma TargetIff(h: History, held: set<Message>, m: Message, x: Message, all: set<Message>)
    requires Orderly(all) && held <= all && m in all && m !in held && x in held
    ensures m.replace.Some? && KeyOf(x) == Key(m.room, m.replace.value) <==> Over(m, x)
  {
    if m.replace.Some? && KeyOf(x) == Key(m.room, m.replace.value) {
      KeyInjective(x.room, x.id, m.room, m.replace.value);
    }
  }

  lemma AcceptedHolds(h: History, held: set<Message>, m: Message, all: set<Message>)
    requires Orderly(all) && held <= all && m in all && Holds(h, held)
    requires m !in held && !Overruled(held, m)
    ensures Holds(Set(WithoutTarget(h, m), KeyOf(m), m), Deliver(held, m))
  {
    var r, now := Set(WithoutTarget(h, m), KeyOf(m), m), Deliver(held, m);
    assert r.at[KeyOf(m)] == m;
    forall x | x in now
      ensures KeyOf(x) in r.at && r.at[KeyOf(x)] == x
    {
      if x != m {
        TargetIff(h, held, m, x, all);
        if KeyOf(x) == KeyOf(m) {
          SameKeySameMessage(all, x, m);
        }
      }
    }
    forall k | k in r.at
      ensures r.at[k] in now && KeyOf(r.at[k]) == k
    {
      if k != KeyOf(m) {
        TargetIff(h, held, m, h.at[k], all);
      }
    }
  }

  lemma RecordHolds(h: History, held: set<Message>, m: Message, all: set<Message>)
    requires Orderly(all) && held <= all && m in all && Holds(h, held)
    ensures Holds(Record(h, m), Deliver(held, m))
  {
    AcceptsIff(h, held, m, all);
    if Accepts(h, m) {
      AcceptedHolds(h, held, m, all);
      var r := Set(WithoutTarget(h, m), KeyOf(m), m);
      assert forall k | k in r.at :: r.at[k] in all && KeyOf(r.at[k]) == k;
      SizeAtMost(r, Keys(all));
    }
  }

  lemma {:induction false} RecordAllHolds(ds: seq<Message>, all: set<Message>)
    requires Orderly(all) && Elements(ds) <= all
    ensures Holds(RecordAll(Empty(), ds), DeliverAll({}, ds))
    decreases |ds|
  {
    if ds == [] {
    } else {
      var most, m := ds[..|ds| - 1], ds[|ds| - 1];
      assert ds == most + [m];
      RecordAllHolds(most, all);
      HoldsOnlyDelivered({}, most);
      RecordHolds(RecordAll(Empty(), most), DeliverAll({}, most), m, all);
    }
  }

  lemma SameHeldIff(h: History, g: History, held: set<Message>, kept: set<Message>)
    requires Holds(h, held) && Holds(g, kept)
    ensures h.at == g.at <==> held == kept
  {
    if h.at == g.at {
      assert forall m | m in held :: h.at[KeyOf(m)] == m;
      assert forall m | m in kept :: g.at[KeyOf(m)] == m;
    }
    if held == kept {
      assert forall k | k in h.at :: k in g.at && g.at[k] == h.at[k];
      assert forall k | k in g.at :: k in h.at;
    }
  }

  /** If the messages are settled, the history ends up with exactly those that no delivered message corrects. */
  lemma HistoryHoldsCurrent(ds: seq<Message>)
    requires Orderly(Elements(ds)) && Settled(Elements(ds))
    ensures var h := RecordAll(Empty(), ds);
      && (forall m | Current(Elements(ds), m) :: KeyOf(m) in h.at && h.at[KeyOf(m)] == m)
      && (forall k | k in h.at :: Current(Elements(ds), h.at[k]) && KeyOf(h.at[k]) == k)
  {
    RecordAllHolds(ds, Elements(ds));
    SettledHoldsCurrent(ds);
  }

  /** Every delivery of exactly these messages leaves the same records. */
  ghost predicate OrderDoesNotMatter(all: set<Message>) {
    forall ds, es | Elements(ds) == all && Elements(es) == all ::
      RecordAll(Empty(), ds).at == RecordAll(Empty(), es).at
  }

  /**
   * Order and repetition of deliveries do not matter exactly when every corrected message
   * is corrected by one that nothing corrects. No shape of corrections is excluded: a chain
   * is not settled, nor is a cycle of two or more messages, unless corrections from outside
   * it that nothing corrects reach all its messages that are corrected from within.
   */
  lemma OrderDoesNotMatterIff(all: set<Message>)
    requires Orderly(all)
    ensures OrderDoesNotMatter(all) <==> Settled(all)
  {
    if Settled(all) {
      forall ds, es | Elements(ds) == all && Elements(es) == all
        ensures RecordAll(Empty(), ds).at == RecordAll(Empty(), es).at
      {
        SettledRunsAgree(ds, es, all);
      }
    } else {
      var e :| e in all && Overruled(all, e) && !exists f :: Over(f, e) && Current(all, f);
      UnsettledRunsDiffer(all, e);
    }
  }

  /** Where every message is corrected by another, as in a cycle, nothing is settled. */
  lemma CyclesAreUnsettled(all: set<Message>, e: Message)
    requires e in all && forall m | m in all :: Overruled(all, m)
    ensures !Settled(all)
  {
    assert Overruled(all, e);
  }

  lemma SettledRunsAgree(ds: seq<Message>, es: seq<Message>, all: set<Message>)
    requires Orderly(all) && Settled(all) && Elements(ds) == all && Elements(es) == all
    ensures RecordAll(Empty(), ds).at == RecordAll(Empty(), es).at
  {
    RecordAllHolds(ds, all);
    RecordAllHolds(es, all);
    SettledHoldsCurrent(ds);
    SettledHoldsCurrent(es);
    assert DeliverAll({}, ds) == DeliverAll({}, es);
    SameHeldIff(RecordAll(Empty(), ds), RecordAll(Empty(), es), DeliverAll({}, ds), DeliverAll({}, es));
  }

  lemma UnsettledRunsDiffer(all: set<Message>, e: Message)
    requires Orderly(all) && e in all && Overruled(all, e)
    requires forall f :: !(Over(f, e) && Current(all, f))
    ensures !OrderDoesNotMatter(all)
  {
    OrderlyOneTarget(all);
    var d :| d in all && Over(d, e);
    var ds := CorrectedCanBeMissing(all, e, d);
    var es := UnsettledCanBeHeld(all, e);
    RecordAllHolds(ds, all);
    RecordAllHolds(es, all);
    SameHeldIff(RecordAll(Empty(), ds), RecordAll(Empty(), es), DeliverAll({}, ds), DeliverAll({}, es));
  }
}
