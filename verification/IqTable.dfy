/**
 * IQ requests to a server and the table of those still waiting
 * (src/core/xmpp-client-bridge.ts:495-506, 586-590, 954-971 and 1145-1156;
 * section 8.2.3 of RFC 6120). A request is known by its place in the order of sending.
 */
module IqTable {
  import opened Wrappers

  datatype Outcome = Answered | Refused | TimedOut | NotSent | Disconnected

  /** `outcome` is that of its promise; `calls` counts the calls of resolve and reject. */
  datatype Request = Request(id: string, outcome: Option<Outcome>, calls: nat, armed: bool, sending: bool)

  datatype State = State(requests: seq<Request>, pending: map<string, nat>)

  /** A timer fires only while it is armed; a send ends once. */
  datatype Event =
    | SendIq(id: string)
    | Response(id: string, error: bool)
    | Timeout(i: nat)
    | SendFails(i: nat)
    | SendSucceeds(i: nat)
    | Disconnect

  const INITIAL := State([], map[])

  predicate Possible(s: State, e: Event) {
    match e
    case Timeout(i) => i < |s.requests| && s.requests[i].armed
    case SendFails(i) => i < |s.requests| && s.requests[i].sending
    case SendSucceeds(i) => i < |s.requests| && s.requests[i].sending
    case _ => true
  }

  /** `resolve` or `reject`: only the first call settles the promise. */
  function Settled(r: Request, outcome: Outcome): Request {
    r.(outcome := if r.outcome.Some? then r.outcome else Some(outcome), calls := r.calls + 1)
  }

  predicate IsPending(s: State, i: nat) {
    exists id | id in s.pending :: s.pending[id] == i
  }

  function SettleAll(s: State): seq<Request> {
    seq(|s.requests|, i requires 0 <= i < |s.requests| =>
      if IsPending(s, i) then Settled(s.requests[i], Disconnected).(armed := false) else s.requests[i])
  }

  function Next(s: State, e: Event): State
    requires Possible(s, e)
  {
    match e
    case SendIq(id) =>
      State(s.requests + [Request(id, None, 0, true, true)], s.pending[id := |s.requests|])
    case Response(id, error) =>
      if id in s.pending && s.pending[id] < |s.requests| then
        var i := s.pending[id];
        var r := Settled(s.requests[i], if error then Refused else Answered).(armed := false);
        State(s.requests[i := r], s.pending - {id})
      else s
    case Timeout(i) =>
      State(s.requests[i := Settled(s.requests[i], TimedOut).(armed := false)], s.pending - {s.requests[i].id})
    case SendFails(i) =>
      var r := Settled(s.requests[i], NotSent).(armed := false, sending := false);
      State(s.requests[i := r], s.pending - {s.requests[i].id})
    case SendSucceeds(i) => s.(requests := s.requests[i := s.requests[i].(sending := false)])
    case Disconnect => State(SettleAll(s), map[])
  }

  ghost predicate IsRun(es: seq<Event>)
    decreases |es|, 0
  {
    es == [] || (IsRun(es[..|es| - 1]) && Possible(After(es[..|es| - 1]), es[|es| - 1]))
  }

  ghost function After(es: seq<Event>): State
    requires IsRun(es)
    decreases |es|, 1
  {
    if es == [] then INITIAL else Next(After(es[..|es| - 1]), es[|es| - 1])
  }

  // ---------------------------------------------------------------- when an id may be used again

  /** A request that something may still be done about. */
  predicate Busy(r: Request) {
    r.outcome.None? || r.sending
  }

  /** No request of this id is unsettled or still sending. */
  ghost predicate IsFree(s: State, id: string) {
    forall r | r in s.requests && r.id == id :: !Busy(r)
  }

  /** No id is used while it is not free. */
  ghost predicate Clean(es: seq<Event>)
    requires IsRun(es)
    decreases |es|
  {
    es == []
    || (Clean(es[..|es| - 1]) && (es[|es| - 1].SendIq? ==> IsFree(After(es[..|es| - 1]), es[|es| - 1].id)))
  }

  /** No id is used for two requests. */
  ghost predicate FreshIds(es: seq<Event>) {
    forall i, j | 0 <= i < j < |es| && es[i].SendIq? && es[j].SendIq? :: es[i].id != es[j].id
  }

  ghost predicate UsedIds(s: State, es: seq<Event>) {
    forall r | r in s.requests :: SendIq(r.id) in es
  }

  lemma UsedAfter(s: State, es: seq<Event>, e: Event)
    requires Possible(s, e) && UsedIds(s, es)
    ensures UsedIds(Next(s, e), es + [e])
  {
    var t := Next(s, e);
    forall r | r in t.requests
      ensures SendIq(r.id) in es + [e]
    {
      var i :| 0 <= i < |t.requests| && t.requests[i] == r;
      if i < |s.requests| {
        assert s.requests[i] in s.requests && r.id == s.requests[i].id;
      }
    }
  }

  /** Ids that are all different are never used while they are not free. */
  lemma {:induction false} FreshIdsAreClean(es: seq<Event>)
    requires IsRun(es) && FreshIds(es)
    ensures Clean(es) && UsedIds(After(es), es)
    decreases |es|
  {
    if es == [] {
    } else {
      var most, e := es[..|es| - 1], es[|es| - 1];
      assert es == most + [e];
      assert FreshIds(most);
      FreshIdsAreClean(most);
      UsedAfter(After(most), most, e);
      if e.SendIq? {
        forall r | r in After(most).requests
          ensures r.id != e.id
        {
          var k :| 0 <= k < |most| && most[k] == SendIq(r.id);
          assert es[k] == most[k] && es[|most|] == e;
        }
      }
    }
  }

  // ---------------------------------------------------------------- the table is exact

  /** Request `i` is the one the table holds under its id. */
  predicate Waits(s: State, i: nat)
    requires i < |s.requests|
  {
    s.requests[i].id in s.pending && s.pending[s.requests[i].id] == i
  }

  /** A second call comes only from a send that failed after the promise was settled. */
  ghost predicate RequestExact(r: Request, waiting: bool) {
    && (waiting <==> r.outcome.None?)
    && (r.armed <==> r.outcome.None?)
    && (r.calls == 0 <==> r.outcome.None?)
    && (r.sending ==> r.calls <= 1)
    && r.calls <= 2
  }

  /** The table holds exactly the unsettled requests, and exactly they have a timer. */
  ghost predicate TableExact(s: State) {
    && (forall id | id in s.pending :: s.pending[id] < |s.requests| && s.requests[s.pending[id]].id == id)
    && (forall i | 0 <= i < |s.requests| :: RequestExact(s.requests[i], Waits(s, i)))
  }

  ghost predicate BusyApart(requests: seq<Request>) {
    forall i, j | 0 <= i < j < |requests| && Busy(requests[i]) && Busy(requests[j]) :: requests[i].id != requests[j].id
  }

  ghost predicate Exact(s: State) {
    TableExact(s) && BusyApart(s.requests)
  }

  lemma PendingWaits(s: State, i: nat)
    requires TableExact(s) && i < |s.requests|
    ensures IsPending(s, i) <==> Waits(s, i)
  {
  }

  lemma DisconnectExact(s: State)
    requires Exact(s)
    ensures Exact(Next(s, Disconnect))
  {
    var t := Next(s, Disconnect);
    forall i | 0 <= i < |s.requests|
      ensures RequestExact(t.requests[i], false)
      ensures t.requests[i].id == s.requests[i].id && (Busy(t.requests[i]) ==> Busy(s.requests[i]))
    {
      PendingWaits(s, i);
      assert RequestExact(s.requests[i], Waits(s, i));
    }
  }

  lemma SendExact(s: State, id: string)
    requires Exact(s) && IsFree(s, id)
    ensures Exact(Next(s, SendIq(id)))
  {
    var t := Next(s, SendIq(id));
    forall i | 0 <= i < |s.requests|
      ensures t.requests[i] == s.requests[i] && RequestExact(t.requests[i], Waits(t, i))
      ensures Busy(t.requests[i]) ==> t.requests[i].id != id
    {
      assert s.requests[i] in s.requests;
      assert RequestExact(s.requests[i], Waits(s, i));
    }
  }

  /** A busy request `i` is settled, disarmed and out of the table. */
  lemma SettleExact(s: State, i: nat, r: Request, t: State)
    requires Exact(s) && i < |s.requests| && r.id == s.requests[i].id && Busy(s.requests[i])
    requires RequestExact(r, false)
    requires t == State(s.requests[i := r], s.pending - {r.id})
    ensures Exact(t)
  {
    forall j | 0 <= j < |s.requests| && j != i
      ensures t.requests[j] == s.requests[j] && Waits(t, j) == Waits(s, j)
    {
      assert RequestExact(s.requests[j], Waits(s, j));
    }
  }

  lemma NextExact(s: State, e: Event)
    requires Exact(s) && Possible(s, e)
    requires e.SendIq? ==> IsFree(s, e.id)
    ensures Exact(Next(s, e))
  {
    var t := Next(s, e);
    match e
    case SendIq(id) => SendExact(s, id);
    case Disconnect => DisconnectExact(s);
    case Response(id, _) =>
      if id in s.pending {
        var i := s.pending[id];
        assert RequestExact(s.requests[i], Waits(s, i));
        SettleExact(s, i, t.requests[i], t);
      }
    case Timeout(i) =>
      assert RequestExact(s.requests[i], Waits(s, i));
      SettleExact(s, i, t.requests[i], t);
    case SendFails(i) =>
      assert RequestExact(s.requests[i], Waits(s, i));
      SettleExact(s, i, t.requests[i], t);
    case SendSucceeds(i) => SentExact(s, i);
  }

  lemma SentExact(s: State, i: nat)
    requires Exact(s) && i < |s.requests|
    ensures Exact(s.(requests := s.requests[i := s.requests[i].(sending := false)]))
  {
    var t := s.(requests := s.requests[i := s.requests[i].(sending := false)]);
    forall j | 0 <= j < |s.requests|
      ensures RequestExact(t.requests[j], Waits(t, j)) && (Busy(t.requests[j]) ==> Busy(s.requests[j]))
    {
      assert RequestExact(s.requests[j], Waits(s, j));
    }
  }

  /**
   * In every clean run the table holds exactly the unsettled requests and exactly they have
   * a timer, so each promise will still settle; none is settled by two calls unless its
   * send failed after it had been settled.
   */
  lemma {:induction false} EveryRunExact(es: seq<Event>)
    requires IsRun(es) && Clean(es)
    ensures Exact(After(es))
    decreases |es|
  {
    if es == [] {
    } else {
      EveryRunExact(es[..|es| - 1]);
      NextExact(After(es[..|es| - 1]), es[|es| - 1]);
    }
  }

  // ---------------------------------------------------------------- how a request goes on

  /**
   * A request is sent unsettled and with a timer; its send ends once, and its timer can fire
   * exactly until it is settled. An answer, a disconnection and a new request can come at any time.
   */
  lemma RequestGoesOn(s: State, id: string, i: nat)
    requires Exact(s) && i < |s.requests|
    ensures var t := Next(s, SendIq(id));
      var n := |s.requests|;
      && t.requests == s.requests + [Request(id, None, 0, true, true)] && t.pending == s.pending[id := n]
      && Possible(t, Timeout(n)) && Possible(t, SendFails(n)) && Possible(t, SendSucceeds(n))
    ensures Possible(s, Timeout(i)) <==> s.requests[i].outcome.None?
    ensures Possible(s, SendSucceeds(i)) <==> s.requests[i].sending
    ensures Possible(s, SendFails(i)) <==> s.requests[i].sending
    ensures Possible(s, Response(id, true)) && Possible(s, Response(id, false)) && Possible(s, Disconnect)
    ensures s.requests[i].sending ==>
              var t := Next(s, SendSucceeds(i));
              && t == s.(requests := s.requests[i := s.requests[i].(sending := false)])
              && !Possible(t, SendSucceeds(i)) && !Possible(t, SendFails(i))
  {
    assert RequestExact(s.requests[i], Waits(s, i));
  }

  // ---------------------------------------------------------------- the exact condition on an id

  ghost predicate NoSends(es: seq<Event>) {
    forall e | e in es :: !e.SendIq?
  }

  lemma RunOneMore(es: seq<Event>, e: Event)
    requires IsRun(es) && Possible(After(es), e)
    ensures IsRun(es + [e]) && After(es + [e]) == Next(After(es), e)
    ensures Clean(es + [e]) <==> Clean(es) && (e.SendIq? ==> IsFree(After(es), e.id))
  {
    assert (es + [e])[..|es|] == es;
  }

  lemma {:induction false} CleanWithoutSends(es: seq<Event>, more: seq<Event>)
    requires IsRun(es) && Clean(es) && NoSends(more) && IsRun(es + more)
    ensures Clean(es + more)
    decreases |more|
  {
    if more == [] {
      assert es + more == es;
    } else {
      assert (es + more)[..|es + more| - 1] == es + more[..|more| - 1];
      CleanWithoutSends(es, more[..|more| - 1]);
    }
  }

  /** The table is exact after sending a request and whatever follows but another request. */
  ghost predicate StaysExact(es: seq<Event>) {
    forall more | NoSends(more) && IsRun(es + more) :: TableExact(After(es + more))
  }

  /**
   * Which ids a request may use: the table stays exact, come what may, exactly when no
   * earlier request of that id is unsettled or still sending.
   */
  lemma SendKeepsExactIff(es: seq<Event>, id: string)
    requires IsRun(es) && Clean(es)
    ensures StaysExact(es + [SendIq(id)]) <==> IsFree(After(es), id)
  {
    var s, sent := After(es), es + [SendIq(id)];
    RunOneMore(es, SendIq(id));
    EveryRunExact(es);
    if IsFree(s, id) {
      forall more | NoSends(more) && IsRun(sent + more)
        ensures TableExact(After(sent + more))
      {
        CleanWithoutSends(sent, more);
        EveryRunExact(sent + more);
      }
    } else {
      var r :| r in s.requests && r.id == id && Busy(r);
      var i :| 0 <= i < |s.requests| && s.requests[i] == r;
      if r.outcome.None? {
        OverwrittenAtOnce(s, id, i);
        assert sent + [] == sent && NoSends([]);
      } else {
        DeletedLater(s, id, i);
        RunOneMore(sent, SendFails(i));
        assert NoSends([SendFails(i)]);
      }
    }
  }

  /** An unsettled request of the same id is no longer in the table. */
  lemma OverwrittenAtOnce(s: State, id: string, i: nat)
    requires i < |s.requests| && s.requests[i].id == id && s.requests[i].outcome.None?
    ensures !TableExact(Next(s, SendIq(id)))
  {
    var t := Next(s, SendIq(id));
    assert t.requests[i] == s.requests[i] && !Waits(t, i);
    assert !RequestExact(t.requests[i], Waits(t, i));
  }

  /** A settled one whose send still fails takes the new request out of the table. */
  lemma DeletedLater(s: State, id: string, i: nat)
    requires i < |s.requests| && s.requests[i].id == id && s.requests[i].sending
    ensures Possible(Next(s, SendIq(id)), SendFails(i))
    ensures !TableExact(Next(Next(s, SendIq(id)), SendFails(i)))
  {
    var n := |s.requests|;
    var t := Next(Next(s, SendIq(id)), SendFails(i));
    assert t.requests[n] == Request(id, None, 0, true, true) && !Waits(t, n);
    assert !RequestExact(t.requests[n], Waits(t, n));
  }

  // ---------------------------------------------------------------- the first event decides

  /** The number of requests sent. */
  function SentBy(es: seq<Event>): nat
    decreases |es|
  {
    if es == [] then 0 else SentBy(es[..|es| - 1]) + (if es[|es| - 1].SendIq? then 1 else 0)
  }

  /** What an event does to an unsettled request `i` called `id`. */
  function Decides(e: Event, i: nat, id: string): Option<Outcome> {
    match e
    case Response(other, error) => if other == id then Some(if error then Refused else Answered) else None
    case Timeout(j) => if j == i then Some(TimedOut) else None
    case SendFails(j) => if j == i then Some(NotSent) else None
    case Disconnect => Some(Disconnected)
    case _ => None
  }

  /** The outcome of request `i`: that of the first event after it was sent that decides it. */
  function FirstDecision(es: seq<Event>, i: nat, id: string): Option<Outcome>
    decreases |es|
  {
    if es == [] || SentBy(es) <= i then None
    else
      var most, e := es[..|es| - 1], es[|es| - 1];
      var before := FirstDecision(most, i, id);
      if before.Some? then before
      else if SentBy(most) <= i then None
      else Decides(e, i, id)
  }

  lemma DecidesNext(s: State, e: Event, i: nat)
    requires Exact(s) && Possible(s, e) && i < |s.requests|
    ensures var r, id := s.requests[i], s.requests[i].id;
      && |Next(s, e).requests| >= |s.requests|
      && Next(s, e).requests[i].id == id
      && Next(s, e).requests[i].outcome == if r.outcome.Some? then r.outcome else Decides(e, i, id)
  {
    assert RequestExact(s.requests[i], Waits(s, i));
    if e.Disconnect? {
      PendingWaits(s, i);
    }
  }

  /** In a clean run, every promise has the outcome of the first event that concerns it, and keeps it. */
  lemma {:induction false} FirstEventDecides(es: seq<Event>, i: nat)
    requires IsRun(es) && Clean(es) && i < |After(es).requests|
    ensures |After(es).requests| == SentBy(es)
    ensures After(es).requests[i].outcome == FirstDecision(es, i, After(es).requests[i].id)
    decreases |es|
  {
    var most, e := es[..|es| - 1], es[|es| - 1];
    EveryRunExact(most);
    RequestsSent(most);
    RequestsSent(es);
    var s := After(most);
    if i == |s.requests| {
    } else {
      FirstEventDecides(most, i);
      DecidesNext(s, e, i);
    }
  }

  lemma {:induction false} RequestsSent(es: seq<Event>)
    requires IsRun(es)
    ensures |After(es).requests| == SentBy(es)
    decreases |es|
  {
    if es == [] {
    } else {
      RequestsSent(es[..|es| - 1]);
    }
  }

  /**
   * For example, an id used while it is not free: the answer to the first of two requests with one id settles
   * the second, and the first waits for its timeout outside the table.
   */
  lemma SharedIdMisleads(id: string)
    ensures var es := [SendIq(id), SendIq(id), Response(id, false)];
      && IsRun(es) && !IsFree(Next(INITIAL, SendIq(id)), id)
      && |After(es).requests| == 2
      && After(es).requests[0].outcome.None? && After(es).requests[1].outcome == Some(Answered)
      && After(es).pending == map[]
  {
    var es := [SendIq(id), SendIq(id), Response(id, false)];
    assert es[..2] == [SendIq(id), SendIq(id)];
    assert es[..2][..1] == [SendIq(id)];
    assert es[..2][..1][..0] == [];
    var s := After(es[..2]);
    var first := Next(INITIAL, SendIq(id));
    assert first.requests[0] in first.requests;
    assert After(es[..2][..1]) == State([Request(id, None, 0, true, true)], map[id := 0]);
    assert s.pending == map[id := 1];
  }
}
