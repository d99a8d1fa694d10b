/**
 * The body of `flushDhtMailbox` (src/core/xmpp-dht.ts:226-249) as the loop it is, proved
 * against a recursive description of one undisturbed flush, which in turn is what the
 * state machine does when no other step comes between.
 */
module MailboxFlush {
  import opened Wrappers
  import opened Mailbox

  /** What the environment answers to one turn of the loop. */
  datatype Attempt = Attempt(handlerOk: bool, put: PutOutcome)

  /** What is stored, which stanzas were handled, and how the call settled, if it did. */
  datatype Outcome = Outcome(stored: seq<string>, completed: seq<string>, settled: Option<bool>)

  function FlushAlone(queue: seq<string>, stored: seq<string>, attempts: seq<Attempt>): Outcome
    decreases |queue|
  {
    if queue == [] then Outcome(stored, [], Some(true))
    else if attempts == [] then Outcome(stored, [], None)
    else if !attempts[0].handlerOk then Outcome(stored, [], Some(false))
    else
      var tail := queue[1..];
      match attempts[0].put
      case FailedUnstored => Outcome(stored, [queue[0]], Some(false))
      case FailedAfterStoring => Outcome(tail, [queue[0]], Some(false))
      case Stored =>
        var rest := FlushAlone(tail, tail, attempts[1..]);
        rest.(completed := [queue[0]] + rest.completed)
  }

  /** The loop over the queue, with one attempt per turn. */
  method Flush(all: seq<string>, attempts: seq<Attempt>) returns (outcome: Outcome)
    ensures outcome == FlushAlone(all, all, attempts)
  {
    var queue, stored, completed := all, all, [];
    var turn := 0;
    while queue != []
      invariant turn <= |attempts| && stored == queue
      invariant FlushAlone(all, all, attempts) ==
        var rest := FlushAlone(queue, stored, attempts[turn..]); rest.(completed := completed + rest.completed)
      decreases |queue|
    {
      if turn == |attempts| {
        return Outcome(stored, completed, None);
      }
      var attempt := attempts[turn];
      if !attempt.handlerOk {
        return Outcome(stored, completed, Some(false));
      }
      ghost var before := completed;
      ghost var rest := FlushAlone(queue[1..], queue[1..], attempts[turn..][1..]);
      completed := completed + [queue[0]];
      assert before + ([queue[0]] + rest.completed) == completed + rest.completed;
      queue := queue[1..];
      if !attempt.put.FailedUnstored? {
        stored := queue;
      }
      if !attempt.put.Stored? {
        return Outcome(stored, completed, Some(false));
      }
      assert attempts[turn..][1..] == attempts[turn + 1..];
      turn := turn + 1;
    }
    return Outcome(stored, completed, Some(true));
  }

  /**
   * A flush handles a prefix of the queue in order and removes that prefix, or all of it
   * but the last stanza handled, when that stanza's removal did not reach the table.
   */
  lemma {:induction false} FlushHandlesPrefix(queue: seq<string>, attempts: seq<Attempt>)
    ensures var o := FlushAlone(queue, queue, attempts);
      var done, removed := |o.completed|, |queue| - |o.stored|;
      && 0 <= removed <= done <= |queue|
      && o.completed == queue[..done] && o.stored == queue[removed..]
      && (done == removed || (done == removed + 1 && o.settled == Some(false) &&
            done <= |attempts| && attempts[removed].put.FailedUnstored?))
      && (o.settled == Some(true) ==> removed == |queue|)
      && (o.settled == None ==> done == removed == |attempts| < |queue|)
    decreases |queue|
  {
    var o := FlushAlone(queue, queue, attempts);
    assert queue[0..] == queue;
    if queue == [] || attempts == [] || !attempts[0].handlerOk {
      assert o.completed == queue[..0];
    } else if attempts[0].put.Stored? {
      var rest := FlushAlone(queue[1..], queue[1..], attempts[1..]);
      FlushHandlesPrefix(queue[1..], attempts[1..]);
      assert o == rest.(completed := [queue[0]] + rest.completed);
      var done, removed := |rest.completed|, |queue| - 1 - |rest.stored|;
      assert queue[..done + 1] == [queue[0]] + queue[1..][..done];
      assert queue[removed + 1..] == queue[1..][removed..];
    } else {
      assert o.completed == queue[..1];
    }
  }

  /** The steps by which the state machine takes the same attempts for call `i`. */
  function StepsOf(i: nat, attempts: seq<Attempt>): seq<Step> {
    if attempts == [] then []
    else [HandlerEnds(i, attempts[0].handlerOk), PutEnds(i, attempts[0].put)] + StepsOf(i, attempts[1..])
  }

  lemma RunTwo(s: System, x: Step, y: Step, rest: seq<Step>)
    ensures Run(s, [x, y] + rest) == Run(Next(Next(s, x), y), rest)
  {
    assert ([x, y] + rest)[1..] == [y] + rest;
    assert ([y] + rest)[1..] == rest;
  }

  lemma {:induction false} SettledStays(s: System, i: nat, attempts: seq<Attempt>)
    requires i < |s.ops| && s.ops[i].pc.Settled?
    ensures Run(s, StepsOf(i, attempts)) == s
    decreases |attempts|
  {
    if attempts == [] {
    } else {
      RunTwo(s, HandlerEnds(i, attempts[0].handlerOk), PutEnds(i, attempts[0].put), StepsOf(i, attempts[1..]));
      SettledStays(s, i, attempts[1..]);
    }
  }

  /** `n` places in a log, from `first` on. */
  function Places(first: nat, n: nat): (ps: seq<nat>)
    ensures |ps| == n
    ensures forall j | 0 <= j < n :: ps[j] == first + j
  {
    seq(n, j requires 0 <= j < n => first + j)
  }

  /** The state machine, undisturbed, stores and settles exactly as the loop does. */
  lemma {:induction false} MachineFlushes(s: System, i: nat, attempts: seq<Attempt>)
    requires i < |s.ops| && s.ops[i].pc.Handling? && s.ops[i].pc.queue != []
    requires StoredQueue(s.store, s.ops[i].peer) == s.ops[i].pc.queue
    ensures var queue := s.ops[i].pc.queue;
      var t := Run(s, StepsOf(i, attempts));
      var o := FlushAlone(queue, queue, attempts);
      && |t.ops| == |s.ops| && t.ops[i].peer == s.ops[i].peer
      && StoredQueue(t.store, s.ops[i].peer) == o.stored
      && (o.settled.Some? ==> t.ops[i].pc == Settled(o.settled.value))
      && (o.settled.None? ==> t.ops[i].pc == Handling(o.stored))
    decreases |attempts|
  {
    if attempts == [] {
    } else {
      var x, y := HandlerEnds(i, attempts[0].handlerOk), PutEnds(i, attempts[0].put);
      RunTwo(s, x, y, StepsOf(i, attempts[1..]));
      TurnPc(s, i, s.ops[i].pc.queue, attempts[0]);
      TurnStores(s, i, attempts[0]);
      var u := Next(Next(s, x), y);
      if u.ops[i].pc.Settled? {
        SettledStays(u, i, attempts[1..]);
      } else {
        MachineFlushes(u, i, attempts[1..]);
      }
    }
  }

  /** And it handles what the loop handles: the places next in the log, in order. */
  lemma {:induction false} MachineHandles(s: System, i: nat, queue: seq<string>, attempts: seq<Attempt>)
    requires i < |s.ops| && s.ops[i].pc == Handling(queue) && queue != []
    ensures var h, g := HistoryOf(s, s.ops[i].peer), HistoryOf(Run(s, StepsOf(i, attempts)), s.ops[i].peer);
      && g.log == h.log
      && g.handled == h.handled + Places(h.gone, |FlushAlone(queue, queue, attempts).completed|)
    decreases |attempts|
  {
    var h := HistoryOf(s, s.ops[i].peer);
    assert h.handled + Places(h.gone, 0) == h.handled;
    if attempts == [] {
    } else {
      var x, y := HandlerEnds(i, attempts[0].handlerOk), PutEnds(i, attempts[0].put);
      RunTwo(s, x, y, StepsOf(i, attempts[1..]));
      var u := Next(Next(s, x), y);
      TurnPc(s, i, queue, attempts[0]);
      CompletedBy(queue, attempts);
      if u.ops[i].pc.Settled? {
        SettledStays(u, i, attempts[1..]);
        OneTurnSettles(s, i, attempts[0]);
      } else {
        OneTurnGoesOn(s, i, attempts[0]);
        MachineHandles(u, i, queue[1..], attempts[1..]);
        PlacesFrom(h, |FlushAlone(queue[1..], queue[1..], attempts[1..]).completed|);
      }
    }
  }

  lemma CompletedBy(queue: seq<string>, attempts: seq<Attempt>)
    requires queue != [] && attempts != []
    ensures |FlushAlone(queue, queue, attempts).completed| ==
            if !attempts[0].handlerOk then 0
            else if !attempts[0].put.Stored? || queue[1..] == [] then 1
            else 1 + |FlushAlone(queue[1..], queue[1..], attempts[1..]).completed|
  {
  }

  /** Where one turn of the loop leaves the call. */
  lemma TurnPc(s: System, i: nat, queue: seq<string>, attempt: Attempt)
    requires i < |s.ops| && s.ops[i].pc == Handling(queue) && queue != []
    ensures var u := Next(Next(s, HandlerEnds(i, attempt.handlerOk)), PutEnds(i, attempt.put));
      && |u.ops| == |s.ops| && u.ops[i].peer == s.ops[i].peer
      && u.ops[i].pc ==
         (if !attempt.handlerOk || !attempt.put.Stored? then Settled(false)
          else if queue[1..] == [] then Settled(true)
          else Handling(queue[1..]))
  {
  }

  /** What one turn of the loop leaves stored. */
  lemma TurnStores(s: System, i: nat, attempt: Attempt)
    requires i < |s.ops| && s.ops[i].pc.Handling? && s.ops[i].pc.queue != []
    requires StoredQueue(s.store, s.ops[i].peer) == s.ops[i].pc.queue
    ensures var queue := s.ops[i].pc.queue;
      var u := Next(Next(s, HandlerEnds(i, attempt.handlerOk)), PutEnds(i, attempt.put));
      StoredQueue(u.store, s.ops[i].peer) ==
        if attempt.handlerOk && !attempt.put.FailedUnstored? then queue[1..] else queue
  {
  }

  lemma PlacesFrom(h: History, n: nat)
    ensures h.handled + [h.gone] + Places(h.gone + 1, n) == h.handled + Places(h.gone, n + 1)
  {
  }

  lemma OneTurnSettles(s: System, i: nat, attempt: Attempt)
    requires i < |s.ops| && s.ops[i].pc.Handling? && s.ops[i].pc.queue != []
    ensures var h := HistoryOf(s, s.ops[i].peer);
      var u := Next(Next(s, HandlerEnds(i, attempt.handlerOk)), PutEnds(i, attempt.put));
      var g := HistoryOf(u, s.ops[i].peer);
      u.ops[i].pc.Settled? ==>
        g.log == h.log && g.handled == h.handled + Places(h.gone, if attempt.handlerOk then 1 else 0)
  {
  }

  lemma OneTurnGoesOn(s: System, i: nat, attempt: Attempt)
    requires i < |s.ops| && s.ops[i].pc.Handling? && s.ops[i].pc.queue != []
    ensures var h := HistoryOf(s, s.ops[i].peer);
      var u := Next(Next(s, HandlerEnds(i, attempt.handlerOk)), PutEnds(i, attempt.put));
      var g := HistoryOf(u, s.ops[i].peer);
      !u.ops[i].pc.Settled? ==>
        g.log == h.log && g.gone == h.gone + 1 && g.handled == h.handled + [h.gone]
  {
  }

  /** So what a flush handles are the stanzas next in the log, in order. */
  lemma FlushedInLogOrder(s: System, i: nat, attempts: seq<Attempt>)
    requires i < |s.ops| && s.ops[i].pc.Handling? && s.ops[i].pc.queue != []
    requires var h := HistoryOf(s, s.ops[i].peer);
      h.gone <= |h.log| && StoredQueue(s.store, s.ops[i].peer) == s.ops[i].pc.queue == h.log[h.gone..]
    ensures var h := HistoryOf(s, s.ops[i].peer);
      var o := FlushAlone(s.ops[i].pc.queue, s.ops[i].pc.queue, attempts);
      && h.gone + |o.completed| <= |h.log|
      && o.completed == h.log[h.gone..h.gone + |o.completed|]
      && HistoryOf(Run(s, StepsOf(i, attempts)), s.ops[i].peer).handled == h.handled + Places(h.gone, |o.completed|)
  {
    FlushHandlesPrefix(s.ops[i].pc.queue, attempts);
    MachineHandles(s, i, s.ops[i].pc.queue, attempts);
  }
}
