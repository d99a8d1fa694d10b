/**
 * What an undisturbed call achieves, said of the stored envelope and of the mailbox's history alone
 * (src/core/xmpp-dht.ts:170-253): mail is delivered, in order and once, and buffering keeps it.
 */
module MailboxProgress {
  import opened Wrappers
  import opened Mailbox
  import opened MailboxSafety
  import opened MailboxFlush

  /** The peer's envelope has not expired. */
  predicate Live(s: System, peer: Peer) {
    peer in s.store && (s.store[peer].expiresAt.None? || s.now <= s.store[peer].expiresAt.value)
  }

  /** Stanzas that a flush has to deliver. */
  predicate HasMail(s: System, peer: Peer) {
    Live(s, peer) && s.store[peer].data.Queue? && s.store[peer].data.stanzas != []
  }

  /** A call that may begin. */
  predicate MayBegin(s: System, i: nat) {
    i < |s.ops| && s.ops[i].pc.Waiting? && PrevSettled(s.ops, i)
  }

  /** `t` is `s` but for the program counter of call `i`. */
  predicate OnlyPc(s: System, t: System, i: nat, pc: Pc) {
    i < |s.ops| && t == s.(ops := s.ops[i := s.ops[i].(pc := pc)])
  }

  // ---------------------------------------------------------------- flushing

  /**
   * What a flush makes of a successful read: it goes on to handle all the mail, exactly if
   * there is any; it fails exactly on a live envelope that holds no queue; nothing is written.
   */
  lemma FlushReads(s: System, i: nat)
    requires MayBegin(s, i) && s.ops[i].kind.Flush?
    ensures var peer := s.ops[i].peer;
      var t := Next(Next(s, Start(i)), GetSucceeds(i));
      OnlyPc(s, t, i, if HasMail(s, peer) then Handling(s.store[peer].data.stanzas)
                      else Settled(!(Live(s, peer) && s.store[peer].data.Invalid?)))
  {
    var t := Next(s, Start(i));
    assert t.ops[i] == s.ops[i].(pc := Reading);
    assert t.ops[i := s.ops[i].(pc := AfterGet(t, t.ops[i]))] == s.ops[i := s.ops[i].(pc := AfterGet(t, t.ops[i]))];
  }

  /** A failed read settles a flush: well if the key is missing, badly otherwise. */
  lemma FlushReadFails(s: System, i: nat, error: DhtError)
    requires MayBegin(s, i) && s.ops[i].kind.Flush? && (IsDhtKeyNotFound(error) ==> s.ops[i].peer !in s.store)
    ensures OnlyPc(s, Next(Next(s, Start(i)), GetFails(i, error)), i, Settled(IsDhtKeyNotFound(error)))
  {
    var t := Next(s, Start(i));
    assert t.ops[i] == s.ops[i].(pc := Reading);
    assert t.ops[i := s.ops[i].(pc := Settled(IsDhtKeyNotFound(error)))]
        == s.ops[i := s.ops[i].(pc := Settled(IsDhtKeyNotFound(error)))];
  }

  predicate Succeeds(a: Attempt) {
    a.handlerOk && a.put.Stored?
  }

  /** The loop goes on through every success and stops at the first failure, or at the end. */
  lemma {:induction false} FlushStopsAt(queue: seq<string>, attempts: seq<Attempt>, n: nat)
    requires n <= |queue| && n <= |attempts| && forall j | 0 <= j < n :: Succeeds(attempts[j])
    requires n == |queue| || n == |attempts| || !Succeeds(attempts[n])
    ensures FlushAlone(queue, queue, attempts) ==
      if n == |queue| then Outcome([], queue, Some(true))
      else if n == |attempts| then Outcome(queue[n..], queue[..n], None)
      else if !attempts[n].handlerOk then Outcome(queue[n..], queue[..n], Some(false))
      else if attempts[n].put.FailedUnstored? then Outcome(queue[n..], queue[..n + 1], Some(false))
      else Outcome(queue[n + 1..], queue[..n + 1], Some(false))
    decreases n
  {
    if n == 0 {
      assert queue[0..] == queue && queue[..0] == [];
      assert |queue| > 0 ==> queue[..1] == [queue[0]];
    } else {
      var tail, rest := queue[1..], attempts[1..];
      FlushStopsAt(tail, rest, n - 1);
      assert tail[n - 1..] == queue[n..] && queue[..n] == [queue[0]] + tail[..n - 1];
      assert queue == [queue[0]] + tail;
      if n < |queue| {
        assert tail[n..] == queue[n + 1..] && queue[..n + 1] == [queue[0]] + tail[..n];
      }
    }
  }

  /**
   * Delivery: a flush that nothing disturbs and nothing fails ends well, with an empty
   * mailbox and every stanza that was in it handled once, in order.
   */
  lemma FlushDelivers(s: System, i: nat, attempts: seq<Attempt>)
    requires Inv(s) && MayBegin(s, i) && s.ops[i].kind.Flush? && HasMail(s, s.ops[i].peer)
    requires |attempts| >= |s.store[s.ops[i].peer].data.stanzas|
    requires forall j | 0 <= j < |attempts| :: Succeeds(attempts[j])
    ensures var peer, h := s.ops[i].peer, HistoryOf(s, s.ops[i].peer);
      var t := Run(Next(Next(s, Start(i)), GetSucceeds(i)), StepsOf(i, attempts));
      var g := HistoryOf(t, peer);
      && |t.ops| == |s.ops| && t.ops[i].pc == Settled(true)
      && StoredQueue(s.store, peer) == h.log[h.gone..] && StoredQueue(t.store, peer) == []
      && g.log == h.log && g.handled == h.handled + Places(h.gone, |h.log| - h.gone)
  {
    FlushGoesThrough(s, i, attempts, |s.store[s.ops[i].peer].data.stanzas|);
  }

  /**
   * However far it gets: a flush handles the stanzas up to the first failure, `n` of them or
   * one more, and what it has removed is no longer stored.
   */
  lemma FlushGoesThrough(s: System, i: nat, attempts: seq<Attempt>, n: nat)
    requires Inv(s) && MayBegin(s, i) && s.ops[i].kind.Flush? && HasMail(s, s.ops[i].peer)
    requires n <= |s.store[s.ops[i].peer].data.stanzas| && n <= |attempts| && forall j | 0 <= j < n :: Succeeds(attempts[j])
    requires n == |s.store[s.ops[i].peer].data.stanzas| || n == |attempts| || !Succeeds(attempts[n])
    ensures var peer, h := s.ops[i].peer, HistoryOf(s, s.ops[i].peer);
      var queue := s.store[peer].data.stanzas;
      var t := Run(Next(Next(s, Start(i)), GetSucceeds(i)), StepsOf(i, attempts));
      var g := HistoryOf(t, peer);
      var ended := n == |queue| || n == |attempts|;
      var done := if ended || !attempts[n].handlerOk then n else n + 1;
      var removed := if ended || attempts[n].put.FailedUnstored? then n else done;
      && h.gone <= |h.log| && queue == StoredQueue(s.store, peer) == h.log[h.gone..]
      && |t.ops| == |s.ops|
      && StoredQueue(t.store, peer) == queue[removed..]
      && g.log == h.log && g.handled == h.handled + Places(h.gone, done)
      && (n == |queue| ==> t.ops[i].pc == Settled(true))
      && (!ended ==> t.ops[i].pc == Settled(false))
  {
    var peer, queue := s.ops[i].peer, s.store[s.ops[i].peer].data.stanzas;
    var u := Next(Next(s, Start(i)), GetSucceeds(i));
    FlushReads(s, i);
    assert StoreInv(s, peer) && StoredQueue(u.store, peer) == queue;
    assert HistoryOf(u, peer) == HistoryOf(s, peer);
    FlushFromHere(u, i, queue, attempts);
    FlushStopsAt(queue, attempts, n);
  }

  lemma FlushFromHere(s: System, i: nat, queue: seq<string>, attempts: seq<Attempt>)
    requires i < |s.ops| && s.ops[i].pc == Handling(queue) && queue != []
    requires StoredQueue(s.store, s.ops[i].peer) == queue
    ensures var t, o := Run(s, StepsOf(i, attempts)), FlushAlone(queue, queue, attempts);
      var h, g := HistoryOf(s, s.ops[i].peer), HistoryOf(t, s.ops[i].peer);
      && |t.ops| == |s.ops| && StoredQueue(t.store, s.ops[i].peer) == o.stored
      && (o.settled.Some? ==> t.ops[i].pc == Settled(o.settled.value))
      && g.log == h.log && g.handled == h.handled + Places(h.gone, |o.completed|)
  {
    MachineFlushes(s, i, attempts);
    MachineHandles(s, i, queue, attempts);
  }

  // ---------------------------------------------------------------- buffering

  /**
   * What buffering leaves: the stanza behind what was stored, if that is live, and alone if it
   * has expired or there was nothing; for seven days from the put. A live envelope that holds
   * no queue makes the call fail without a put, and a put that fails makes it fail as well.
   */
  lemma BufferStores(s: System, i: nat, outcome: PutOutcome)
    requires MayBegin(s, i) && s.ops[i].kind.Buffer?
    ensures var peer, stanza := s.ops[i].peer, s.ops[i].kind.stanza;
      var t := Run(s, [Start(i), GetSucceeds(i), PutEnds(i, outcome)]);
      && |t.ops| == |s.ops|
      && if Live(s, peer) && s.store[peer].data.Invalid? then
           t.ops[i].pc == Settled(false) && t.store == s.store && t.history == s.history
         else
           && t.ops[i].pc == Settled(outcome.Stored?)
           && if outcome.FailedUnstored? then t.store == s.store
              else t.store == s.store[peer := Envelope(
                Queue((if Live(s, peer) && s.store[peer].data.Queue? then s.store[peer].data.stanzas else []) + [stanza]),
                Some(s.now + 604_800_000))]
  {
    RunThree(s, Start(i), GetSucceeds(i), PutEnds(i, outcome));
    var t := Next(s, Start(i));
    assert t.ops[i] == s.ops[i].(pc := Reading);
    var u := Next(t, GetSucceeds(i));
    assert u == WithPc(t, i, AfterGet(t, t.ops[i]));
    assert u.ops[i] == s.ops[i].(pc := AfterGet(t, t.ops[i]));
    assert [] + [s.ops[i].kind.stanza] == [s.ops[i].kind.stanza];
  }

  lemma RunThree(s: System, x: Step, y: Step, z: Step)
    ensures Run(s, [x, y, z]) == Next(Next(Next(s, x), y), z)
  {
    assert [x, y, z][1..] == [y, z] && [y, z][1..] == [z] && [z][1..] == [];
    assert Run(s, [x, y, z]) == Run(Next(s, x), [y, z]);
    assert Run(Next(s, x), [y, z]) == Run(Next(Next(s, x), y), [z]);
  }

  /** A buffer call whose read fails: a missing key is as good as an empty mailbox, any other error ends it. */
  lemma BufferReadFails(s: System, i: nat, error: DhtError, outcome: PutOutcome)
    requires MayBegin(s, i) && s.ops[i].kind.Buffer? && (IsDhtKeyNotFound(error) ==> s.ops[i].peer !in s.store)
    ensures var peer, stanza := s.ops[i].peer, s.ops[i].kind.stanza;
      var t := Run(s, [Start(i), GetFails(i, error), PutEnds(i, outcome)]);
      && |t.ops| == |s.ops|
      && if IsDhtKeyNotFound(error) then
           && t.ops[i].pc == Settled(outcome.Stored?)
           && t.store == (if outcome.FailedUnstored? then s.store
                          else s.store[peer := Envelope(Queue([stanza]), Some(s.now + 604_800_000))])
         else t.ops[i].pc == Settled(false) && t.store == s.store
  {
    RunThree(s, Start(i), GetFails(i, error), PutEnds(i, outcome));
    var t := Next(s, Start(i));
    assert t.ops[i] == s.ops[i].(pc := Reading);
    var u := Next(t, GetFails(i, error));
    assert u == WithPc(t, i, AfterGetFails(t, t.ops[i], error));
    assert u.ops[i] == s.ops[i].(pc := AfterGetFails(t, t.ops[i], error));
  }

  /** So mail buffered by live calls, one after the other, is all there, in order, for the next flush. */
  lemma BufferedIsMail(s: System, i: nat)
    requires Inv(s) && MayBegin(s, i) && s.ops[i].kind.Buffer?
    requires Live(s, s.ops[i].peer) ==> !s.store[s.ops[i].peer].data.Invalid?
    ensures var peer, stanza := s.ops[i].peer, s.ops[i].kind.stanza;
      var t := Run(s, [Start(i), GetSucceeds(i), PutEnds(i, Stored)]);
      && Inv(t) && HasMail(t, peer)
      && t.store[peer].data.stanzas ==
         (if Live(s, peer) then StoredQueue(s.store, peer) else []) + [stanza]
  {
    BufferStores(s, i, Stored);
    RunInv(s, [Start(i), GetSucceeds(i), PutEnds(i, Stored)]);
    RunThree(s, Start(i), GetSucceeds(i), PutEnds(i, Stored));
    TimeStays(s, i);
  }

  lemma TimeStays(s: System, i: nat)
    ensures Next(Next(Next(s, Start(i)), GetSucceeds(i)), PutEnds(i, Stored)).now == s.now
  {
  }

  // ---------------------------------------------------------------- the other process, and the end of this one

  /** While no local call is at work on a mailbox, another process can append to it. */
  lemma RemoteAppends(s: System, peer: Peer, stanza: string)
    requires forall op | op in s.ops && op.peer == peer :: op.pc.Waiting? || op.pc.Settled?
    requires Live(s, peer) ==> !s.store[peer].data.Invalid?
    ensures var t := Next(s, RemoteBuffer(peer, stanza));
      && t.store == s.store[peer := Envelope(
           Queue((if Live(s, peer) && s.store[peer].data.Queue? then s.store[peer].data.stanzas else []) + [stanza]),
           Some(s.now + 604_800_000))]
      && t.ops == s.ops
  {
    assert forall i | 0 <= i < |s.ops| :: s.ops[i] in s.ops;
    assert [] + [stanza] == [stanza];
  }

  /** Mail expires by the passing of time alone. */
  lemma TimePasses(s: System, peer: Peer, ms: nat)
    ensures var t := Next(s, Tick(ms));
      && t == s.(now := s.now + ms)
      && (Live(t, peer) <==> peer in s.store && (s.store[peer].expiresAt.None? || s.now + ms <= s.store[peer].expiresAt.value))
  {
  }

  /** A process can end at any moment but during a removal; then its calls are gone and what was stored stays. */
  lemma CrashForgets(s: System)
    requires forall op | op in s.ops :: !op.pc.Removing?
    ensures Next(s, Crash) == s.(ops := [], locks := map[])
  {
    assert forall i | 0 <= i < |s.ops| :: s.ops[i] in s.ops;
  }
}
