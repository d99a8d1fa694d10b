/** What every run of the mailbox state machine keeps: the lock chain and the accounting of stanzas. */
module MailboxSafety {
  import opened Wrappers
  import opened Mailbox

  // ---------------------------------------------------------------- the lock chain

  /** The latest call for a peer. */
  function LastOp(ops: seq<Op>, peer: Peer): (last: Option<nat>)
    ensures last.Some? ==> last.value < |ops| && ops[last.value].peer == peer
    ensures forall i | 0 <= i < |ops| && ops[i].peer == peer :: last.Some? && i <= last.value
  {
    if ops == [] then None
    else if ops[|ops| - 1].peer == peer then Some(|ops| - 1)
    else LastOp(ops[..|ops| - 1], peer)
  }

  /** `mailboxLocks` holds the latest call per peer, and each call is chained behind the one before it. */
  ghost predicate Chained(ops: seq<Op>, locks: map<Peer, nat>) {
    && (forall p :: LastOp(ops, p) == if p in locks then Some(locks[p]) else None)
    && (forall i | 0 <= i < |ops| :: ops[i].prev == LastOp(ops[..i], ops[i].peer))
  }

  /** A call has started only if every earlier call for its peer is settled. */
  ghost predicate InCallOrder(ops: seq<Op>) {
    forall i, j | 0 <= i < j < |ops| && ops[i].peer == ops[j].peer :: !ops[j].pc.Waiting? ==> ops[i].pc.Settled?
  }

  ghost predicate ChainInv(s: System) {
    Chained(s.ops, s.locks) && InCallOrder(s.ops)
  }

  /** A step of a started call: only its own program counter changes, and it stays started. */
  lemma PcStepKeepsChain(s: System, t: System, i: nat, pc: Pc)
    requires ChainInv(s) && i < |s.ops| && Active(s.ops[i].pc) && !pc.Waiting?
    requires t.ops == s.ops[i := s.ops[i].(pc := pc)] && t.locks == s.locks
    ensures ChainInv(t)
  {
    SamePeersSameLast(s.ops, t.ops);
  }

  lemma {:induction false} SamePeersSameLastOne(xs: seq<Op>, ys: seq<Op>, p: Peer)
    requires |xs| == |ys|
    requires forall i | 0 <= i < |xs| :: xs[i].peer == ys[i].peer
    ensures LastOp(xs, p) == LastOp(ys, p)
  {
    if xs == [] {
    } else {
      SamePeersSameLastOne(xs[..|xs| - 1], ys[..|ys| - 1], p);
    }
  }

  lemma SamePeersSameLast(xs: seq<Op>, ys: seq<Op>)
    requires |xs| == |ys|
    requires forall i | 0 <= i < |xs| :: xs[i].peer == ys[i].peer
    ensures forall p :: LastOp(xs, p) == LastOp(ys, p)
    ensures forall n, p | 0 <= n <= |xs| :: LastOp(xs[..n], p) == LastOp(ys[..n], p)
  {
    forall p {
      SamePeersSameLastOne(xs, ys, p);
    }
    forall n, p | 0 <= n <= |xs| {
      SamePeersSameLastOne(xs[..n], ys[..n], p);
    }
  }

  lemma ChainedPush(ops: seq<Op>, locks: map<Peer, nat>, op: Op)
    requires Chained(ops, locks)
    requires op.prev == if op.peer in locks then Some(locks[op.peer]) else None
    ensures Chained(ops + [op], locks[op.peer := |ops|])
  {
    var all := ops + [op];
    assert all[..|ops|] == ops;
    forall i | 0 <= i < |all|
      ensures all[i].prev == LastOp(all[..i], all[i].peer)
    {
      if i < |ops| {
        assert all[..i] == ops[..i] && all[i] == ops[i];
      }
    }
    forall p
      ensures LastOp(all, p) == if p in locks[op.peer := |ops|] then Some(locks[op.peer := |ops|][p]) else None
    {
      assert LastOp(ops, p) == if p in locks then Some(locks[p]) else None;
    }
  }

  lemma CallKeepsChain(s: System, peer: Peer, kind: Kind)
    requires ChainInv(s)
    ensures ChainInv(Next(s, Call(peer, kind)))
  {
    var t := Next(s, Call(peer, kind));
    var op := t.ops[|s.ops|];
    assert t.ops == s.ops + [op] && op.pc.Waiting?;
    ChainedPush(s.ops, s.locks, op);
    assert InCallOrder(t.ops);
  }

  /** A call whose predecessor in the chain is settled has no unsettled predecessor at all. */
  lemma PrevSettledMeansAll(s: System, i: nat)
    requires ChainInv(s) && i < |s.ops| && PrevSettled(s.ops, i)
    ensures forall k | 0 <= k < i && s.ops[k].peer == s.ops[i].peer :: s.ops[k].pc.Settled?
  {
    var prev := LastOp(s.ops[..i], s.ops[i].peer);
    forall k | 0 <= k < i && s.ops[k].peer == s.ops[i].peer
      ensures s.ops[k].pc.Settled?
    {
      assert s.ops[..i][k] == s.ops[k];
      assert prev.Some? && k <= prev.value;
      assert s.ops[prev.value] == s.ops[..i][prev.value];
    }
  }

  lemma StartKeepsChain(s: System, i: nat)
    requires ChainInv(s)
    requires i < |s.ops| && s.ops[i].pc.Waiting? && PrevSettled(s.ops, i)
    ensures ChainInv(Next(s, Start(i)))
  {
    var t := Next(s, Start(i));
    SamePeersSameLast(s.ops, t.ops);
    PrevSettledMeansAll(s, i);
    forall j, k | 0 <= j < k < |t.ops| && t.ops[j].peer == t.ops[k].peer && !t.ops[k].pc.Waiting?
      ensures t.ops[j].pc.Settled?
    {
      assert s.ops[j].peer == s.ops[k].peer;
      if k != i {
        assert s.ops[j].pc.Settled?;
      }
    }
  }

  /** The call whose program counter `step` advances, if it can be taken. */
  function Advances(s: System, step: Step): Option<nat> {
    match step
    case GetSucceeds(i) => if i < |s.ops| && s.ops[i].pc.Reading? then Some(i) else None
    case GetFails(i, error) =>
      if i < |s.ops| && s.ops[i].pc.Reading? && (IsDhtKeyNotFound(error) ==> s.ops[i].peer !in s.store) then Some(i) else None
    case HandlerEnds(i, _) => if i < |s.ops| && s.ops[i].pc.Handling? && s.ops[i].pc.queue != [] then Some(i) else None
    case PutEnds(i, _) =>
      if i < |s.ops| && (s.ops[i].pc.Removing? || (s.ops[i].pc.Writing? && s.ops[i].kind.Buffer?)) then Some(i) else None
    case _ => None
  }

  lemma AdvanceChangesOnePc(s: System, step: Step)
    requires Advances(s, step).Some?
    ensures var i := Advances(s, step).value;
      var t := Next(s, step);
      && i < |s.ops| == |t.ops| && Active(s.ops[i].pc) && !t.ops[i].pc.Waiting?
      && t.ops == s.ops[i := s.ops[i].(pc := t.ops[i].pc)]
      && t.locks == s.locks
  {
  }

  lemma ChainStep(s: System, step: Step)
    requires ChainInv(s)
    ensures ChainInv(Next(s, step))
  {
    var t := Next(s, step);
    if step.Call? {
      CallKeepsChain(s, step.peer, step.kind);
    } else if step.Start? {
      if step.i < |s.ops| && s.ops[step.i].pc.Waiting? && PrevSettled(s.ops, step.i) {
        StartKeepsChain(s, step.i);
      }
    } else if Advances(s, step).Some? {
      AdvanceChangesOnePc(s, step);
      PcStepKeepsChain(s, t, Advances(s, step).value, t.ops[Advances(s, step).value].pc);
    } else {
      assert (t.ops == s.ops && t.locks == s.locks) || (t.ops == [] && t.locks == map[]);
    }
  }

  // ---------------------------------------------------------------- the accounting of stanzas

  /** A removal put is outstanding for a peer's mailbox. */
  ghost predicate RemovalPending(ops: seq<Op>, peer: Peer) {
    exists i :: 0 <= i < |ops| && ops[i].peer == peer && ops[i].pc.Removing?
  }

  /** Completions are removals, failed removals, and the one whose removal is outstanding. */
  ghost predicate Accounted(h: History, pending: bool) {
    multiset(h.handled) == multiset(h.removed) + multiset(h.retried) + (if pending then multiset{h.gone} else multiset{})
  }

  ghost predicate Lapsed(h: History, k: nat) {
    exists l :: l in h.lapses && l.from <= k < l.to
  }

  /** A lapse drops stanzas only when the last put lies more than seven days back. */
  ghost predicate LapseJustified(l: Lapse, h: History) {
    l.to <= h.gone && (l.lastPut.Some? ==> l.at > l.lastPut.value + MAILBOX_TTL_MS)
  }

  ghost predicate HistoryInv(h: History) {
    && h.gone <= |h.log|
    && (forall k | k in h.removed :: k < h.gone && !Lapsed(h, k))
    && (forall k | 0 <= k < h.gone :: k in h.removed || Lapsed(h, k))
    && (forall i | 0 <= i < |h.handled| :: h.handled[i] <= h.gone)
    && (forall i, j | 0 <= i < j < |h.handled| :: h.handled[i] <= h.handled[j])
    && (forall l | l in h.lapses :: LapseJustified(l, h))
  }

  ghost predicate StoreInv(s: System, peer: Peer) {
    var h := HistoryOf(s, peer);
    && HistoryInv(h)
    && StoredQueue(s.store, peer) == h.log[h.gone..]
    && (h.lastPut.Some? ==>
          peer in s.store && s.store[peer].expiresAt == Some(h.lastPut.value + MAILBOX_TTL_MS))
  }

  /** What a suspended call has read is what is still stored. */
  ghost predicate OpInv(op: Op, h: History) {
    h.gone <= |h.log| &&
    match op.pc
    case Writing(queue, lapsed, issued) =>
      && op.kind.Buffer?
      && queue == (if lapsed then [] else h.log[h.gone..]) + [op.kind.stanza]
      && (lapsed && h.lastPut.Some? ==> issued > h.lastPut.value + MAILBOX_TTL_MS)
    case Handling(queue) => queue != [] && queue == h.log[h.gone..]
    case Removing(queue, _) => h.gone < |h.log| && queue == h.log[h.gone + 1..]
    case _ => true
  }

  ghost predicate AllStored(s: System) {
    forall p :: StoreInv(s, p)
  }

  ghost predicate AllAccounted(s: System) {
    forall p :: Accounted(HistoryOf(s, p), RemovalPending(s.ops, p))
  }

  ghost predicate AllOps(s: System) {
    forall op | op in s.ops :: OpInv(op, HistoryOf(s, op.peer))
  }

  ghost predicate Inv(s: System) {
    ChainInv(s) && AllStored(s) && AllAccounted(s) && AllOps(s)
  }

  /** While a call is active, it is the only active one of its peer. */
  lemma OnlyActive(ops: seq<Op>, i: nat)
    requires InCallOrder(ops) && i < |ops| && Active(ops[i].pc)
    ensures forall j | 0 <= j < |ops| && j != i && ops[j].peer == ops[i].peer :: !Active(ops[j].pc)
  {
    forall j | 0 <= j < |ops| && j != i && ops[j].peer == ops[i].peer
      ensures !Active(ops[j].pc)
    {
      if j < i {
        assert ops[j].pc.Settled?;
      }
    }
  }

  lemma PendingIsOwn(ops: seq<Op>, i: nat)
    requires InCallOrder(ops) && i < |ops| && Active(ops[i].pc)
    ensures RemovalPending(ops, ops[i].peer) <==> ops[i].pc.Removing?
  {
    OnlyActive(ops, i);
  }

  /** Two states agree on a peer's mailbox. */
  ghost predicate SameMailbox(s: System, t: System, p: Peer) {
    && HistoryOf(t, p) == HistoryOf(s, p)
    && (p in t.store <==> p in s.store)
    && (p in s.store ==> t.store[p] == s.store[p])
  }

  lemma PendingAfter(ops: seq<Op>, ops': seq<Op>, i: nat, p: Peer)
    requires InCallOrder(ops) && i < |ops| == |ops'| && Active(ops[i].pc)
    requires ops' == ops[i := ops[i].(pc := ops'[i].pc)]
    ensures p != ops[i].peer ==> (RemovalPending(ops', p) <==> RemovalPending(ops, p))
    ensures p == ops[i].peer ==> (RemovalPending(ops', p) <==> ops'[i].pc.Removing?)
  {
    if p != ops[i].peer {
      assert forall j | 0 <= j < |ops| && ops[j].peer == p :: ops'[j] == ops[j];
      assert forall j | 0 <= j < |ops| && ops'[j].peer == p :: ops'[j] == ops[j];
    } else {
      OnlyActive(ops, i);
      assert ops'[i].peer == p;
      assert forall j | 0 <= j < |ops| && j != i && ops'[j].peer == p :: ops'[j] == ops[j];
    }
  }

  /** `t` is `s` after the active call `i` moved on to `pc`, with another mailbox for its peer only. */
  ghost predicate Moves(s: System, t: System, i: nat, pc: Pc) {
    && i < |s.ops| && Active(s.ops[i].pc) && !pc.Waiting?
    && t.ops == s.ops[i := s.ops[i].(pc := pc)] && t.locks == s.locks
    && (forall q | q != s.ops[i].peer :: SameMailbox(s, t, q))
  }

  lemma MoveStored(s: System, t: System, i: nat, pc: Pc)
    requires Moves(s, t, i, pc) && AllStored(s) && StoreInv(t, s.ops[i].peer)
    ensures AllStored(t)
  {
    forall q
      ensures StoreInv(t, q)
    {
      if q != s.ops[i].peer {
        assert SameMailbox(s, t, q) && StoreInv(s, q);
      }
    }
  }

  lemma MoveAccounted(s: System, t: System, i: nat, pc: Pc)
    requires Moves(s, t, i, pc) && InCallOrder(s.ops) && AllAccounted(s)
    requires Accounted(HistoryOf(t, s.ops[i].peer), pc.Removing?)
    ensures AllAccounted(t)
  {
    forall q
      ensures Accounted(HistoryOf(t, q), RemovalPending(t.ops, q))
    {
      PendingAfter(s.ops, t.ops, i, q);
      if q != s.ops[i].peer {
        assert SameMailbox(s, t, q) && Accounted(HistoryOf(s, q), RemovalPending(s.ops, q));
      }
    }
  }

  lemma MoveOps(s: System, t: System, i: nat, pc: Pc)
    requires Moves(s, t, i, pc) && InCallOrder(s.ops) && AllOps(s)
    requires OpInv(s.ops[i].(pc := pc), HistoryOf(t, s.ops[i].peer))
    ensures AllOps(t)
  {
    forall op | op in t.ops
      ensures OpInv(op, HistoryOf(t, op.peer))
    {
      var j :| 0 <= j < |t.ops| && t.ops[j] == op;
      if j != i {
        assert op == s.ops[j] && op in s.ops;
        if op.peer == s.ops[i].peer {
          OnlyActive(s.ops, i);
          assert !Active(op.pc);
        } else {
          assert SameMailbox(s, t, op.peer);
        }
      }
    }
  }

  /** A move keeps the invariant if it does so for the peer of the call that moves. */
  lemma MoveKeepsInv(s: System, t: System, i: nat, pc: Pc)
    requires Inv(s) && Moves(s, t, i, pc)
    requires var op := s.ops[i].(pc := pc);
      StoreInv(t, op.peer) && Accounted(HistoryOf(t, op.peer), pc.Removing?) && OpInv(op, HistoryOf(t, op.peer))
    ensures Inv(t)
  {
    PcStepKeepsChain(s, t, i, pc);
    MoveStored(s, t, i, pc);
    MoveAccounted(s, t, i, pc);
    MoveOps(s, t, i, pc);
  }

  /** What is known of an active call and its peer's history. */
  lemma ActiveFacts(s: System, i: nat)
    requires Inv(s) && i < |s.ops| && Active(s.ops[i].pc)
    ensures var op := s.ops[i];
      StoreInv(s, op.peer) && Accounted(HistoryOf(s, op.peer), op.pc.Removing?) && OpInv(op, HistoryOf(s, op.peer))
  {
    assert s.ops[i] in s.ops;
    PendingIsOwn(s.ops, i);
    assert Accounted(HistoryOf(s, s.ops[i].peer), RemovalPending(s.ops, s.ops[i].peer));
  }

  /** A call that moves without touching its mailbox. */
  lemma PcStep(s: System, i: nat, pc: Pc)
    requires Inv(s) && i < |s.ops| && Active(s.ops[i].pc) && !s.ops[i].pc.Removing? && !pc.Waiting? && !pc.Removing?
    requires OpInv(s.ops[i].(pc := pc), HistoryOf(s, s.ops[i].peer))
    ensures Inv(WithPc(s, i, pc))
  {
    var t := WithPc(s, i, pc);
    var p := s.ops[i].peer;
    ActiveFacts(s, i);
    PcMoves(s, i, pc);
    SameStoreInv(s, t, p);
    MoveKeepsInv(s, t, i, pc);
  }

  lemma PcMoves(s: System, i: nat, pc: Pc)
    requires i < |s.ops| && Active(s.ops[i].pc) && !pc.Waiting?
    ensures var t := WithPc(s, i, pc); Moves(s, t, i, pc) && SameMailbox(s, t, s.ops[i].peer)
  {
  }

  lemma SameStoreInv(s: System, t: System, p: Peer)
    requires SameMailbox(s, t, p) && StoreInv(s, p)
    ensures StoreInv(t, p)
  {
  }

  /** A new history for a mailbox whose stored envelope stays. */
  lemma HistoryStoreInv(s: System, t: System, p: Peer, h: History)
    requires StoreInv(s, p) && t.store == s.store && HistoryOf(t, p) == h
    requires HistoryInv(h) && h.log == HistoryOf(s, p).log && h.gone == HistoryOf(s, p).gone
    requires h.lastPut == HistoryOf(s, p).lastPut
    ensures StoreInv(t, p)
  {
  }

  lemma HistoryMoves(s: System, i: nat, h: History, pc: Pc)
    requires i < |s.ops| && Active(s.ops[i].pc) && !pc.Waiting?
    ensures var t := WithPc(WithHistory(s, s.ops[i].peer, h), i, pc);
      && Moves(s, t, i, pc) && t.store == s.store && HistoryOf(t, s.ops[i].peer) == h
  {
  }

  // ---------------------------------------------------------------- advancing steps, one by one

  lemma AfterGetInv(s: System, op: Op)
    requires StoreInv(s, op.peer)
    ensures var pc := AfterGet(s, op); OpInv(op.(pc := pc), HistoryOf(s, op.peer)) && !pc.Removing? && !pc.Waiting?
  {
  }

  lemma AfterGetFailsInv(s: System, op: Op, error: DhtError)
    requires StoreInv(s, op.peer)
    requires IsDhtKeyNotFound(error) ==> op.peer !in s.store
    ensures var pc := AfterGetFails(s, op, error);
      OpInv(op.(pc := pc), HistoryOf(s, op.peer)) && !pc.Removing? && !pc.Waiting?
  {
  }

  lemma GetStep(s: System, step: Step)
    requires Inv(s) && Advances(s, step).Some? && (step.GetSucceeds? || step.GetFails?)
    ensures Inv(Next(s, step))
  {
    var i := step.i;
    ActiveFacts(s, i);
    if step.GetSucceeds? {
      AfterGetInv(s, s.ops[i]);
      PcStep(s, i, AfterGet(s, s.ops[i]));
    } else {
      AfterGetFailsInv(s, s.ops[i], step.error);
      PcStep(s, i, AfterGetFails(s, s.ops[i], step.error));
    }
  }

  lemma HandledInv(h: History, queue: seq<string>, op: Op, issued: nat)
    requires HistoryInv(h) && Accounted(h, false)
    requires queue != [] && queue == h.log[h.gone..]
    ensures var h' := h.(handled := h.handled + [h.gone]);
      && HistoryInv(h') && Accounted(h', true)
      && OpInv(op.(pc := Removing(queue[1..], issued)), h')
  {
    var h' := h.(handled := h.handled + [h.gone]);
    assert forall k :: Lapsed(h', k) <==> Lapsed(h, k);
    assert queue[1..] == h.log[h.gone + 1..];
  }

  lemma HandlerStep(s: System, step: Step)
    requires Inv(s) && Advances(s, step).Some? && step.HandlerEnds?
    ensures Inv(Next(s, step))
  {
    var i := step.i;
    var op := s.ops[i];
    var h := HistoryOf(s, op.peer);
    ActiveFacts(s, i);
    if step.ok {
      HandledInv(h, op.pc.queue, op, s.now);
      var h' := h.(handled := h.handled + [h.gone]);
      var pc := Removing(op.pc.queue[1..], s.now);
      var t := WithPc(WithHistory(s, op.peer, h'), i, pc);
      HistoryMoves(s, i, h', pc);
      HistoryStoreInv(s, t, op.peer, h');
      MoveKeepsInv(s, t, i, pc);
    } else {
      PcStep(s, i, Settled(false));
    }
  }

  // ---------------------------------------------------------------- puts

  /** Appending keeps the history in order, whether the envelope was live or had lapsed. */
  lemma AppendedInv(h: History, stanza: string, lapsed: bool, issued: nat)
    requires HistoryInv(h) && Accounted(h, false)
    requires lapsed && h.lastPut.Some? ==> issued > h.lastPut.value + MAILBOX_TTL_MS
    ensures var h' := Appended(h, stanza, lapsed, issued);
      && HistoryInv(h') && Accounted(h', false)
      && h'.log[h'.gone..] == (if lapsed then [] else h.log[h.gone..]) + [stanza]
  {
    var h' := Appended(h, stanza, lapsed, issued);
    if lapsed {
      var l := Lapse(h.gone, |h.log|, issued, h.lastPut);
      assert h'.lapses == h.lapses + [l];
      assert forall x | x in h'.lapses :: x in h.lapses || x == l;
      assert l in h'.lapses;
      forall k: nat
        ensures Lapsed(h', k) <==> Lapsed(h, k) || h.gone <= k < |h.log|
      {
        if Lapsed(h, k) {
          var x :| x in h.lapses && x.from <= k < x.to;
          assert x in h'.lapses;
        }
      }
    } else {
      assert forall k :: Lapsed(h', k) <==> Lapsed(h, k);
    }
  }

  /** Removing the head keeps the history in order. */
  lemma RemovedInv(h: History, issued: nat)
    requires HistoryInv(h) && Accounted(h, true) && h.gone < |h.log|
    ensures var h' := h.(gone := h.gone + 1, removed := h.removed + {h.gone}, lastPut := Some(issued));
      HistoryInv(h') && Accounted(h', false)
  {
    var h' := h.(gone := h.gone + 1, removed := h.removed + {h.gone}, lastPut := Some(issued));
    assert forall k :: Lapsed(h', k) <==> Lapsed(h, k);
    assert !Lapsed(h, h.gone);
    assert h.gone !in h.removed;
  }

  /** A removal that did not reach the table leaves the stanza to be handled again. */
  lemma RetriedInv(h: History)
    requires HistoryInv(h) && Accounted(h, true)
    ensures var h' := h.(retried := h.retried + [h.gone]); HistoryInv(h') && Accounted(h', false)
  {
    var h' := h.(retried := h.retried + [h.gone]);
    assert forall k :: Lapsed(h', k) <==> Lapsed(h, k);
  }

  lemma PutMoves(s: System, i: nat, queue: seq<string>, issued: nat, h: History, pc: Pc)
    requires i < |s.ops| && Active(s.ops[i].pc) && !pc.Waiting?
    requires HistoryInv(h) && h.log[h.gone..] == queue && h.lastPut == Some(issued)
    ensures var p := s.ops[i].peer;
      var t := WithHistory(Put(WithPc(s, i, pc), p, queue, issued), p, h);
      Moves(s, t, i, pc) && HistoryOf(t, p) == h && StoreInv(t, p)
  {
  }

  lemma BufferPutStep(s: System, i: nat, outcome: PutOutcome)
    requires Inv(s) && i < |s.ops| && s.ops[i].pc.Writing? && s.ops[i].kind.Buffer?
    ensures Inv(BufferPutEnds(s, i, outcome))
  {
    var op := s.ops[i];
    var pc := Settled(outcome.Stored?);
    ActiveFacts(s, i);
    if outcome.FailedUnstored? {
      PcStep(s, i, pc);
    } else {
      var h := HistoryOf(s, op.peer);
      var h' := Appended(h, op.kind.stanza, op.pc.lapsed, op.pc.issued);
      AppendedInv(h, op.kind.stanza, op.pc.lapsed, op.pc.issued);
      PutMoves(s, i, op.pc.queue, op.pc.issued, h', pc);
      MoveKeepsInv(s, BufferPutEnds(s, i, outcome), i, pc);
    }
  }

  lemma FlushPutStep(s: System, i: nat, outcome: PutOutcome)
    requires Inv(s) && i < |s.ops| && s.ops[i].pc.Removing?
    ensures Inv(FlushPutEnds(s, i, outcome))
  {
    var op := s.ops[i];
    var h := HistoryOf(s, op.peer);
    var pc := if !outcome.Stored? then Settled(false) else if op.pc.queue == [] then Settled(true) else Handling(op.pc.queue);
    ActiveFacts(s, i);
    if outcome.FailedUnstored? {
      var h' := h.(retried := h.retried + [h.gone]);
      RetriedInv(h);
      HistoryMoves(s, i, h', pc);
      assert FlushPutEnds(s, i, outcome) == WithPc(WithHistory(s, op.peer, h'), i, pc);
      HistoryStoreInv(s, FlushPutEnds(s, i, outcome), op.peer, h');
      MoveKeepsInv(s, FlushPutEnds(s, i, outcome), i, pc);
    } else {
      var h' := h.(gone := h.gone + 1, removed := h.removed + {h.gone}, lastPut := Some(op.pc.issued));
      RemovedInv(h, op.pc.issued);
      PutMoves(s, i, op.pc.queue, op.pc.issued, h', pc);
      MoveKeepsInv(s, FlushPutEnds(s, i, outcome), i, pc);
    }
  }

  // ---------------------------------------------------------------- steps that advance no call

  lemma OpsStep(s: System, t: System)
    requires Inv(s) && ChainInv(t) && t.store == s.store && t.history == s.history
    requires forall p :: RemovalPending(t.ops, p) <==> RemovalPending(s.ops, p)
    requires forall op | op in t.ops :: op in s.ops || !Active(op.pc) || op.pc.Reading?
    ensures Inv(t)
  {
    forall p
      ensures StoreInv(t, p) && Accounted(HistoryOf(t, p), RemovalPending(t.ops, p))
    {
      assert StoreInv(s, p) && HistoryOf(t, p) == HistoryOf(s, p);
      assert Accounted(HistoryOf(s, p), RemovalPending(s.ops, p));
    }
    forall op | op in t.ops
      ensures OpInv(op, HistoryOf(t, op.peer))
    {
      assert StoreInv(s, op.peer);
    }
  }

  lemma CallStep(s: System, peer: Peer, kind: Kind)
    requires Inv(s)
    ensures Inv(Next(s, Call(peer, kind)))
  {
    var t := Next(s, Call(peer, kind));
    CallKeepsChain(s, peer, kind);
    CallPending(s.ops, t.ops[|s.ops|]);
    OpsStep(s, t);
  }

  lemma CallPending(ops: seq<Op>, op: Op)
    requires op.pc.Waiting?
    ensures forall p :: RemovalPending(ops + [op], p) <==> RemovalPending(ops, p)
  {
    forall p | RemovalPending(ops, p)
      ensures RemovalPending(ops + [op], p)
    {
      var j :| 0 <= j < |ops| && ops[j].peer == p && ops[j].pc.Removing?;
      assert (ops + [op])[j] == ops[j];
    }
  }

  lemma StartStep(s: System, i: nat)
    requires Inv(s) && i < |s.ops| && s.ops[i].pc.Waiting? && PrevSettled(s.ops, i)
    ensures Inv(Next(s, Start(i)))
  {
    var t := Next(s, Start(i));
    StartKeepsChain(s, i);
    StartPending(s.ops, i);
    assert t == WithPc(s, i, Reading);
    OpsStep(s, t);
  }

  lemma StartPending(ops: seq<Op>, i: nat)
    requires i < |ops| && ops[i].pc.Waiting?
    ensures forall p :: RemovalPending(ops[i := ops[i].(pc := Reading)], p) <==> RemovalPending(ops, p)
  {
    var ops' := ops[i := ops[i].(pc := Reading)];
    forall p
      ensures RemovalPending(ops', p) <==> RemovalPending(ops, p)
    {
      assert forall j | 0 <= j < |ops| && j != i :: ops'[j] == ops[j];
    }
  }

  lemma CrashStep(s: System)
    requires Inv(s) && !(exists i | 0 <= i < |s.ops| :: s.ops[i].pc.Removing?)
    ensures Inv(s.(ops := [], locks := map[]))
  {
    var t := s.(ops := [], locks := map[]);
    assert ChainInv(t);
    assert forall p :: !RemovalPending(s.ops, p) && !RemovalPending(t.ops, p);
    OpsStep(s, t);
  }

  /** Another mailbox for an idle peer. */
  ghost predicate Rewrites(s: System, t: System, peer: Peer) {
    && t.ops == s.ops && t.locks == s.locks && !AnyActive(s.ops, peer)
    && (forall q | q != peer :: SameMailbox(s, t, q))
  }

  lemma RewriteStored(s: System, t: System, peer: Peer)
    requires Rewrites(s, t, peer) && AllStored(s) && StoreInv(t, peer)
    ensures AllStored(t)
  {
    forall q
      ensures StoreInv(t, q)
    {
      if q != peer {
        assert SameMailbox(s, t, q) && StoreInv(s, q);
      }
    }
  }

  lemma RewriteAccounted(s: System, t: System, peer: Peer)
    requires Rewrites(s, t, peer) && AllAccounted(s) && Accounted(HistoryOf(t, peer), false)
    ensures AllAccounted(t)
  {
    forall q
      ensures Accounted(HistoryOf(t, q), RemovalPending(t.ops, q))
    {
      if q != peer {
        assert SameMailbox(s, t, q) && Accounted(HistoryOf(s, q), RemovalPending(s.ops, q));
      }
    }
  }

  lemma RewriteOps(s: System, t: System, peer: Peer)
    requires Rewrites(s, t, peer) && AllOps(s) && HistoryInv(HistoryOf(t, peer))
    ensures AllOps(t)
  {
    forall x | x in t.ops
      ensures OpInv(x, HistoryOf(t, x.peer))
    {
      if x.peer == peer {
        var j :| 0 <= j < |s.ops| && s.ops[j] == x;
        assert !Active(x.pc);
      } else {
        assert SameMailbox(s, t, x.peer);
      }
    }
  }

  lemma PutRewrites(s: System, peer: Peer, queue: seq<string>, issued: nat, h: History)
    requires !AnyActive(s.ops, peer)
    requires HistoryInv(h) && h.log[h.gone..] == queue && h.lastPut == Some(issued)
    ensures var t := WithHistory(Put(s, peer, queue, issued), peer, h);
      Rewrites(s, t, peer) && HistoryOf(t, peer) == h && StoreInv(t, peer)
  {
  }

  lemma RemoteHistory(s: System, peer: Peer, stanza: string)
    requires StoreInv(s, peer) && Accounted(HistoryOf(s, peer), false)
    requires AfterGet(s, Remote(peer, stanza)).Writing?
    ensures var pc := AfterGet(s, Remote(peer, stanza));
      var h := Appended(HistoryOf(s, peer), stanza, pc.lapsed, pc.issued);
      && HistoryInv(h) && Accounted(h, false) && h.log[h.gone..] == pc.queue && h.lastPut == Some(pc.issued)
  {
    var pc := AfterGet(s, Remote(peer, stanza));
    AfterGetInv(s, Remote(peer, stanza));
    AppendedInv(HistoryOf(s, peer), stanza, pc.lapsed, pc.issued);
  }

  lemma RewriteInv(s: System, t: System, peer: Peer)
    requires Inv(s) && Rewrites(s, t, peer) && StoreInv(t, peer) && Accounted(HistoryOf(t, peer), false)
    ensures Inv(t)
  {
    RewriteStored(s, t, peer);
    RewriteAccounted(s, t, peer);
    RewriteOps(s, t, peer);
  }

  lemma IdleAccounted(s: System, peer: Peer)
    requires AllAccounted(s) && !AnyActive(s.ops, peer)
    ensures Accounted(HistoryOf(s, peer), false)
  {
    assert Accounted(HistoryOf(s, peer), RemovalPending(s.ops, peer));
    assert !RemovalPending(s.ops, peer);
  }

  /** Another process appends to a mailbox that no local call is working on. */
  lemma RemoteStep(s: System, peer: Peer, stanza: string, queue: seq<string>, lapsed: bool, issued: nat)
    requires Inv(s) && !AnyActive(s.ops, peer)
    requires AfterGet(s, Remote(peer, stanza)) == Writing(queue, lapsed, issued)
    ensures Inv(RemotePut(s, peer, stanza, queue, lapsed, issued))
  {
    var h := Appended(HistoryOf(s, peer), stanza, lapsed, issued);
    assert StoreInv(s, peer);
    IdleAccounted(s, peer);
    RemoteHistory(s, peer, stanza);
    PutRewrites(s, peer, queue, issued, h);
    RewriteInv(s, RemotePut(s, peer, stanza, queue, lapsed, issued), peer);
  }

  lemma AdvanceStep(s: System, step: Step)
    requires Inv(s) && Advances(s, step).Some?
    ensures Inv(Next(s, step))
  {
    match step
    case GetSucceeds(_) => GetStep(s, step);
    case GetFails(_, _) => GetStep(s, step);
    case HandlerEnds(_, _) => HandlerStep(s, step);
    case PutEnds(i, outcome) =>
      if s.ops[i].pc.Writing? {
        BufferPutStep(s, i, outcome);
      } else {
        FlushPutStep(s, i, outcome);
      }
  }

  /** Whether a step that advances no call can be taken. */
  predicate Possible(s: System, step: Step) {
    match step
    case Call(_, _) => true
    case Start(i) => i < |s.ops| && s.ops[i].pc.Waiting? && PrevSettled(s.ops, i)
    case RemoteBuffer(peer, stanza) =>
      !AnyActive(s.ops, peer) && AfterGet(s, Remote(peer, stanza)).Writing?
    case Tick(_) => true
    case Crash => !exists i | 0 <= i < |s.ops| :: s.ops[i].pc.Removing?
    case _ => false
  }

  lemma ImpossibleStep(s: System, step: Step)
    requires Advances(s, step).None? && !Possible(s, step)
    ensures Next(s, step) == s
  {
  }

  lemma PossibleStep(s: System, step: Step)
    requires Inv(s) && Possible(s, step)
    ensures Inv(Next(s, step))
  {
    match step
    case Call(peer, kind) => CallStep(s, peer, kind);
    case Start(i) => StartStep(s, i);
    case RemoteBuffer(peer, stanza) =>
      var pc := AfterGet(s, Remote(peer, stanza));
      RemoteStep(s, peer, stanza, pc.queue, pc.lapsed, pc.issued);
    case Tick(_) => OpsStep(s, Next(s, step));
    case Crash => CrashStep(s);
  }

  lemma InvStep(s: System, step: Step)
    requires Inv(s)
    ensures Inv(Next(s, step))
  {
    if Advances(s, step).Some? {
      AdvanceStep(s, step);
    } else if Possible(s, step) {
      PossibleStep(s, step);
    } else {
      ImpossibleStep(s, step);
    }
  }

  lemma {:induction false} RunInv(s: System, steps: seq<Step>)
    requires Inv(s)
    ensures Inv(Run(s, steps))
    decreases |steps|
  {
    if steps == [] {
    } else {
      InvStep(s, steps[0]);
      RunInv(Next(s, steps[0]), steps[1..]);
    }
  }

  lemma InitialInv(store: map<Peer, Envelope>, now: nat)
    ensures Inv(Initial(store, now))
  {
  }

  // ---------------------------------------------------------------- what every run guarantees

  /**
   * The lock: for each peer at most one call is working on the mailbox, a call works or is
   * settled only after every earlier call for that peer is settled, and the oldest
   * unsettled call can always start, whether its predecessor was fulfilled or rejected.
   */
  lemma MailboxLock(store: map<Peer, Envelope>, now: nat, steps: seq<Step>)
    ensures var ops := Run(Initial(store, now), steps).ops;
      && (forall i, j | 0 <= i < j < |ops| && ops[i].peer == ops[j].peer ::
            !(Active(ops[i].pc) && Active(ops[j].pc)))
      && (forall i, j | 0 <= i < j < |ops| && ops[i].peer == ops[j].peer ::
            !ops[j].pc.Waiting? ==> ops[i].pc.Settled?)
      && (forall j | 0 <= j < |ops| && ops[j].pc.Waiting? ::
            (forall i | 0 <= i < j && ops[i].peer == ops[j].peer :: ops[i].pc.Settled?) <==> PrevSettled(ops, j))
  {
    InitialInv(store, now);
    RunInv(Initial(store, now), steps);
    var s := Run(Initial(store, now), steps);
    var ops := s.ops;
    forall j | 0 <= j < |ops| && ops[j].pc.Waiting?
      ensures (forall i | 0 <= i < j && ops[i].peer == ops[j].peer :: ops[i].pc.Settled?) <==> PrevSettled(ops, j)
    {
      if PrevSettled(ops, j) {
        PrevSettledMeansAll(s, j);
      } else {
        var prev := LastOp(ops[..j], ops[j].peer).value;
        assert ops[..j][prev] == ops[prev];
      }
    }
  }

  /**
   * Crash safety: what is stored is the unremoved suffix of everything ever buffered;
   * completions follow buffer order; every stanza no longer stored was handled, or lapsed
   * more than seven days after the last put; and a stanza is handled more than once only
   * as often as a removal of it failed to reach the table.
   */
  lemma MailboxCrashSafety(store: map<Peer, Envelope>, now: nat, steps: seq<Step>, peer: Peer)
    ensures var s := Run(Initial(store, now), steps);
      var h := HistoryOf(s, peer);
      && h.gone <= |h.log|
      && StoredQueue(s.store, peer) == h.log[h.gone..]
      && (forall i, j | 0 <= i < j < |h.handled| :: h.handled[i] <= h.handled[j])
      && (forall k | 0 <= k < h.gone :: k in h.handled || Lapsed(h, k))
      && (forall k | k in h.handled :: k <= h.gone && multiset(h.handled)[k] <= 1 + multiset(h.retried)[k])
      && (forall l | l in h.lapses && l.lastPut.Some? :: l.at > l.lastPut.value + MAILBOX_TTL_MS)
  {
    InitialInv(store, now);
    RunInv(Initial(store, now), steps);
    var s := Run(Initial(store, now), steps);
    var h := HistoryOf(s, peer);
    assert StoreInv(s, peer) && Accounted(h, RemovalPending(s.ops, peer));
    forall k | 0 <= k < h.gone
      ensures k in h.handled || Lapsed(h, k)
    {
      if k in h.removed {
        assert k in multiset(h.handled);
      }
    }
    forall k | k in h.handled
      ensures k <= h.gone && multiset(h.handled)[k] <= 1 + multiset(h.retried)[k]
    {
      assert multiset(h.removed)[k] <= 1;
    }
  }

  // ---------------------------------------------------------------- read errors

  /** The errors an error is made of, looking through every nested aggregate. */
  function Leaves(error: DhtError): seq<string> {
    match error
    case Named(name) => [name]
    case Aggregate(errors) => LeavesOf(errors)
  }

  function LeavesOf(errors: seq<DhtError>): seq<string> {
    if errors == [] then [] else Leaves(errors[0]) + LeavesOf(errors[1..])
  }

  /** No aggregate, at any depth, is empty. */
  predicate NoEmptyAggregate(error: DhtError) {
    match error
    case Named(_) => true
    case Aggregate(errors) => errors != [] && forall e | e in errors :: NoEmptyAggregate(e)
  }

  predicate AllNotFound(names: seq<string>) {
    forall i | 0 <= i < |names| :: names[i] == "NotFoundError"
  }

  lemma AllNotFoundAppend(xs: seq<string>, ys: seq<string>)
    ensures AllNotFound(xs + ys) <==> AllNotFound(xs) && AllNotFound(ys)
  {
    if AllNotFound(xs + ys) {
      assert forall i | 0 <= i < |xs| :: xs[i] == (xs + ys)[i];
      assert forall i | 0 <= i < |ys| :: ys[i] == (xs + ys)[|xs| + i];
    }
  }

  /** An error counts as "not found" iff all its leaves do and none of its aggregates is empty. */
  lemma {:induction false} NotFoundIff(error: DhtError)
    ensures IsDhtKeyNotFound(error) <==> NoEmptyAggregate(error) && AllNotFound(Leaves(error))
  {
    match error
    case Named(name) =>
      assert Leaves(error)[0] == name;
    case Aggregate(errors) =>
      NotFoundAllIff(errors);
  }

  lemma {:induction false} NotFoundAllIff(errors: seq<DhtError>)
    ensures (forall e | e in errors :: IsDhtKeyNotFound(e)) <==>
      (forall e | e in errors :: NoEmptyAggregate(e)) && AllNotFound(LeavesOf(errors))
  {
    if errors == [] {
    } else {
      var first, rest := errors[0], errors[1..];
      NotFoundIff(first);
      NotFoundAllIff(rest);
      AllNotFoundAppend(Leaves(first), LeavesOf(rest));
      assert errors == [first] + rest;
    }
  }

  /** A call whose read failed in any other way is over: it has not put and never will. */
  lemma ReadErrorNeverPuts(s: System, i: nat, error: DhtError, steps: seq<Step>)
    requires i < |s.ops| && s.ops[i].pc.Reading? && !IsDhtKeyNotFound(error)
    requires forall k | 0 <= k < |steps| :: !steps[k].Crash?
    ensures var t := Next(s, GetFails(i, error));
      && t.store == s.store && t.history == s.history
      && i < |Run(t, steps).ops| && Run(t, steps).ops[i].pc == Settled(false)
  {
    SettledForGood(Next(s, GetFails(i, error)), i, steps);
  }

  lemma {:induction false} SettledForGood(s: System, i: nat, steps: seq<Step>)
    requires i < |s.ops| && s.ops[i].pc.Settled?
    requires forall k | 0 <= k < |steps| :: !steps[k].Crash?
    ensures i < |Run(s, steps).ops| && Run(s, steps).ops[i] == s.ops[i]
    decreases |steps|
  {
    if steps == [] {
    } else {
      var t := Next(s, steps[0]);
      if Advances(s, steps[0]).Some? {
        AdvanceChangesOnePc(s, steps[0]);
      }
      assert t.ops[i] == s.ops[i];
      SettledForGood(t, i, steps[1..]);
    }
  }

  /**
   * Why the table must report a key as missing only when it is: a buffer call that is told
   * so stores its own stanza alone, and keeps what was stored exactly if there was nothing.
   */
  lemma NotFoundOverwrites(s: System, i: nat, error: DhtError)
    requires i < |s.ops| && s.ops[i].pc.Reading? && s.ops[i].kind.Buffer? && IsDhtKeyNotFound(error)
    ensures var peer, stanza := s.ops[i].peer, s.ops[i].kind.stanza;
      var told := WithPc(s, i, AfterGetFails(s, s.ops[i], error));
      var t := Next(told, PutEnds(i, Stored));
      && t.ops[i].pc == Settled(true)
      && StoredQueue(t.store, peer) == [stanza]
      && (StoredQueue(t.store, peer) == StoredQueue(s.store, peer) + [stanza] <==> StoredQueue(s.store, peer) == [])
  {
    var told := WithPc(s, i, AfterGetFails(s, s.ops[i], error));
    assert told.ops[i] == s.ops[i].(pc := Writing([s.ops[i].kind.stanza], false, s.now));
    assert Next(told, PutEnds(i, Stored)) == BufferPutEnds(told, i, Stored);
  }
}
