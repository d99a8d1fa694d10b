/**
 * The offline mailbox kept in a distributed hash table (src/core/xmpp-dht.ts:170-253).
 *
 * One process may have any number of `bufferStanzaToDht` and `flushDhtMailbox` calls in
 * flight. Each chains itself behind the previous call for the same peer and then runs in
 * pieces, one piece per `await`; a get, a handler or a put may fail at any of them, and a
 * failing put may or may not have reached the table. This file holds the state machine;
 * MailboxSafety.dfy proves what its runs keep.
 */
module Mailbox {
  import opened Wrappers

  const MAILBOX_TTL_MS: nat := 7 * 24 * 60 * 60 * 1000

  type Peer = string

  // ---------------------------------------------------------------- stored envelopes

  /** `Invalid` is anything that is neither `null` nor an array of strings. */
  datatype Data = Queue(stanzas: seq<string>) | Null | Invalid

  datatype Envelope = Envelope(data: Data, expiresAt: Option<nat>)

  predicate IsExpired(entry: Envelope, now: nat) {
    entry.expiresAt.Some? && now > entry.expiresAt.value
  }

  /** What a content routing call may throw. */
  datatype DhtError = Named(name: string) | Aggregate(errors: seq<DhtError>)

  predicate IsDhtKeyNotFound(error: DhtError) {
    match error
    case Aggregate(errors) => |errors| > 0 && forall e | e in errors :: IsDhtKeyNotFound(e)
    case Named(name) => name == "NotFoundError"
  }

  // ---------------------------------------------------------------- operations in flight

  datatype Kind = Buffer(stanza: string) | Flush

  /** Where an operation is suspended. `issued` is the time its outstanding put was made. */
  datatype Pc =
    | Waiting
    | Reading
    | Writing(queue: seq<string>, lapsed: bool, issued: nat)
    | Handling(queue: seq<string>)
    | Removing(queue: seq<string>, issued: nat)
    | Settled(ok: bool)

  /** `prev` is the call whose promise this one was chained behind. */
  datatype Op = Op(peer: Peer, kind: Kind, prev: Option<nat>, pc: Pc)

  predicate Active(pc: Pc) {
    !pc.Waiting? && !pc.Settled?
  }

  /**
   * What happened to one mailbox. `log` is every stanza that ever was stored in it, in
   * order; the first `gone` of them no longer are. `handled` lists handler completions,
   * `removed` the stanzas taken out after handling, `retried` those whose removal did not
   * reach the table, and `lapses` those dropped because the envelope had expired.
   */
  datatype History = History(
    log: seq<string>,
    gone: nat,
    handled: seq<nat>,
    removed: set<nat>,
    retried: seq<nat>,
    lapses: seq<Lapse>,
    lastPut: Option<nat>)

  /** Stanzas `from..to` were dropped at `at`; `lastPut` is the time of the last put before, if the run made one. */
  datatype Lapse = Lapse(from: nat, to: nat, at: nat, lastPut: Option<nat>)

  datatype System = System(
    store: map<Peer, Envelope>,
    ops: seq<Op>,
    locks: map<Peer, nat>,
    now: nat,
    history: map<Peer, History>)

  datatype PutOutcome = Stored | FailedAfterStoring | FailedUnstored

  datatype Step =
    | Call(peer: Peer, kind: Kind)
    | Start(i: nat)
    | GetSucceeds(i: nat)
    | GetFails(i: nat, error: DhtError)
    | HandlerEnds(i: nat, ok: bool)
    | PutEnds(i: nat, outcome: PutOutcome)
    | RemoteBuffer(peer: Peer, stanza: string)
    | Tick(ms: nat)
    | Crash

  function StoredQueue(store: map<Peer, Envelope>, peer: Peer): seq<string> {
    if peer in store && store[peer].data.Queue? then store[peer].data.stanzas else []
  }

  function NewHistory(log: seq<string>): History {
    History(log, 0, [], {}, [], [], None)
  }

  function HistoryOf(s: System, peer: Peer): History {
    if peer in s.history then s.history[peer] else NewHistory([])
  }

  /** A process that starts with whatever the table holds. */
  function Initial(store: map<Peer, Envelope>, now: nat): System {
    System(store, [], map[], now, map p | p in store :: NewHistory(StoredQueue(store, p)))
  }

  function WithPc(s: System, i: nat, pc: Pc): System
    requires i < |s.ops|
  {
    s.(ops := s.ops[i := s.ops[i].(pc := pc)])
  }

  function WithHistory(s: System, peer: Peer, h: History): System {
    s.(history := s.history[peer := h])
  }

  /** A put reaches the table. */
  function Put(s: System, peer: Peer, queue: seq<string>, issued: nat): System {
    s.(store := s.store[peer := Envelope(Queue(queue), Some(issued + MAILBOX_TTL_MS))])
  }

  /** The history after `stanza` was appended, to an envelope that had lapsed or to a live one. */
  function Appended(h: History, stanza: string, lapsed: bool, issued: nat): History {
    h.(log := h.log + [stanza],
       gone := if lapsed then |h.log| else h.gone,
       lapses := if lapsed then h.lapses + [Lapse(h.gone, |h.log|, issued, h.lastPut)] else h.lapses,
       lastPut := Some(issued))
  }

  /** What a successful read leaves a call to do next. */
  function AfterGet(s: System, op: Op): Pc {
    if op.peer !in s.store then
      match op.kind
      case Buffer(stanza) => Writing([stanza], false, s.now)
      case Flush => Settled(true)
    else
      var envelope := s.store[op.peer];
      match op.kind
      case Buffer(stanza) =>
        if IsExpired(envelope, s.now) then Writing([stanza], true, s.now)
        else if envelope.data.Null? then Writing([stanza], false, s.now)
        else if envelope.data.Invalid? then Settled(false)
        else Writing(envelope.data.stanzas + [stanza], false, s.now)
      case Flush =>
        if IsExpired(envelope, s.now) || envelope.data.Null? then Settled(true)
        else if envelope.data.Invalid? then Settled(false)
        else if envelope.data.stanzas == [] then Settled(true)
        else Handling(envelope.data.stanzas)
  }

  /** What a failed read leaves a call to do next. */
  function AfterGetFails(s: System, op: Op, error: DhtError): Pc {
    if !IsDhtKeyNotFound(error) then Settled(false)
    else match op.kind
      case Buffer(stanza) => Writing([stanza], false, s.now)
      case Flush => Settled(true)
  }

  predicate AnyActive(ops: seq<Op>, peer: Peer) {
    exists i | 0 <= i < |ops| :: ops[i].peer == peer && Active(ops[i].pc)
  }

  /** One step; a step that is not possible in `s` leaves it unchanged. */
  function Next(s: System, step: Step): System {
    match step
    case Call(peer, kind) =>
      var prev := if peer in s.locks then Some(s.locks[peer]) else None;
      s.(ops := s.ops + [Op(peer, kind, prev, Waiting)], locks := s.locks[peer := |s.ops|])
    case Start(i) =>
      if i < |s.ops| && s.ops[i].pc.Waiting? && PrevSettled(s.ops, i) then WithPc(s, i, Reading) else s
    case GetSucceeds(i) =>
      if i < |s.ops| && s.ops[i].pc.Reading? then WithPc(s, i, AfterGet(s, s.ops[i])) else s
    case GetFails(i, error) =>
      // the table says that a key is missing only when it is
      if i < |s.ops| && s.ops[i].pc.Reading? && (IsDhtKeyNotFound(error) ==> s.ops[i].peer !in s.store) then
        WithPc(s, i, AfterGetFails(s, s.ops[i], error))
      else s
    case HandlerEnds(i, ok) =>
      if i < |s.ops| && s.ops[i].pc.Handling? && s.ops[i].pc.queue != [] then
        if !ok then WithPc(s, i, Settled(false))
        else
          var h := HistoryOf(s, s.ops[i].peer);
          WithPc(WithHistory(s, s.ops[i].peer, h.(handled := h.handled + [h.gone])),
                 i, Removing(s.ops[i].pc.queue[1..], s.now))
      else s
    case PutEnds(i, outcome) =>
      if i < |s.ops| && s.ops[i].pc.Writing? && s.ops[i].kind.Buffer? then BufferPutEnds(s, i, outcome)
      else if i < |s.ops| && s.ops[i].pc.Removing? then FlushPutEnds(s, i, outcome)
      else s
    case RemoteBuffer(peer, stanza) =>
      // another process appends while no local call is working on the mailbox
      var pc := AfterGet(s, Remote(peer, stanza));
      if !AnyActive(s.ops, peer) && pc.Writing? then RemotePut(s, peer, stanza, pc.queue, pc.lapsed, pc.issued) else s
    case Tick(ms) => s.(now := s.now + ms)
    case Crash =>
      // an outstanding removal has been decided before the process is gone
      if exists i | 0 <= i < |s.ops| :: s.ops[i].pc.Removing? then s else s.(ops := [], locks := map[])
  }

  predicate PrevSettled(ops: seq<Op>, i: nat)
    requires i < |ops|
  {
    match ops[i].prev
    case None => true
    case Some(j) => j < |ops| && ops[j].pc.Settled?
  }

  function BufferPutEnds(s: System, i: nat, outcome: PutOutcome): System
    requires i < |s.ops| && s.ops[i].pc.Writing? && s.ops[i].kind.Buffer?
  {
    var op := s.ops[i];
    var settled := WithPc(s, i, Settled(outcome.Stored?));
    if outcome.FailedUnstored? then settled
    else
      WithHistory(Put(settled, op.peer, op.pc.queue, op.pc.issued), op.peer,
                  Appended(HistoryOf(s, op.peer), op.kind.stanza, op.pc.lapsed, op.pc.issued))
  }

  /** The call another process makes. */
  function Remote(peer: Peer, stanza: string): Op {
    Op(peer, Buffer(stanza), None, Reading)
  }

  function RemotePut(s: System, peer: Peer, stanza: string, queue: seq<string>, lapsed: bool, issued: nat): System {
    WithHistory(Put(s, peer, queue, issued), peer, Appended(HistoryOf(s, peer), stanza, lapsed, issued))
  }

  function FlushPutEnds(s: System, i: nat, outcome: PutOutcome): System
    requires i < |s.ops| && s.ops[i].pc.Removing?
  {
    var op := s.ops[i];
    var h := HistoryOf(s, op.peer);
    var pc := if !outcome.Stored? then Settled(false) else if op.pc.queue == [] then Settled(true) else Handling(op.pc.queue);
    if outcome.FailedUnstored? then
      WithHistory(WithPc(s, i, pc), op.peer, h.(retried := h.retried + [h.gone]))
    else
      WithHistory(Put(WithPc(s, i, pc), op.peer, op.pc.queue, op.pc.issued), op.peer,
                  h.(gone := h.gone + 1, removed := h.removed + {h.gone}, lastPut := Some(op.pc.issued)))
  }

  function Run(s: System, steps: seq<Step>): System
    decreases |steps|
  {
    if steps == [] then s else Run(Next(s, steps[0]), steps[1..])
  }
}
