# A verified model of the peer-to-peer XMPP core

The repository is an XMPP client whose nodes talk to each other directly and, as an option,
to an XMPP server. This project states in Dafny what its stateful core does and proves what
that core is for. It covers

- stream management and resumption of XEP-0198 between two nodes: `StreamManagement`,
  `XmppStreams` (the classes), `StreamPair`, `Resumption` (whole runs over links that can be
  cut anywhere), `AckRequests` (when a stream asks) and `AckTraffic` (when the asking ends);
- the offline mailbox in the DHT: `Mailbox` (every interleaving of buffer and flush calls, with
  failing reads, handlers and puts), `MailboxSafety` (what every run keeps), `MailboxFlush`,
  `MailboxProgress` (what a call achieves);
- group chat history with the corrections of XEP-0308: `MucHistory`, `MucOrder` (when the order of
  deliveries matters), `XmppMuc`;
- uploads between peers: `PeerUpload` (framing over arbitrary chunks), `UploadProviders`,
  `UploadGossip` (the announcement cascade stops), `UploadNews` (and spreads the news),
  `XmppUploads`;
- collections of feeds, their inverted index and the summaries of attachments: `Collections`,
  `Attachments`, `XmppCollections`;
- presence of server contacts and the table of pending IQ requests: `ServerPresence`,
  `PresenceStanzas` (what each stanza does), `IqTable`, `XmppClientBridges`;
- the chat archive and its replay, with the extension elements of a message: `XepHelpers`,
  `XepParsing`, `ChatArchive`, `ChatQueries`, `ChatReplay` (replaying twice), `XmppChats`;
- feed posts as Atom entries: `AtomEntries`, `AtomRoundTrip`, `AtomMeanings`;
- and what these share: `OrderedMaps` (JavaScript's `Map`), `CompositeKeys`, `Sorting`, `Sequences`,
  `Jids`, `Text`, `Wrappers`.

Where the source changes fields in place there is a class with those fields, and each method is
proved to change them as a function of the old state says; the theorems are about those
functions. What such a function does is said once more in other terms: of the fields of a
stanza, the children of an element, the envelope that is stored. Protocols are state machines in
which every `await` between a read and a write is a step boundary. `dafny verify dfyconfig.toml`
checks the whole project.

## What the proofs found

Where the code does not do what it is meant to, the code is kept and the exact limit is proved.

- `Resumption.CutKeepsSessionIff`: `resume` and `resumed` never turn stream management on, so at
  every moment a cut keeps what the peer is missing exactly when the session was negotiated on
  this very link or nothing is missing. `Resumption.SecondCutForgetsQueue` and
  `Resumption.StanzaLostAfterTwoCuts` show the other case.
- `Resumption.ResumptionDelivers`: the log of the peer is exactly what was sent iff nothing was
  sent before `resumed` was handled and `lo == r`. What was sent before is delivered twice, and so
  is `sent[lo..r]` when the answering side, as in the code, starts again at 0; `lo` is then the
  dialler's base at the moment the report is handled.
- `AckTraffic.EndlessIff`, `AckTraffic.FreshLinkEchoes`: 0 is a multiple of 5, so on a new link
  the two sides answer each other with `r` and `a` for as long as neither sends a stanza.
- `MucOrder.OrderDoesNotMatterIff`: the history depends on the order of delivery unless every
  corrected message is corrected by one that nothing corrects, which a chain of corrections
  (`MucHistory.ChainsDependOnOrder`) or a cycle of them (`MucOrder.CyclesAreUnsettled`) by itself is not.
- `MucHistory.RoomsCollideIff`: two rooms can have messages of one key exactly when one name goes on
  after the other and a colon; `MucHistory.RoomsCanCollide` shows the harm.
- `PeerUpload.ChunkingIrrelevantIff`: a header line longer than 2048 bytes is accepted or
  refused depending on how the network cuts the stream.
- `Collections.LoadConsistentIff`: a stored file with two records of one id leaves a stale link in
  the index exactly when an earlier record names a feed that the last does not.
- `Attachments.SummariesAgreeIff`: the summaries of all topics mix two targets exactly when
  these share a group key, which `Attachments.TopicsCollideIff` says of topics; for one topic they
  never do.
- `IqTable.SendKeepsExactIff`: the table of requests stays exact, whatever follows, exactly when a
  request is sent under an id no earlier request of which is unsettled or still sending; otherwise
  the answer can settle the wrong promise (`IqTable.SharedIdMisleads`). Ids that are all
  different, as those `sendIQ` makes up are meant to be, are enough (`IqTable.FreshIdsAreClean`).
- `ChatReplay.SecondReplayKeepsIff`, `ChatReplay.SecondReplayIff`: a message without a time stamp is
  stamped anew on every replay, so a second replay changes nothing only if all have one, unless
  copies of different messages share a key (`ChatReplay.HiddenByItsCopy`). One without an id as
  well is stored again under a new key (`ChatReplay.KeylessStoredAgain`, `ChatReplay.StoredTwice`).
- `AtomRoundTrip.SecondTripIff`: a post whose only alternate links have no address loses them and
  gets the default one a trip later; a blank post gets its summary a trip late.

## Model

| member | source | states |
|---|---|---|
| `XmppStreams.XmppStream.constructor` | src/core/xmpp-stream.ts:33-50 | a new stream has both counters at 0, an empty queue and stream management off |
| `XmppStreams.XmppStream.SendRaw` | src/core/xmpp-stream.ts:217-226 | appends to the output; on a closed stream it throws and changes nothing |
| `XmppStreams.XmppStream.Send` | src/core/xmpp-stream.ts:233-256 | the whole effect of `send`: a counted stanza is queued, and an `r` follows any element while the count is a multiple of 5 |
| `XmppStreams.XmppStream.ComputeStanzasToResend` | src/core/xmpp-stream.ts:205-215 | the part of the queue that a remote `h` leaves to replay |
| `XmppStreams.XmppStream.SendAllRaw` | src/core/xmpp-stream.ts:181-191 | the replay loop pushes all its elements in order, and throws only on a closed stream that has some |
| `XmppStreams.XmppStream.HandleSmElement` | src/core/xmpp-stream.ts:143-192 | the whole effect of every stream management element on fields and output |
| `XmppStreams.XmppStream.OnElement` | src/core/xmpp-stream.ts:51-67 | the whole effect of an inbound element: counting, a request on every fifth, dispatch |
| `XmppStreams.XmppStream.Close` | src/core/xmpp-stream.ts:262-264 | closing keeps counters and queue |
| `XmppStreams.XmppReliabilityManager.SaveSession` | src/core/xmpp-reliability.ts:62-64 | stores the session of one peer and touches no other |
| `XmppStreams.XmppReliabilityManager.GetAndClearSession` | src/core/xmpp-reliability.ts:72-78 | returns the session of a peer once and forgets it |
| `XmppStreams.OnStreamClose` | src/core/xmpp-node.ts:1455-1463 | the session is saved exactly when stream management is on and resumable |
| `XmppStreams.RegisterStream` | src/core/xmpp-node.ts:1480-1497 | only the dialling side restores a session or negotiates; a saved session is used up |
| `XmppStreams.ReplaceStream` | src/core/xmpp-node.ts:1438-1463 | a stream that replaces one still open asks for the session before the old one is saved, so that the old session is there after both, untouched by the new stream |
| `StreamManagement.TrimMovesBase` | src/core/xmpp-stream.ts:165-173 | an ack keeps the queue a suffix of the log, and moves its start to `max(base, h)` exactly when `h` is at most what was sent |
| `StreamManagement.ResendIsLogSuffix` | src/core/xmpp-stream.ts:205-215 | what is replayed is `sent[min(max(base, h), outbound)..]` |
| `StreamManagement.SendExtendsLog` | src/core/xmpp-stream.ts:233-251 | sending extends the log by the stanza sent, and the queue stays its suffix |
| `StreamManagement.ReceiveKeepsLog` | src/core/xmpp-stream.ts:51-67 | no inbound element adds to the log, and only an ack shortens the queue |
| `StreamManagement.RestoreKeepsLog` | src/core/xmpp-node.ts:1455-1493 | saving at close and restoring at the next dial keep log, base and the replayed suffix |
| `StreamManagement.NegotiationAgrees` | src/core/xmpp-stream.ts:143-158 | after `enable` and its answer both ends have stream management on, resumable exactly as was asked, under one session id |
| `StreamManagement.BothReplay` | src/core/xmpp-stream.ts:174-191 | each end answers `resume`, and follows up `resumed`, with the part of its own log that the other may be missing |
| `AckRequests.ReceiveAsks` | src/core/xmpp-stream.ts:57-66 | an open stream counts and hands on every inbound stanza, and asks for an ack exactly on each fifth one |
| `AckRequests.ClosedAsksNothing` | src/core/xmpp-stream.ts:57-66 | a closed one still counts, and throws where it would have asked |
| `AckRequests.RequestsReceived` | src/core/xmpp-stream.ts:57-66 | of `n` stanzas received each fifth is followed by a request, or by two while the outbound count is a multiple of 5 |
| `AckRequests.SendAsks` | src/core/xmpp-stream.ts:233-256 | `send` counts and queues a stanza, pushes the element, and asks exactly while the count is a multiple of 5 |
| `AckRequests.RequestsSent` | src/core/xmpp-stream.ts:233-256 | of `n` stanzas sent each fifth is followed by a request, and all are queued and pushed in order |
| `AckRequests.ClosedIsSilent` | src/core/xmpp-stream.ts:51-67 | whatever comes in, a closed stream pushes nothing, and throws exactly where an open one would push |
| `AckRequests.OpenNeverThrows` | src/core/xmpp-stream.ts:51-67 | an open one never throws and stays open |
| `Resumption.RunInv` | src/core/xmpp-stream.ts:143-256 | the invariant of the two-endpoint system holds after every run |
| `Resumption.LinkIsAlive` | src/core/xmpp-stream.ts:233-256 | on a link that is up both ends can send, and a stray ack can arrive at any moment |
| `Resumption.AckSafety` | src/core/xmpp-stream.ts:160-173 | in every reachable state base <= received <= sent, under delayed, stale, repeated and over-large acks: a stanza leaves the queue only after the peer has it (section 4 of XEP-0198) |
| `Resumption.AckSafeIff` | src/core/xmpp-stream.ts:165-173 | on any link, linked for the first time or resumed, an ack leaves in the queue every stanza the peer does not have exactly when it claims no more of the log than the leading stanzas the peer has, what has arrived of a replay included, or more than was sent |
| `Resumption.EntriesInPlace` | src/core/xmpp-stream.ts:174-215 | each entry of the log of the peer is the stanza at the position it is counted for |
| `Resumption.ResumptionDelivers` | src/core/xmpp-stream.ts:174-215 | a link is cut at any point of any run and resumed; the report `h` is handled at step `k` of what follows. The answerer then has `sent[..r]`, what was sent before step `k`, and the log again from `lo`, which is the later of `h` and the base at that step, and so of `h` and the base at the redial or later: nothing is lost, the log is exactly `sent` iff nothing was sent before step `k` and `lo == r`, and `lo == r` when the counters were kept (section 5 of XEP-0198) |
| `Resumption.LogCovers` | src/core/xmpp-stream.ts:205-215 | such a log misses nothing, and equals the sent log iff both repeats are empty |
| `Resumption.CutKeepsSessionIff` | src/core/xmpp-node.ts:1455-1463 | at any moment, a cut keeps in the saved queue all the answerer is missing exactly when the session was negotiated on this very link or nothing is missing |
| `Resumption.SecondCutForgetsQueue` | src/core/xmpp-stream.ts:174-191 | a resumed link never turns stream management on, so a second cut drops the queue |
| `Resumption.NegotiationSucceeds` | src/core/xmpp-stream.ts:145-158 | dialling, `enable` and `enabled` lead to a live resumable session |
| `Resumption.StanzaLostAfterTwoCuts` | src/core/xmpp-node.ts:1455-1497 | for example, a run of two cuts after which a sent stanza is neither delivered nor queued |
| `AckTraffic.DeliverWeight` | src/core/xmpp-stream.ts:160-173 | each delivery of `r`/`a` traffic lowers an explicit weight when one outbound count is no multiple of 5 |
| `AckTraffic.TrafficDrains` | src/core/xmpp-stream.ts:233-251 | so every run of deliveries is at most as long as that weight |
| `AckTraffic.EndlessEcho` | src/core/xmpp-stream.ts:249-251 | with both counts multiples of 5 and a request in flight there are runs of every length |
| `AckTraffic.EndlessIff` | src/core/xmpp-stream.ts:160-251 | traffic can go on for ever exactly when both counts are multiples of 5 and a request is in flight |
| `AckTraffic.FreshLinkEchoes` | src/core/xmpp-node.ts:1494-1496 | the negotiation on a new link, both counts at 0, already starts such a run |
| `AckTraffic.AcksDrain` | src/core/xmpp-stream.ts:165-173 | acks alone are never answered |
| `MailboxSafety.NotFoundIff` | src/core/xmpp-dht.ts:22-30 | an error counts as not found iff all leaves of its nested aggregates do and no aggregate is empty |
| `MailboxSafety.ChainStep` | src/core/xmpp-dht.ts:174-201 | every step of every call keeps the chain of promises in call order |
| `MailboxSafety.RunInv` | src/core/xmpp-dht.ts:170-253 | the invariant of store, calls and history holds after every run |
| `MailboxSafety.MailboxLock` | src/core/xmpp-dht.ts:174-253 | for each peer at most one call is at work, calls start in call order, and a rejected one never blocks its successors |
| `MailboxSafety.MailboxCrashSafety` | src/core/xmpp-dht.ts:170-253 | for any mix of calls with handlers and puts failing anywhere, the stored queue is the unremoved suffix of what was buffered; handling follows buffer order, skips nothing, repeats a stanza only as often as its removal failed, and a stanza lapses unhandled only after 7 days without a successful put |
| `MailboxSafety.ReadErrorNeverPuts` | src/core/xmpp-dht.ts:188-192 | a call whose read fails otherwise is over: it never puts |
| `MailboxSafety.NotFoundOverwrites` | src/core/xmpp-dht.ts:188-199 | a buffer call told that the key is missing stores its stanza alone, which keeps what was stored exactly if there was nothing |
| `MailboxSafety.SettledForGood` | src/core/xmpp-dht.ts:201-202 | a settled call stays settled and as it is |
| `MailboxFlush.Flush` | src/core/xmpp-dht.ts:226-249 | the flush loop stores, handles and settles as its description by one turn at a time |
| `MailboxFlush.FlushHandlesPrefix` | src/core/xmpp-dht.ts:226-249 | a flush handles a prefix of the queue in order and removes it, but for the last stanza when its removal failed |
| `MailboxFlush.MachineFlushes` | src/core/xmpp-dht.ts:226-249 | the state machine, undisturbed, stores and settles as that loop does |
| `MailboxFlush.MachineHandles` | src/core/xmpp-dht.ts:226-249 | and it handles as many stanzas as that loop, the next places of the log in order |
| `MailboxFlush.FlushedInLogOrder` | src/core/xmpp-dht.ts:226-249 | so the stanzas the loop handles are the next ones of the log |
| `MailboxProgress.FlushReads` | src/core/xmpp-dht.ts:213-225 | a flush goes on to handle all the mail there is, exactly if there is any; it fails exactly on a live envelope without a queue |
| `MailboxProgress.FlushReadFails` | src/core/xmpp-dht.ts:221-224 | a failed read settles a flush, well exactly if the key is missing |
| `MailboxProgress.FlushStopsAt` | src/core/xmpp-dht.ts:226-249 | the loop goes on through every success and stops at the first failure, with exactly this stored and handled |
| `MailboxProgress.FlushDelivers` | src/core/xmpp-dht.ts:205-249 | an undisturbed flush without failures ends well, with an empty mailbox and every stanza in it handled once, in order |
| `MailboxProgress.FlushGoesThrough` | src/core/xmpp-dht.ts:205-249 | with a failure it has handled and removed all before that, and keeps the rest |
| `MailboxProgress.BufferStores` | src/core/xmpp-dht.ts:170-199 | an undisturbed buffer call leaves its stanza behind what was stored, or alone if that had expired, for seven days |
| `MailboxProgress.BufferReadFails` | src/core/xmpp-dht.ts:188-199 | a missing key is as good as an empty mailbox; any other error ends the call without a put |
| `MailboxProgress.BufferedIsMail` | src/core/xmpp-dht.ts:170-225 | what was buffered is mail for the next flush |
| `MailboxProgress.RemoteAppends` | src/core/xmpp-dht.ts:170-199 | another process can append at any time at which no local call is at work |
| `MailboxProgress.TimePasses` | src/core/xmpp-dht.ts:17-20 | mail expires by the passing of time alone |
| `MailboxProgress.CrashForgets` | src/core/xmpp-dht.ts:170-253 | a process that ends loses its calls and nothing that is stored |
| `MucHistory.NormalizeStored` | src/core/xmpp-records.ts:633-652 | normalising a stored record again gives it back |
| `MucHistory.NormalizeMeans` | src/core/xmpp-records.ts:633-652 | normalising fills in what is missing, drops an empty correction and a reply without id, and keeps every other field |
| `MucHistory.StorageRoundTrip` | src/core/xmpp-records.ts:633-652 | so do all records of a file |
| `MucHistory.KeyInjective` | src/core/xmpp-muc.ts:398 | keys tell messages apart unless one room name goes on after the other and a colon |
| `MucHistory.RoomsCollideIff` | src/core/xmpp-muc.ts:398 | two rooms have messages of one key exactly when one name goes on after the other and a colon |
| `MucHistory.RoomsCanCollide` | src/core/xmpp-muc.ts:398-401 | for example, a message of room `a` keeps one of room `a:b` from being recorded |
| `MucHistory.BeforeTrim` | src/core/xmpp-muc.ts:399-410 | before trimming, no message stands beside its correction, exactly unless the new one claims to correct itself |
| `MucHistory.RecordKeeps` | src/core/xmpp-muc.ts:395-422 | recording keeps the history at most 500 long, keyed, and free of messages beside their corrections |
| `MucHistory.EveryRunKeeps` | src/core/xmpp-muc.ts:395-422 | so does every run without self-corrections |
| `MucOrder.HistoryHoldsCurrent` | src/core/xmpp-muc.ts:395-422 | if every corrected message is corrected by one that nothing corrects, the history ends up with exactly the delivered messages that no delivered message corrects |
| `MucOrder.OrderDoesNotMatterIff` | src/core/xmpp-muc.ts:395-422 | order and repetition of deliveries do not matter exactly when every corrected message is corrected by one that nothing corrects, whatever the shape of the corrections |
| `MucOrder.CyclesAreUnsettled` | src/core/xmpp-muc.ts:395-422 | where every message is corrected by another, as in a cycle, they do matter |
| `MucHistory.CorrectionReplaces` | src/core/xmpp-muc.ts:405-410 | a correction takes the place of what it corrects (section 3 of XEP-0308) |
| `MucHistory.ChainsDependOnOrder` | src/core/xmpp-muc.ts:395-410 | for example, two orders of a correction of a correction with different outcomes |
| `MucHistory.PersistThenLoad` | src/core/xmpp-persistence.ts:222-234 | persisting and loading give the same records, in time stamp order |
| `MucHistory.EvictionAfterReloadRemovesOldest` | src/core/xmpp-persistence.ts:354-360 | the next eviction after a reload removes a message none of the others is older than |
| `MucHistory.FullEvictsFirst` | src/core/xmpp-muc.ts:412-418 | a full history makes room by dropping its first key |
| `OrderedMaps.TrimMap` | src/core/xmpp-persistence.ts:104-112 | the trimming loop leaves the last `limit` entries in order |
| `XmppMuc.XmppMucManager.constructor` | src/core/xmpp-muc.ts:226-232 | a new manager has an empty history |
| `XmppMuc.XmppMucManager.RecordMucMessage` | src/core/xmpp-muc.ts:395-422 | records exactly as the function on histories says, and reports whether it accepted |
| `XmppMuc.XmppMucManager.GetMucHistory` | src/core/xmpp-muc.ts:424-428 | the messages of the room, each once, oldest first, those of one time stamp in the order of the history |
| `XmppMuc.XmppMucManager.PersistMucHistory` | src/core/xmpp-persistence.ts:354-360 | stores all records in time stamp order |
| `XmppMuc.XmppMucManager.LoadMucHistory` | src/core/xmpp-persistence.ts:222-234 | fills the history from the file and trims it |
| `PeerUpload.FetchUploadFromPeer` | src/core/xmpp-node.ts:1224-1275 | the reading loop returns what its step by step description says |
| `PeerUpload.ReadHeader` | src/core/xmpp-node.ts:1238-1260 | so does its part that looks for the header: buffered on, refused, or read with the payload that follows it |
| `PeerUpload.Concatenate` | src/core/xmpp-node.ts:1268-1274 | the copying loop returns the chunks in order |
| `PeerUpload.SendInChunks` | src/core/xmpp-uploads.ts:177-183 | sends all the data in order, in chunks of at most 64 KiB |
| `PeerUpload.HandlePeerUploadRequest` | src/core/xmpp-uploads.ts:176-216 | a request too long, unreadable, or for an object whose stored metadata is unreadable is aborted with nothing sent; any other gets exactly its response |
| `PeerUpload.UploadRoundTrip` | src/core/xmpp-node.ts:1224-1275 | for every chunking and every JSON that gives back the headers the writer makes, a header line of at most 2048 bytes lets the reader return exactly the stored object, or nothing if it is missing or larger than 50 MiB |
| `PeerUpload.PayloadIff` | src/core/xmpp-node.ts:1248-1267 | a stream carries a payload exactly if its first line accepts it, for this object and of its very size, at most 50 MiB |
| `PeerUpload.RequestedCidIs` | src/core/xmpp-uploads.ts:202 | an object is asked for by 64 hexadecimal digits in either case, and by nothing else |
| `PeerUpload.HeaderDescribes` | src/core/xmpp-uploads.ts:205-209 | the header has what is stored beside the object, or defaults |
| `PeerUpload.ExchangeRoundTrip` | src/core/xmpp-uploads.ts:176-216 | from the bytes of the request to the object: the reader gets exactly what is stored under the 64 digits asked for |
| `PeerUpload.OtherRequestsGetNothing` | src/core/xmpp-uploads.ts:202-209 | asked for anything else the peer answers that it has nothing |
| `PeerUpload.NothingFromTruncatedOrExtended` | src/core/xmpp-node.ts:1264-1267 | a stream cut short or run over carries nothing |
| `PeerUpload.ShortHeaderFits` | src/core/xmpp-node.ts:1239-1247 | a header line of at most 2048 bytes never overflows the buffer |
| `PeerUpload.CutInHeader` | src/core/xmpp-node.ts:1244-1245 | a longer one can be cut so that it is refused |
| `PeerUpload.ChunkingIrrelevantIff` | src/core/xmpp-node.ts:1232-1262 | the result depends on the bytes alone exactly when they carry no payload or the header line has at most 2048 bytes |
| `UploadProviders.NormalizeUploadProviders` | src/core/xmpp-uploads.ts:114-141 | the merge loop lists every non-empty url once, with its first jid, and no other |
| `UploadProviders.NormalizedMerges` | src/core/xmpp-uploads.ts:114-141 | so does the function that specifies it |
| `UploadProviders.BuiltAddsOwnAddresses` | src/core/xmpp-uploads.ts:147-162 | an announced list names each url once, keeps all that were known, and adds only the two addresses of the node |
| `UploadProviders.NormalizedInOrder` | src/core/xmpp-uploads.ts:114-139 | a merged list follows the order in which addresses are first mentioned |
| `UploadProviders.BuiltLeads` | src/core/xmpp-uploads.ts:145-162 | what is announced is that list behind the missing addresses of the node, the local one first |
| `UploadGossip.MergedKeepsKnown` | src/core/xmpp-uploads.ts:378-401 | recording an announcement forgets no known provider and keeps urls distinct |
| `UploadGossip.RecordedSpends` | src/core/xmpp-uploads.ts:377-435 | a node that announces on recording spends one of the two reasons it has to announce |
| `UploadGossip.FetchEndedSpends` | src/core/xmpp-uploads.ts:335-375 | so does one that announces after a fetch |
| `UploadGossip.StepSpends` | src/core/xmpp-uploads.ts:335-435 | every step of the cascade lowers its weight |
| `UploadGossip.GossipStops` | src/core/xmpp-uploads.ts:335-435 | the cascade stops; each node announces at most twice, providers only grow and stay distinct by url |
| `UploadNews.FetchableIff` | src/core/xmpp-uploads.ts:116 | a manifest is itself a provider exactly if its url has one of three schemes, in any case |
| `UploadNews.FetchSpeaks` | src/core/xmpp-uploads.ts:335-377 | after a fetch a node announces exactly if it stored the object, has an address, and the list it fetched from does not name that; it then announces all of that list and itself |
| `UploadNews.RecordSpeaks` | src/core/xmpp-uploads.ts:379-435 | on an announcement a node knows what it knew and what it was told; it announces exactly if it has the object and an address that neither names, and fetches exactly if it lacks the object, is not fetching, and did not announce it itself |
| `UploadNews.FetchListSays` | src/core/xmpp-uploads.ts:418-435 | the list it fetches from is what it knows then |
| `UploadNews.StepsArePossible` | src/core/xmpp-uploads.ts:335-435 | anything pending can arrive or be lost, and any fetch can end, at any moment |
| `UploadNews.PendingIsLearned` | src/core/xmpp-uploads.ts:379-435 | what is on its way in a run that loses nothing and leaves nothing pending is known in the end |
| `UploadNews.EveryoneLearns` | src/core/xmpp-uploads.ts:335-435 | in such a run every node that got the object and has an address is known to all nodes in the end, unless the list it fetched from named it already |
| `XmppUploads.XmppUploadManager.constructor` | src/core/xmpp-uploads.ts:42-52 | a new manager knows, holds and fetches nothing |
| `XmppUploads.XmppUploadManager.BuildUploadProviders` | src/core/xmpp-uploads.ts:147-162 | the announced list: merged, led by the addresses of the node that are missing |
| `XmppUploads.XmppUploadManager.AnnounceUploadManifest` | src/core/xmpp-uploads.ts:218-268 | publishes one announcement with that list |
| `XmppUploads.XmppUploadManager.RecordUploadManifest` | src/core/xmpp-uploads.ts:377-435 | changes manifest, prefetch and output of one content id as the cascade says, and nothing of any other |
| `XmppUploads.XmppUploadManager.EndPrefetch` | src/core/xmpp-uploads.ts:335-375 | the same for the end of a fetch |
| `Collections.CreatedConsistent` | src/core/xmpp-collection.ts:187-211 | creating or re-creating a collection keeps the index the inverse of membership, without empty sets |
| `Collections.AddedConsistent` | src/core/xmpp-collection.ts:213-247 | so does adding a feed |
| `Collections.WithFeedMeans` | src/core/xmpp-collection.ts:224-234 | adding a feed adds its topic and leaves other members as they were; adding it again keeps the time it was added |
| `Collections.CreatedMeans` | src/core/xmpp-collection.ts:187-211 | creating takes the name given and else keeps the old one; members and time of creation of an existing collection stay, and no other collection changes |
| `Collections.AddedMeans` | src/core/xmpp-collection.ts:213-247 | adding a feed changes nothing but the members and the time of the update |
| `Collections.AddedToNew` | src/core/xmpp-collection.ts:218 | a missing collection is created first |
| `Collections.RunGoesOn` | src/core/xmpp-collection.ts:187-247 | a run is its operations, one after the other |
| `Collections.LoadedOneMeans` | src/core/xmpp-records.ts:512-522 | a record that is loaded keeps what it says, and what it does not say is filled in |
| `Collections.LoadConsistentIff` | src/core/xmpp-persistence.ts:171-193 | loading keeps it exactly when no earlier record of an id names a feed that the last one does not |
| `Collections.DistinctIdsLoad` | src/core/xmpp-persistence.ts:177-181 | distinct new ids are enough |
| `Collections.DuplicateIdLeavesStaleLink` | src/core/xmpp-persistence.ts:177-181 | two records of one id can leave a link to a feed that no collection has |
| `Collections.EveryRunConsistent` | src/core/xmpp-collection.ts:164-247 | after every run of such loads, creates and adds, the index is what a scan of all collections finds |
| `XmppCollections.XmppCollectionManager.constructor` | src/core/xmpp-collection.ts:63-78 | a new manager is empty and consistent |
| `XmppCollections.XmppCollectionManager.IndexCollectionMembers` | src/core/xmpp-collection.ts:164-173 | the loop gives every feed of the collection its id |
| `XmppCollections.XmppCollectionManager.UnindexCollectionMembers` | src/core/xmpp-collection.ts:175-185 | the loop takes the id from every feed of the collection, and the entry with the last id |
| `XmppCollections.XmppCollectionManager.CreateCollection` | src/core/xmpp-collection.ts:187-211 | creates a collection or renames one, and keeps the index consistent |
| `XmppCollections.XmppCollectionManager.AddFeedToCollection` | src/core/xmpp-collection.ts:213-247 | adds a feed, to a new collection if need be, and keeps the index consistent |
| `XmppCollections.XmppCollectionManager.LoadCollectionState` | src/core/xmpp-persistence.ts:171-181 | loads the records one after the other |
| `XmppCollections.XmppCollectionManager.PublishCollectionPost` | src/core/xmpp-collection.ts:297-301 | fails exactly for an unknown collection |
| `XmppCollections.XmppCollectionManager.PropagateFeedToCollections` | src/core/xmpp-node.ts:1083-1092 | publishes a post once to each collection the index names, failing exactly if one is unknown; with a consistent index to exactly those a scan finds, without failure |
| `Attachments.EveryRunKeepsLatest` | src/core/xmpp-collection.ts:434-457 | every run keeps at most 200 attachments, each the last kind and value delivered under its key |
| `Attachments.RecordMeans` | src/core/xmpp-collection.ts:434-457 | recording is no news exactly if topic, target, sender, kind and value are all those of one kept; news goes last or into its place |
| `Attachments.FewKeysAreAllKept` | src/core/xmpp-collection.ts:444-452 | up to 200 keys all are kept |
| `Attachments.BuiltCounts` | src/core/xmpp-records.ts:589-612 | a summary counts each kind and each reaction value; total = noticed + reactions, and the counts add up to the reactions with a value |
| `Attachments.BuildAttachmentSummary` | src/core/xmpp-records.ts:589-612 | the counting loop makes such a summary |
| `Attachments.AddOneCounts` | src/core/xmpp-collection.ts:506-518 | counting one more attachment counts it under its kind and value, adds one to the total and takes the later time |
| `Attachments.Summaries` | src/core/xmpp-collection.ts:491-519 | the one-pass loop groups the attachments of the wanted topic by key |
| `Attachments.GroupedSummarizes` | src/core/xmpp-collection.ts:491-519 | it has a summary for each group with attachments and for no other, counted, with the latest time |
| `Attachments.SummariesAgreeIff` | src/core/xmpp-collection.ts:459-521 | the one pass agrees with the scan on every target exactly when no two targets share a key |
| `Attachments.TopicsCollideIff` | src/core/xmpp-collection.ts:496 | two topics have targets of one group key exactly when one topic goes on after the other and a colon |
| `Attachments.KeysCollideIff` | src/core/xmpp-collection.ts:434-444 | attachments of some senders share a key exactly when their group keys are equal or one goes on after the other and a colon |
| `Attachments.TargetsCanShareKey` | src/core/xmpp-collection.ts:496 | for example, two targets that share a group key |
| `Attachments.OneTopicAgrees` | src/core/xmpp-collection.ts:489-496 | asked for one topic, the one pass always agrees with the scan |
| `Attachments.TotalCountsSenders` | src/core/xmpp-collection.ts:434-462 | the total of a target is the number of senders with an attachment kept on it |
| `XmppCollections.XmppCollectionManager.RecordAttachment` | src/core/xmpp-collection.ts:434-457 | records exactly as the function on histories says, and reports whether it did |
| `XmppCollections.XmppCollectionManager.BuildAttachmentSummary` | src/core/xmpp-collection.ts:459-462 | filters the history and summarises exactly what is left |
| `XmppCollections.XmppCollectionManager.GetAttachmentSummaries` | src/core/xmpp-collection.ts:489-521 | exactly the summaries of the one pass, latest first, those of one time in the order of the pass |
| `ServerPresence.SessionMeans` | src/core/xmpp-client-bridge.ts:1240-1257 | a resource is online iff some available presence of it was not followed by its own or a bare unavailable, since the first such presence |
| `ServerPresence.SessionSaysLatest` | src/core/xmpp-client-bridge.ts:1246-1256 | it says what its last available presence said |
| `ServerPresence.StepHeld` | src/core/xmpp-client-bridge.ts:1160-1257 | a stanza changes the resources of the contact it comes from, and of no other |
| `ServerPresence.TableHolds` | src/core/xmpp-client-bridge.ts:1240-1257 | after every run the table holds exactly the resources online, earliest first, and no empty inner map |
| `ServerPresence.BestIsFirstOfHighest` | src/core/xmpp-client-bridge.ts:1260-1262 | the reduction finds the first of those with the highest priority |
| `ServerPresence.ToldIsTruthful` | src/core/xmpp-client-bridge.ts:1259-1270 | what is emitted is available iff a resource is online, and shows the highest clamped priority, ties to the one online longest (section 4.7.2.3 of RFC 6121) |
| `ServerPresence.ToldTheTruth` | src/core/xmpp-client-bridge.ts:947-1270 | after every run the last event about a contact is true of it |
| `PresenceStanzas.InfoIs` | src/core/xmpp-client-bridge.ts:1250-1256 | a resource has the show and status of its stanza and its priority cut to -128..127, 0 without one |
| `PresenceStanzas.ChangeIs` | src/core/xmpp-client-bridge.ts:1160-1257 | said of the fields of a stanza alone: `unavailable` takes away its resource, or all when it is bare; no type or `available` sets it; room presence, own presence and any other type change nothing |
| `PresenceStanzas.UnavailableTakesAway` | src/core/xmpp-client-bridge.ts:1241-1244 | so after `unavailable` the resource is offline and the others are as before |
| `PresenceStanzas.AvailableSets` | src/core/xmpp-client-bridge.ts:1245-1257 | and after `available` it says what the stanza says |
| `PresenceStanzas.ToldIs` | src/core/xmpp-client-bridge.ts:1160-1271 | which stanzas give a subscription request, a room error, room events, how the contact is now, or nothing, and with which fields |
| `PresenceStanzas.ErrorIs` | src/core/xmpp-client-bridge.ts:1177-1187 | an error with neither condition nor text is told as none |
| `PresenceStanzas.ToldNames` | src/core/xmpp-client-bridge.ts:1263-1270 | what is told of a contact names it, whom the stanza was for, and the domain |
| `PresenceStanzas.ServerIs` | src/core/xmpp-client-bridge.ts:1172 | the server of an event is the part behind the first at sign, or the domain |
| `PresenceStanzas.AcceptsIff` | src/core/xmpp-client-bridge.ts:1213-1214 | the defaults of a room are accepted exactly by the account that has just created it, once |
| `XmppClientBridges.XmppClientBridge.constructor` | src/core/xmpp-client-bridge.ts:255-256 | a new bridge has no presence and no pending request |
| `XmppClientBridges.XmppClientBridge.StoreContactPresence` | src/core/xmpp-client-bridge.ts:1240-1257 | updates the nested maps of one contact and leaves no empty one |
| `XmppClientBridges.XmppClientBridge.HighestPriority` | src/core/xmpp-client-bridge.ts:1260-1262 | the reduction over a non-empty list |
| `XmppClientBridges.XmppClientBridge.TellOfContact` | src/core/xmpp-client-bridge.ts:1259-1270 | emits the aggregate of a contact, and never reduces an empty list |
| `XmppClientBridges.XmppClientBridge.HandlePresence` | src/core/xmpp-client-bridge.ts:1160-1271 | every branch changes table and output as the function on tables says, rooms included: events with server, affiliation, role and status codes, errors with their condition and text, and the defaults of a new room accepted once |
| `XmppClientBridges.XmppClientBridge.OnDefaultsAccepted` | src/core/xmpp-client-bridge.ts:1211-1220 | when the acceptance ends, well or not, that room and no other may be configured again, and a failure is told |
| `XmppClientBridges.XmppClientBridge.ClearServerPresence` | src/core/xmpp-client-bridge.ts:947-952 | withdraws every contact once and empties the table |
| `IqTable.NextExact` | src/core/xmpp-client-bridge.ts:954-971 | each event keeps the table equal to the unsettled requests |
| `IqTable.RequestGoesOn` | src/core/xmpp-client-bridge.ts:954-971 | a request starts unsettled with a timer; its send ends once, and its timer can fire exactly until it is settled |
| `IqTable.EveryRunExact` | src/core/xmpp-client-bridge.ts:495-506 | if no id is used while a request of that id is unsettled or still sending, the table holds exactly the unsettled requests and exactly they have a timer; a second call of resolve or reject comes only from a late send failure |
| `IqTable.SendKeepsExactIff` | src/core/xmpp-client-bridge.ts:954-971 | sending a request keeps the table exact, whatever follows, exactly when no earlier request of its id is unsettled or still sending |
| `IqTable.FreshIdsAreClean` | src/core/xmpp-client-bridge.ts:955 | ids that are all different meet that condition in every run |
| `IqTable.FirstEventDecides` | src/core/xmpp-client-bridge.ts:954-971 | then every promise has the outcome of the first event that concerns it (section 8.2.3 of RFC 6120) |
| `IqTable.SharedIdMisleads` | src/core/xmpp-client-bridge.ts:955 | for example, with a repeated id the answer settles the wrong promise |
| `XmppClientBridges.XmppClientBridge.SendIQ` | src/core/xmpp-client-bridge.ts:954-964 | enters a request with its timer and keeps the table exact |
| `XmppClientBridges.XmppClientBridge.OnTimeout` | src/core/xmpp-client-bridge.ts:960-963 | a timeout removes and rejects its request |
| `XmppClientBridges.XmppClientBridge.OnSendFailed` | src/core/xmpp-client-bridge.ts:965-969 | so does a failed send, whose call has no effect on a settled promise |
| `XmppClientBridges.XmppClientBridge.HandleIqAnswer` | src/core/xmpp-client-bridge.ts:1145-1156 | an answer settles the request it names; without one it is dropped |
| `XmppClientBridges.XmppClientBridge.RejectPending` | src/core/xmpp-client-bridge.ts:586-590 | the loop rejects every pending request once and empties the table |
| `XmppClientBridges.XmppClientBridge.OnDisconnected` | src/core/xmpp-client-bridge.ts:495-506 | a lost connection withdraws all presence and rejects all requests |
| `XepHelpers.BuildThenParse` | src/core/xmpp-xep-helpers.ts:46-235 | parsing gives the built options back in normal form, whatever else the element holds |
| `XepHelpers.SecondTripChangesNothing` | src/core/xmpp-xep-helpers.ts:46-235 | a second trip changes nothing |
| `XepParsing.ReceiptIs` | src/core/xmpp-xep-helpers.ts:49-68 | of any element: the last receipt received, and without one the request, if the element has an id |
| `XepParsing.CarbonIs` | src/core/xmpp-xep-helpers.ts:135-150 | a sent carbon that wraps a message comes first |
| `XepParsing.ReceivedCarbonIs` | src/core/xmpp-xep-helpers.ts:60-78 | else the last received one that does |
| `XepParsing.ChatStateIs` | src/core/xmpp-xep-helpers.ts:80-88 | the first chat state in the fixed order |
| `XepHelpers.PartsAreLeaves` | src/core/xmpp-xep-helpers.ts:163-235 | what is pushed has no children, and no text but a thread and a nick |
| `XepHelpers.BuildXepElements` | src/core/xmpp-xep-helpers.ts:163-235 | each present option pushes its element, in order |
| `XepHelpers.ParseXepMetadata` | src/core/xmpp-xep-helpers.ts:46-154 | the loops find the last receipt, the first chat state and a sent carbon before a received one |
| `ChatArchive.RecordingKeepsArchive` | src/core/xmpp-chat.ts:159-166 | every run keeps the history at most 500 long and every message under its key |
| `ChatArchive.ArrivesAsCopy` | src/core/xmpp-chat.ts:238-312 | what the receiver takes from the stanza of a message is its copy |
| `ChatArchive.CopyIsSameIff` | src/core/xmpp-chat.ts:238-310 | a copy is the message itself exactly when all of it can be carried |
| `ChatArchive.CopyOfCopy` | src/core/xmpp-chat.ts:238-310 | a copy of a copy is that copy |
| `ChatArchive.ChatsCollideIff` | src/core/xmpp-chat.ts:112-114 | two chats can have messages without id that share a key exactly when their joined addresses are equal or one goes on after the other and a colon |
| `ChatArchive.CopyKeepsKeyIff` | src/core/xmpp-chat.ts:112-114 | a copy keeps its key exactly when the message has an id or a time stamp |
| `ChatArchive.WantedMeans` | src/core/xmpp-chat.ts:218-236 | a query is answered with the messages of that address, all of them without one |
| `ChatQueries.WantedIs` | src/core/xmpp-chat.ts:228-236 | asked for an address, with or without a resource, an archive answers with exactly the messages sent by it or to it, in order |
| `ChatQueries.WantedWithoutAddress` | src/core/xmpp-chat.ts:227-228 | asked for no address it answers with all messages |
| `ChatQueries.WithIs` | src/core/xmpp-chat.ts:217-226 | the address asked for is the value of the last field `with` of the form |
| `ChatQueries.NoWithAsksForAll` | src/core/xmpp-chat.ts:217-228 | a query without a form or such a field asks for all messages |
| `ChatQueries.ValuelessAsksForAll` | src/core/xmpp-chat.ts:222-228 | so does one whose last such field has no value |
| `ChatQueries.AnswerIs` | src/core/xmpp-chat.ts:238-276 | the stanza that carries a message, element by element |
| `ChatQueries.ReceivedIs` | src/core/xmpp-chat.ts:284-310 | what is taken from any stanza with a result that forwards a message, with its fallbacks |
| `ChatQueries.OthersAreIgnored` | src/core/xmpp-chat.ts:284-294 | any other stanza is ignored |
| `ChatQueries.ReceivedInTurn` | src/core/xmpp-chat.ts:284-312 | stanzas are recorded one after the other |
| `ChatArchive.ReceivingAnswers` | src/core/xmpp-chat.ts:284-312 | receiving the answers to a query records the copies in order |
| `ChatArchive.ReplayReproduces` | src/core/xmpp-chat.ts:211-320 | a replay into an empty history gives copies of exactly the wanted messages, in order and under their own keys (section 4 of XEP-0313) |
| `ChatArchive.ReplayIsExact` | src/core/xmpp-chat.ts:211-320 | where all can be carried it reproduces the filtered list itself |
| `ChatReplay.RecordedAgainIff` | src/core/xmpp-chat.ts:159-166 | up to 500 messages, recorded, change nothing exactly when the last of them under each key is what is there |
| `ChatReplay.SecondReplayKeepsIff` | src/core/xmpp-chat.ts:211-312 | a second replay, whatever the archive and the clocks, changes nothing exactly when under the key of every new copy the last new copy is the last first one |
| `ChatReplay.SecondReplayIff` | src/core/xmpp-chat.ts:265 | so it changes nothing if every wanted message has a time stamp, and, where copies of different messages never share a key, only then |
| `ChatReplay.KeylessStoredAgain` | src/core/xmpp-chat.ts:112-114 | there, a wanted message with neither id nor time stamp is stored again under a new key |
| `ChatReplay.StoredTwice` | src/core/xmpp-chat.ts:112-114 | for example, one such message alone is stored twice |
| `ChatReplay.HiddenByItsCopy` | src/core/xmpp-chat.ts:112-114 | and the keys have to be apart: beside its own later copy such a message is not stored again |
| `XmppChats.XmppChatManager.constructor` | src/core/xmpp-chat.ts:70-78 | a new manager has an empty history |
| `XmppChats.XmppChatManager.RecordChatMessage` | src/core/xmpp-chat.ts:159-166 | records as the function on histories says and keeps the invariant |
| `XmppChats.XmppChatManager.HandleIncomingMamQuery` | src/core/xmpp-chat.ts:211-282 | sends one stanza for each wanted message, in order, and counts them; nothing without a query |
| `XmppChats.XmppChatManager.HandleIncomingMamResult` | src/core/xmpp-chat.ts:284-312 | records the message a result carries, emits it with the id of its query, and ignores anything else |
| `AtomRoundTrip.DerivedTitleMeans` | src/core/xmpp-atom.ts:60-68 | a derived title is the collapsed body cut at 80 characters, never blank |
| `AtomRoundTrip.SummaryMeans` | src/core/xmpp-atom.ts:70-77 | there is no summary only for a blank body without one |
| `AtomMeanings.TitleIs` | src/core/xmpp-atom.ts:60-68 | a title is the one given, trimmed, or the words of the body in order, at most 80 characters of them |
| `AtomMeanings.SummaryIs` | src/core/xmpp-atom.ts:70-77 | so is a summary, of at most 280 |
| `AtomMeanings.AuthorityIs` | src/core/xmpp-atom.ts:87-90 | the authority of a tag is the host of the address |
| `AtomMeanings.TagUriIs` | src/core/xmpp-atom.ts:87-92 | a tag names the authority, the day of publication and the post |
| `AtomMeanings.AtomIdIs` | src/core/xmpp-atom.ts:153 | an entry has the identifier given, trimmed, or the post's tag |
| `AtomMeanings.TagUriInjective` | src/core/xmpp-atom.ts:79-92 | tags tell the posts of one authority and day apart |
| `AtomMeanings.XmppUriInjective` | src/core/xmpp-atom.ts:94-95 | the uris of a sender tell its topics and posts apart |
| `AtomMeanings.ParsedIs` | src/core/xmpp-atom.ts:215-250 | of any item: the body is that of the article, or the first of content, item body, summary and title that says something, or a default; no post without id or anything said |
| `AtomMeanings.ParsedFieldsAre` | src/core/xmpp-atom.ts:252-268 | dates stand in for each other and the clock for both; other texts are trimmed |
| `AtomMeanings.TextIs` | src/core/xmpp-atom.ts:221-227 | each text is that of the first child with its name |
| `AtomMeanings.AuthorIs` | src/core/xmpp-atom.ts:242-245 | the author is the name, or the address, or the text, whichever is not blank |
| `AtomMeanings.SchemeIs` | src/core/xmpp-atom.ts:243 | an address loses its scheme, if it has it |
| `AtomMeanings.CategoryIs` | src/core/xmpp-atom.ts:261-264 | a category is its term, or its label, if not blank |
| `AtomMeanings.LinkIs` | src/core/xmpp-atom.ts:97-108 | a link keeps its attributes if it has a relation or an address |
| `AtomMeanings.ParsedItemIs` | src/core/xmpp-atom.ts:215-230 | an item is understood by its id, its body and its entry |
| `AtomMeanings.FirstLineIs` | src/core/xmpp-atom.ts:66 | the first line that is not blank |
| `AtomMeanings.AllLinksAre` | src/core/xmpp-atom.ts:153-166 | an entry links to all that the post links to, and to the post itself if none of those is alternate |
| `AtomMeanings.CategoriesBuilt` | src/core/xmpp-atom.ts:179 | a category for each that is not empty, and nothing else |
| `AtomMeanings.LinkBuilt` | src/core/xmpp-atom.ts:180-187 | a link has its address and those attributes that are not empty |
| `AtomMeanings.EntryBuilt` | src/core/xmpp-atom.ts:168-177 | texts are marked as plain; the author has a uri, and a name if there is one |
| `AtomMeanings.ItemBuilt` | src/core/xmpp-atom.ts:202 | the entry is in the namespace of Atom, in the item of the post |
| `AtomRoundTrip.LinksBack` | src/core/xmpp-atom.ts:97-108 | the links that come back are those with an address, without empty attributes |
| `AtomRoundTrip.TripSettles` | src/core/xmpp-atom.ts:145-268 | whatever the post, building and parsing only trims, derives defaults, drops blank categories and links without address, and prepends a missing alternate link |
| `AtomRoundTrip.TripFixesIff` | src/core/xmpp-atom.ts:145-268 | a trip changes nothing exactly when the post is in normal form |
| `AtomRoundTrip.SettledIsNormalIff` | src/core/xmpp-atom.ts:145-268 | what a trip makes is in normal form, but for a blank post and a lost alternate link |
| `AtomRoundTrip.SecondTripIff` | src/core/xmpp-atom.ts:145-268 | so a second trip, whatever the clock, changes nothing exactly then (section 4.1.2 of RFC 4287) |
| `Text.TrimTrims` | src/core/xmpp-atom.ts:39 | trimming leaves no space at the ends and changes nothing exactly when there was none |
| `Text.CollapsedMeans` | src/core/xmpp-atom.ts:41 | collapsed text is trimmed, has no space but single blanks, and is empty exactly for blank text |
| `Text.TrimKeeps` | src/core/xmpp-atom.ts:39 | trimming takes away nothing but space at the ends |
| `Text.CollapsedKeepsWords` | src/core/xmpp-atom.ts:41 | collapsing keeps the words of a text, in order |
| `Text.WordsAre` | src/core/xmpp-atom.ts:41 | where a word ends |
| `Text.SpaceIs` | src/core/xmpp-atom.ts:39 | space is what ECMAScript trims |
| `Sorting.SortAscends` | src/core/xmpp-muc.ts:427 | sorting by time stamp puts the records in ascending order |
| `Sorting.SortStable` | src/core/xmpp-muc.ts:427 | records of equal time stamp keep their order |

## Left out

- libp2p, gossipsub, WebSocket, TCP, TLS, HTTP, SQLite, IndexedDB, Electron, Capacitor and the user interfaces: foreign or I/O. Stores are maps with failing operations, networks are message sequences.
- OMEMO, OpenPGP, AES, PBKDF2, Nostr signatures and SHA-256: opaque; a fetched upload whose digest does not match counts as a failed fetch.
- The namespace of chat states is the code's `urn:xmpp:chatstates` (src/core/xmpp-xep-helpers.ts:12), not the one of XEP-0085.
- XML and JSON text: lossless. Elements are trees, a stanza of stream management is a datatype value, JSON parsing of upload headers is an input that has to give back the headers the writer makes, whose sizes are at most 50 MiB.
- Values of `h` that are no integers, and the 32-bit wrap of XEP-0198: the code uses plain numbers.
- Log statements, the error event of a failing parser and the sink of a stream.
- Resumption.ResumptionDelivers: is about the direction from the dialling to the answering side, because only the dialling side restores its counters (src/core/xmpp-node.ts:1480-1497).
- Resumption.AckSafety: covers stray acks that claim at most what the peer has, or more than was sent; `AckSafeIff` says exactly which acks are safe, which during a replay are more.
- Resumption.RunInv: in its runs a redial follows the close of the link before; `XmppStreams.ReplaceStream` says what a redial does that replaces an open stream, whose session then waits for the dial after it.
- Garbage collection of DHT keys and `removeDhtKey` (src/core/xmpp-dht.ts:115-136): they run outside the mailbox lock. Unavailable content routing: the call ends before it takes the lock.
- MailboxSafety.MailboxCrashSafety: claims nothing about a sender in another process that writes between the read and the put of a local flush; such writes are steps of the machine only while no local call is active, because the lock is local to one process. The table reports a key as missing only when it is: `NotFoundOverwrites` says what a false report would do.
- A stored stanza whose parser never calls back (src/core/xmpp-dht.ts:230-236): a failed parse counts as a failed handler.
- MucOrder.OrderDoesNotMatterIff: is about at most 500 ids, as many as the history holds, one record for each id, and rooms none of whose names goes on after another and a colon; it compares records, not the order of the map.
- Times are integers in the order in which the time stamps compare; the locale rules of `localeCompare` are left out.
- Backpressure of `stream.send` (src/core/xmpp-uploads.ts:177-183) and the timeouts of fetches.
- UploadGossip.GossipStops: runs each handler atomically and does not cover a fetch started by an HTTP request while a prefetch is running (src/core/xmpp-uploads.ts:561), which could announce once more.
- The order in which a node tries providers (src/core/xmpp-uploads.ts:294-301): the outcome of a fetch is an input.
- XmppUploads.XmppUploadManager.EndPrefetch: a store that fails counts as an object that was not available.
- Collections.EveryRunConsistent: runs each operation atomically; two overlapping additions to one collection can lose one (src/core/xmpp-collection.ts:213-247).
- Subscriptions, posts and topic validators of collections: bookkeeping without an invariant across them.
- Reaction values that are names of inherited object properties (`constructor`, `__proto__`): the code counts in a plain object, the model in a map.
- XmppClientBridges.XmppClientBridge.HandlePresence: leaves out the form that `acceptMucRoomDefaults` fetches and submits (src/core/xmpp-client-bridge.ts:1273-1293).
- Addresses: case is folded for ASCII letters only, and characters are code points where the code slices UTF-16 units.
- ChatArchive.ReplayReproduces: is about messages with an id or a time stamp, because only their copies keep their keys; all messages without a time stamp get one clock reading per replay.
- DHT copies of the chat history (src/core/xmpp-chat.ts:116-157): the same `has` and `set` on another source.
- Options of `buildMicroblogEntry`, geolocations, replies and the text of XHTML content (src/core/xmpp-atom.ts:44-52, 114-126): a post is built with default options, and the text of other content is an input.
- Roster conformance to RFC 6121: a finite table; eviction order after a reload of feed, collection and attachment histories, which are stored newest first.
