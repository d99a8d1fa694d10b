/** The connection to a server as the source keeps it (src/core/xmpp-client-bridge.ts:255-256, 495-506, 947-971, 1119-1271). */
module XmppClientBridges {
  import opened Wrappers
  import opened OrderedMaps
  import opened Jids
  import P = ServerPresence
  import Q = IqTable

  class XmppClientBridge {
    /** The bare address of this account, once known. */
    var own: Option<string>
    var domain: string
    var serverPresenceResources: P.Table
    var emitted: seq<P.Event>
    var configuringMucRooms: set<string>
    /** What was told of this account as it set out to accept the defaults of a room. */
    var accepting: seq<P.RoomEvent>
    var requests: seq<Q.Request>
    var pendingIq: map<string, nat>

    constructor ()
      ensures own == None && domain == "" && emitted == [] && configuringMucRooms == {} && accepting == []
      ensures serverPresenceResources == P.TableAfter([]) && Iqs() == Q.After([]) && Q.Exact(Iqs())
    {
      own, domain, serverPresenceResources, emitted := None, "", Empty(), [];
      configuringMucRooms, accepting := {}, [];
      requests, pendingIq := [], map[];
    }

    // -------------------------------------------------------------- presence

    /** No inner map is empty; `TableHolds` says every run keeps it so. */
    ghost predicate NoneEmpty()
      reads this`serverPresenceResources
    {
      forall from | from in serverPresenceResources.at :: Size(serverPresenceResources.at[from]) > 0
    }

    method StoreContactPresence(from: string, resource: string, stanza: P.Stanza)
      requires NoneEmpty()
      modifies this`serverPresenceResources
      ensures serverPresenceResources == P.Updated(old(serverPresenceResources), from, resource, stanza)
      ensures NoneEmpty()
    {
      var resources: P.Resources := Empty();
      if from in serverPresenceResources.at {
        resources := serverPresenceResources.at[from];
      }
      if stanza.kind == "unavailable" {
        if resource != "" {
          resources := Delete(resources, resource);
        } else {
          resources := Empty();
        }
        if Size(resources) == 0 {
          serverPresenceResources := Delete(serverPresenceResources, from);
        } else {
          serverPresenceResources := Set(serverPresenceResources, from, resources);
        }
      } else {
        var priority := match stanza.priority
          case None => 0
          case Some(p) => if p > 127 then 127 else if p < -128 then -128 else p;
        resources := Set(resources, resource, P.Info(stanza.show, stanza.status, priority));
        serverPresenceResources := Set(serverPresenceResources, from, resources);
      }
    }

    /** `reduce` over the resources; it is called on a non-empty list only. */
    method HighestPriority(infos: seq<P.Info>) returns (highest: P.Info)
      requires infos != []
      ensures highest == P.Best(infos)
    {
      highest := infos[0];
      for i := 1 to |infos|
        invariant highest == P.Best(infos[..i])
      {
        assert infos[..i + 1][..i] == infos[..i];
        var candidate := infos[i];
        if candidate.priority > highest.priority {
          highest := candidate;
        }
      }
      assert infos[..|infos|] == infos;
    }

    method TellOfContact(from: string, to: string)
      requires NoneEmpty()
      modifies this`emitted
      ensures emitted == old(emitted) + [P.Told(from, to, domain, Get(serverPresenceResources, from))]
    {
      if from in serverPresenceResources.at {
        var activeStatus := HighestPriority(Values(serverPresenceResources.at[from]));
        emitted := emitted + [P.Contact(from, to, true, activeStatus.show, activeStatus.status, domain)];
      } else {
        emitted := emitted + [P.Contact(from, to, false, None, None, domain)];
      }
    }

    method HandlePresence(stanza: P.Stanza)
      requires NoneEmpty()
      modifies this`serverPresenceResources, this`emitted, this`configuringMucRooms, this`accepting
      ensures NoneEmpty()
      ensures var accepts := P.AcceptsDefaults(own, stanza, old(configuringMucRooms));
        && configuringMucRooms == old(configuringMucRooms) + (if accepts then {P.Bare(stanza.from)} else {})
        && accepting == old(accepting) + (if accepts then [P.RoomEventOf(stanza, domain)] else [])
      ensures serverPresenceResources == P.Handled(own, domain, old(serverPresenceResources), stanza).0
      ensures emitted == old(emitted) + P.Handled(own, domain, old(serverPresenceResources), stanza).1
    {
      var from, resource := P.Bare(stanza.from), Resource(stanza.from);
      match P.RouteOf(own, stanza)
      case ToNobody =>
      case ToSubscription => emitted := emitted + [P.SubscribeRequest(from, P.ServerOf(from, domain))];
      case ToRoomError => emitted := emitted + [P.RoomErrorOf(stanza, domain)];
      case ToRoom =>
        if P.AcceptsDefaults(own, stanza, configuringMucRooms) {
          configuringMucRooms := configuringMucRooms + {from};
          accepting := accepting + [P.RoomEventOf(stanza, domain)];
        }
        emitted := emitted + P.RoomEvents(stanza, domain);
      case ToContact =>
        StoreContactPresence(from, resource, stanza);
        TellOfContact(from, stanza.to);
    }

    /** The end of `acceptMucRoomDefaults`, whether it went well or not: a failure is told with what was told then. */
    method OnDefaultsAccepted(event: P.RoomEvent, failure: Option<string>)
      modifies this`configuringMucRooms, this`emitted
      ensures configuringMucRooms == old(configuringMucRooms) - {event.room}
      ensures emitted == old(emitted) + (if failure.Some? then [P.DefaultsError(event, failure.value)] else [])
    {
      if failure.Some? {
        emitted := emitted + [P.DefaultsError(event, failure.value)];
      }
      configuringMucRooms := configuringMucRooms - {event.room};
    }

    method ClearServerPresence()
      modifies this`serverPresenceResources, this`emitted
      ensures serverPresenceResources == Empty()
      ensures emitted == old(emitted) + P.Withdrawals(old(serverPresenceResources.keys), domain)
    {
      var froms := serverPresenceResources.keys;
      for i := 0 to |froms|
        invariant emitted == old(emitted) + P.Withdrawals(froms, domain)[..i]
      {
        emitted := emitted + [P.Contact(froms[i], "", false, None, None, domain)];
      }
      assert P.Withdrawals(froms, domain)[..|froms|] == P.Withdrawals(froms, domain);
      serverPresenceResources := Empty();
    }

    // -------------------------------------------------------------- IQ requests

    function Iqs(): Q.State
      reads this`requests, this`pendingIq
    {
      Q.State(requests, pendingIq)
    }

    /** The id is random; no request of that id is unsettled or still sending. */
    method SendIQ(id: string)
      requires Q.Exact(Iqs())
      requires Q.IsFree(Iqs(), id)
      modifies this`requests, this`pendingIq
      ensures Iqs() == Q.Next(old(Iqs()), Q.SendIq(id))
      ensures Q.Exact(Iqs())
    {
      Q.NextExact(Iqs(), Q.SendIq(id));
      requests := requests + [Q.Request(id, None, 0, true, true)];
      pendingIq := pendingIq[id := |requests| - 1];
    }

    method Settle(i: nat, outcome: Q.Outcome)
      requires i < |requests|
      modifies this`requests
      ensures requests == old(requests)[i := Q.Settled(old(requests[i]), outcome).(armed := false)]
    {
      var r := requests[i].(armed := false, calls := requests[i].calls + 1);
      if r.outcome.None? {
        r := r.(outcome := Some(outcome));
      }
      requests := requests[i := r];
    }

    method OnTimeout(i: nat)
      requires Q.Exact(Iqs()) && Q.Possible(Iqs(), Q.Timeout(i))
      modifies this`requests, this`pendingIq
      ensures Iqs() == Q.Next(old(Iqs()), Q.Timeout(i))
      ensures Q.Exact(Iqs())
    {
      Q.NextExact(Iqs(), Q.Timeout(i));
      pendingIq := pendingIq - {requests[i].id};
      Settle(i, Q.TimedOut);
    }

    method OnSendFailed(i: nat)
      requires Q.Exact(Iqs()) && Q.Possible(Iqs(), Q.SendFails(i))
      modifies this`requests, this`pendingIq
      ensures Iqs() == Q.Next(old(Iqs()), Q.SendFails(i))
      ensures Q.Exact(Iqs())
    {
      Q.NextExact(Iqs(), Q.SendFails(i));
      pendingIq := pendingIq - {requests[i].id};
      Settle(i, Q.NotSent);
      requests := requests[i := requests[i].(sending := false)];
    }

    /** The last branch of `handleStanza`: an answer without a waiting request is dropped. */
    method HandleIqAnswer(id: string, error: bool)
      requires Q.Exact(Iqs())
      modifies this`requests, this`pendingIq
      ensures Iqs() == Q.Next(old(Iqs()), Q.Response(id, error))
      ensures Q.Exact(Iqs())
    {
      Q.NextExact(Iqs(), Q.Response(id, error));
      if id in pendingIq {
        var i := pendingIq[id];
        pendingIq := pendingIq - {id};
        Settle(i, if error then Q.Refused else Q.Answered);
      }
    }

    /** The loop that rejects what is pending when the connection ends. */
    method RejectPending()
      requires Q.Exact(Iqs())
      modifies this`requests, this`pendingIq
      ensures Iqs() == Q.Next(old(Iqs()), Q.Disconnect)
      ensures Q.Exact(Iqs())
    {
      ghost var was := Iqs();
      Q.NextExact(was, Q.Disconnect);
      var left := pendingIq.Keys;
      while left != {}
        invariant pendingIq == was.pending && left <= pendingIq.Keys && |requests| == |was.requests|
        invariant forall i | 0 <= i < |requests| :: requests[i] == Rejected(was, left, i)
        decreases |left|
      {
        var id :| id in left;
        ghost var before := requests;
        Settle(pendingIq[id], Q.Disconnected);
        forall i | 0 <= i < |requests|
          ensures requests[i] == Rejected(was, left - {id}, i)
        {
          assert before[i] == Rejected(was, left, i);
        }
        left := left - {id};
      }
      forall i | 0 <= i < |requests|
        ensures requests[i] == Q.SettleAll(was)[i]
      {
        Q.PendingWaits(was, i);
        assert requests[i] == Rejected(was, {}, i);
      }
      pendingIq := map[];
    }

    /** The request `i` once all pending ids but `left` have been rejected. */
    static ghost function Rejected(was: Q.State, left: set<string>, i: nat): Q.Request
      requires i < |was.requests|
    {
      var r := was.requests[i];
      if Q.Waits(was, i) && r.id !in left then Q.Settled(r, Q.Disconnected).(armed := false) else r
    }

    /** What a lost connection and `disconnect` both do. */
    method OnDisconnected()
      requires Q.Exact(Iqs())
      modifies this`serverPresenceResources, this`emitted, this`requests, this`pendingIq
      ensures serverPresenceResources == Empty() && NoneEmpty()
      ensures emitted == old(emitted) + P.Withdrawals(old(serverPresenceResources.keys), domain)
      ensures Iqs() == Q.Next(old(Iqs()), Q.Disconnect)
      ensures Q.Exact(Iqs()) && pendingIq == map[]
    {
      ClearServerPresence();
      RejectPending();
    }
  }
}
