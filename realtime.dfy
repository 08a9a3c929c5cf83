/** The WebSocket side of the server (server/routes.ts): a registry of live
    connections, each holding the user id its client claimed in an `auth`
    message, and `broadcastUpdate`, which pushes one event envelope to every
    connection whose socket is open.

    The registry is a JavaScript `Map` from socket to connection info. It is
    modelled as the association list that such a map is: entries in
    insertion order, one per socket. Sending on a socket is network I/O and
    is not modelled; `Broadcast` returns the list of deliveries it would
    make, in the order it would make them. */
module Realtime {
  import opened JsRuntime
  import opened Storage

  /** The identity of one WebSocket object. */
  type Socket = int

  /** The value kept per connection: `{}` until an `auth` message sets `userId`. */
  datatype ConnInfo = ConnInfo(userId: Option<JsonValue>)

  datatype Entry = Entry(socket: Socket, info: ConnInfo)

  /** An inbound frame after `JSON.parse`. `Malformed` covers text that is
      not JSON and the literal `null`, whose property reads throw; both end
      in the handler's `catch`. Any other value yields its `type` and
      `userId` properties (`Undefined` when absent or not an object). */
  datatype Message = Malformed | Parsed(msgType: JsonValue, userId: JsonValue)

  /** The `data` of an event: the whole note on creation, `{id, userId}` on deletion. */
  datatype EventData = NoteCreated(note: Note) | NoteDeleted(id: int, userId: int)

  /** `{type, data, timestamp}` as serialised by `broadcastUpdate`. */
  datatype Envelope = Envelope(eventType: string, data: EventData, timestamp: Timestamp)

  datatype Delivery = Delivery(socket: Socket, envelope: Envelope)

  /** The sockets of a registry, in insertion order. */
  function Sockets(r: seq<Entry>): (ks: seq<Socket>)
    ensures |ks| == |r|
    ensures forall i :: 0 <= i < |r| ==> ks[i] == r[i].socket
  {
    if r == [] then [] else [r[0].socket] + Sockets(r[1..])
  }

  predicate Distinct(ks: seq<Socket>)
  {
    forall i, j :: 0 <= i < j < |ks| ==> ks[i] != ks[j]
  }

  lemma DistinctCons(k: Socket, ks: seq<Socket>)
    ensures Distinct([k] + ks) <==> k !in ks && Distinct(ks)
  {
    var s := [k] + ks;
    assert forall i :: 0 <= i < |ks| ==> s[i + 1] == ks[i];
    if k !in ks && Distinct(ks) {
      forall i, j | 0 <= i < j < |s|
        ensures s[i] != s[j]
      {
        if i > 0 {
          assert s[i] == ks[i - 1] && s[j] == ks[j - 1];
        } else {
          assert s[j] == ks[j - 1];
        }
      }
    }
    if Distinct(s) {
      forall i | 0 <= i < |ks|
        ensures ks[i] != k
      {
        assert s[0] != s[i + 1];
      }
    }
  }

  lemma DistinctSnoc(ks: seq<Socket>, k: Socket)
    ensures Distinct(ks + [k]) <==> k !in ks && Distinct(ks)
  {
    var s := ks + [k];
    assert forall i :: 0 <= i < |ks| ==> s[i] == ks[i];
    if Distinct(s) {
      forall i | 0 <= i < |ks|
        ensures ks[i] != k
      {
        assert s[i] != s[|ks|];
      }
    }
  }

  /** `connections.get(ws)`. */
  function Get(r: seq<Entry>, ws: Socket): (info: Option<ConnInfo>)
    ensures info.Some? <==> ws in Sockets(r)
    ensures info.Some? ==> Entry(ws, info.value) in r
  {
    if r == [] then None
    else if r[0].socket == ws then Some(r[0].info)
    else Get(r[1..], ws)
  }

  /** `connections.set(ws, info)`: a present socket keeps its place and
      gets the new info, an absent one is appended. */
  function Put(r: seq<Entry>, ws: Socket, info: ConnInfo): (r': seq<Entry>)
    ensures forall w :: Get(r', w) == if w == ws then Some(info) else Get(r, w)
    ensures Sockets(r') == if ws in Sockets(r) then Sockets(r) else Sockets(r) + [ws]
  {
    if r == [] then [Entry(ws, info)]
    else if r[0].socket == ws then [Entry(ws, info)] + r[1..]
    else
      var rest := Put(r[1..], ws, info);
      assert Sockets([r[0]] + rest) == [r[0].socket] + Sockets(rest);
      [r[0]] + rest
  }

  /** `connections.delete(ws)`: exactly the entries of other sockets stay. */
  function Remove(r: seq<Entry>, ws: Socket): (r': seq<Entry>)
    ensures forall e :: e in r' <==> e in r && e.socket != ws
    ensures ws !in Sockets(r) ==> r' == r
  {
    if r == [] then []
    else if r[0].socket == ws then Remove(r[1..], ws)
    else
      var rest := Remove(r[1..], ws);
      assert Sockets(r) == [r[0].socket] + Sockets(r[1..]);
      [r[0]] + rest
  }

  /** After `delete`, `get` misses the removed socket and answers as before
      for every other one. */
  lemma {:induction false} RemoveKeepsOthers(r: seq<Entry>, ws: Socket)
    ensures forall w :: Get(Remove(r, ws), w) == if w == ws then None else Get(r, w)
  {
    if r != [] {
      RemoveKeepsOthers(r[1..], ws);
      if r[0].socket != ws {
        var rest := Remove(r[1..], ws);
        assert Remove(r, ws) == [r[0]] + rest;
        assert ([r[0]] + rest)[1..] == rest;
      }
    }
  }

  /** `delete` leaves no socket registered twice. */
  lemma {:induction false} RemoveKeepsDistinct(r: seq<Entry>, ws: Socket)
    requires Distinct(Sockets(r))
    ensures Distinct(Sockets(Remove(r, ws)))
  {
    if r != [] {
      assert Sockets(r) == [r[0].socket] + Sockets(r[1..]);
      DistinctCons(r[0].socket, Sockets(r[1..]));
      RemoveKeepsDistinct(r[1..], ws);
      if r[0].socket != ws {
        var rest := Remove(r[1..], ws);
        RemoveKeepsOthers(r[1..], ws);
        assert Get(rest, r[0].socket) == None;
        assert Remove(r, ws) == [r[0]] + rest;
        assert Sockets([r[0]] + rest) == [r[0].socket] + Sockets(rest);
        DistinctCons(r[0].socket, Sockets(rest));
      }
    }
  }

  /** The sockets `broadcastUpdate` sends to, in the order it visits them:
      every registered socket whose state is OPEN, whatever user it claims. */
  function OpenTargets(r: seq<Entry>, open: set<Socket>): seq<Socket>
  {
    if r == [] then []
    else
      var last := r[|r| - 1];
      OpenTargets(r[..|r| - 1], open) + (if last.socket in open then [last.socket] else [])
  }

  /** The targets are exactly the open registered sockets, and none is
      visited twice when the registry holds each socket once. */
  lemma {:induction false} OpenTargetsAreOpenSockets(r: seq<Entry>, open: set<Socket>)
    ensures forall w :: w in OpenTargets(r, open) <==> w in open && w in Sockets(r)
    ensures Distinct(Sockets(r)) ==> Distinct(OpenTargets(r, open))
  {
    if r != [] {
      var last := r[|r| - 1];
      var init := r[..|r| - 1];
      OpenTargetsAreOpenSockets(init, open);
      assert Sockets(r) == Sockets(init) + [last.socket];
      DistinctSnoc(Sockets(init), last.socket);
      DistinctSnoc(OpenTargets(init, open), last.socket);
    }
  }

  /** The sockets of a list of deliveries, in order. */
  function Recipients(sent: seq<Delivery>): (ks: seq<Socket>)
    ensures |ks| == |sent|
    ensures forall i :: 0 <= i < |sent| ==> ks[i] == sent[i].socket
  {
    if sent == [] then [] else Recipients(sent[..|sent| - 1]) + [sent[|sent| - 1].socket]
  }

  lemma OpenTargetsSnoc(r: seq<Entry>, e: Entry, open: set<Socket>)
    ensures OpenTargets(r + [e], open) == OpenTargets(r, open) + (if e.socket in open then [e.socket] else [])
  {
    assert (r + [e])[..|r|] == r;
  }

  lemma RecipientsSnoc(sent: seq<Delivery>, d: Delivery)
    ensures Recipients(sent + [d]) == Recipients(sent) + [d.socket]
  {
    assert (sent + [d])[..|sent|] == sent;
  }

  /** Delivery `k` carries the event and the `k`-th clock reading. */
  predicate Stamped(sent: seq<Delivery>, eventType: string, data: EventData, clock: nat -> Timestamp)
  {
    forall k :: 0 <= k < |sent| ==> sent[k].envelope == Envelope(eventType, data, clock(k))
  }

  lemma StampedSnoc(sent: seq<Delivery>, ws: Socket, eventType: string, data: EventData, clock: nat -> Timestamp)
    requires Stamped(sent, eventType, data, clock)
    ensures Stamped(sent + [Delivery(ws, Envelope(eventType, data, clock(|sent|)))], eventType, data, clock)
  {
    var s := sent + [Delivery(ws, Envelope(eventType, data, clock(|sent|)))];
    forall k | 0 <= k < |s|
      ensures s[k].envelope == Envelope(eventType, data, clock(k))
    {
      if k < |sent| {
        assert s[k] == sent[k];
      }
    }
  }

  class Registry {
    var connections: seq<Entry>

    ghost predicate Valid()
      reads this
    {
      Distinct(Sockets(connections))
    }

    constructor ()
      ensures Valid() && connections == []
    {
      connections := [];
    }

    /** A new socket is registered with no claimed user. */
    method OnConnection(ws: Socket)
      requires Valid()
      modifies this
      ensures Valid()
      ensures connections == Put(old(connections), ws, ConnInfo(None))
      ensures Get(connections, ws) == Some(ConnInfo(None))
      ensures forall w :: w != ws ==> Get(connections, w) == Get(old(connections), w)
    {
      connections := Put(connections, ws, ConnInfo(None));
    }

    /** An `auth` message with a truthy `userId` records that id on its own
        connection; every other frame, and a frame from a socket that is no
        longer registered, changes nothing. */
    method OnMessage(ws: Socket, message: Message)
      requires Valid()
      modifies this
      ensures Valid()
      ensures
        && message.Parsed? && message.msgType == Str("auth") && Truthy(message.userId)
        && ws in Sockets(old(connections))
        ==> && Get(connections, ws) == Some(ConnInfo(Some(message.userId)))
            && Sockets(connections) == Sockets(old(connections))
            && forall w :: w != ws ==> Get(connections, w) == Get(old(connections), w)
      ensures
        !(&& message.Parsed? && message.msgType == Str("auth") && Truthy(message.userId)
          && ws in Sockets(old(connections)))
        ==> connections == old(connections)
    {
      match message
      case Malformed =>
      case Parsed(msgType, userId) =>
        if msgType == Str("auth") && Truthy(userId) {
          var info := Get(connections, ws);
          if info.Some? {
            connections := Put(connections, ws, info.value.(userId := Some(userId)));
          }
        }
    }

    /** A closed socket leaves the registry; the others keep their info. */
    method OnClose(ws: Socket)
      requires Valid()
      modifies this
      ensures Valid()
      ensures connections == Remove(old(connections), ws)
      ensures ws !in Sockets(connections)
      ensures forall w :: w != ws ==> Get(connections, w) == Get(old(connections), w)
    {
      RemoveKeepsOthers(connections, ws);
      RemoveKeepsDistinct(connections, ws);
      connections := Remove(connections, ws);
    }

    /** `broadcastUpdate(type, data)`: one envelope for each registered
        socket that is open, in registry order. The clock is read once per
        send: `clock(k)` is the reading taken for the `k`-th delivery. */
    method Broadcast(eventType: string, data: EventData, clock: nat -> Timestamp, open: set<Socket>)
      returns (sent: seq<Delivery>)
      ensures Recipients(sent) == OpenTargets(connections, open)
      ensures forall k :: 0 <= k < |sent| ==> sent[k].envelope == Envelope(eventType, data, clock(k))
    {
      var entries := connections;
      sent := [];
      var i := 0;
      while i < |entries|
        invariant 0 <= i <= |entries|
        invariant Recipients(sent) == OpenTargets(entries[..i], open)
        invariant Stamped(sent, eventType, data, clock)
      {
        var entry := entries[i];
        assert entries[..i + 1] == entries[..i] + [entry];
        OpenTargetsSnoc(entries[..i], entry, open);
        if entry.socket in open {
          var d := Delivery(entry.socket, Envelope(eventType, data, clock(|sent|)));
          RecipientsSnoc(sent, d);
          StampedSnoc(sent, entry.socket, eventType, data, clock);
          sent := sent + [d];
        }
        i := i + 1;
      }
      assert entries[..i] == entries;
    }
  }

  /** Every open registered socket receives the event exactly once, and no
      other socket receives it. */
  lemma {:induction false} BroadcastReachesEachOpenSocketOnce(r: seq<Entry>, open: set<Socket>, sent: seq<Delivery>)
    requires Distinct(Sockets(r))
    requires Recipients(sent) == OpenTargets(r, open)
    ensures forall w :: (exists i :: 0 <= i < |sent| && sent[i].socket == w) <==> w in open && w in Sockets(r)
    ensures forall i, j :: 0 <= i < j < |sent| ==> sent[i].socket != sent[j].socket
  {
    var t := OpenTargets(r, open);
    OpenTargetsAreOpenSockets(r, open);
    forall w
      ensures (exists i :: 0 <= i < |sent| && sent[i].socket == w) <==> w in open && w in Sockets(r)
    {
      if w in open && w in Sockets(r) {
        assert w in t;
        var i :| 0 <= i < |t| && t[i] == w;
        assert sent[i].socket == w;
      }
    }
  }
}
