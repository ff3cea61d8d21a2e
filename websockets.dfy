/**
  The websocket connection registry of the server (package `websockets`):
  a `Hub` keeps the list of connected `Client`s and fans serialised events
  out to their outbound queues; each `Client` drains its own queue onto its
  `Socket`. Every hub event is modelled as one atomic sequential step.
 */
module Websockets {
  import opened Wrappers

  newtype byte = b: int | 0 <= b < 256
  type Bytes = seq<byte>

  /** The two websocket frame types the client writes. */
  datatype MessageKind = BinaryMessage | CloseMessage

  datatype Frame = Frame(kind: MessageKind, payload: Bytes)

  /** An upgraded websocket connection: its remote address, whether it has
      been closed, and the frames successfully written to it so far. */
  class Socket {
    const remoteAddr: string
    var closed: bool
    var sent: seq<Frame>

    constructor (remoteAddr: string)
      ensures this.remoteAddr == remoteAddr && !closed && sent == []
    {
      this.remoteAddr := remoteAddr;
      closed := false;
      sent := [];
    }

    /** Writes one frame. `linkOk` is the network's verdict on this write;
        a write on a closed connection always fails. */
    method WriteMessage(kind: MessageKind, payload: Bytes, linkOk: bool) returns (failed: bool)
      modifies this
      ensures closed == old(closed)
      ensures failed <==> old(closed) || !linkOk
      ensures sent == if failed then old(sent) else old(sent) + [Frame(kind, payload)]
    {
      failed := closed || !linkOk;
      if !failed {
        sent := sent + [Frame(kind, payload)];
      }
    }

    /** Closes the connection; closing it a second time reports an error. */
    method Close() returns (failed: bool)
      modifies this
      ensures closed && sent == old(sent)
      ensures failed == old(closed)
    {
      failed := closed;
      closed := true;
    }
  }

  /** One connected peer. `outbound` is the queue of serialised messages
      waiting to be written, `outboundClosed` whether that queue has been
      closed. */
  class Client {
    const hub: Hub
    const id: string
    const socket: Socket
    var outbound: seq<Bytes>
    var outboundClosed: bool

    /** NewClient: the id is the socket's remote address. */
    constructor (hub: Hub, socket: Socket)
      ensures this.hub == hub && this.socket == socket
      ensures id == socket.remoteAddr
      ensures outbound == [] && !outboundClosed
    {
      this.hub := hub;
      this.socket := socket;
      id := socket.remoteAddr;
      outbound := [];
      outboundClosed := false;
    }

    /** A send on the outbound channel: the message joins the queue's tail. */
    method Enqueue(data: Bytes)
      requires !outboundClosed
      modifies this
      ensures outbound == old(outbound) + [data] && !outboundClosed
    {
      outbound := outbound + [data];
    }

    /** Go's `close(c.outbound)`: closing a closed channel panics. Nothing
        in the repository calls it; it is here so that the close branch of
        `Write` can be reached. Pending messages stay queued. */
    method CloseOutbound()
      requires !outboundClosed
      modifies this
      ensures outboundClosed && outbound == old(outbound)
    {
      outboundClosed := true;
    }

    /** The drain loop: every queued message, oldest first, is written as a
        binary frame; a failed write loses that message only. If the queue
        is closed, one empty close frame is attempted and the loop stops
        (`stopped`); otherwise the drain waits for more (returns with
        `stopped` false). `network(k)` is the network's verdict on the k-th
        write attempt of this call. */
    method Write(network: nat -> bool) returns (stopped: bool)
      modifies this, socket
      ensures outbound == [] && outboundClosed == old(outboundClosed)
      ensures stopped == outboundClosed
      ensures socket.closed == old(socket.closed)
      ensures socket.sent == old(socket.sent)
                             + Delivered(old(outbound), !old(socket.closed), network)
                             + CloseAttempt(outboundClosed, !old(socket.closed), network(|old(outbound)|))
    {
      ghost var pending := outbound;
      var socketOpen := !socket.closed;
      var k := 0;
      while outbound != []
        invariant 0 <= k <= |pending| && outbound == pending[k..]
        invariant socket.closed == !socketOpen
        invariant socket.sent == old(socket.sent) + Delivered(pending[..k], socketOpen, network)
        invariant outboundClosed == old(outboundClosed)
        decreases |outbound|
      {
        var message := outbound[0];
        outbound := outbound[1..];
        var lost := socket.WriteMessage(BinaryMessage, message, network(k));
        assert pending[..k + 1][..k] == pending[..k];
        k := k + 1;
      }
      assert pending[..k] == pending;
      if outboundClosed {
        var lost := socket.WriteMessage(CloseMessage, [], network(k));
        stopped := true;
      } else {
        stopped := false;
      }
    }
  }

  /** The frames a drain of `pending` puts on the wire: the i-th message is
      written iff the socket is open and the i-th write attempt succeeds. */
  function Delivered(pending: seq<Bytes>, socketOpen: bool, network: nat -> bool): seq<Frame>
    decreases |pending|
  {
    if pending == [] then []
    else
      var n := |pending| - 1;
      Delivered(pending[..n], socketOpen, network)
        + (if socketOpen && network(n) then [Frame(BinaryMessage, pending[n])] else [])
  }

  /** A drain writes no more frames than there were messages, and only
      binary frames carrying queued messages. */
  lemma {:induction false} DeliveredFramesComeFromQueue(pending: seq<Bytes>, socketOpen: bool, network: nat -> bool)
    ensures |Delivered(pending, socketOpen, network)| <= |pending|
    ensures forall f | f in Delivered(pending, socketOpen, network) :: f.kind == BinaryMessage && f.payload in pending
    decreases |pending|
  {
    if pending != [] {
      var n := |pending| - 1;
      DeliveredFramesComeFromQueue(pending[..n], socketOpen, network);
      assert forall m | m in pending[..n] :: m in pending;
    }
  }

  /** The close frame, if the queue was closed and writing it succeeds. */
  function CloseAttempt(queueClosed: bool, socketOpen: bool, linkOk: bool): seq<Frame>
  {
    if queueClosed && socketOpen && linkOk then [Frame(CloseMessage, [])] else []
  }

  /** Every message of `msgs`, in order, as binary frames. */
  function BinaryFrames(msgs: seq<Bytes>): (frames: seq<Frame>)
    ensures |frames| == |msgs|
  {
    seq(|msgs|, i requires 0 <= i < |msgs| => Frame(BinaryMessage, msgs[i]))
  }

  lemma BinaryFramesSnoc(msgs: seq<Bytes>, m: Bytes)
    ensures BinaryFrames(msgs + [m]) == BinaryFrames(msgs) + [Frame(BinaryMessage, m)]
  {
  }

  /** A healthy link delivers every queued message once, in enqueue order. */
  lemma {:induction false} DeliveredAllWhenLinkHealthy(msgs: seq<Bytes>, network: nat -> bool)
    requires forall k: nat | k < |msgs| :: network(k)
    ensures Delivered(msgs, true, network) == BinaryFrames(msgs)
    decreases |msgs|
  {
    if msgs != [] {
      var n := |msgs| - 1;
      DeliveredAllWhenLinkHealthy(msgs[..n], network);
      assert msgs == msgs[..n] + [msgs[n]];
      BinaryFramesSnoc(msgs[..n], msgs[n]);
    }
  }

  /** A failed write loses exactly that message: the drain goes on and
      every other message is still delivered, in order. The verdicts here
      are arbitrary; on a websocket connection, whose first write error is
      kept, this shape arises only when j is the last message. */
  lemma {:induction false} LostWriteSkipsOnlyThatMessage(msgs: seq<Bytes>, network: nat -> bool, j: nat)
    requires j < |msgs| && !network(j)
    requires forall k: nat | k < |msgs| && k != j :: network(k)
    ensures Delivered(msgs, true, network) == BinaryFrames(msgs[..j] + msgs[j + 1..])
    decreases |msgs|
  {
    var n := |msgs| - 1;
    var init := msgs[..n];
    assert Delivered(msgs, true, network)
           == Delivered(init, true, network) + (if network(n) then [Frame(BinaryMessage, msgs[n])] else []);
    if j == n {
      DeliveredAllWhenLinkHealthy(init, network);
      assert msgs[..j] + msgs[j + 1..] == init;
    } else {
      LostWriteSkipsOnlyThatMessage(init, network, j);
      var rest := init[..j] + init[j + 1..];
      assert msgs[..j] + msgs[j + 1..] == rest + [msgs[n]];
      BinaryFramesSnoc(rest, msgs[n]);
    }
  }

  /** A websocket connection keeps its first write error: once attempt j
      fails, every later write of the drain fails too, the close frame
      included. The whole call then writes exactly the messages queued
      before the j-th one (j = |msgs| is a failure of the close frame alone). */
  lemma {:induction false} StickyFailureLosesTheRest(msgs: seq<Bytes>, network: nat -> bool, j: nat, queueClosed: bool)
    requires j <= |msgs|
    requires forall k: nat | k < j :: network(k)
    requires forall k: nat | j <= k <= |msgs| :: !network(k)
    ensures Delivered(msgs, true, network) + CloseAttempt(queueClosed, true, network(|msgs|))
            == BinaryFrames(msgs[..j])
    decreases |msgs|
  {
    assert !network(|msgs|);
    if |msgs| == j {
      assert msgs[..j] == msgs;
      DeliveredAllWhenLinkHealthy(msgs, network);
    } else {
      var n := |msgs| - 1;
      StickyFailureLosesTheRest(msgs[..n], network, j, queueClosed);
      assert msgs[..n][..j] == msgs[..j];
    }
  }

  /** Nothing reaches a closed socket: its queued messages are all lost. */
  lemma {:induction false} ClosedSocketReceivesNothing(msgs: seq<Bytes>, network: nat -> bool)
    ensures Delivered(msgs, false, network) == []
    decreases |msgs|
  {
    if msgs != [] {
      ClosedSocketReceivesNothing(msgs[..|msgs| - 1], network);
    }
  }

  /** The index of the LAST client in `cs` whose id is `id`, or -1. */
  function LastIndexWithId(cs: seq<Client>, id: string): (r: int)
    ensures -1 <= r < |cs|
    ensures r == -1 <==> forall j | 0 <= j < |cs| :: cs[j].id != id
    ensures r >= 0 ==> cs[r].id == id && forall j | r < j < |cs| :: cs[j].id != id
    decreases |cs|
  {
    if cs == [] then -1
    else if cs[|cs| - 1].id == id then |cs| - 1
    else LastIndexWithId(cs[..|cs| - 1], id)
  }

  /** The client list after unregistering a client with this id. */
  function Disconnected(cs: seq<Client>, id: string): seq<Client>
  {
    var i := LastIndexWithId(cs, id);
    if i == -1 then cs else cs[..i] + cs[i + 1..]
  }

  /** Unregistering an id that is listed removes exactly one entry, the
      last one with that id; every other entry keeps its relative order. */
  lemma DisconnectRemovesLastMatch(cs: seq<Client>, id: string, i: nat)
    requires i < |cs| && cs[i].id == id
    requires forall j | i < j < |cs| :: cs[j].id != id
    ensures Disconnected(cs, id) == cs[..i] + cs[i + 1..]
    ensures |Disconnected(cs, id)| == |cs| - 1
  {
  }

  /** Unregistering an id nobody has leaves the list as it was. */
  lemma DisconnectUnknownIdIsNoop(cs: seq<Client>, id: string)
    requires forall j | 0 <= j < |cs| :: cs[j].id != id
    ensures Disconnected(cs, id) == cs
  {
  }

  /** Registering a client and then unregistering it restores the list,
      whatever ids the other clients have. */
  lemma ConnectThenDisconnectRestores(cs: seq<Client>, c: Client)
    ensures Disconnected(cs + [c], c.id) == cs
  {
  }

  /** Unregistering twice is harmless when the id is listed at most once:
      the second removal finds nothing. */
  lemma SecondDisconnectIsNoop(cs: seq<Client>, id: string)
    requires forall i, j | 0 <= i < j < |cs| :: cs[i].id == id ==> cs[j].id != id
    ensures Disconnected(Disconnected(cs, id), id) == Disconnected(cs, id)
  {
  }

  /** Removal goes by id, not by reference: when a later client shares the
      id of the one being unregistered, the later one is removed and the
      unregistered one stays listed. */
  lemma DisconnectRemovesByIdNotReference(first: Client, second: Client)
    requires first != second && first.id == second.id
    ensures Disconnected([first, second], first.id) == [first]
  {
  }

  /** The entries of `cs` that a broadcast ignoring `ignore` targets, in
      list order. */
  function Targets(cs: seq<Client>, ignore: Client?): seq<Client>
    decreases |cs|
  {
    if cs == [] then []
    else
      var n := |cs| - 1;
      Targets(cs[..n], ignore) + (if cs[n] != ignore then [cs[n]] else [])
  }

  /** How many copies of one broadcast `c` receives: once per time it is
      listed in `cs`, and never if it is the ignored client. */
  function Received(cs: seq<Client>, ignore: Client?, c: Client): nat
    decreases |cs|
  {
    if cs == [] then 0
    else
      var n := |cs| - 1;
      Received(cs[..n], ignore, c) + (if cs[n] == c && c != ignore then 1 else 0)
  }

  /** One more list entry gives its client, unless ignored, one more copy. */
  lemma ReceivedStep(cs: seq<Client>, i: nat, ignore: Client?)
    requires i < |cs|
    ensures forall c: Client :: Received(cs[..i + 1], ignore, c)
                                == Received(cs[..i], ignore, c) + (if cs[i] == c && c != ignore then 1 else 0)
  {
    assert cs[..i + 1][..i] == cs[..i];
  }

  /** A client receives one copy per time it is listed, and the ignored
      client none. */
  lemma {:induction false} ReceivedCountsListings(cs: seq<Client>, ignore: Client?, c: Client)
    ensures Received(cs, ignore, c) == if c == ignore then 0 else multiset(cs)[c]
    decreases |cs|
  {
    if cs != [] {
      var n := |cs| - 1;
      ReceivedCountsListings(cs[..n], ignore, c);
      assert cs == cs[..n] + [cs[n]];
      assert multiset(cs) == multiset(cs[..n]) + multiset{cs[n]};
    }
  }

  /** The per-client view of the targeted entries: a client's copies are
      its occurrences among them. */
  lemma {:induction false} ReceivedMatchesTargets(cs: seq<Client>, ignore: Client?, c: Client)
    ensures Received(cs, ignore, c) == multiset(Targets(cs, ignore))[c]
    decreases |cs|
  {
    if cs != [] {
      var n := |cs| - 1;
      ReceivedMatchesTargets(cs[..n], ignore, c);
      var extra := if cs[n] != ignore then [cs[n]] else [];
      assert Targets(cs, ignore) == Targets(cs[..n], ignore) + extra;
      assert multiset(Targets(cs, ignore)) == multiset(Targets(cs[..n], ignore)) + multiset(extra);
    }
  }

  /** With no client ignored every listed entry is targeted; an ignored
      client that is listed k times costs exactly k deliveries. */
  lemma {:induction false} TargetsCount(cs: seq<Client>, ignore: Client?)
    ensures ignore == null ==> Targets(cs, ignore) == cs
    ensures ignore != null ==> |Targets(cs, ignore)| == |cs| - Received(cs, null, ignore)
    decreases |cs|
  {
    if cs != [] {
      var n := |cs| - 1;
      TargetsCount(cs[..n], ignore);
      assert cs == cs[..n] + [cs[n]];
    }
  }

  /** The references in `cs` are pairwise distinct. */
  ghost predicate Distinct(cs: seq<Client>)
  {
    forall i, j | 0 <= i < j < |cs| :: cs[i] != cs[j]
  }

  /** In a list without repeated references, a broadcast ignoring nothing
      gives each of the N clients one copy, and one ignoring a listed client
      gives each of the other N - 1 clients one copy and that client none. */
  lemma BroadcastToDistinctClients(cs: seq<Client>, ignore: Client?)
    requires Distinct(cs)
    ensures ignore == null ==> |Targets(cs, ignore)| == |cs|
    ensures ignore != null && ignore in cs ==> |Targets(cs, ignore)| == |cs| - 1
    ensures forall c | c in cs :: Received(cs, ignore, c) == if c == ignore then 0 else 1
  {
    TargetsCount(cs, ignore);
    forall c | c in cs
      ensures Received(cs, ignore, c) == if c == ignore then 0 else 1
    {
      ReceivedCountsListings(cs, ignore, c);
      DistinctListsOnce(cs, c);
    }
    if ignore != null && ignore in cs {
      ReceivedCountsListings(cs, null, ignore);
      DistinctListsOnce(cs, ignore);
    }
  }

  lemma {:induction false} DistinctListsOnce(cs: seq<Client>, c: Client)
    requires Distinct(cs) && c in cs
    ensures multiset(cs)[c] == 1
    decreases |cs|
  {
    var n := |cs| - 1;
    assert cs == cs[..n] + [cs[n]];
    if cs[n] == c {
      assert c !in cs[..n];
    } else {
      DistinctListsOnce(cs[..n], c);
    }
  }

  /** `n` copies of the same bytes. */
  function Copies(data: Bytes, n: nat): (r: seq<Bytes>)
  {
    if n == 0 then [] else Copies(data, n - 1) + [data]
  }

  /** Events delivered to the hub's event loop. */
  datatype Event = Register(client: Client) | Unregister(client: Client)

  /** The client list after applying `events` one at a time. */
  function Replay(cs: seq<Client>, events: seq<Event>): seq<Client>
    decreases |events|
  {
    if events == [] then cs
    else
      var n := |events| - 1;
      var before := Replay(cs, events[..n]);
      match events[n]
      case Register(c) => before + [c]
      case Unregister(c) => Disconnected(before, c.id)
  }

  function RegisterCount(events: seq<Event>): nat
  {
    if events == [] then 0
    else RegisterCount(events[..|events| - 1]) + (if events[|events| - 1].Register? then 1 else 0)
  }

  /** Replaying events changes the list length by at most one per event:
      each register adds one entry and each unregister removes at most
      one. */
  lemma {:induction false} ReplayLengthBounds(cs: seq<Client>, events: seq<Event>)
    ensures |cs| + RegisterCount(events) - (|events| - RegisterCount(events))
            <= |Replay(cs, events)| <= |cs| + RegisterCount(events)
    decreases |events|
  {
    if events != [] {
      var n := |events| - 1;
      ReplayLengthBounds(cs, events[..n]);
      var before := Replay(cs, events[..n]);
      if events[n].Unregister? {
        var i := LastIndexWithId(before, events[n].client.id);
        if i != -1 {
          DisconnectRemovesLastMatch(before, events[n].client.id, i);
        }
      }
    }
  }

  /** A register event followed by an unregister event for the same
      client leaves the event loop's list as it was. */
  lemma RegisterThenUnregisterRestores(cs: seq<Client>, c: Client)
    ensures Replay(cs, [Register(c), Unregister(c)]) == cs
  {
    var events := [Register(c), Unregister(c)];
    assert events[..1] == [Register(c)] && [Register(c)][..0] == [];
    assert Replay(cs, events[..1]) == cs + [c];
    ConnectThenDisconnectRestores(cs, c);
  }

  /** The registry: the list of connected clients. */
  class Hub {
    var clients: seq<Client>

    /** NewHub: no client is connected. */
    constructor ()
      ensures clients == []
    {
      clients := [];
    }

    /** HandleWebSocket, from the upgrade's outcome on: a failed upgrade
        (`None`) registers nothing; a connection becomes a new client that
        is registered. */
    method HandleWebSocket(upgraded: Option<Socket>) returns (client: Client?)
      modifies this
      ensures upgraded.None? ==> client == null && clients == old(clients)
      ensures upgraded.Some? ==>
                client != null && fresh(client)
                && client.socket == upgraded.value && client.id == upgraded.value.remoteAddr
                && client.hub == this && client.outbound == [] && !client.outboundClosed
                && clients == old(clients) + [client]
    {
      if upgraded.None? {
        return null;
      }
      client := new Client(this, upgraded.value);
      OnConnect(client);
    }

    /** The event loop: each register event is handled by OnConnect and
        each unregister event by OnDisconnect, one at a time. */
    method Run(events: seq<Event>)
      modifies this, set e | e in events && e.Unregister? :: e.client.socket
      ensures clients == Replay(old(clients), events)
      ensures forall e | e in events && e.Unregister? :: e.client.socket.closed
      ensures forall e | e in events && e.Unregister? :: e.client.socket.sent == old(e.client.socket.sent)
    {
      for i := 0 to |events|
        invariant clients == Replay(old(clients), events[..i])
        invariant forall e | e in events[..i] && e.Unregister? :: e.client.socket.closed
        invariant forall e | e in events && e.Unregister? :: e.client.socket.sent == old(e.client.socket.sent)
      {
        assert events[..i + 1][..i] == events[..i];
        match events[i]
        case Register(c) =>
          OnConnect(c);
        case Unregister(c) =>
          OnDisconnect(c);
      }
      assert events[..|events|] == events;
    }

    /** Appends the client; there is no duplicate check. */
    method OnConnect(client: Client)
      modifies this
      ensures clients == old(clients) + [client]
    {
      clients := clients + [client];
    }

    /** Closes the client's socket, then removes the last listed client
        with the same id, if any. */
    method OnDisconnect(client: Client)
      modifies this, client.socket
      ensures client.socket.closed && client.socket.sent == old(client.socket.sent)
      ensures clients == Disconnected(old(clients), client.id)
    {
      var closeFailed := client.socket.Close();
      var indexToRemove := -1;
      for index := 0 to |clients|
        invariant indexToRemove == LastIndexWithId(clients[..index], client.id)
      {
        assert clients[..index + 1][..index] == clients[..index];
        if client.id == clients[index].id {
          indexToRemove := index;
        }
      }
      assert clients[..|clients|] == clients;
      if indexToRemove != -1 {
        clients := clients[..indexToRemove] + clients[indexToRemove + 1..];
      }
    }

    /** Serialises `message` once and appends the bytes to the queue of
        every listed client that is not `ignore` (by reference), once per
        time it is listed. */
    method Broadcast<M>(message: M, ignore: Client?, marshal: M -> Bytes)
      requires forall c | c in clients && c != ignore :: !c.outboundClosed
      modifies set c | c in clients
      ensures clients == old(clients)
      ensures forall c | c in clients ::
                c.outboundClosed == old(c.outboundClosed)
                && c.outbound == old(c.outbound) + Copies(marshal(message), Received(clients, ignore, c))
    {
      var data := marshal(message);
      for i := 0 to |clients|
        invariant forall c | c in clients :: c.outboundClosed == old(c.outboundClosed)
        invariant forall c | c in clients :: c.outbound == old(c.outbound) + Copies(data, Received(clients[..i], ignore, c))
      {
        ReceivedStep(clients, i, ignore);
        if clients[i] != ignore {
          clients[i].Enqueue(data);
        }
      }
      assert clients[..|clients|] == clients;
    }
  }
}
