/**
 * `RealtimeMiddleware`: the handshake on `/ws` and the life of one accepted
 * connection: register, announce, receive frames until close or error,
 * unregister, announce again. The receive stream is a sequence of frames; the
 * broadcasts the lifecycle and the handler ask for are appended to `trace`.
 */
module RealtimeMiddleware {
  import opened Wrappers
  import opened Strings
  import opened UserCache
  import opened Connection
  import opened WebSocketManager
  import opened MessageHandler

  /** The parts of `HttpContext` the middleware reads; a missing `token` reads as "". */
  datatype Request = Request(path: string, isWebSocketRequest: bool, token: string)

  datatype Outcome = PassedToNext | StatusCode(code: int) | Served(connectionId: ConnectionId)

  /**
   * One `ReceiveAsync` result: a data chunk, a close frame (section 5.5.1 of
   * RFC 6455), or an exception thrown by the receive.
   */
  datatype Frame = Text(data: seq<byte>) | CloseFrame | ReceiveError

  /**
   * A broadcast asked for: a users-status refresh (with the connection ids
   * registered when it was asked for) or one the message handler requested.
   */
  datatype Event = UsersStatusRefresh(registered: set<ConnectionId>) | Broadcast(request: BroadcastRequest)

  /** The receive buffer: one chunk is at most this many bytes. */
  const BufferSize: nat := 4096

  /** `Request.Path == "/ws"`, which compares paths ignoring (ASCII) case. */
  predicate IsRealtimePath(path: string) {
    |path| == 3 && path[0] == '/' && (path[1] == 'w' || path[1] == 'W') && (path[2] == 's' || path[2] == 'S')
  }

  /** "/ws" matches in any case; a longer, shorter or different path does not. */
  lemma RealtimePathCases()
    ensures IsRealtimePath("/ws") && IsRealtimePath("/WS") && IsRealtimePath("/wS")
    ensures !IsRealtimePath("/") && !IsRealtimePath("/ws/") && !IsRealtimePath("/wss") && !IsRealtimePath("ws")
    ensures !IsRealtimePath("/api/areas")
  {
  }

  predicate ChunksFitBuffer(frames: seq<Frame>) {
    forall i | 0 <= i < |frames| :: frames[i].Text? ==> |frames[i].data| <= BufferSize
  }

  /** The index of the first close frame or receive error, or `|frames|`. */
  function FirstStop(frames: seq<Frame>): (k: nat)
    ensures k <= |frames|
    ensures forall i | 0 <= i < k :: frames[i].Text?
    ensures k < |frames| ==> !frames[k].Text?
  {
    if frames == [] || !frames[0].Text? then 0 else 1 + FirstStop(frames[1..])
  }

  /** The messages the receive loop hands to the handler, in arrival order. */
  function Delivered(frames: seq<Frame>, decode: seq<byte> -> string): seq<string> {
    if frames == [] then []
    else match frames[0]
      case Text(data) => [decode(data)] + Delivered(frames[1..], decode)
      case _ => []
  }

  /** What `HandleMessageAsync` asks the manager to broadcast for one message: one broadcast or none. */
  function BroadcastsFor(sender: WebSocketConnection, message: string, parse: string -> Option<Document>): seq<Event> {
    match HandleMessage(sender, message, parse)
    case Some(b) => [Broadcast(b)]
    case None => []
  }

  /** The broadcasts the handler asks for, one message after another. */
  function Dispatched(sender: WebSocketConnection, messages: seq<string>, parse: string -> Option<Document>): (r: seq<Event>)
    // at most one broadcast per message, and never a status refresh
    ensures |r| <= |messages|
    ensures forall i | 0 <= i < |r| :: r[i].Broadcast?
  {
    if messages == [] then []
    else
      var n := |messages|;
      Dispatched(sender, messages[..n - 1], parse) + BroadcastsFor(sender, messages[n - 1], parse)
  }

  /**
   * Exactly the text chunks before the first close frame or receive error are
   * decoded and handed over, in order; nothing after it is.
   */
  lemma {:induction false} DeliveredIsPrefix(frames: seq<Frame>, decode: seq<byte> -> string)
    ensures |Delivered(frames, decode)| == FirstStop(frames)
    ensures forall i | 0 <= i < FirstStop(frames) :: Delivered(frames, decode)[i] == decode(frames[i].data)
  {
    if frames != [] && frames[0].Text? {
      DeliveredIsPrefix(frames[1..], decode);
      var d := Delivered(frames, decode);
      forall i | 0 < i < FirstStop(frames) ensures d[i] == decode(frames[i].data) {
        assert d[i] == Delivered(frames[1..], decode)[i - 1];
        assert frames[1..][i - 1] == frames[i];
      }
    }
  }

  /** A run of text frames followed by anything delivers the run, then what follows delivers. */
  lemma {:induction false} DeliveredSplit(a: seq<Frame>, b: seq<Frame>, decode: seq<byte> -> string)
    requires forall i | 0 <= i < |a| :: a[i].Text?
    ensures Delivered(a + b, decode) == Delivered(a, decode) + Delivered(b, decode)
  {
    if a == [] {
      assert a + b == b;
    } else {
      assert (a + b)[1..] == a[1..] + b;
      DeliveredSplit(a[1..], b, decode);
    }
  }

  /** One more data frame delivers one more decoded message. */
  lemma DeliveredStep(frames: seq<Frame>, i: nat, decode: seq<byte> -> string)
    requires i < |frames|
    requires forall j | 0 <= j <= i :: frames[j].Text?
    ensures Delivered(frames[..i + 1], decode) == Delivered(frames[..i], decode) + [decode(frames[i].data)]
  {
    DeliveredSplit(frames[..i], [frames[i]], decode);
    assert frames[..i + 1] == frames[..i] + [frames[i]];
    assert Delivered([frames[i]], decode) == [decode(frames[i].data)] + Delivered([], decode);
  }

  /** Frames after a close frame or a receive error deliver nothing. */
  lemma DeliveredStops(frames: seq<Frame>, i: nat, decode: seq<byte> -> string)
    requires i <= |frames|
    requires forall j | 0 <= j < i :: frames[j].Text?
    requires i < |frames| ==> !frames[i].Text?
    ensures Delivered(frames, decode) == Delivered(frames[..i], decode)
  {
    DeliveredSplit(frames[..i], frames[i..], decode);
    assert frames[..i] + frames[i..] == frames;
    if i < |frames| {
      assert frames[i..][0] == frames[i];
    }
  }

  /** One more message adds the handler's decision on it. */
  lemma DispatchedStep(sender: WebSocketConnection, messages: seq<string>, msg: string, parse: string -> Option<Document>)
    ensures Dispatched(sender, messages + [msg], parse) == Dispatched(sender, messages, parse) + BroadcastsFor(sender, msg, parse)
  {
    assert (messages + [msg])[..|messages|] == messages;
  }

  class RealtimeMiddleware {
    const manager: WebSocketManager
    /** The next value `Guid.NewGuid()` stands for. */
    var nextConnectionId: ConnectionId
    /** Every connection id handed out so far. */
    ghost var issued: set<ConnectionId>
    var trace: seq<Event>

    ghost predicate Valid()
      reads this, manager
    {
      && manager.Valid()
      && manager.connections.Keys <= issued
      && (forall id | id in issued :: id < nextConnectionId)
    }

    constructor (manager: WebSocketManager)
      requires manager.Valid() && manager.connections == map[]
      ensures Valid() && this.manager == manager && trace == [] && issued == {}
    {
      this.manager := manager;
      nextConnectionId := 0;
      issued := {};
      trace := [];
    }

    /**
     * `HandleConnectionAsync`: while the socket is open (while frames remain),
     * receive a chunk; a close frame or a receive error ends the loop, any other
     * chunk is decoded as a whole message and handed to the handler.
     */
    method HandleConnection(connection: WebSocketConnection, frames: seq<Frame>,
                            parse: string -> Option<Document>, decode: seq<byte> -> string)
      modifies this
      ensures trace == old(trace) + Dispatched(connection, Delivered(frames, decode), parse)
      ensures nextConnectionId == old(nextConnectionId) && issued == old(issued)
    {
      var i := 0;
      ghost var handled: seq<string> := [];
      while i < |frames|
        invariant 0 <= i <= |frames|
        invariant forall j | 0 <= j < i :: frames[j].Text?
        invariant handled == Delivered(frames[..i], decode)
        invariant trace == old(trace) + Dispatched(connection, handled, parse)
        invariant nextConnectionId == old(nextConnectionId) && issued == old(issued)
      {
        if !frames[i].Text? {
          break;
        }
        var msg := decode(frames[i].data);
        DeliveredStep(frames, i, decode);
        DispatchedStep(connection, handled, msg, parse);
        trace := trace + BroadcastsFor(connection, msg, parse);
        handled := handled + [msg];
        i := i + 1;
      }
      DeliveredStops(frames, i, decode);
    }

    /**
     * `InvokeAsync`: other paths go to the next middleware; `/ws` without an
     * upgrade gets 400; a blank or invalid token gets 401; otherwise the socket is
     * accepted and the connection runs its life, leaving the registry as it found it.
     */
    method InvokeAsync(request: Request, validate: string -> Option<UserId>,
                       parse: string -> Option<Document>, decode: seq<byte> -> string,
                       socketHandle: nat, frames: seq<Frame>)
      returns (outcome: Outcome)
      requires Valid()
      requires ChunksFitBuffer(frames)
      modifies this, manager
      ensures Valid()
      ensures manager.userCache.cachedUsers == old(manager.userCache.cachedUsers)
      ensures manager.connections == old(manager.connections)
      ensures !IsRealtimePath(request.path) ==>
        outcome == PassedToNext && trace == old(trace) && issued == old(issued)
      ensures IsRealtimePath(request.path) && !request.isWebSocketRequest ==>
        outcome == StatusCode(400) && trace == old(trace) && issued == old(issued)
      ensures IsRealtimePath(request.path) && request.isWebSocketRequest &&
              (IsNullOrWhiteSpace(Some(request.token)) || validate(request.token).None?) ==>
        outcome == StatusCode(401) && trace == old(trace) && issued == old(issued)
      ensures IsRealtimePath(request.path) && request.isWebSocketRequest &&
              !IsNullOrWhiteSpace(Some(request.token)) && validate(request.token).Some? ==>
        var id := old(nextConnectionId);
        var connection := NewConnection(validate(request.token).value, WebSocket(socketHandle, Open), id);
        && outcome == Served(id)
        && id !in old(issued) && issued == old(issued) + {id}
        && trace == old(trace)
             + [UsersStatusRefresh(old(manager.connections.Keys) + {id})]
             + Dispatched(connection, Delivered(frames, decode), parse)
             + [UsersStatusRefresh(old(manager.connections.Keys))]
    {
      if !IsRealtimePath(request.path) {
        return PassedToNext;
      }
      if !request.isWebSocketRequest {
        return StatusCode(400);
      }
      var userId := validate(request.token);
      if IsNullOrWhiteSpace(Some(request.token)) || userId.None? {
        return StatusCode(401);
      }
      ghost var before := manager.connections;
      var socket := WebSocket(socketHandle, Open);
      var connection := NewConnection(userId.value, socket, nextConnectionId);
      assert connection.connectionId !in before;
      nextConnectionId := nextConnectionId + 1;
      issued := issued + {connection.connectionId};
      manager.AddConnection(connection);
      assert manager.connections.Keys == before.Keys + {connection.connectionId};
      trace := trace + [UsersStatusRefresh(manager.connections.Keys)];
      HandleConnection(connection, frames, parse, decode);
      manager.RemoveConnection(connection.connectionId);
      assert manager.connections == before;
      trace := trace + [UsersStatusRefresh(manager.connections.Keys)];
      outcome := Served(connection.connectionId);
    }
  }
}
