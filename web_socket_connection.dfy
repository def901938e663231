/**
 * `WebSocketConnection`: one accepted socket of one user. Its fields are set once,
 * when it is built, so it is a value; `IsAlive` is derived from the socket state.
 */
module Connection {
  import opened UserCache

  /** `Guid ConnectionId`; `Guid.NewGuid()` is modelled by the caller drawing unused ids. */
  type ConnectionId = nat

  newtype byte = x: int | 0 <= x < 256

  /** `System.Net.WebSockets.WebSocketState`. */
  datatype WebSocketState = NoState /* WebSocketState.None */ | Connecting | Open | CloseSent | CloseReceived | Closed | Aborted

  /** The transport handle: an identity and the state it is in. */
  datatype WebSocket = WebSocket(handle: nat, state: WebSocketState)

  datatype WebSocketConnection = WebSocketConnection(connectionId: ConnectionId, userId: UserId, socket: WebSocket) {
    /** `IsAlive => Socket.State == WebSocketState.Open` */
    predicate IsAlive() {
      socket.state == Open
    }
  }

  /** `new WebSocketConnection(userId, socket)`, given the id `Guid.NewGuid()` produced. */
  function NewConnection(userId: UserId, socket: WebSocket, newGuid: ConnectionId): (c: WebSocketConnection)
    ensures c.userId == userId && c.socket == socket && c.connectionId == newGuid
    ensures c.IsAlive() <==> socket.state == Open
  {
    WebSocketConnection(newGuid, userId, socket)
  }
}
