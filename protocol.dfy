/**
 Values shared by the game server and its clients: the entities of the world as
 they travel on the wire, and the messages exchanged over a connection.
 */
module Protocol {

  datatype Option<T> = None | Some(value: T)

  function Max(a: real, b: real): real { if a >= b then a else b }
  function Min(a: real, b: real): real { if a <= b then a else b }

  /** A directional intent; the absence of one (`None`) means "stop". */
  datatype Direction = Up | Down | Left | Right

  /** An opaque display colour, fixed when a player joins. */
  datatype Color = Color(r: int, g: int, b: int)

  /** A collectible; its id and its position never change after it is spawned. */
  datatype Coin = Coin(id: nat, x: int, y: int)

  /** The status tag of a snapshot; `Connecting` is the client's own placeholder
      for "nothing received yet" and never comes from the server. */
  datatype Status = WaitingForPlayers | Playing | Connecting

  /** The projection of a player that a snapshot carries. */
  datatype PlayerView = PlayerView(x: real, y: real, color: Color, score: nat)

  /** A complete copy of the world at one server instant `t`. */
  datatype Snapshot = Snapshot(t: real, players: map<nat, PlayerView>, coins: seq<Coin>, status: Status)

  /** Client to server: an input message, or anything the server discards
      (another type, a missing field, text that does not decode). */
  datatype ClientMessage = Input(direction: Option<Direction>) | Unrecognised

  /** Server to client: the identity assignment, a state snapshot, or a message
      that carries neither. */
  datatype ServerMessage = Init(id: nat) | State(snapshot: Snapshot) | Other
}
