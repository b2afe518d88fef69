# Coin collector: a verified model of the authoritative server and the interpolating client

The game is a two-or-more player coin collector. An authoritative server owns
the world: the player table, the coin list and two id counters. On every tick
it spawns coins on a timer, moves each player one step in its pending
direction, clamps the player to the map walls, and hands out the coins within
the collision radius. It stores each player's direction as input messages
arrive, and broadcasts a full snapshot of the world to every connection. The
client buffers those snapshots with their local arrival times. It renders the
world a fixed 0.1 s in the past by blending player positions between the two
oldest buffered snapshots. It tells the server its held direction only when
that direction changes.

The project has five modules:

- `Protocol` (`protocol.dfy`) holds the values on the wire: directions, coins, player views, snapshots and both kinds of message.
- `Physics` (`physics.dfy`) holds the tick as pure functions over a `World` value: `Move`, `Settle` (the wall clamp), `Remaining` and `Credit` (coin collection), `StepPlayer` and `Tick`. It also holds the lemmas about them: who gets a contested coin, what survives a tick, and which invariants a tick keeps.
- `Server` (`server.dfy`) holds the class `GameServer`. Its fields are changed in place by `Update`, `Register`, `Unregister` and `HandleMessage`. `Update` and the collision check are proved against the `Physics` functions. The connection hooks and the input handler state the new tables outright. The class invariant `Valid()` covers three things. Every player stays inside the walls. Coin ids strictly increase and stay below the counter. The id bookkeeping stays consistent: one player per connection, fresh positive ids, and `order` listing each player once.
- `Interpolation` (`interpolation.dfy`) holds the client's rendering as functions: `Lerp`, `Alpha`, `InterpolatePlayers`, `Trim` (dropping stale snapshots) and `Render`.
- `Client` (`client.dfy`) holds the class `GameClient`. Its methods `Receive`, `PollInput` and `GetRenderState` change the buffer and the reported input in place. They are proved against `Interpolation` and against `ChooseDirection` and `InputChange`.

Clock readings (`now`, `dt`, `t`) and random draws are method parameters. A
random draw's range becomes a precondition. For example, `Register` takes a
position in [100, 700] x [100, 500] and colour channels in [50, 255], and
`Update` takes a spawn position one coin radius inside the walls.

Python dicts iterate in insertion order. The server's player table is walked
in that order on every tick, and the order decides who takes a coin that two
players reach in the same tick. The model keeps that order explicitly, as the
`order` sequence of `GameServer`. Registration appends to it and
unregistration removes one id without disturbing the others.

## Model

| member | source | states |
|---|---|---|
| Physics.Clamp | server.py:45-46 | `max(lo, min(hi, v))` lies in [lo, hi]. It is `v` itself when `v` is already inside, `lo` below the range and `hi` above it. |
| Physics.Move | server.py:76-81 | A move never changes colour, score or pending input. |
| Physics.MoveFollowsVelocity | server.py:76-81 | A move displaces the player by its direction's unit vector times `PLAYER_SPEED * dt`. Up decreases y, down increases y, left decreases x and right increases x. No input means no displacement. |
| Physics.MoveIsAxisAligned | server.py:76-81 | A move changes at most one coordinate. With no input the player is unchanged. With an input and a non-zero `dt` it moves, and for positive `dt` it moves in the named direction. |
| Physics.Settle | server.py:44-46 | After the wall clamp the player is at least `PLAYER_SIZE` away from every wall. A player already inside is left as it was, and only the position changes. |
| Physics.Remaining | server.py:48-62 | The coins left behind are never more than the coins before. |
| Physics.InRange | server.py:51-55 | A coin in range lies strictly within `PLAYER_SIZE + COIN_SIZE` (30 units) of the player on each axis. When the two centres share an axis, the test is exactly "distance along the other axis below 30". |
| Physics.RemainingMembers | server.py:50-60 | A coin stays iff it was in the list and the player's centre is not strictly within `PLAYER_SIZE + COIN_SIZE` of it. |
| Physics.RemainingAppend | server.py:49-62 | Collection filters the list in order: it distributes over concatenation, so the kept coins keep their relative order. |
| Physics.RemainingNoneInRange | server.py:50-60 | A player in range of no coin leaves the coin list exactly as it was. |
| Physics.CollectedIsRemoved | server.py:55-62 | The number of points scored equals the number of coins removed from the list. |
| Physics.Credit | server.py:55-57 | The collecting player's score grows by exactly the number of coins removed. Position, colour and input are unchanged. |
| Physics.StepPlayer | server.py:75-83 | One player's turn in a tick keeps the set of player ids and leaves every other player untouched. The player ends inside the walls, and its score does not decrease. Score plus remaining coins is conserved. |
| Physics.Tick | server.py:75-83 | A tick keeps the set of player ids. |
| Physics.Positions | server.py:76-83 | Lists, for each id of the order, that player's position after its move and the wall clamp. The position depends only on that player's record, not on the coins or on other players. `Physics.TickPlayer` ties these positions to the state after the tick. |
| Physics.Uncollected | server.py:75-83 | Passing the coins through a series of collecting positions never adds coins. |
| Physics.UncollectedMembers | server.py:75-83 | A coin survives a series of collecting positions iff it was present and none of those positions is in range of it. |
| Physics.TickCoins | server.py:75-83 | The coin list after a tick is the original list filtered by every player's new position. |
| Physics.TickPlayer | server.py:75-83 | The k-th player in table order ends the tick at its clamped new position. Its score is credited with exactly the coins in its range that no earlier player took. |
| Physics.TickUntouched | server.py:75-83 | A player not walked in the tick is left unchanged. |
| Physics.FirstClaimWins | server.py:50-62 | A coin reached by several players goes to the first one in table order. It is still there when that player's turn comes, and every later player finds it gone. |
| Physics.RemainingKeepsCoinsValid | server.py:48-62 | Collection keeps coin ids strictly increasing, below the counter and inside the spawn area. |
| Physics.SpawnKeepsCoinsValid | server.py:32-39 | Appending a coin with the counter's id, then bumping the counter, keeps the coin list valid. |
| Physics.TickKeepsInvariants | server.py:64-83 | A whole tick keeps every player inside the walls and the coin list valid. |
| Physics.CollectionRadius | server.py:51-55 | The collision test is strict at 30 units: a player 29 units from a coin takes it, and one 31 units away does not. |
| Server.GameStatus | server.py:93 | The status is `PLAYING` iff there are at least two players, and `WAITING_FOR_PLAYERS` otherwise. |
| Server.Without | server.py:151-153 | Removing one id from the iteration order keeps exactly the other ids. |
| Server.WithoutAt | server.py:151-153 | Removing the id at position `i` of the iteration order leaves the ids before and after it, in their original relative order, as `dict.pop` does. |
| Server.WithoutAbsent | server.py:151-153 | Removing an id that is not in the iteration order changes nothing. |
| Server.WithoutKeepsDistinct | server.py:151-153 | Removing an id keeps the iteration order free of duplicates. |
| Server.RegistryAdd | server.py:129-141 | The next player id is never in use, and admitting a connection under it keeps the id bookkeeping consistent. |
| Server.RegistryRemove | server.py:150-154 | Dropping a connection together with its player keeps the id bookkeeping consistent. |
| Server.SpawnGate | server.py:70-72 | Once a spawn at `t` resets the spawn clock, no further spawn is due until strictly more than `COIN_SPAWN_RATE` has passed. A due spawn stays due as the clock advances. If a spawn is due at `t` counting from `last`, and the next one is due at `later` counting from `t`, then `later` is more than two intervals after `last`. |
| Server.TickKeepsValid | server.py:64-83 | A tick keeps the server's whole invariant. |
| Server.GameServer.constructor | server.py:22-30 | A new server has no clients, players or coins. Its coin counter is 0, its last spawn time is the clock reading, and the next player id is 1. |
| Server.GameServer.SpawnCoin | server.py:32-39 | Appends one coin with the counter's id at the drawn position, bumps the counter, and keeps the invariant. |
| Server.GameServer.CheckCollisions | server.py:41-62 | The player is replaced by its clamped self, credited with the coins in range. The coin list becomes the clamped player's remaining coins. |
| Server.CollectCoins | server.py:48-62 | The coin loop yields exactly `Credit` of the clamped player and `Remaining` of the coin list. |
| Server.GameServer.Update | server.py:64-83 | With fewer than two players nothing changes. Otherwise a coin is spawned iff more than `COIN_SPAWN_RATE` has passed since the last spawn, and the spawn clock and counter advance with it. Then the world becomes `Tick` of the world in table order. The invariant is kept. |
| Server.GameServer.SpawnOnSchedule | server.py:69-72 | A coin is appended and the spawn time reset iff the interval has strictly elapsed. Otherwise nothing changes. |
| Server.GameServer.MovePlayers | server.py:75-83 | The loop over the player table yields exactly `Tick` of the world before it. |
| Server.GameServer.MoveAndCollide | server.py:76-83 | One loop iteration yields exactly `StepPlayer` for that player. |
| Server.GameServer.Register | server.py:129-148 | The connection gets the next id, which was not in use. The player joins with zero score and no input at the end of the iteration order. The reply is the `init` message with that id. The counter advances and the invariant is kept. |
| Server.GameServer.Unregister | server.py:150-154 | A known connection is removed together with its player. The order of the others is kept and the coins are untouched. An unknown connection changes nothing. |
| Server.GameServer.HandleMessage | server.py:115-124 | From a known connection, an input message replaces that player's pending direction and nothing else. An unknown sender or any other message changes nothing. |
| Server.GameServer.BroadcastState | server.py:85-94 | No snapshot is sent iff nobody is connected. Otherwise the snapshot carries the clock reading and every player under its own id, with the same position, colour and score. It also carries the coin list. Its status is `PLAYING` with two players or more and `WAITING_FOR_PLAYERS` otherwise. |
| Interpolation.Lerp | client.py:31-32 | Blending returns the start at alpha 0 and the end at alpha 1. |
| Interpolation.LerpBetween | client.py:31-32 | For alpha in [0, 1] the blend lies between its two ends, whichever of them is larger. |
| Interpolation.Alpha | client.py:54-58 | The blend factor is in [0, 1]. It is 1 when the newer snapshot did not arrive strictly later, 0 at or before the older arrival, and 1 at or after the newer one. In between it is the exact fraction of the interval elapsed. |
| Interpolation.Blend | client.py:64-75 | A player seen in both snapshots takes the newer colour and score. It is at its older position at alpha 0 and at its newer position at alpha 1. |
| Interpolation.InterpolatePlayers | client.py:60-78 | The interpolated players are exactly the newer snapshot's players. |
| Interpolation.InterpolateContract | client.py:62-78 | A player only in the newer snapshot is shown as the newer snapshot has it. A player in both takes the newer colour and score, and its position lies between its two positions. |
| Interpolation.InterpolateAtOne | client.py:62-78 | At alpha 1 the newer snapshot's players come out unchanged. |
| Interpolation.InterpolateAtZero | client.py:62-75 | At alpha 0 a player seen in both snapshots stands at its older position. |
| Interpolation.Trim | client.py:43-44 | The trimmed buffer is a suffix of the buffer. A buffer of two or fewer entries is untouched, and at least two entries remain when there were more. On exit, either at most two entries remain or the second arrived no earlier than the render time. |
| Interpolation.TrimDropsOnlyStale | client.py:43-44 | Each dropped entry's successor arrived before the render time. |
| Interpolation.TrimIdempotent | client.py:43-44 | Trimming again at the same render time drops nothing more. |
| Interpolation.Render | client.py:46-80 | An empty buffer gives the `CONNECTING` placeholder with no players or coins. A single entry is shown verbatim. Otherwise the frame has the newer entry's player ids, coins and status. |
| Interpolation.RenderPlayerPosition | client.py:51-75 | A player present in both of the two oldest entries is drawn between its two positions, with the newer colour and score. It is at its older position up to the older arrival and at its newer position from the newer arrival on. It is at the newer position outright when the newer entry did not arrive later. |
| Interpolation.RenderIdempotent | client.py:41-80 | Rendering twice at the same clock reading gives the same buffer and the same frame. |
| Interpolation.HalfwayExample | client.py:51-75 | A player moving from x 100 to x 200 between two arrivals 0.1 s apart is drawn at x 150 halfway between them. |
| Client.ChooseDirection | client.py:125-130 | No direction is chosen iff no movement key is held. Otherwise the chosen direction is held, and no direction tested before it (up, down, left, right) is held. |
| Client.InputChange | client.py:132-135 | A message is sent iff the chosen direction differs from the one last reported. It is an input message carrying the new direction. |
| Client.SteadyKeysSendOnce | client.py:132-135 | Once a change is reported, holding the same keys sends nothing more. |
| Client.ReleaseSendsStop | client.py:125-135 | Releasing every key sends one "stop" input iff the player had a direction, and nothing otherwise. |
| Client.GameClient.constructor | client.py:23-29 | A new client has no id, an empty buffer and no reported input. |
| Client.GameClient.Receive | client.py:149-164 | An `init` message sets the id. A message with players is appended to the buffer with the local arrival time. Anything else changes nothing. |
| Client.GameClient.PollInput | client.py:125-135 | The reported direction becomes the chosen one, and the message returned is exactly `InputChange` of the previous one. |
| Client.GameClient.GetRenderState | client.py:34-80 | The buffer is trimmed at `now - 0.1`, and the frame is `Render` of the trimmed buffer at that time. |
| Client.GameClient.DropStale | client.py:43-44 | The popping loop leaves exactly `Trim` of the buffer. |
| Client.BlendFactor | client.py:54-58 | The step-by-step blend factor equals `Alpha`. |
| Client.BlendPlayers | client.py:60-78 | The loop over the newer snapshot's players builds exactly `InterpolatePlayers`. |

## Left out

- Networking is not modelled: sockets, the websocket library and JSON encoding and decoding. Messages are the datatypes of `Protocol`, and undecodable text is `Unrecognised`.
- The artificial 200 ms delays and the task scheduling in `delayed_broadcast`, `handle_client_message` and the handlers are not modelled, because they are asyncio timing. `HandleMessage` models the state change once the delay has passed, and `BroadcastState` models the snapshot that is sent. Which task runs first, and connections closing while a task is asleep, are not modelled.
- The clock (`time.time()`), `dt` and random draws are parameters, because they are I/O. The tick pacing in `game_loop` and the 60 FPS sleep of the client are left out.
- Python floats are modelled as exact reals, so rounding in `PLAYER_SPEED * dt`, in `math.sqrt` and in the interpolation is not captured. The collision test compares squared distances, which is the same test as comparing the square root on exact reals.
- Direction strings other than the four known ones are not modelled: `Direction` has only four values. A message of type `input` with an unknown direction stores that string on the server, which then moves nobody, just like no direction.
- `Server.GameServer.BroadcastState`: a snapshot as sent also carries each player's pending `input`, because the server serialises its whole player record. The model's snapshot omits that field, and the client never reads it.
- Player ids become strings after a JSON round trip, so the client's `draw` compares `int(pid)`. The model keeps ids as numbers throughout.
- Drawing (`draw`, pygame initialisation, window captions, fonts) is not modelled, because it is presentation with no state the game reads back. The `connected`, `running`, `start_time` and `last_input_sent` fields are not modelled either, because nothing reads them.
- Logging through `print` is not modelled. Nothing in the game reads it back.
- Exceptions that end the client's receive loop are not modelled. A failed send is not modelled either.
- Python's `if not pid` in the message handler is modelled as "the connection is unknown", because ids start at 1 and are never 0. Likewise `if pid` in `unregister`.
- `Server.GameServer.CheckCollisions` and `Server.GameServer.HandleMessage` require the player to exist, or check that it exists. The Python code would raise `KeyError` for a missing player, but no caller can reach that case while the registry invariant holds.
