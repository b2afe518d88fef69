/**
 The authoritative game server: the player table, the coin list and the two id
 counters, changed in place by the tick, by the connection hooks and by the
 input handler once its artificial delay has passed. Clock readings and random
 draws are parameters; each random draw is constrained to its range.
 */
module Server {
  import opened Protocol
  import opened Physics

  /** The identity of one live connection (one connection is one player). */
  type ConnectionId = nat

  /** The status tag a snapshot carries for a table of `count` players. */
  function GameStatus(count: nat): (s: Status)
    ensures s == Playing <==> count >= 2
    ensures s == WaitingForPlayers <==> count < 2
  {
    if count >= 2 then Playing else WaitingForPlayers
  }

  /** What a snapshot shows of a player: everything but its pending input. */
  function View(p: Player): PlayerView
  {
    PlayerView(p.x, p.y, p.color, p.score)
  }

  /** The colour channels drawn at registration. */
  predicate ColorInRange(c: Color)
  {
    50 <= c.r <= 255 && 50 <= c.g <= 255 && 50 <= c.b <= 255
  }

  /** Order-preserving removal of `id` from a sequence of ids. */
  function Without(s: seq<nat>, id: nat): (r: seq<nat>)
    ensures forall k :: k in r <==> k in s && k != id
  {
    if s == [] then []
    else if s[0] == id then Without(s[1..], id)
    else [s[0]] + Without(s[1..], id)
  }

  /** Removing an id that is not there changes nothing. */
  lemma {:induction false} WithoutAbsent(s: seq<nat>, id: nat)
    requires id !in s
    ensures Without(s, id) == s
  {
    if s != [] {
      WithoutAbsent(s[1..], id);
      assert [s[0]] + s[1..] == s;
    }
  }

  /** Removing the id at position `i` of a duplicate-free order leaves the ids
      before and after it, each side in its original order. */
  lemma {:induction false} WithoutAt(s: seq<nat>, i: nat)
    requires Distinct(s) && i < |s|
    ensures Without(s, s[i]) == s[..i] + s[i + 1..]
  {
    DistinctTail(s);
    if i == 0 {
      WithoutAbsent(s[1..], s[0]);
    } else {
      assert s[1..][i - 1] == s[i];
      WithoutAt(s[1..], i - 1);
      assert [s[0]] + (s[1..][..i - 1] + s[1..][i..]) == s[..i] + s[i + 1..];
    }
  }

  lemma {:induction false} WithoutKeepsDistinct(s: seq<nat>, id: nat)
    requires Distinct(s)
    ensures Distinct(Without(s, id))
  {
    if s != [] {
      DistinctTail(s);
      WithoutKeepsDistinct(s[1..], id);
      var rest := Without(s[1..], id);
      if s[0] != id {
        assert s[0] !in rest;
        forall i, j | 0 <= i < j < |[s[0]] + rest| ensures ([s[0]] + rest)[i] != ([s[0]] + rest)[j] {
          if i == 0 {
            assert ([s[0]] + rest)[j] == rest[j - 1];
          }
        }
      }
    }
  }

  /**
   The bookkeeping of ids: `order` lists each player once, ids are positive and
   below the next id to hand out, and every connection controls its own player.
   */
  ghost predicate Registry(clients: map<ConnectionId, nat>, players: map<nat, Player>, order: seq<nat>, nextPlayerId: nat)
  {
    && Distinct(order)
    && 1 <= nextPlayerId
    && (forall id :: id in players <==> id in order)
    && (forall id :: id in players ==> 1 <= id < nextPlayerId)
    && (forall conn :: conn in clients ==> clients[conn] in players)
    && (forall c1, c2 :: c1 in clients && c2 in clients && c1 != c2 ==> clients[c1] != clients[c2])
  }

  /** The bookkeeping depends on the player table only through its ids. */
  lemma RegistryKeys(clients: map<ConnectionId, nat>, players: map<nat, Player>, players': map<nat, Player>, order: seq<nat>, nextPlayerId: nat)
    requires Registry(clients, players, order, nextPlayerId)
    requires players'.Keys == players.Keys
    ensures Registry(clients, players', order, nextPlayerId)
  {
  }

  /** Admitting a player under the next id keeps the bookkeeping. */
  lemma RegistryAdd(clients: map<ConnectionId, nat>, players: map<nat, Player>, order: seq<nat>, nextPlayerId: nat, conn: ConnectionId, p: Player)
    requires Registry(clients, players, order, nextPlayerId)
    ensures nextPlayerId !in players
    ensures Registry(clients[conn := nextPlayerId], players[nextPlayerId := p], order + [nextPlayerId], nextPlayerId + 1)
  {
    assert nextPlayerId !in order;
  }

  /** Dropping a connection together with its player keeps the bookkeeping. */
  lemma RegistryRemove(clients: map<ConnectionId, nat>, players: map<nat, Player>, order: seq<nat>, nextPlayerId: nat, conn: ConnectionId)
    requires Registry(clients, players, order, nextPlayerId) && conn in clients
    ensures var pid := clients[conn];
      Registry(clients - {conn}, players - {pid}, Without(order, pid), nextPlayerId)
  {
    WithoutKeepsDistinct(order, clients[conn]);
  }

  /** A tick keeps the whole invariant of the server's state. */
  lemma TickKeepsValid(clients: map<ConnectionId, nat>, w: World, w': World, order: seq<nat>, dt: real, nextPlayerId: nat, coinCounter: nat)
    requires Registry(clients, w.players, order, nextPlayerId)
    requires AllInsideWalls(w.players) && CoinsValid(w.coins, coinCounter)
    requires w' == Tick(w, order, dt)
    ensures Registry(clients, w'.players, order, nextPlayerId)
    ensures AllInsideWalls(w'.players) && CoinsValid(w'.coins, coinCounter)
  {
    TickKeepsInvariants(w, order, dt, coinCounter);
    RegistryKeys(clients, w.players, w'.players, order, nextPlayerId);
  }

  /** Whether more than the spawn interval has passed since the last spawn. */
  predicate SpawnDue(lastCoinSpawn: real, now: real)
  {
    now - lastCoinSpawn > CoinSpawnRate
  }

  /**
   The spawn gate: a spawn at `t` (which resets the spawn clock to `t`) rules
   out another until strictly more than the interval has passed; once a spawn
   is due it stays due as the clock advances; and two spawns at readings that
   each made one due are more than the interval apart.
   */
  lemma SpawnGate(last: real, t: real, later: real)
    ensures later <= t + CoinSpawnRate ==> !SpawnDue(t, later)
    ensures SpawnDue(last, t) && t <= later ==> SpawnDue(last, later)
    ensures SpawnDue(last, t) && SpawnDue(t, later) ==> later - last > 2.0 * CoinSpawnRate
  {
  }

  /** The coin list once the spawner has had its turn: one new coin at the
      end, with the counter's id, when a spawn is due. */
  function AfterSpawn(coins: seq<Coin>, coinCounter: nat, due: bool, x: int, y: int): (r: seq<Coin>)
  {
    if due then coins + [Coin(coinCounter, x, y)] else coins
  }

  /** The coin loop of a collision check: every coin in range of `m` scores a
      point, every other coin is kept, in order. */
  method CollectCoins(m: Player, coins: seq<Coin>) returns (p: Player, remainingCoins: seq<Coin>)
    ensures p == Credit(m, coins) && remainingCoins == Remaining(m, coins)
  {
    p := m;
    remainingCoins := [];
    var i := 0;
    while i < |coins|
      invariant 0 <= i <= |coins|
      invariant remainingCoins == Remaining(m, coins[..i])
      invariant p == m.(score := m.score + Collected(m, coins[..i]))
    {
      var coin := coins[i];
      assert p.x == m.x && p.y == m.y;
      if InRange(p, coin) {
        p := p.(score := p.score + 1);
      } else {
        remainingCoins := remainingCoins + [coin];
      }
      assert coins[..i + 1][..i] == coins[..i];
      i := i + 1;
    }
    assert coins[..|coins|] == coins;
    assert p == m.(score := m.score + Collected(m, coins));
  }

  class GameServer {
    /** Live connections and the player each one controls. */
    var clients: map<ConnectionId, nat>
    var players: map<nat, Player>
    /** The order in which `players` was filled, which is the order the
        player table is walked in by a tick. */
    var order: seq<nat>
    var coins: seq<Coin>
    var coinCounter: nat
    var lastCoinSpawn: real
    var nextPlayerId: nat

    ghost predicate Valid()
      reads this
    {
      && Registry(clients, players, order, nextPlayerId)
      && AllInsideWalls(players)
      && CoinsValid(coins, coinCounter)
    }

    constructor (now: real)
      ensures Valid()
      ensures clients == map[] && players == map[] && order == [] && coins == []
      ensures coinCounter == 0 && lastCoinSpawn == now && nextPlayerId == 1
    {
      clients := map[];
      players := map[];
      order := [];
      coins := [];
      coinCounter := 0;
      lastCoinSpawn := now;
      nextPlayerId := 1;
    }

    /** Appends one coin at (x, y) with the counter's id, then bumps the counter. */
    method SpawnCoin(x: int, y: int)
      requires Valid() && InSpawnArea(x, y)
      modifies this`coins, this`coinCounter
      ensures Valid()
      ensures coins == old(coins) + [Coin(old(coinCounter), x, y)]
      ensures coinCounter == old(coinCounter) + 1
    {
      SpawnKeepsCoinsValid(coins, coinCounter, x, y);
      var coin := Coin(coinCounter, x, y);
      coins := coins + [coin];
      coinCounter := coinCounter + 1;
    }

    /** Clamps player `pid` to the walls, then removes every coin in its range
        and credits its score with one point per coin removed. */
    method CheckCollisions(pid: nat)
      requires pid in players
      modifies this`players, this`coins
      ensures var m := Settle(old(players)[pid]);
        && players == old(players)[pid := Credit(m, old(coins))]
        && coins == Remaining(m, old(coins))
    {
      var p := players[pid];
      p := p.(x := Clamp(p.x, PlayerSize as real, (MapWidth - PlayerSize) as real));
      p := p.(y := Clamp(p.y, PlayerSize as real, (MapHeight - PlayerSize) as real));
      assert p == Settle(players[pid]);
      var remainingCoins;
      p, remainingCoins := CollectCoins(p, coins);
      players := players[pid := p];
      coins := remainingCoins;
    }

    /**
     One server tick at clock reading `now`, `dt` seconds after the previous
     one; (spawnX, spawnY) is the random position a coin would take. With fewer
     than two players nothing changes. Otherwise a coin is spawned when more
     than the spawn interval has passed since the last spawn, then every player
     in table order moves, is clamped and collects.
     */
    method Update(dt: real, now: real, spawnX: int, spawnY: int)
      requires Valid() && InSpawnArea(spawnX, spawnY)
      modifies this`players, this`coins, this`coinCounter, this`lastCoinSpawn
      ensures Valid()
      ensures |old(players)| < 2 ==>
        && players == old(players) && coins == old(coins)
        && coinCounter == old(coinCounter) && lastCoinSpawn == old(lastCoinSpawn)
      ensures |old(players)| >= 2 ==>
        var due := SpawnDue(old(lastCoinSpawn), now);
        && lastCoinSpawn == (if due then now else old(lastCoinSpawn))
        && coinCounter == (if due then old(coinCounter) + 1 else old(coinCounter))
        && World(players, coins) == Tick(World(old(players), AfterSpawn(old(coins), old(coinCounter), due, spawnX, spawnY)), order, dt)
    {
      if |players| < 2 {
        return;
      }
      SpawnOnSchedule(now, spawnX, spawnY);
      ghost var start := World(players, coins);
      MovePlayers(dt);
      TickKeepsValid(clients, start, World(players, coins), order, dt, nextPlayerId, coinCounter);
    }

    /** The coin spawner of a tick: one coin once more than the spawn interval
        has passed since the last spawn, which then restarts the interval. */
    method SpawnOnSchedule(now: real, spawnX: int, spawnY: int)
      requires Valid() && InSpawnArea(spawnX, spawnY)
      modifies this`coins, this`coinCounter, this`lastCoinSpawn
      ensures Valid()
      ensures var due := SpawnDue(old(lastCoinSpawn), now);
        && lastCoinSpawn == (if due then now else old(lastCoinSpawn))
        && coinCounter == (if due then old(coinCounter) + 1 else old(coinCounter))
        && coins == AfterSpawn(old(coins), old(coinCounter), due, spawnX, spawnY)
    {
      if now - lastCoinSpawn > CoinSpawnRate {
        SpawnCoin(spawnX, spawnY);
        lastCoinSpawn := now;
      }
    }

    /** The movement part of a tick: each player, in table order, takes one
        step in its pending direction and then goes through the collision check. */
    method MovePlayers(dt: real)
      requires forall id :: id in order ==> id in players
      modifies this`players, this`coins
      ensures World(players, coins) == Tick(World(old(players), old(coins)), order, dt)
    {
      var i := 0;
      while i < |order|
        invariant 0 <= i <= |order|
        invariant players.Keys == old(players).Keys
        invariant forall id :: id in order ==> id in players
        invariant Tick(World(players, coins), order[i..], dt) == Tick(World(old(players), old(coins)), order, dt)
      {
        var pid := order[i];
        MoveAndCollide(pid, dt);
        assert order[i..][1..] == order[i + 1..];
        i := i + 1;
      }
    }

    /** One turn of the tick for player `pid`: a step in its pending
        direction, then the collision check. */
    method MoveAndCollide(pid: nat, dt: real)
      requires pid in players
      modifies this`players, this`coins
      ensures World(players, coins) == StepPlayer(World(old(players), old(coins)), pid, dt)
    {
      players := players[pid := Move(players[pid], dt)];
      CheckCollisions(pid);
    }

    /**
     Admits connection `conn` as a new player with the next id, at the random
     position (x, y) and colour `color`, and answers with its identity.
     */
    method Register(conn: ConnectionId, x: int, y: int, color: Color) returns (reply: ServerMessage)
      requires Valid()
      requires 100 <= x <= 700 && 100 <= y <= 500 && ColorInRange(color)
      modifies this`clients, this`players, this`order, this`nextPlayerId
      ensures Valid()
      ensures reply == Init(old(nextPlayerId)) && old(nextPlayerId) !in old(players)
      ensures nextPlayerId == old(nextPlayerId) + 1
      ensures clients == old(clients)[conn := old(nextPlayerId)]
      ensures players == old(players)[old(nextPlayerId) := Player(x as real, y as real, color, 0, None)]
      ensures order == old(order) + [old(nextPlayerId)]
    {
      var pid := nextPlayerId;
      RegistryAdd(clients, players, order, nextPlayerId, conn, Player(x as real, y as real, color, 0, None));
      nextPlayerId := nextPlayerId + 1;
      clients := clients[conn := pid];
      players := players[pid := Player(x as real, y as real, color, 0, None)];
      order := order + [pid];
      reply := Init(pid);
    }

    /** Drops connection `conn` and its player; coins are left alone, and an
        unknown connection changes nothing. */
    method Unregister(conn: ConnectionId)
      requires Valid()
      modifies this`clients, this`players, this`order
      ensures Valid()
      ensures conn !in old(clients) ==>
        clients == old(clients) && players == old(players) && order == old(order)
      ensures conn in old(clients) ==>
        var pid := old(clients)[conn];
        && clients == old(clients) - {conn}
        && players == old(players) - {pid}
        && order == Without(old(order), pid)
    {
      if conn in clients {
        var pid := clients[conn];
        RegistryRemove(clients, players, order, nextPlayerId, conn);
        clients := clients - {conn};
        players := players - {pid};
        order := Without(order, pid);
      }
    }

    /** The effect of a client message once its inbound delay has passed: an
        input message replaces the sender's pending input; nothing else does. */
    method HandleMessage(conn: ConnectionId, msg: ClientMessage)
      requires Valid()
      modifies this`players
      ensures Valid()
      ensures conn !in clients || msg.Unrecognised? ==> players == old(players)
      ensures conn in clients && msg.Input? ==>
        players == old(players)[clients[conn] := old(players)[clients[conn]].(input := msg.direction)]
    {
      if conn !in clients {
        return;
      }
      var pid := clients[conn];
      if msg.Input? {
        players := players[pid := players[pid].(input := msg.direction)];
      }
    }

    /** The snapshot a tick broadcasts at clock reading `t`, if anyone is connected. */
    function BroadcastState(t: real): (s: Option<Snapshot>)
      reads this
      ensures s.None? <==> clients == map[]
      ensures s.Some? ==>
        && s.value.t == t
        && s.value.players.Keys == players.Keys
        && (forall id :: id in players ==>
              && s.value.players[id].x == players[id].x && s.value.players[id].y == players[id].y
              && s.value.players[id].color == players[id].color && s.value.players[id].score == players[id].score)
        && s.value.coins == coins
        && (|players| >= 2 ==> s.value.status == Playing)
        && (|players| < 2 ==> s.value.status == WaitingForPlayers)
    {
      if clients == map[] then None
      else Some(Snapshot(t, map id | id in players :: View(players[id]), coins, GameStatus(|players|)))
    }
  }
}
