/**
 The authoritative world step of the game server, stated as functions over
 values: one directional move, the clamp to the map walls, coin collection, and
 a whole tick that walks the players in the order the player table iterates.
 The server's class is proved against these functions.
 */
module Physics {
  import opened Protocol

  const MapWidth: int := 800
  const MapHeight: int := 600
  const PlayerSpeed: real := 300.0
  /** The collision radius of a player. */
  const PlayerSize: int := 20
  /** The collision radius of a coin. */
  const CoinSize: int := 10
  /** Seconds between two coin spawns. */
  const CoinSpawnRate: real := 3.0

  /** The server's record of one player: position, colour, score and the last
      direction received from its client. */
  datatype Player = Player(x: real, y: real, color: Color, score: nat, input: Option<Direction>)

  /** The part of the world a tick changes. */
  datatype World = World(players: map<nat, Player>, coins: seq<Coin>)


  /** `max(lo, min(hi, v))`. */
  function Clamp(v: real, lo: real, hi: real): (r: real)
    ensures lo <= hi ==> lo <= r <= hi
    ensures lo <= v <= hi ==> r == v
    ensures v < lo ==> r == lo
    ensures lo <= hi < v ==> r == hi
  {
    Max(lo, Min(hi, v))
  }

  /** The unit step of a direction, as (dx, dy); y grows downwards. */
  function Velocity(input: Option<Direction>): (v: (int, int))
  {
    match input
    case None => (0, 0)
    case Some(Up) => (0, -1)
    case Some(Down) => (0, 1)
    case Some(Left) => (-1, 0)
    case Some(Right) => (1, 0)
  }

  /** One directional move of `PlayerSpeed * dt`, before any clamping. */
  function Move(p: Player, dt: real): (q: Player)
    ensures q.color == p.color && q.score == p.score && q.input == p.input
  {
    match p.input
    case None => p
    case Some(Up) => p.(y := p.y - PlayerSpeed * dt)
    case Some(Down) => p.(y := p.y + PlayerSpeed * dt)
    case Some(Left) => p.(x := p.x - PlayerSpeed * dt)
    case Some(Right) => p.(x := p.x + PlayerSpeed * dt)
  }

  /** A move displaces the player by its direction's unit step times
      `PlayerSpeed * dt`. */
  lemma MoveFollowsVelocity(p: Player, dt: real)
    ensures Move(p, dt).x == p.x + Velocity(p.input).0 as real * PlayerSpeed * dt
    ensures Move(p, dt).y == p.y + Velocity(p.input).1 as real * PlayerSpeed * dt
  {
  }

  /** A move changes at most one coordinate, and exactly one whenever there is
      an input and the player actually travels. */
  lemma MoveIsAxisAligned(p: Player, dt: real)
    ensures Move(p, dt).x == p.x || Move(p, dt).y == p.y
    ensures p.input.None? ==> Move(p, dt) == p
    ensures p.input.Some? && dt != 0.0 ==> Move(p, dt) != p
    ensures p.input == Some(Up) && dt > 0.0 ==> Move(p, dt).y < p.y
    ensures p.input == Some(Down) && dt > 0.0 ==> Move(p, dt).y > p.y
    ensures p.input == Some(Left) && dt > 0.0 ==> Move(p, dt).x < p.x
    ensures p.input == Some(Right) && dt > 0.0 ==> Move(p, dt).x > p.x
  {
  }

  /** The player's centre keeps one radius away from every wall. */
  predicate InsideWalls(p: Player)
  {
    && PlayerSize as real <= p.x <= (MapWidth - PlayerSize) as real
    && PlayerSize as real <= p.y <= (MapHeight - PlayerSize) as real
  }

  /** The wall clamp applied at the start of a collision check. */
  function Settle(p: Player): (q: Player)
    ensures InsideWalls(q)
    ensures InsideWalls(p) ==> q == p
    ensures q.color == p.color && q.score == p.score && q.input == p.input
  {
    p.(x := Clamp(p.x, PlayerSize as real, (MapWidth - PlayerSize) as real),
       y := Clamp(p.y, PlayerSize as real, (MapHeight - PlayerSize) as real))
  }

  /** The distance between centres is below the sum of the two radii; squared,
      which is the same test for a positive radius. */
  predicate InRange(p: Player, c: Coin)
    ensures InRange(p, c) ==>
      && -(PlayerSize + CoinSize) as real < p.x - c.x as real < (PlayerSize + CoinSize) as real
      && -(PlayerSize + CoinSize) as real < p.y - c.y as real < (PlayerSize + CoinSize) as real
    ensures p.y == c.y as real ==>
      (InRange(p, c) <==> -(PlayerSize + CoinSize) as real < p.x - c.x as real < (PlayerSize + CoinSize) as real)
    ensures p.x == c.x as real ==>
      (InRange(p, c) <==> -(PlayerSize + CoinSize) as real < p.y - c.y as real < (PlayerSize + CoinSize) as real)
  {
    var dx := p.x - c.x as real;
    var dy := p.y - c.y as real;
    SquareBelow(dx, (PlayerSize + CoinSize) as real);
    SquareBelow(dy, (PlayerSize + CoinSize) as real);
    dx * dx + dy * dy < ((PlayerSize + CoinSize) * (PlayerSize + CoinSize)) as real
  }

  /** For a positive radius `r`, `v * v < r * r` iff `v` lies strictly within `r` of 0. */
  lemma SquareBelow(v: real, r: real)
    requires r > 0.0
    ensures v * v >= 0.0
    ensures v * v < r * r <==> -r < v < r
  {
    if v >= r {
      assert v * v >= r * v >= r * r;
    } else if v <= -r {
      assert v * v >= -r * v >= r * r;
    } else if v >= 0.0 {
      assert v * v <= r * v < r * r;
    } else {
      assert v * v <= -r * v < r * r;
    }
  }

  /** The coins a player at `p` leaves behind, in their original order. */
  function Remaining(p: Player, coins: seq<Coin>): (r: seq<Coin>)
    ensures |r| <= |coins|
  {
    if coins == [] then []
    else
      var rest := Remaining(p, coins[..|coins| - 1]);
      var c := coins[|coins| - 1];
      if InRange(p, c) then rest else rest + [c]
  }

  /** A coin is kept iff it was in the list and is out of the player's range. */
  lemma {:induction false} RemainingMembers(p: Player, coins: seq<Coin>)
    ensures forall c :: c in Remaining(p, coins) <==> c in coins && !InRange(p, c)
  {
    if coins != [] {
      RemainingMembers(p, coins[..|coins| - 1]);
      assert coins == coins[..|coins| - 1] + [coins[|coins| - 1]];
    }
  }

  /** The number of coins a player at `p` picks up. */
  function Collected(p: Player, coins: seq<Coin>): nat
  {
    if coins == [] then 0
    else Collected(p, coins[..|coins| - 1]) + (if InRange(p, coins[|coins| - 1]) then 1 else 0)
  }

  /** The score rises by exactly the number of coins removed from the list. */
  lemma {:induction false} CollectedIsRemoved(p: Player, coins: seq<Coin>)
    ensures Collected(p, coins) == |coins| - |Remaining(p, coins)|
  {
    if coins != [] {
      CollectedIsRemoved(p, coins[..|coins| - 1]);
    }
  }

  /** Filtering distributes over concatenation, so kept coins stay in order. */
  lemma {:induction false} RemainingAppend(p: Player, a: seq<Coin>, b: seq<Coin>)
    ensures Remaining(p, a + b) == Remaining(p, a) + Remaining(p, b)
  {
    if b == [] {
      assert a + b == a;
    } else {
      var b' := b[..|b| - 1];
      assert (a + b)[..|a + b| - 1] == a + b';
      RemainingAppend(p, a, b');
    }
  }

  /** A player already clear of every coin leaves the list as it is. */
  lemma {:induction false} RemainingNoneInRange(p: Player, coins: seq<Coin>)
    requires forall c :: c in coins ==> !InRange(p, c)
    ensures Remaining(p, coins) == coins
  {
    if coins != [] {
      RemainingNoneInRange(p, coins[..|coins| - 1]);
    }
  }

  /** The player after collecting: its score credited with the coins it takes. */
  function Credit(p: Player, coins: seq<Coin>): (q: Player)
    ensures q.x == p.x && q.y == p.y && q.color == p.color && q.input == p.input
    ensures q.score == p.score + |coins| - |Remaining(p, coins)|
  {
    CollectedIsRemoved(p, coins);
    p.(score := p.score + Collected(p, coins))
  }

  /** The world after player `pid` moves, hits the walls and collects. */
  function StepPlayer(w: World, pid: nat, dt: real): (w': World)
    requires pid in w.players
    ensures w'.players.Keys == w.players.Keys
    ensures forall id :: id in w.players && id != pid ==> w'.players[id] == w.players[id]
    ensures InsideWalls(w'.players[pid])
    ensures w'.players[pid].score >= w.players[pid].score
    ensures |w'.coins| + w'.players[pid].score == |w.coins| + w.players[pid].score
  {
    var m := Settle(Move(w.players[pid], dt));
    World(w.players[pid := Credit(m, w.coins)], Remaining(m, w.coins))
  }

  /** One tick of movement and collection, players taken in `order`. */
  function Tick(w: World, order: seq<nat>, dt: real): (w': World)
    requires forall id :: id in order ==> id in w.players
    ensures w'.players.Keys == w.players.Keys
    decreases |order|
  {
    if order == [] then w
    else Tick(StepPlayer(w, order[0], dt), order[1..], dt)
  }

  /** Where each player of `order` stands after its move and the wall clamp;
      this does not depend on the coins or on the other players. */
  function Positions(players: map<nat, Player>, order: seq<nat>, dt: real): (ms: seq<Player>)
    requires forall id :: id in order ==> id in players
    ensures |ms| == |order|
    ensures forall j :: 0 <= j < |order| ==> ms[j] == Settle(Move(players[order[j]], dt))
  {
    if order == [] then []
    else [Settle(Move(players[order[0]], dt))] + Positions(players, order[1..], dt)
  }

  /** The coins left once each position in `ms`, first to last, has collected. */
  function Uncollected(ms: seq<Player>, coins: seq<Coin>): (r: seq<Coin>)
    ensures |r| <= |coins|
  {
    if ms == [] then coins
    else Uncollected(ms[1..], Remaining(ms[0], coins))
  }

  /** A coin is left iff it was in the list and no position in `ms` reaches it. */
  lemma {:induction false} UncollectedMembers(ms: seq<Player>, coins: seq<Coin>)
    ensures forall c :: c in Uncollected(ms, coins) <==> c in coins && forall j :: 0 <= j < |ms| ==> !InRange(ms[j], c)
  {
    if ms != [] {
      UncollectedMembers(ms[1..], Remaining(ms[0], coins));
      RemainingMembers(ms[0], coins);
      forall c ensures (forall j :: 0 <= j < |ms| ==> !InRange(ms[j], c)) <==>
        !InRange(ms[0], c) && forall j :: 0 <= j < |ms[1..]| ==> !InRange(ms[1..][j], c)
      {
        if !InRange(ms[0], c) && forall j :: 0 <= j < |ms[1..]| ==> !InRange(ms[1..][j], c) {
          forall j | 0 <= j < |ms| ensures !InRange(ms[j], c) {
            if j > 0 { assert ms[j] == ms[1..][j - 1]; }
          }
        }
      }
    }
  }

  predicate Distinct(s: seq<nat>)
  {
    forall i, j :: 0 <= i < j < |s| ==> s[i] != s[j]
  }

  lemma PositionsFrame(players: map<nat, Player>, players': map<nat, Player>, order: seq<nat>, dt: real)
    requires forall id :: id in order ==> id in players && id in players' && players[id] == players'[id]
    ensures Positions(players, order, dt) == Positions(players', order, dt)
  {
  }

  /** The tail of a duplicate-free order is duplicate-free and lacks the head. */
  lemma DistinctTail(order: seq<nat>)
    requires order != [] && Distinct(order)
    ensures Distinct(order[1..])
    ensures forall id :: id in order[1..] ==> id in order && id != order[0]
  {
    forall id | id in order[1..] ensures id in order && id != order[0] {
      var i :| 0 <= i < |order[1..]| && order[1..][i] == id;
      assert order[i + 1] == id;
    }
  }

  /** A coin survives a tick iff no player's new position is in range of it. */
  lemma {:induction false} TickCoins(w: World, order: seq<nat>, dt: real)
    requires forall id :: id in order ==> id in w.players
    requires Distinct(order)
    ensures Tick(w, order, dt).coins == Uncollected(Positions(w.players, order, dt), w.coins)
    decreases |order|
  {
    if order != [] {
      var w1 := StepPlayer(w, order[0], dt);
      DistinctTail(order);
      TickCoins(w1, order[1..], dt);
      PositionsFrame(w1.players, w.players, order[1..], dt);
    }
  }

  /**
   Player `order[k]` ends the tick at its new position, its score credited with
   exactly the coins in range that no earlier player took: contested coins go to
   whoever comes first in `order`.
   */
  lemma {:induction false} TickPlayer(w: World, order: seq<nat>, dt: real, k: nat)
    requires forall id :: id in order ==> id in w.players
    requires Distinct(order) && k < |order|
    ensures var ms := Positions(w.players, order, dt);
      Tick(w, order, dt).players[order[k]] == Credit(ms[k], Uncollected(ms[..k], w.coins))
    decreases |order|
  {
    var w1 := StepPlayer(w, order[0], dt);
    var rest := order[1..];
    var ms := Positions(w.players, order, dt);
    DistinctTail(order);
    PositionsFrame(w1.players, w.players, rest, dt);
    if k == 0 {
      TickUntouched(w1, rest, dt, order[0]);
      assert ms[..0] == [];
    } else {
      TickPlayer(w1, rest, dt, k - 1);
      assert ms[..k][1..] == ms[1..][..k - 1];
    }
  }

  /** Players outside `order` are left as they were. */
  lemma {:induction false} TickUntouched(w: World, order: seq<nat>, dt: real, id: nat)
    requires forall i :: i in order ==> i in w.players
    requires id in w.players && id !in order
    ensures Tick(w, order, dt).players[id] == w.players[id]
    decreases |order|
  {
    if order != [] {
      assert order[0] != id;
      TickUntouched(StepPlayer(w, order[0], dt), order[1..], dt, id);
    }
  }

  /**
   A coin in range of player `i` and of nobody before it is taken by `i`, and
   every later player finds it gone.
   */
  lemma FirstClaimWins(ms: seq<Player>, coins: seq<Coin>, c: Coin, i: nat)
    requires c in coins && i < |ms|
    requires InRange(ms[i], c)
    requires forall j :: 0 <= j < i ==> !InRange(ms[j], c)
    ensures c in Uncollected(ms[..i], coins)
    ensures c !in Remaining(ms[i], Uncollected(ms[..i], coins))
    ensures forall j :: i < j <= |ms| ==> c !in Uncollected(ms[..j], coins)
  {
    UncollectedMembers(ms[..i], coins);
    RemainingMembers(ms[i], Uncollected(ms[..i], coins));
    forall j | i < j <= |ms| ensures c !in Uncollected(ms[..j], coins) {
      UncollectedMembers(ms[..j], coins);
      assert ms[..j][i] == ms[i];
    }
  }

  /** Where a coin may appear: one coin radius inside every wall. */
  predicate InSpawnArea(x: int, y: int)
  {
    CoinSize <= x <= MapWidth - CoinSize && CoinSize <= y <= MapHeight - CoinSize
  }

  /** Coin ids strictly increase along the list and are below the counter. */
  predicate CoinsValid(coins: seq<Coin>, counter: nat)
  {
    && (forall i, j :: 0 <= i < j < |coins| ==> coins[i].id < coins[j].id)
    && (forall c :: c in coins ==> c.id < counter && InSpawnArea(c.x, c.y))
  }

  predicate AllInsideWalls(players: map<nat, Player>)
  {
    forall id :: id in players ==> InsideWalls(players[id])
  }

  lemma {:induction false} RemainingKeepsCoinsValid(p: Player, coins: seq<Coin>, counter: nat)
    requires CoinsValid(coins, counter)
    ensures CoinsValid(Remaining(p, coins), counter)
  {
    if coins != [] {
      var init := coins[..|coins| - 1];
      var last := coins[|coins| - 1];
      RemainingKeepsCoinsValid(p, init, counter);
      RemainingMembers(p, init);
      RemainingMembers(p, coins);
      forall c | c in Remaining(p, init) ensures c.id < last.id {
        var i :| 0 <= i < |init| && init[i] == c;
        assert coins[i] == c;
      }
    }
  }

  /** A spawned coin with the counter's id keeps the coin list valid. */
  lemma SpawnKeepsCoinsValid(coins: seq<Coin>, counter: nat, x: int, y: int)
    requires CoinsValid(coins, counter) && InSpawnArea(x, y)
    ensures CoinsValid(coins + [Coin(counter, x, y)], counter + 1)
  {
  }

  /** A tick keeps every player inside the walls and the coin list valid. */
  lemma {:induction false} TickKeepsInvariants(w: World, order: seq<nat>, dt: real, counter: nat)
    requires forall id :: id in order ==> id in w.players
    requires AllInsideWalls(w.players) && CoinsValid(w.coins, counter)
    ensures AllInsideWalls(Tick(w, order, dt).players)
    ensures CoinsValid(Tick(w, order, dt).coins, counter)
    decreases |order|
  {
    if order != [] {
      var m := Settle(Move(w.players[order[0]], dt));
      RemainingKeepsCoinsValid(m, w.coins, counter);
      TickKeepsInvariants(StepPlayer(w, order[0], dt), order[1..], dt, counter);
    }
  }

  /** A player 29 units from a coin takes it, 31 does not. */
  lemma CollectionRadius()
    ensures InRange(Player(79.0, 50.0, Color(0, 0, 0), 0, None), Coin(0, 50, 50))
    ensures !InRange(Player(81.0, 50.0, Color(0, 0, 0), 0, None), Coin(0, 50, 50))
  {
  }
}
