/**
 The client's view of time: a buffer of received snapshots, each tagged with
 its local arrival time, trimmed from the front and read as the two oldest
 entries, between which player positions are blended linearly.
 */
module Interpolation {
  import opened Protocol

  /** How far behind the local clock the client renders, in seconds. */
  const InterpolationOffset: real := 0.1

  /** A received snapshot and the local clock reading when it arrived. */
  datatype BufferEntry = BufferEntry(snapshot: Snapshot, recvTime: real)

  /** What one render call yields: players, coins and the status tag. */
  datatype Frame = Frame(players: map<nat, PlayerView>, coins: seq<Coin>, status: Status)


  /** `v` lies on the segment between `a` and `b`, in either orientation. */
  predicate Between(v: real, a: real, b: real)
  {
    (a <= v <= b) || (b <= v <= a)
  }

  /** Linear blend from `start` (alpha 0) to `end` (alpha 1). */
  function Lerp(start: real, end: real, alpha: real): (r: real)
    ensures alpha == 0.0 ==> r == start
    ensures alpha == 1.0 ==> r == end
  {
    start + (end - start) * alpha
  }

  /** Blending from `a` towards a later `b` by a factor in [0, 1] ends up
      between the two. */
  lemma LerpUp(a: real, b: real, alpha: real)
    requires a <= b && 0.0 <= alpha <= 1.0
    ensures a <= Lerp(a, b, alpha) <= b
  {
    var d := b - a;
    assert d * alpha >= 0.0;
    assert d * (1.0 - alpha) >= 0.0;
    assert d * (1.0 - alpha) == d - d * alpha;
  }

  /** The mirror image of `LerpUp`, for an endpoint `b` below `a`. */
  lemma LerpDown(a: real, b: real, alpha: real)
    requires b <= a && 0.0 <= alpha <= 1.0
    ensures b <= Lerp(a, b, alpha) <= a
  {
    var d := a - b;
    assert d * alpha >= 0.0;
    assert d * (1.0 - alpha) >= 0.0;
    assert d * (1.0 - alpha) == d - d * alpha;
    assert (b - a) * alpha == -(d * alpha);
  }

  /** For a factor in [0, 1] the blend stays on the segment between its ends. */
  lemma LerpBetween(start: real, end: real, alpha: real)
    requires 0.0 <= alpha <= 1.0
    ensures Between(Lerp(start, end, alpha), start, end)
  {
    if start <= end {
      LerpUp(start, end, alpha);
    } else {
      LerpDown(start, end, alpha);
    }
  }

  /**
   The blend factor for `renderTime` between two arrivals: the fraction of the
   interval already elapsed, clamped to [0, 1], and 1 when the later entry did
   not arrive strictly after the earlier one.
   */
  function Alpha(renderTime: real, prevTime: real, nextTime: real): (a: real)
    ensures 0.0 <= a <= 1.0
    ensures nextTime <= prevTime ==> a == 1.0
    ensures prevTime < nextTime && renderTime <= prevTime ==> a == 0.0
    ensures prevTime < nextTime && nextTime <= renderTime ==> a == 1.0
    ensures prevTime <= renderTime <= nextTime && prevTime < nextTime ==>
      a * (nextTime - prevTime) == renderTime - prevTime
  {
    var timeDiff := nextTime - prevTime;
    var raw := if timeDiff <= 0.0 then 1.0 else (renderTime - prevTime) / timeDiff;
    Max(0.0, Min(1.0, raw))
  }

  /** A player seen in both entries: position blended, colour and score new. */
  function Blend(p: PlayerView, q: PlayerView, alpha: real): (r: PlayerView)
    ensures r.color == q.color && r.score == q.score
    ensures alpha == 0.0 ==> r.x == p.x && r.y == p.y
    ensures alpha == 1.0 ==> r.x == q.x && r.y == q.y
  {
    PlayerView(Lerp(p.x, q.x, alpha), Lerp(p.y, q.y, alpha), q.color, q.score)
  }

  /** Every player of the newer entry; those also in the older one blended,
      the others shown as the newer entry has them. */
  function InterpolatePlayers(prev: map<nat, PlayerView>, next: map<nat, PlayerView>, alpha: real): (r: map<nat, PlayerView>)
    ensures r.Keys == next.Keys
  {
    map id | id in next :: if id in prev then Blend(prev[id], next[id], alpha) else next[id]
  }

  /** What the interpolation promises, player by player. */
  lemma InterpolateContract(prev: map<nat, PlayerView>, next: map<nat, PlayerView>, alpha: real)
    requires 0.0 <= alpha <= 1.0
    ensures var r := InterpolatePlayers(prev, next, alpha);
      && r.Keys == next.Keys
      && (forall id :: id in next && id !in prev ==> r[id] == next[id])
      && (forall id :: id in next && id in prev ==>
            && r[id].color == next[id].color && r[id].score == next[id].score
            && Between(r[id].x, prev[id].x, next[id].x)
            && Between(r[id].y, prev[id].y, next[id].y))
  {
    forall id | id in next && id in prev
      ensures Between(Lerp(prev[id].x, next[id].x, alpha), prev[id].x, next[id].x)
      ensures Between(Lerp(prev[id].y, next[id].y, alpha), prev[id].y, next[id].y)
    {
      LerpBetween(prev[id].x, next[id].x, alpha);
      LerpBetween(prev[id].y, next[id].y, alpha);
    }
  }

  /** At alpha 1 the newer entry's players come out unchanged. */
  lemma {:induction false} InterpolateAtOne(prev: map<nat, PlayerView>, next: map<nat, PlayerView>)
    ensures InterpolatePlayers(prev, next, 1.0) == next
  {
    var r := InterpolatePlayers(prev, next, 1.0);
    forall id | id in next ensures r[id] == next[id] {
      if id in prev {
        assert Lerp(prev[id].x, next[id].x, 1.0) == next[id].x;
        assert Lerp(prev[id].y, next[id].y, 1.0) == next[id].y;
      }
    }
  }

  /** At alpha 0 every player seen in both entries stands where it stood in
      the older one. */
  lemma InterpolateAtZero(prev: map<nat, PlayerView>, next: map<nat, PlayerView>, id: nat)
    requires id in next && id in prev
    ensures InterpolatePlayers(prev, next, 0.0)[id].x == prev[id].x
    ensures InterpolatePlayers(prev, next, 0.0)[id].y == prev[id].y
  {
  }

  /**
   Front trimming: while more than two entries remain and the second one
   arrived before `renderTime`, drop the first.
   */
  function Trim(buffer: seq<BufferEntry>, renderTime: real): (r: seq<BufferEntry>)
    ensures |r| <= |buffer| && r == buffer[|buffer| - |r|..]
    ensures |buffer| <= 2 ==> r == buffer
    ensures |buffer| > 2 ==> |r| >= 2
    ensures |r| <= 2 || r[1].recvTime >= renderTime
    decreases |buffer|
  {
    if |buffer| > 2 && buffer[1].recvTime < renderTime then Trim(buffer[1..], renderTime)
    else buffer
  }

  /** An entry is dropped only when its successor already arrived before
      `renderTime`, so the entries that bracket the render time stay. */
  lemma {:induction false} TrimDropsOnlyStale(buffer: seq<BufferEntry>, renderTime: real)
    ensures forall i :: 1 <= i <= |buffer| - |Trim(buffer, renderTime)| ==> buffer[i].recvTime < renderTime
    decreases |buffer|
  {
    if |buffer| > 2 && buffer[1].recvTime < renderTime {
      TrimDropsOnlyStale(buffer[1..], renderTime);
      forall i | 2 <= i <= |buffer| - |Trim(buffer, renderTime)| ensures buffer[i].recvTime < renderTime {
        assert buffer[i] == buffer[1..][i - 1];
      }
    }
  }

  /** Trimming twice at the same render time drops nothing more. */
  lemma TrimIdempotent(buffer: seq<BufferEntry>, renderTime: real)
    ensures Trim(Trim(buffer, renderTime), renderTime) == Trim(buffer, renderTime)
  {
  }

  /**
   The frame for an already-trimmed buffer: a placeholder when it is empty,
   the only entry verbatim when there is one, otherwise the blend of the two
   oldest entries with coins and status from the newer of them.
   */
  function Render(buffer: seq<BufferEntry>, renderTime: real): (f: Frame)
    ensures buffer == [] ==> f == Frame(map[], [], Connecting)
    ensures |buffer| == 1 ==> f == Frame(buffer[0].snapshot.players, buffer[0].snapshot.coins, buffer[0].snapshot.status)
    ensures |buffer| >= 2 ==>
      && f.players.Keys == buffer[1].snapshot.players.Keys
      && f.coins == buffer[1].snapshot.coins
      && f.status == buffer[1].snapshot.status
  {
    if |buffer| < 2 then
      if |buffer| == 1 then
        var last := buffer[|buffer| - 1].snapshot;
        Frame(last.players, last.coins, last.status)
      else Frame(map[], [], Connecting)
    else
      var prev := buffer[0];
      var next := buffer[1];
      var alpha := Alpha(renderTime, prev.recvTime, next.recvTime);
      Frame(InterpolatePlayers(prev.snapshot.players, next.snapshot.players, alpha),
            next.snapshot.coins, next.snapshot.status)
  }

  /**
   With two entries or more, a player present in both of the two oldest is
   drawn on the segment between its two positions: at its older position up to
   the older arrival, at its newer position from the newer arrival on, and at
   the newer position outright when the newer entry did not arrive later.
   */
  lemma RenderPlayerPosition(buffer: seq<BufferEntry>, renderTime: real, id: nat)
    requires |buffer| >= 2
    requires id in buffer[0].snapshot.players && id in buffer[1].snapshot.players
    ensures var f := Render(buffer, renderTime);
      var p := buffer[0].snapshot.players[id];
      var q := buffer[1].snapshot.players[id];
      var t0 := buffer[0].recvTime;
      var t1 := buffer[1].recvTime;
      && id in f.players
      && f.players[id].color == q.color && f.players[id].score == q.score
      && Between(f.players[id].x, p.x, q.x) && Between(f.players[id].y, p.y, q.y)
      && (t0 < t1 && renderTime <= t0 ==> f.players[id].x == p.x && f.players[id].y == p.y)
      && (t0 < t1 && t1 <= renderTime ==> f.players[id].x == q.x && f.players[id].y == q.y)
      && (t1 <= t0 ==> f.players[id].x == q.x && f.players[id].y == q.y)
  {
    var p := buffer[0].snapshot.players[id];
    var q := buffer[1].snapshot.players[id];
    var alpha := Alpha(renderTime, buffer[0].recvTime, buffer[1].recvTime);
    LerpBetween(p.x, q.x, alpha);
    LerpBetween(p.y, q.y, alpha);
  }

  /** Rendering at the same clock reading again yields the same buffer and frame. */
  lemma RenderIdempotent(buffer: seq<BufferEntry>, now: real)
    ensures var t := now - InterpolationOffset;
      && Trim(Trim(buffer, t), t) == Trim(buffer, t)
      && Render(Trim(Trim(buffer, t), t), t) == Render(Trim(buffer, t), t)
  {
    TrimIdempotent(buffer, now - InterpolationOffset);
  }

  /** Two snapshots 0.1 s apart with player 3 moving from (100, 100) to
      (200, 100), rendered halfway between their arrivals, show it at (150, 100). */
  lemma HalfwayExample()
    ensures var s0 := Snapshot(0.0, map[3 := PlayerView(100.0, 100.0, Color(255, 0, 0), 0)], [], Playing);
      var s1 := Snapshot(0.1, map[3 := PlayerView(200.0, 100.0, Color(255, 0, 0), 0)], [], Playing);
      var f := Render([BufferEntry(s0, 0.0), BufferEntry(s1, 0.1)], 0.05);
      3 in f.players && f.players[3].x == 150.0 && f.players[3].y == 100.0
  {
  }
}
