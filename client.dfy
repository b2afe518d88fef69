/**
 The game client: it keeps the identity the server assigned, buffers every
 state snapshot with its local arrival time, renders the world a fixed offset
 in the past by blending the two oldest buffered snapshots, and reports its
 held direction to the server only when it changes.
 */
module Client {
  import opened Protocol
  import opened Interpolation

  /** The movement keys sampled in one frame: W or the up arrow, S or the
      down arrow, A or the left arrow, D or the right arrow. */
  datatype Keys = Keys(w: bool, up: bool, s: bool, down: bool, a: bool, left: bool, d: bool, right: bool)

  /** Whether either key bound to `dir` is down. */
  predicate Held(k: Keys, dir: Direction)
  {
    match dir
    case Up => k.w || k.up
    case Down => k.s || k.down
    case Left => k.a || k.left
    case Right => k.d || k.right
  }

  /** The order in which directions are tested: up first, right last. */
  function Rank(dir: Direction): nat
  {
    match dir
    case Up => 0
    case Down => 1
    case Left => 2
    case Right => 3
  }

  /**
   The direction the client reports: the first held one in the order
   up, down, left, right, and none when no movement key is down.
   */
  function ChooseDirection(k: Keys): (dir: Option<Direction>)
    ensures dir.None? <==> forall d: Direction :: !Held(k, d)
    ensures dir.Some? ==> Held(k, dir.value)
    ensures dir.Some? ==> forall d: Direction :: Rank(d) < Rank(dir.value) ==> !Held(k, d)
  {
    if k.w || k.up then
      assert Held(k, Up);
      Some(Up)
    else if k.s || k.down then
      assert Held(k, Down);
      Some(Down)
    else if k.a || k.left then
      assert Held(k, Left);
      Some(Left)
    else if k.d || k.right then
      assert Held(k, Right);
      Some(Right)
    else
      assert !Held(k, Up) && !Held(k, Down) && !Held(k, Left) && !Held(k, Right);
      None
  }

  /**
   The message a frame sends given the direction last reported: an input
   message carrying the newly chosen direction (none meaning "stop") when it
   differs from the last one, and nothing otherwise.
   */
  function InputChange(current: Option<Direction>, k: Keys): (sent: Option<ClientMessage>)
    ensures sent.None? <==> ChooseDirection(k) == current
    ensures sent.Some? ==> sent.value.Input? && sent.value.direction == ChooseDirection(k) != current
  {
    var dir := ChooseDirection(k);
    if dir != current then Some(Input(dir)) else None
  }

  /** Once a change has been reported, holding the same keys sends nothing more. */
  lemma SteadyKeysSendOnce(k: Keys)
    ensures InputChange(ChooseDirection(k), k) == None
  {
  }

  /** Releasing every key sends a single "stop" when the player was moving. */
  lemma ReleaseSendsStop(current: Option<Direction>)
    ensures var none := Keys(false, false, false, false, false, false, false, false);
      InputChange(current, none) == if current.None? then None else Some(Input(None))
  {
    var none := Keys(false, false, false, false, false, false, false, false);
    assert forall d: Direction :: !Held(none, d);
  }

  class GameClient {
    /** The identity the server assigned, once the handshake arrived. */
    var myId: Option<nat>
    /** Received snapshots in arrival order, each with its arrival time. */
    var stateBuffer: seq<BufferEntry>
    /** The direction last reported to the server. */
    var currentInput: Option<Direction>

    constructor()
      ensures myId == None && stateBuffer == [] && currentInput == None
    {
      myId := None;
      stateBuffer := [];
      currentInput := None;
    }

    /**
     One incoming message: a handshake records the assigned identity, a
     snapshot is appended to the buffer stamped with the local clock reading
     `now`, and anything else is ignored.
     */
    method Receive(msg: ServerMessage, now: real)
      modifies this`myId, this`stateBuffer
      ensures msg.Init? ==> myId == Some(msg.id) && stateBuffer == old(stateBuffer)
      ensures msg.State? ==> myId == old(myId) && stateBuffer == old(stateBuffer) + [BufferEntry(msg.snapshot, now)]
      ensures msg.Other? ==> myId == old(myId) && stateBuffer == old(stateBuffer)
    {
      match msg
      case Init(id) =>
        myId := Some(id);
      case State(snapshot) =>
        stateBuffer := stateBuffer + [BufferEntry(snapshot, now)];
      case Other =>
    }

    /**
     The input step of one frame: choose a direction from the held keys and,
     when it differs from the last one reported, remember it and hand back
     the message to send.
     */
    method PollInput(k: Keys) returns (sent: Option<ClientMessage>)
      modifies this`currentInput
      ensures sent == InputChange(old(currentInput), k)
      ensures currentInput == ChooseDirection(k)
    {
      var direction: Option<Direction> := None;
      if k.w || k.up {
        direction := Some(Up);
      } else if k.s || k.down {
        direction := Some(Down);
      } else if k.a || k.left {
        direction := Some(Left);
      } else if k.d || k.right {
        direction := Some(Right);
      }
      sent := None;
      if direction != currentInput {
        currentInput := direction;
        sent := Some(Input(direction));
      }
    }

    /**
     The render step of one frame at local clock reading `now`: drop stale
     snapshots from the front of the buffer, then build the frame for
     `now - InterpolationOffset` from what remains.
     */
    method GetRenderState(now: real) returns (frame: Frame)
      modifies this`stateBuffer
      ensures stateBuffer == Trim(old(stateBuffer), now - InterpolationOffset)
      ensures frame == Render(stateBuffer, now - InterpolationOffset)
    {
      var renderTime := now - InterpolationOffset;
      DropStale(renderTime);

      if |stateBuffer| < 2 {
        if |stateBuffer| > 0 {
          var last := stateBuffer[|stateBuffer| - 1].snapshot;
          return Frame(last.players, last.coins, last.status);
        }
        return Frame(map[], [], Connecting);
      }

      var prevState := stateBuffer[0];
      var nextState := stateBuffer[1];
      var alpha := BlendFactor(renderTime, prevState.recvTime, nextState.recvTime);
      var players := BlendPlayers(prevState.snapshot.players, nextState.snapshot.players, alpha);
      frame := Frame(players, nextState.snapshot.coins, nextState.snapshot.status);
    }

    /** Pop entries off the front while more than two remain and the second
        one arrived before `renderTime`. */
    method DropStale(renderTime: real)
      modifies this`stateBuffer
      ensures stateBuffer == Trim(old(stateBuffer), renderTime)
    {
      while |stateBuffer| > 2 && stateBuffer[1].recvTime < renderTime
        invariant Trim(stateBuffer, renderTime) == Trim(old(stateBuffer), renderTime)
        decreases |stateBuffer|
      {
        stateBuffer := stateBuffer[1..];
      }
    }
  }

  /** The blend factor as the render step computes it, step by step. */
  method BlendFactor(renderTime: real, prevTime: real, nextTime: real) returns (alpha: real)
    ensures alpha == Alpha(renderTime, prevTime, nextTime)
  {
    var timeDiff := nextTime - prevTime;
    if timeDiff <= 0.0 {
      alpha := 1.0;
    } else {
      alpha := (renderTime - prevTime) / timeDiff;
    }
    alpha := Max(0.0, Min(1.0, alpha));
  }

  /** The player loop of the render step: every player of the newer
      snapshot, blended with its older position when it had one. */
  method BlendPlayers(prev: map<nat, PlayerView>, next: map<nat, PlayerView>, alpha: real)
    returns (interpolated: map<nat, PlayerView>)
    ensures interpolated == InterpolatePlayers(prev, next, alpha)
  {
    interpolated := map[];
    var todo := next.Keys;
    while todo != {}
      invariant todo <= next.Keys
      invariant interpolated.Keys == next.Keys - todo
      invariant forall id :: id in interpolated ==>
        interpolated[id] == if id in prev then Blend(prev[id], next[id], alpha) else next[id]
      decreases |todo|
    {
      var pid :| pid in todo;
      var pNext := next[pid];
      if pid in prev {
        var pPrev := prev[pid];
        var interpX := Lerp(pPrev.x, pNext.x, alpha);
        var interpY := Lerp(pPrev.y, pNext.y, alpha);
        interpolated := interpolated[pid := PlayerView(interpX, interpY, pNext.color, pNext.score)];
      } else {
        interpolated := interpolated[pid := pNext];
      }
      todo := todo - {pid};
    }
    assert interpolated == InterpolatePlayers(prev, next, alpha);
  }
}
