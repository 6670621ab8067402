/** The client's connection to the relay (apps/client/src/core/network/NetworkService.ts):
    whether a socket is open, and the rounding, de-duplication and throttling
    of outgoing `player:move` messages. `Date.now()` is the parameter `now`;
    the socket itself is reduced to the fact that it exists. */
module NetworkClient {
  import opened Common

  /** Minimum spacing of two `player:move` messages, in milliseconds. */
  const SendIntervalMs: int := 100

  /** A roster record as the client receives it (`PlayerData`). */
  datatype PlayerData = PlayerData(id: string, name: string, avatar: string, x: real, y: real)

  /** One emitted `player:move`: the rounded position, and the clock reading
      at which it was sent. */
  datatype MoveSent = MoveSent(x: int, y: int, at: int)

  class NetworkService {
    var connected: bool
    var lastSentX: int
    var lastSentY: int
    var lastSendTime: int
    var moves: seq<MoveSent>

    /** The throttle fields describe the last emission, and consecutive
        emissions are at least `SendIntervalMs` apart. */
    ghost predicate Valid()
      reads this
    {
      && (moves == [] ==> lastSendTime == 0)
      && (moves != [] ==> lastSendTime == moves[|moves| - 1].at)
      && (forall i :: 0 < i < |moves| ==> moves[i].at - moves[i - 1].at >= SendIntervalMs)
    }

    constructor ()
      ensures Valid()
      ensures !connected && lastSentX == -1 && lastSentY == -1 && lastSendTime == 0 && moves == []
    {
      connected := false;
      lastSentX, lastSentY, lastSendTime := -1, -1, 0;
      moves := [];
    }

    /** `connect`: open a socket unless one is already open. */
    method Connect()
      requires Valid()
      modifies this
      ensures Valid()
      ensures connected
      ensures old(connected) ==> unchanged(this)
      ensures lastSentX == old(lastSentX) && lastSentY == old(lastSentY)
      ensures lastSendTime == old(lastSendTime) && moves == old(moves)
    {
      if connected {
        return;
      }
      connected := true;
    }

    /** `disconnect`: close the socket and forget the last position sent;
        the time of the last send is kept. */
    method Disconnect()
      requires Valid()
      modifies this
      ensures Valid()
      ensures !connected
      ensures !old(connected) ==> unchanged(this)
      ensures old(connected) ==> lastSentX == -1 && lastSentY == -1
      ensures lastSendTime == old(lastSendTime) && moves == old(moves)
    {
      if !connected {
        return;
      }
      connected := false;
      lastSentX := -1;
      lastSentY := -1;
    }

    /** `sendMove`: emit the rounded position unless there is no socket, the
        rounded position equals the last one sent, or the last send was less
        than `SendIntervalMs` ago. */
    method SendMove(x: real, y: real, now: int)
      requires Valid()
      modifies this
      ensures Valid()
      ensures connected == old(connected)
      ensures var emit := old(connected)
          && !(Round(x) == old(lastSentX) && Round(y) == old(lastSentY))
          && now - old(lastSendTime) >= SendIntervalMs;
        if emit then
          && moves == old(moves) + [MoveSent(Round(x), Round(y), now)]
          && lastSentX == Round(x) && lastSentY == Round(y) && lastSendTime == now
        else
          unchanged(this)
    {
      if !connected {
        return;
      }
      var rx := Round(x);
      var ry := Round(y);
      if rx == lastSentX && ry == lastSentY {
        return;
      }
      if now - lastSendTime < SendIntervalMs {
        return;
      }
      lastSentX := rx;
      lastSentY := ry;
      lastSendTime := now;
      moves := moves + [MoveSent(rx, ry, now)];
    }
  }

  /** Two calls whose positions round alike emit at most once, whatever the
      clock says. */
  method SameRoundedPositionSentOnce(net: NetworkService, x1: real, y1: real, x2: real, y2: real, t1: int, t2: int)
    requires net.Valid()
    requires Round(x1) == Round(x2) && Round(y1) == Round(y2)
    modifies net
    ensures |net.moves| <= |old(net.moves)| + 1
  {
    net.SendMove(x1, y1, t1);
    net.SendMove(x2, y2, t2);
  }
}
