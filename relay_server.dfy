/** The relay server (apps/server/src/index.ts): a roster of connected
    players keyed by socket id, three socket handlers that edit it, and the
    origin check of its cross-origin policy. Outbound socket traffic is an
    append-only log whose entries name their audience. */
module RelayServer {
  import opened Common
  import JsMap

  datatype PlayerData = PlayerData(id: string, name: string, avatar: string, x: real, y: real)

  /** `socket.emit` (the caller), `socket.broadcast.emit` (every other
      connection) and `io.emit` (every connection). */
  datatype Audience = Caller(id: string) | AllExcept(id: string) | Everyone

  datatype Payload =
    | PlayersExisting(players: seq<PlayerData>)
    | PlayerJoined(player: PlayerData)
    | PlayerMoved(id: string, x: real, y: real)
    | PlayerLeft(id: string)

  datatype Outbound = Outbound(audience: Audience, payload: Payload)

  class Server {
    var players: JsMap.Map<PlayerData>
    var outbox: seq<Outbound>

    /** The map is well formed and each record is filed under its own id. */
    ghost predicate Valid()
      reads this
    {
      && JsMap.Valid(players)
      && forall id :: id in players.entries ==> players.entries[id].id == id
    }

    /** `Array.from(players.values())` */
    function Roster(): (r: seq<PlayerData>)
      reads this
      requires Valid()
      ensures |r| == |players.keys|
    {
      JsMap.Values(players)
    }

    constructor ()
      ensures Valid() && players.entries == map[] && outbox == []
    {
      players := JsMap.Empty();
      outbox := [];
    }

    /** `player:join`: file the caller's record (replacing an earlier one),
        send the whole roster back to the caller and the new record to
        everybody else. */
    method Join(sid: string, name: string, avatar: string, x: real, y: real)
      requires Valid()
      modifies this
      ensures Valid()
      ensures players == JsMap.Set(old(players), sid, PlayerData(sid, name, avatar, x, y))
      ensures outbox == old(outbox) + [
        Outbound(Caller(sid), PlayersExisting(Roster())),
        Outbound(AllExcept(sid), PlayerJoined(PlayerData(sid, name, avatar, x, y)))]
      // the roster sent back is every record after insertion, the joiner's included
      ensures forall p :: p in Roster() <==>
        p == PlayerData(sid, name, avatar, x, y) || (p in old(Roster()) && p.id != sid)
    {
      var player := PlayerData(sid, name, avatar, x, y);
      ghost var before := players;
      assert forall id :: id in before.entries ==> before.entries[id].id == id;
      players := JsMap.Set(players, sid, player);
      outbox := outbox + [Outbound(Caller(sid), PlayersExisting(Roster()))];
      outbox := outbox + [Outbound(AllExcept(sid), PlayerJoined(player))];
      forall p ensures p in Roster() <==> p == player || (p in JsMap.Values(before) && p.id != sid) {
        JsMap.ValuesAreEntries(players, p);
        JsMap.ValuesAreEntries(before, p);
        if p == player {
          assert players.entries[sid] == p;
        }
        if p in JsMap.Values(before) && p.id != sid {
          var k :| k in before.entries && before.entries[k] == p;
          assert players.entries[k] == p;
        }
        if p in Roster() && p != player {
          var k :| k in players.entries && players.entries[k] == p;
          assert k != sid && before.entries[k] == p;
          assert p in JsMap.Values(before);
          assert p.id == k;
        }
      }
    }

    /** `player:move`: move the caller's record if there is one, and relay
        the position to every other connection in any case. */
    method Move(sid: string, x: real, y: real)
      requires Valid()
      modifies this
      ensures Valid()
      ensures players.keys == old(players.keys)
      ensures sid in old(players.entries) ==>
        players.entries == old(players.entries)[sid := old(players.entries)[sid].(x := x, y := y)]
      ensures sid !in old(players.entries) ==> players == old(players)
      ensures outbox == old(outbox) + [Outbound(AllExcept(sid), PlayerMoved(sid, x, y))]
    {
      if sid in players.entries {
        var player := players.entries[sid];
        players := players.(entries := players.entries[sid := player.(x := x, y := y)]);
      }
      outbox := outbox + [Outbound(AllExcept(sid), PlayerMoved(sid, x, y))];
    }

    /** `disconnect`: drop the caller's record and tell every connection. */
    method Disconnect(sid: string)
      requires Valid()
      modifies this
      ensures Valid()
      ensures players == JsMap.Delete(old(players), sid)
      ensures sid !in players.entries
      ensures forall id :: id != sid && id in old(players.entries) ==>
        id in players.entries && players.entries[id] == old(players.entries)[id]
      ensures outbox == old(outbox) + [Outbound(Everyone, PlayerLeft(sid))]
    {
      players := JsMap.Delete(players, sid);
      outbox := outbox + [Outbound(Everyone, PlayerLeft(sid))];
    }
  }

  // ---------- Cross-origin check ----------

  /** The part of the pattern `^https?://localhost(:\d+)?$` after the host:
      nothing, or a colon and one or more ASCII digits. */
  predicate IsPortSuffix(p: string) {
    p == [] || (|p| >= 2 && p[0] == ':' && forall i :: 1 <= i < |p| ==> '0' <= p[i] <= '9')
  }

  predicate MatchesLocalhost(s: string) {
    || (|s| >= 16 && s[..16] == "http://localhost" && IsPortSuffix(s[16..]))
    || (|s| >= 17 && s[..17] == "https://localhost" && IsPortSuffix(s[17..]))
  }

  /** The `origin` callback: an absent or empty origin (`!origin`) is let
      through, and so is a localhost origin on any port. */
  function AllowOrigin(origin: Option<string>): (allowed: bool)
    ensures allowed <==>
      || origin == None
      || origin == Some("")
      || exists p :: IsPortSuffix(p) &&
           (origin == Some("http://localhost" + p) || origin == Some("https://localhost" + p))
  {
    match origin
    case None => true
    case Some(s) =>
      var r := s == "" || MatchesLocalhost(s);
      assert r <==> s == "" || (exists p :: IsPortSuffix(p) && (s == "http://localhost" + p || s == "https://localhost" + p)) by {
        if |s| >= 16 && s[..16] == "http://localhost" {
          assert s == "http://localhost" + s[16..];
        }
        if |s| >= 17 && s[..17] == "https://localhost" {
          assert s == "https://localhost" + s[17..];
        }
        if exists p :: IsPortSuffix(p) && s == "http://localhost" + p {
          var p :| IsPortSuffix(p) && s == "http://localhost" + p;
          assert s[..16] == "http://localhost" && s[16..] == p;
        }
        if exists p :: IsPortSuffix(p) && s == "https://localhost" + p {
          var p :| IsPortSuffix(p) && s == "https://localhost" + p;
          assert s[..17] == "https://localhost" && s[17..] == p;
        }
      }
      r
  }

  /** Origins that differ from localhost only in the host are refused. */
  lemma RemoteHostRefused()
    ensures !AllowOrigin(Some("http://example.com"))
    ensures !AllowOrigin(Some("http://localhost.evil.com"))
    ensures !AllowOrigin(Some("http://localhost:"))
    ensures AllowOrigin(Some("https://localhost:5173"))
  {
    assert MatchesLocalhost("https://localhost:5173") by {
      assert "https://localhost:5173"[17..] == ":5173";
    }
    assert !MatchesLocalhost("http://localhost.evil.com") by {
      assert "http://localhost.evil.com"[16..][0] == '.';
    }
  }
}
