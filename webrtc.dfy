/** The peer-to-peer call manager (apps/client/src/core/network/WebRTCManager.ts),
    reduced to its bookkeeping. Each `RTCPeerConnection` is a record of its
    signaling state, the kinds of the tracks it sends and the remote ICE
    candidates it was given; a remote stream is an opaque number plus whether
    its audio graph (and so its analyser) was built. Media tracks are reduced
    to their kind. Signaling messages sent through the relay are appended to
    `signals`; calls of the UI callbacks and the `webrtc-speaking` window
    event are appended to `ui`. The one-second delayed call of
    `handlePlayerJoined` is queued in `pendingCalls` and run by
    `RunPendingCall`; the voice-activity interval is the explicit `VadTick`,
    with "is speaking" supplied per player. */
module WebRtc {
  import opened Common
  import JsMap

  datatype Kind = Audio | Video

  /** The signaling states the manager distinguishes. */
  datatype Signaling = Stable | HaveLocalOffer | HaveRemoteOffer

  datatype Peer = Peer(signaling: Signaling, senders: set<Kind>, candidates: seq<string>)

  datatype RemoteMedia = RemoteMedia(stream: nat, hasAudioGraph: bool)

  /** Signaling messages (`safeEmit`), each addressed to one player. */
  datatype Signal =
    | Offer(target: string)
    | Answer(target: string)
    | IceCandidate(target: string, candidate: string)

  datatype UiEvent =
    | StreamAdded(playerId: string, stream: nat)      // onRemoteStreamCallback
    | StreamRemoved(playerId: string)                 // onRemoteRemovedCallback
    | Speaking(playerId: string, isSpeaking: bool)    // onSpeakingCallback
    | SpeakingDispatched(playerId: string, isSpeaking: bool)  // window "webrtc-speaking" event

  datatype ConnectionState = New | Connecting | Connected | Disconnected | Failed | Closed

  /** An entry of a `players:existing` list. */
  datatype PlayerInfo = PlayerInfo(id: string, name: Option<string>)

  /** `p.name` is truthy: present and not empty. */
  predicate HasName(p: PlayerInfo) {
    p.name.Some? && p.name.value != ""
  }

  function LocalKinds(localStream: Option<set<Kind>>): set<Kind> {
    if localStream.Some? then localStream.value else {}
  }

  // ---------- One connection's signaling, as functions ----------

  /** `createOffer` + `setLocalDescription(offer)`. */
  function Offered(p: Peer): (q: Peer)
    ensures q.signaling == HaveLocalOffer && q.senders == p.senders && q.candidates == p.candidates
  {
    p.(signaling := HaveLocalOffer)
  }

  /** `handleOffer` on an existing connection: roll back a pending local
      offer, apply the remote offer, add a sender for every local kind not yet
      sent, then answer. */
  function Answered(p: Peer, local: set<Kind>): (q: Peer)
    ensures q.signaling == Stable
    ensures q.senders == p.senders + local && q.candidates == p.candidates
  {
    var rolledBack := if p.signaling == HaveLocalOffer then p.(signaling := Stable) else p;
    var remote := rolledBack.(signaling := HaveRemoteOffer);
    var withTracks := remote.(senders := remote.senders + local);
    withTracks.(signaling := Stable)
  }

  /** `handleAnswer`: the answer is applied only while a local offer is pending. */
  function AnswerApplied(p: Peer): (q: Peer)
    ensures p.signaling == HaveLocalOffer ==> q == p.(signaling := Stable)
    ensures p.signaling != HaveLocalOffer ==> q == p
  {
    if p.signaling == HaveLocalOffer then p.(signaling := Stable) else p
  }

  /** `renegotiate`: a new offer only from the stable state. */
  function Renegotiated(p: Peer): (q: Peer)
    ensures p.signaling == Stable ==> q == Offered(p)
    ensures p.signaling != Stable ==> q == p
  {
    if p.signaling == Stable then Offered(p) else p
  }

  /** One connection after `syncTracksToAllPeers`: every local kind is sent,
      then renegotiation. */
  function Synced(p: Peer, local: set<Kind>): Peer {
    Renegotiated(p.(senders := p.senders + local))
  }

  /** An offer from A answered by B, then the answer applied at A, leaves both
      stable, A sending what it sent and B sending at least its local kinds. */
  lemma OfferAnswerExchange(a: Peer, b: Peer, localB: set<Kind>)
    requires a.signaling == Stable
    ensures Renegotiated(a).signaling == HaveLocalOffer
    ensures AnswerApplied(Renegotiated(a)) == a
    ensures Answered(b, localB).signaling == Stable && localB <= Answered(b, localB).senders
  {
  }

  /** Glare: both sides have an offer out and each receives the other's. Both
      roll back and answer, ending stable; the answers that then arrive are
      ignored, so neither side ends with an offer pending. */
  lemma GlareResolves(a: Peer, b: Peer, localA: set<Kind>, localB: set<Kind>)
    requires a.signaling == HaveLocalOffer && b.signaling == HaveLocalOffer
    ensures var a' := AnswerApplied(Answered(a, localA));
      var b' := AnswerApplied(Answered(b, localB));
      a'.signaling == Stable && b'.signaling == Stable && a' == Answered(a, localA) && b' == Answered(b, localB)
  {
  }

  // ---------- Names ----------

  /** The first loop of `handlePlayersExisting`: file every truthy name. */
  function RecordNames(names: map<string, string>, ps: seq<PlayerInfo>): map<string, string>
    decreases |ps|
  {
    if ps == [] then names
    else
      var r := RecordNames(names, ps[..|ps| - 1]);
      var p := ps[|ps| - 1];
      if HasName(p) then r[p.id := p.name.value] else r
  }

  /** A name is filed for exactly the listed players with a truthy name, and
      for the ids filed before. */
  lemma {:induction false} RecordNamesDomain(names: map<string, string>, ps: seq<PlayerInfo>)
    ensures forall id :: id in RecordNames(names, ps) <==>
      id in names || exists i :: 0 <= i < |ps| && HasName(ps[i]) && ps[i].id == id
    decreases |ps|
  {
    if ps != [] {
      var front := ps[..|ps| - 1];
      RecordNamesDomain(names, front);
      forall id ensures id in RecordNames(names, ps) <==>
        id in names || exists i :: 0 <= i < |ps| && HasName(ps[i]) && ps[i].id == id
      {
        if exists i :: 0 <= i < |front| && HasName(front[i]) && front[i].id == id {
          var i :| 0 <= i < |front| && HasName(front[i]) && front[i].id == id;
          assert ps[i] == front[i];
        }
        if exists i :: 0 <= i < |ps| && HasName(ps[i]) && ps[i].id == id {
          var i :| 0 <= i < |ps| && HasName(ps[i]) && ps[i].id == id;
          if i < |front| {
            assert front[i] == ps[i];
          }
        }
      }
    }
  }

  /** For an id listed more than once, the last truthy name wins. */
  lemma {:induction false} RecordNamesLastWins(names: map<string, string>, ps: seq<PlayerInfo>, i: nat)
    requires i < |ps| && HasName(ps[i])
    requires forall j :: i < j < |ps| && ps[j].id == ps[i].id ==> !HasName(ps[j])
    ensures ps[i].id in RecordNames(names, ps) && RecordNames(names, ps)[ps[i].id] == ps[i].name.value
    decreases |ps|
  {
    var front := ps[..|ps| - 1];
    if i < |front| {
      assert front[i] == ps[i];
      forall j | i < j < |front| && front[j].id == front[i].id ensures !HasName(front[j]) {
        assert front[j] == ps[j];
      }
      RecordNamesLastWins(names, front, i);
    }
  }

  /** An id never listed with a truthy name keeps the name it had. */
  lemma {:induction false} RecordNamesKeeps(names: map<string, string>, ps: seq<PlayerInfo>, id: string)
    requires id in names
    requires forall i :: 0 <= i < |ps| && ps[i].id == id ==> !HasName(ps[i])
    ensures id in RecordNames(names, ps) && RecordNames(names, ps)[id] == names[id]
    decreases |ps|
  {
    if ps != [] {
      var front := ps[..|ps| - 1];
      forall i | 0 <= i < |front| && front[i].id == id ensures !HasName(front[i]) {
        assert front[i] == ps[i];
      }
      RecordNamesKeeps(names, front, id);
    }
  }

  lemma RecordNamesSnoc(names: map<string, string>, ps: seq<PlayerInfo>, i: nat)
    requires i < |ps|
    ensures RecordNames(names, ps[..i + 1]) ==
      if HasName(ps[i]) then RecordNames(names, ps[..i])[ps[i].id := ps[i].name.value] else RecordNames(names, ps[..i])
  {
    assert ps[..i + 1][..i] == ps[..i];
  }

  // ---------- Calls to many peers, as functions ----------

  /** `initiateCall` on the map of connections: a new connection with the
      local kinds and an offer out, unless one exists. */
  function Call(m: JsMap.Map<Peer>, id: string, local: set<Kind>): (r: JsMap.Map<Peer>)
    ensures JsMap.Valid(m) ==> JsMap.Valid(r)
  {
    if id in m.entries then m else JsMap.Set(m, id, Peer(HaveLocalOffer, local, []))
  }

  /** The offer `initiateCall` sends, if any. */
  function CallOffer(m: JsMap.Map<Peer>, id: string): seq<Signal> {
    if id in m.entries then [] else [Offer(id)]
  }

  /** The second loop of `handlePlayersExisting` on the map of connections:
      every listed player but oneself is called, in list order. */
  function CallOthers(m: JsMap.Map<Peer>, ps: seq<PlayerInfo>, selfId: Option<string>, local: set<Kind>): (r: JsMap.Map<Peer>)
    ensures JsMap.Valid(m) ==> JsMap.Valid(r)
    decreases |ps|
  {
    if ps == [] then m
    else
      var before := CallOthers(m, ps[..|ps| - 1], selfId, local);
      var p := ps[|ps| - 1];
      if Some(p.id) != selfId then Call(before, p.id, local) else before
  }

  /** The offers sent by that loop, in order. */
  function CallOthersOffers(m: JsMap.Map<Peer>, ps: seq<PlayerInfo>, selfId: Option<string>, local: set<Kind>): seq<Signal>
    decreases |ps|
  {
    if ps == [] then []
    else
      var before := CallOthers(m, ps[..|ps| - 1], selfId, local);
      var p := ps[|ps| - 1];
      CallOthersOffers(m, ps[..|ps| - 1], selfId, local) +
        (if Some(p.id) != selfId then CallOffer(before, p.id) else [])
  }

  lemma CallOthersSnoc(m: JsMap.Map<Peer>, ps: seq<PlayerInfo>, selfId: Option<string>, local: set<Kind>, i: nat)
    requires i < |ps|
    ensures var before := CallOthers(m, ps[..i], selfId, local);
      && CallOthers(m, ps[..i + 1], selfId, local) ==
           (if Some(ps[i].id) != selfId then Call(before, ps[i].id, local) else before)
      && CallOthersOffers(m, ps[..i + 1], selfId, local) ==
           CallOthersOffers(m, ps[..i], selfId, local) +
           (if Some(ps[i].id) != selfId then CallOffer(before, ps[i].id) else [])
  {
    assert ps[..i + 1][..i] == ps[..i];
  }

  /** Afterwards every other listed player has a connection, and none was
      opened to oneself; the connections there before are untouched, and
      each new one sends the local kinds with an offer pending. */
  lemma {:induction false} CallOthersEntries(m: JsMap.Map<Peer>, ps: seq<PlayerInfo>, selfId: Option<string>, local: set<Kind>)
    ensures forall id :: id in CallOthers(m, ps, selfId, local).entries <==>
      id in m.entries || ((exists i :: 0 <= i < |ps| && ps[i].id == id) && Some(id) != selfId)
    ensures forall id :: id in m.entries ==> CallOthers(m, ps, selfId, local).entries[id] == m.entries[id]
    ensures forall id :: id in CallOthers(m, ps, selfId, local).entries && id !in m.entries ==>
      CallOthers(m, ps, selfId, local).entries[id] == Peer(HaveLocalOffer, local, [])
    decreases |ps|
  {
    if ps != [] {
      var front := ps[..|ps| - 1];
      CallOthersEntries(m, front, selfId, local);
      forall id ensures id in CallOthers(m, ps, selfId, local).entries <==>
        id in m.entries || ((exists i :: 0 <= i < |ps| && ps[i].id == id) && Some(id) != selfId)
      {
        if exists i :: 0 <= i < |ps| && ps[i].id == id {
          var i :| 0 <= i < |ps| && ps[i].id == id;
          if i < |front| {
            assert front[i] == ps[i];
          }
        }
        if exists i :: 0 <= i < |front| && front[i].id == id {
          var i :| 0 <= i < |front| && front[i].id == id;
          assert ps[i] == front[i];
        }
      }
    }
  }

  /** Offers go only to other players that had no connection, one per listed entry at most. */
  lemma {:induction false} CallOthersOffersTargets(m: JsMap.Map<Peer>, ps: seq<PlayerInfo>, selfId: Option<string>, local: set<Kind>)
    ensures forall s :: s in CallOthersOffers(m, ps, selfId, local) ==>
      s.Offer? && s.target !in m.entries && Some(s.target) != selfId
    ensures |CallOthersOffers(m, ps, selfId, local)| <= |ps|
    decreases |ps|
  {
    if ps != [] {
      var front := ps[..|ps| - 1];
      CallOthersOffersTargets(m, front, selfId, local);
      CallOthersEntries(m, front, selfId, local);
    }
  }

  // ---------- Sync, as functions ----------

  /** The offers `syncTracksToAllPeers` sends: one to each stable connection, in key order. */
  function StableOffers(entries: map<string, Peer>, keys: seq<string>): seq<Signal>
    decreases |keys|
  {
    if keys == [] then []
    else
      var k := keys[|keys| - 1];
      StableOffers(entries, keys[..|keys| - 1]) +
        (if k in entries && entries[k].signaling == Stable then [Offer(k)] else [])
  }

  // ---------- Speaking debounce, as functions ----------

  /** `speakingStates.get(id) || false` */
  function Stored(states: map<string, bool>, id: string): bool {
    id in states && states[id]
  }

  /** One sample of the voice-activity check for one player: when it differs
      from the stored value, store it, call the speaking callback (if one was
      given) and dispatch the window event. */
  function SpeakingStep(states: map<string, bool>, id: string, isSpeaking: bool, callback: bool): (r: (map<string, bool>, seq<UiEvent>))
    ensures isSpeaking == Stored(states, id) ==> r == (states, [])
    ensures isSpeaking != Stored(states, id) ==>
      r.0 == states[id := isSpeaking] &&
      r.1 == (if callback then [Speaking(id, isSpeaking)] else []) + [SpeakingDispatched(id, isSpeaking)]
  {
    if isSpeaking != Stored(states, id) then
      (states[id := isSpeaking], (if callback then [Speaking(id, isSpeaking)] else []) + [SpeakingDispatched(id, isSpeaking)])
    else (states, [])
  }

  /** The same sample twice in a row fires once at most: the second changes nothing. */
  lemma SpeakingDebounced(states: map<string, bool>, id: string, v: bool, callback: bool)
    ensures var once := SpeakingStep(states, id, v, callback);
      SpeakingStep(once.0, id, v, callback) == (once.0, [])
    ensures Stored(SpeakingStep(states, id, v, callback).0, id) == v
  {
  }

  /** One run of the interval body over the remote streams in key order;
      streams without an analyser are skipped. */
  function VadFold(states: map<string, bool>, media: map<string, RemoteMedia>, keys: seq<string>,
                   isSpeaking: string -> bool, callback: bool): (map<string, bool>, seq<UiEvent>)
    decreases |keys|
  {
    if keys == [] then (states, [])
    else
      var before := VadFold(states, media, keys[..|keys| - 1], isSpeaking, callback);
      var k := keys[|keys| - 1];
      if k !in media || !media[k].hasAudioGraph then before
      else
        var step := SpeakingStep(before.0, k, isSpeaking(k), callback);
        (step.0, before.1 + step.1)
  }

  lemma VadFoldSnoc(states: map<string, bool>, media: map<string, RemoteMedia>, keys: seq<string>, i: nat,
                    isSpeaking: string -> bool, callback: bool)
    requires i < |keys|
    ensures var before := VadFold(states, media, keys[..i], isSpeaking, callback);
      var k := keys[i];
      VadFold(states, media, keys[..i + 1], isSpeaking, callback) ==
        if k !in media || !media[k].hasAudioGraph then before
        else
          var step := SpeakingStep(before.0, k, isSpeaking(k), callback);
          (step.0, before.1 + step.1)
  {
    assert keys[..i + 1][..i] == keys[..i];
  }

  /** After one tick every player with an analyser has its current sample
      stored, and every other stored value is untouched. */
  lemma {:induction false} VadFoldStores(states: map<string, bool>, media: map<string, RemoteMedia>, keys: seq<string>,
                                         isSpeaking: string -> bool, callback: bool)
    ensures forall k :: k in keys && k in media && media[k].hasAudioGraph ==>
      Stored(VadFold(states, media, keys, isSpeaking, callback).0, k) == isSpeaking(k)
    ensures forall k :: !(k in keys && k in media && media[k].hasAudioGraph) ==>
      Stored(VadFold(states, media, keys, isSpeaking, callback).0, k) == Stored(states, k)
    decreases |keys|
  {
    if keys != [] {
      var front := keys[..|keys| - 1];
      VadFoldStores(states, media, front, isSpeaking, callback);
      assert forall k :: k in keys <==> k in front || k == keys[|keys| - 1] by {
        assert keys == front + [keys[|keys| - 1]];
      }
    }
  }

  /** A tick whose samples all equal the stored values fires nothing and
      stores nothing new. */
  lemma {:induction false} VadFoldQuiet(states: map<string, bool>, media: map<string, RemoteMedia>, keys: seq<string>,
                                        isSpeaking: string -> bool, callback: bool)
    requires forall k :: k in keys && k in media && media[k].hasAudioGraph ==> isSpeaking(k) == Stored(states, k)
    ensures VadFold(states, media, keys, isSpeaking, callback) == (states, [])
    decreases |keys|
  {
    if keys != [] {
      var front := keys[..|keys| - 1];
      assert forall k :: k in front ==> k in keys;
      VadFoldQuiet(states, media, front, isSpeaking, callback);
      var k := keys[|keys| - 1];
      assert k in keys;
      if k in media && media[k].hasAudioGraph {
        var step := SpeakingStep(states, k, isSpeaking(k), callback);
        assert step == (states, []);
        assert [] + step.1 == [];
      }
    }
  }

  /** Two ticks with the same samples: the second one is silent. */
  lemma SecondTickSilent(states: map<string, bool>, media: map<string, RemoteMedia>, keys: seq<string>,
                         isSpeaking: string -> bool, callback: bool)
    ensures var first := VadFold(states, media, keys, isSpeaking, callback);
      VadFold(first.0, media, keys, isSpeaking, callback) == (first.0, [])
  {
    VadFoldStores(states, media, keys, isSpeaking, callback);
    VadFoldQuiet(VadFold(states, media, keys, isSpeaking, callback).0, media, keys, isSpeaking, callback);
  }

  lemma StableOffersSnoc(entries: map<string, Peer>, keys: seq<string>, i: nat)
    requires i < |keys|
    ensures StableOffers(entries, keys[..i + 1]) == StableOffers(entries, keys[..i]) +
      (if keys[i] in entries && entries[keys[i]].signaling == Stable then [Offer(keys[i])] else [])
  {
    assert keys[..i + 1][..i] == keys[..i];
  }

  /** The connections after syncing those listed in `ks`. */
  function SyncedMap(e: map<string, Peer>, ks: seq<string>, local: set<Kind>): map<string, Peer>
    decreases |ks|
  {
    if ks == [] then e
    else
      var r := SyncedMap(e, ks[..|ks| - 1], local);
      var k := ks[|ks| - 1];
      if k in e then r[k := Synced(e[k], local)] else r
  }

  lemma SyncedMapSnoc(e: map<string, Peer>, ks: seq<string>, i: nat, local: set<Kind>)
    requires i < |ks|
    ensures SyncedMap(e, ks[..i + 1], local) ==
      var r := SyncedMap(e, ks[..i], local);
      if ks[i] in e then r[ks[i] := Synced(e[ks[i]], local)] else r
  {
    assert ks[..i + 1][..i] == ks[..i];
  }

  /** The listed connections are synced, the others untouched, none added or dropped. */
  lemma {:induction false} SyncedMapSpec(e: map<string, Peer>, ks: seq<string>, local: set<Kind>)
    ensures forall k :: k in SyncedMap(e, ks, local) <==> k in e
    ensures forall k :: k in e ==> SyncedMap(e, ks, local)[k] == if k in ks then Synced(e[k], local) else e[k]
    decreases |ks|
  {
    if ks != [] {
      var front := ks[..|ks| - 1];
      SyncedMapSpec(e, front, local);
      assert forall k :: k in ks <==> k in front || k == ks[|ks| - 1] by {
        assert ks == front + [ks[|ks| - 1]];
      }
    }
  }

  /** The loop of `syncTracksToAllPeers` over the connections in key order:
      each one is synced, and an offer is collected for each stable one. */
  method SyncAll(entries0: map<string, Peer>, keys: seq<string>, local: set<Kind>)
      returns (entries: map<string, Peer>, offers: seq<Signal>)
    requires JsMap.Distinct(keys) && forall k :: k in keys <==> k in entries0
    ensures forall id :: id in entries <==> id in entries0
    ensures forall id :: id in entries0 ==> entries[id] == Synced(entries0[id], local)
    ensures offers == StableOffers(entries0, keys)
  {
    entries := entries0;
    offers := [];
    var i := 0;
    assert keys[..0] == [];
    while i < |keys|
      invariant 0 <= i <= |keys|
      invariant entries == SyncedMap(entries0, keys[..i], local)
      invariant offers == StableOffers(entries0, keys[..i])
    {
      var id := keys[i];
      SyncedMapSpec(entries0, keys[..i], local);
      assert id !in keys[..i];
      var pc := entries[id];
      StableOffersSnoc(entries0, keys, i);
      SyncedMapSnoc(entries0, keys, i, local);
      if pc.signaling == Stable {
        offers := offers + [Offer(id)];
      } else {
        assert offers + [] == offers;
      }
      entries := entries[id := Synced(pc, local)];
      i := i + 1;
    }
    assert keys[..|keys|] == keys;
    SyncedMapSpec(entries0, keys, local);
  }

  /** The second loop of `handlePlayersExisting`: `initiateCall` for every
      listed player but oneself, in list order. */
  method CallEveryOther(m0: JsMap.Map<Peer>, players: seq<PlayerInfo>, selfId: Option<string>, local: set<Kind>)
      returns (m: JsMap.Map<Peer>, offers: seq<Signal>)
    ensures m == CallOthers(m0, players, selfId, local)
    ensures offers == CallOthersOffers(m0, players, selfId, local)
  {
    m := m0;
    offers := [];
    var i := 0;
    assert players[..0] == [];
    while i < |players|
      invariant 0 <= i <= |players|
      invariant m == CallOthers(m0, players[..i], selfId, local)
      invariant offers == CallOthersOffers(m0, players[..i], selfId, local)
    {
      var p := players[i];
      CallOthersSnoc(m0, players, selfId, local, i);
      if Some(p.id) != selfId {
        offers := offers + CallOffer(m, p.id);
        m := Call(m, p.id, local);
      } else {
        assert offers + [] == offers;
      }
      i := i + 1;
    }
    assert players[..|players|] == players;
  }

  // ---------- The manager ----------

  class WebRtcManager {
    /** `localStream`: null, or the kinds of its tracks (one track per kind). */
    var localStream: Option<set<Kind>>
    var peers: JsMap.Map<Peer>
    var remoteStreams: JsMap.Map<RemoteMedia>
    var playerNames: map<string, string>
    var speakingStates: map<string, bool>
    /** `setup` ran; the stream-added and stream-removed callbacks are then set. */
    var isSetup: bool
    var hasSpeakingCallback: bool
    var vadRunning: bool
    var audioContext: bool
    var signals: seq<Signal>
    var ui: seq<UiEvent>
    var pendingCalls: seq<string>

    ghost predicate Valid()
      reads this
    {
      JsMap.Valid(peers) && JsMap.Valid(remoteStreams)
    }

    constructor ()
      ensures Valid()
      ensures localStream == None && peers.entries == map[] && remoteStreams.entries == map[]
      ensures playerNames == map[] && speakingStates == map[]
      ensures !isSetup && !hasSpeakingCallback && !vadRunning && !audioContext
      ensures signals == [] && ui == [] && pendingCalls == []
    {
      localStream := None;
      peers := JsMap.Empty();
      remoteStreams := JsMap.Empty();
      playerNames := map[];
      speakingStates := map[];
      isSetup, hasSpeakingCallback, vadRunning, audioContext := false, false, false, false;
      signals, ui, pendingCalls := [], [], [];
    }

    /** `setup`: only the first call has an effect; it stores the callbacks
        and starts the voice-activity loop. */
    method Setup(withSpeakingCallback: bool)
      modifies this`isSetup, this`hasSpeakingCallback, this`vadRunning
      ensures isSetup && vadRunning == (old(vadRunning) || !old(isSetup))
      ensures old(isSetup) ==> hasSpeakingCallback == old(hasSpeakingCallback) && vadRunning == old(vadRunning)
      ensures !old(isSetup) ==> hasSpeakingCallback == withSpeakingCallback
    {
      if isSetup {
        return;
      }
      isSetup := true;
      hasSpeakingCallback := withSpeakingCallback;
      StartVadLoop();
    }

    /** `startVADLoop`: a second start is ignored. */
    method StartVadLoop()
      modifies this`vadRunning
      ensures vadRunning
    {
      if vadRunning {
        return;
      }
      vadRunning := true;
    }

    /** `getPlayerName`: the filed name, or else the first six characters of the id. */
    function GetPlayerName(playerId: string): (name: string)
      reads this
      ensures playerId in playerNames && playerNames[playerId] != "" ==> name == playerNames[playerId]
      ensures !(playerId in playerNames && playerNames[playerId] != "") ==>
        |name| == Min(6, |playerId|) && name == playerId[..|name|]
    {
      if playerId in playerNames && playerNames[playerId] != "" then playerNames[playerId]
      else playerId[..Min(6, |playerId|)]
    }

    /** `createPeerConnection`: a fresh stable connection filed under the target. */
    method CreatePeerConnection(targetId: string)
      requires Valid()
      modifies this`peers
      ensures Valid()
      ensures peers == JsMap.Set(old(peers), targetId, Peer(Stable, {}, []))
    {
      peers := JsMap.Set(peers, targetId, Peer(Stable, {}, []));
    }

    /** `initiateCall`: nothing when a connection to the target exists;
        otherwise one new connection sending every local track, with an offer
        set locally and sent to the target. */
    method InitiateCall(targetPlayerId: string)
      requires Valid()
      modifies this`peers, this`signals
      ensures Valid()
      ensures peers == Call(old(peers), targetPlayerId, LocalKinds(localStream))
      ensures signals == old(signals) + CallOffer(old(peers), targetPlayerId)
    {
      if targetPlayerId in peers.entries {
        return;
      }
      CreatePeerConnection(targetPlayerId);
      var pc := peers.entries[targetPlayerId];
      if localStream.Some? {
        pc := pc.(senders := pc.senders + localStream.value);
      }
      pc := Offered(pc);
      assert pc == Peer(HaveLocalOffer, LocalKinds(localStream), []);
      peers := JsMap.Set(peers, targetPlayerId, pc);
      assert peers.entries == old(peers.entries)[targetPlayerId := pc];
      signals := signals + [Offer(targetPlayerId)];
    }

    /** `handleOffer`: roll back a pending local offer (or create the
        connection), apply the offer, add a sender for each local kind not yet
        sent, and answer the caller. */
    method HandleOffer(caller: string)
      requires Valid()
      modifies this`peers, this`signals
      ensures Valid()
      ensures caller in old(peers.entries) ==>
        peers == JsMap.Set(old(peers), caller, Answered(old(peers.entries)[caller], LocalKinds(localStream)))
      ensures caller !in old(peers.entries) ==>
        peers == JsMap.Set(old(peers), caller, Answered(Peer(Stable, {}, []), LocalKinds(localStream)))
      ensures signals == old(signals) + [Answer(caller)]
    {
      ghost var start := if caller in peers.entries then peers.entries[caller] else Peer(Stable, {}, []);
      if caller in peers.entries {
        var pc := peers.entries[caller];
        if pc.signaling == HaveLocalOffer {
          // glare: withdraw the pending local offer and take the remote one
          peers := JsMap.Set(peers, caller, pc.(signaling := Stable));
        }
      } else {
        CreatePeerConnection(caller);
      }
      var pc := peers.entries[caller];
      pc := pc.(signaling := HaveRemoteOffer);
      if localStream.Some? {
        pc := pc.(senders := pc.senders + localStream.value);
      }
      pc := pc.(signaling := Stable);
      assert pc == Answered(start, LocalKinds(localStream));
      peers := JsMap.Set(peers, caller, pc);
      assert peers.entries == old(peers.entries)[caller := pc];
      signals := signals + [Answer(caller)];
    }

    /** `handleAnswer`: applied only to a known connection with a local offer pending. */
    method HandleAnswer(answerer: string)
      requires Valid()
      modifies this`peers
      ensures Valid()
      ensures answerer in old(peers.entries) ==>
        peers == JsMap.Set(old(peers), answerer, AnswerApplied(old(peers.entries)[answerer]))
      ensures !(answerer in old(peers.entries) && old(peers.entries)[answerer].signaling == HaveLocalOffer) ==>
        peers == old(peers)
    {
      if answerer in peers.entries {
        var pc := peers.entries[answerer];
        if pc.signaling == HaveLocalOffer {
          peers := JsMap.Set(peers, answerer, pc.(signaling := Stable));
        }
      }
    }

    /** `handleIceCandidate`: a present candidate is added to a known connection. */
    method HandleIceCandidate(sender: string, candidate: Option<string>)
      requires Valid()
      modifies this`peers
      ensures Valid()
      ensures sender in old(peers.entries) && candidate.Some? ==>
        var pc := old(peers.entries)[sender];
        peers == JsMap.Set(old(peers), sender, pc.(candidates := pc.candidates + [candidate.value]))
      ensures !(sender in old(peers.entries) && candidate.Some?) ==> peers == old(peers)
    {
      if sender in peers.entries && candidate.Some? {
        var pc := peers.entries[sender];
        peers := JsMap.Set(peers, sender, pc.(candidates := pc.candidates + [candidate.value]));
      }
    }

    /** The connection's `onicecandidate`: a present local candidate is sent to the target. */
    method OnLocalIceCandidate(targetId: string, candidate: Option<string>)
      modifies this`signals
      ensures signals == old(signals) + (if candidate.Some? then [IceCandidate(targetId, candidate.value)] else [])
    {
      if candidate.Some? {
        signals := signals + [IceCandidate(targetId, candidate.value)];
      }
    }

    /** `renegotiate`: a new offer only from the stable state. */
    method Renegotiate(targetId: string)
      requires Valid() && targetId in peers.entries
      modifies this`peers, this`signals
      ensures Valid()
      ensures peers == JsMap.Set(old(peers), targetId, Renegotiated(old(peers.entries)[targetId]))
      ensures signals == old(signals) + (if old(peers.entries)[targetId].signaling == Stable then [Offer(targetId)] else [])
    {
      var pc := peers.entries[targetId];
      if pc.signaling != Stable {
        assert peers.entries == peers.entries[targetId := pc];
        return;
      }
      peers := JsMap.Set(peers, targetId, Offered(pc));
      signals := signals + [Offer(targetId)];
    }

    /** `syncTracksToAllPeers`: with a local stream, every connection, in key
        order, sends every local kind (`replaceTrack` keeps the kind of a
        sender already there, `addTrack` adds the others) and then
        renegotiates, which sends an offer from the stable state only. */
    method SyncTracksToAllPeers()
      requires Valid()
      modifies this`peers, this`signals
      ensures Valid()
      ensures localStream.None? ==> peers == old(peers) && signals == old(signals)
      ensures peers.keys == old(peers.keys)
      ensures forall id :: id in peers.entries <==> id in old(peers.entries)
      ensures localStream.Some? ==> forall id :: id in old(peers.entries) ==>
        peers.entries[id] == Synced(old(peers.entries)[id], localStream.value)
      ensures signals == old(signals) +
        (if localStream.Some? then StableOffers(old(peers.entries), old(peers.keys)) else [])
    {
      if localStream.None? {
        return;
      }
      var entries, offers := SyncAll(peers.entries, peers.keys, localStream.value);
      peers := peers.(entries := entries);
      signals := signals + offers;
    }

    /** `closeConnection` (also `handlePlayerLeft`): forget the connection
        and the remote stream, and tell the UI, even for an unknown id. */
    method CloseConnection(id: string)
      requires Valid()
      modifies this`peers, this`remoteStreams, this`ui
      ensures Valid()
      ensures peers == (if id in old(peers.entries) then JsMap.Delete(old(peers), id) else old(peers))
      ensures remoteStreams == JsMap.Delete(old(remoteStreams), id)
      ensures id !in peers.entries && id !in remoteStreams.entries
      ensures ui == old(ui) + (if isSetup then [StreamRemoved(id)] else [])
    {
      if id in peers.entries {
        peers := JsMap.Delete(peers, id);
      }
      remoteStreams := JsMap.Delete(remoteStreams, id);
      if isSetup {
        ui := ui + [StreamRemoved(id)];
      }
    }

    /** The connection's `onconnectionstatechange`: a failed or disconnected
        connection is closed so that it can be set up again. */
    method OnConnectionStateChange(targetId: string, state: ConnectionState)
      requires Valid()
      modifies this`peers, this`remoteStreams, this`ui
      ensures Valid()
      ensures !(state == Failed || state == Disconnected) ==>
        peers == old(peers) && remoteStreams == old(remoteStreams) && ui == old(ui)
      ensures state == Failed || state == Disconnected ==>
        peers == (if targetId in old(peers.entries) then JsMap.Delete(old(peers), targetId) else old(peers)) &&
        remoteStreams == JsMap.Delete(old(remoteStreams), targetId) &&
        ui == old(ui) + (if isSetup then [StreamRemoved(targetId)] else [])
    {
      if state == Failed || state == Disconnected {
        CloseConnection(targetId);
      }
    }

    /** `handlePlayersExisting`: file every truthy name; then, with a local
        stream, call every listed player except oneself, in list order. */
    method HandlePlayersExisting(players: seq<PlayerInfo>, selfId: Option<string>)
      requires Valid()
      modifies this`playerNames, this`peers, this`signals
      ensures Valid()
      ensures playerNames == RecordNames(old(playerNames), players)
      ensures localStream.None? ==> peers == old(peers) && signals == old(signals)
      ensures localStream.Some? ==>
        peers == CallOthers(old(peers), players, selfId, localStream.value) &&
        signals == old(signals) + CallOthersOffers(old(peers), players, selfId, localStream.value)
    {
      RecordPlayerNames(players);
      if localStream.None? {
        return;
      }
      var m, offers := CallEveryOther(peers, players, selfId, localStream.value);
      peers := m;
      signals := signals + offers;
    }

    /** The first loop of `handlePlayersExisting`. */
    method RecordPlayerNames(players: seq<PlayerInfo>)
      modifies this`playerNames
      ensures playerNames == RecordNames(old(playerNames), players)
    {
      var i := 0;
      assert players[..0] == [];
      while i < |players|
        invariant 0 <= i <= |players|
        invariant playerNames == RecordNames(old(playerNames), players[..i])
      {
        var p := players[i];
        RecordNamesSnoc(old(playerNames), players, i);
        if p.name.Some? && p.name.value != "" {
          playerNames := playerNames[p.id := p.name.value];
        }
        i := i + 1;
      }
      assert players[..|players|] == players;
    }

    /** `handlePlayerJoined`: file a truthy name and, with a local stream,
        schedule a call to the newcomer. */
    method HandlePlayerJoined(id: string, name: Option<string>)
      modifies this`playerNames, this`pendingCalls
      ensures playerNames == (if name.Some? && name.value != "" then old(playerNames)[id := name.value] else old(playerNames))
      ensures pendingCalls == old(pendingCalls) + (if localStream.Some? then [id] else [])
    {
      if name.Some? && name.value != "" {
        playerNames := playerNames[id := name.value];
      }
      if localStream.None? {
        return;
      }
      pendingCalls := pendingCalls + [id];
    }

    /** The delayed call scheduled by `handlePlayerJoined` fires (timers
        scheduled with the same delay fire in the order they were set). */
    method RunPendingCall()
      requires Valid() && pendingCalls != []
      modifies this`pendingCalls, this`peers, this`signals
      ensures Valid()
      ensures pendingCalls == old(pendingCalls)[1..]
      ensures peers == Call(old(peers), old(pendingCalls)[0], LocalKinds(localStream))
      ensures signals == old(signals) + CallOffer(old(peers), old(pendingCalls)[0])
    {
      var id := pendingCalls[0];
      pendingCalls := pendingCalls[1..];
      InitiateCall(id);
    }

    /** `ensureAudioContext`: create the context once, if the browser can. */
    method EnsureAudioContext(creatable: bool)
      modifies this`audioContext
      ensures audioContext == (old(audioContext) || creatable)
    {
      if !audioContext && creatable {
        audioContext := true;
      }
    }

    /** `handleRemoteTrack`, bookkeeping only: file the stream for the player
        (keeping its place if known), build the audio graph once, when there
        is a context and the stream has audio, and notify the UI every time. */
    method HandleRemoteTrack(playerId: string, stream: nat, hasAudio: bool, contextCreatable: bool)
      requires Valid()
      modifies this`audioContext, this`remoteStreams, this`ui
      ensures Valid()
      ensures audioContext == (old(audioContext) || contextCreatable)
      ensures playerId in old(remoteStreams.entries) ==>
        var m := old(remoteStreams.entries)[playerId];
        remoteStreams == JsMap.Set(old(remoteStreams), playerId,
          RemoteMedia(stream, m.hasAudioGraph || (audioContext && hasAudio)))
      ensures playerId !in old(remoteStreams.entries) ==>
        remoteStreams == JsMap.Set(old(remoteStreams), playerId, RemoteMedia(stream, audioContext && hasAudio))
      ensures ui == old(ui) + (if isSetup then [StreamAdded(playerId, stream)] else [])
    {
      EnsureAudioContext(contextCreatable);
      if playerId in remoteStreams.entries {
        var existing := remoteStreams.entries[playerId];
        existing := existing.(stream := stream);
        if audioContext && hasAudio && !existing.hasAudioGraph {
          existing := existing.(hasAudioGraph := true);
        }
        remoteStreams := JsMap.Set(remoteStreams, playerId, existing);
        if isSetup {
          ui := ui + [StreamAdded(playerId, stream)];
        }
        return;
      }
      var media := RemoteMedia(stream, audioContext && hasAudio);
      remoteStreams := JsMap.Set(remoteStreams, playerId, media);
      if isSetup {
        ui := ui + [StreamAdded(playerId, stream)];
      }
    }

    /** The speaking check for one player with an analyser. */
    method SpeakingSample(playerId: string, isSpeaking: bool)
      modifies this`speakingStates, this`ui
      ensures speakingStates == SpeakingStep(old(speakingStates), playerId, isSpeaking, hasSpeakingCallback).0
      ensures ui == old(ui) + SpeakingStep(old(speakingStates), playerId, isSpeaking, hasSpeakingCallback).1
    {
      var prev := playerId in speakingStates && speakingStates[playerId];
      if isSpeaking != prev {
        speakingStates := speakingStates[playerId := isSpeaking];
        if hasSpeakingCallback {
          ui := ui + [Speaking(playerId, isSpeaking)];
        }
        ui := ui + [SpeakingDispatched(playerId, isSpeaking)];
      } else {
        assert ui == ui + [];
      }
    }

    /** One run of the voice-activity interval over the remote streams. */
    method VadTick(isSpeaking: string -> bool)
      requires Valid() && vadRunning
      modifies this`speakingStates, this`ui
      ensures speakingStates == VadFold(old(speakingStates), remoteStreams.entries, remoteStreams.keys, isSpeaking, hasSpeakingCallback).0
      ensures ui == old(ui) + VadFold(old(speakingStates), remoteStreams.entries, remoteStreams.keys, isSpeaking, hasSpeakingCallback).1
    {
      var keys := remoteStreams.keys;
      var media := remoteStreams.entries;
      ghost var fired: seq<UiEvent> := [];
      var i := 0;
      assert keys[..0] == [];
      while i < |keys|
        invariant 0 <= i <= |keys|
        invariant ui == old(ui) + fired
        invariant speakingStates == VadFold(old(speakingStates), media, keys[..i], isSpeaking, hasSpeakingCallback).0
        invariant fired == VadFold(old(speakingStates), media, keys[..i], isSpeaking, hasSpeakingCallback).1
      {
        var playerId := keys[i];
        assert playerId in media;
        VadFoldSnoc(old(speakingStates), media, keys, i, isSpeaking, hasSpeakingCallback);
        if media[playerId].hasAudioGraph {
          ghost var step := SpeakingStep(speakingStates, playerId, isSpeaking(playerId), hasSpeakingCallback);
          SpeakingSample(playerId, isSpeaking(playerId));
          fired := fired + step.1;
        }
        i := i + 1;
      }
      assert keys[..|keys|] == keys;
    }
  }
}
