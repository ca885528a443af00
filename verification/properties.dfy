/** Properties of the presence server that relate several events: what one
    connection's events can and cannot do to another's view, and how
    removal, rename and location updates compose. */
module PresenceProperties {
  import opened JsTypes
  import opened Protocol
  import opened Presence
  import OrderedMap

  /** Every step of `trace` comes from a connection other than `id`. */
  predicate AllFromOthers(trace: seq<Inbound>, id: ConnId) {
    forall i :: 0 <= i < |trace| ==> trace[i].from != id
  }

  /** Events from other connections never touch `id`'s registry entry, its
      open status or its closure record, however many of them there are. */
  lemma {:induction false} OthersDoNotInterfere(s: State, trace: seq<Inbound>, id: ConnId)
    requires Inv(s) && AllFromOthers(trace, id)
    requires Run(s, trace).Success?
    ensures var t := Run(s, trace).value.state;
      && OrderedMap.Get(t.registry, id) == OrderedMap.Get(s.registry, id)
      && (id in t.sessions <==> id in s.sessions)
      && (id in s.sessions ==> t.sessions[id] == s.sessions[id])
    decreases |trace|
  {
    if |trace| > 0 {
      var o := Step(s, trace[0].from, trace[0].event, trace[0].now).value;
      assert AllFromOthers(trace[1..], id);
      OthersDoNotInterfere(o.state, trace[1..], id);
    }
  }

  /** A reachable registry holds at most one record per connection: no two
      positions of its value list carry the same `userId`. */
  lemma OneRecordPerConnection(s: State)
    requires Inv(s)
    ensures var vals := OrderedMap.Values(s.registry);
      forall i, j :: 0 <= i < j < |vals| ==> vals[i].userId != vals[j].userId
  {
    var vals := OrderedMap.Values(s.registry);
    forall i, j | 0 <= i < j < |vals|
      ensures vals[i].userId != vals[j].userId
    {
      assert vals[i].userId == s.registry.order[i];
      assert vals[j].userId == s.registry.order[j];
    }
  }

  /** After `set-nickname` the sender is registered, and its `active-users`
      reply lists every other registered record and never the sender. */
  lemma SetNicknameRegistersAndExcludesSender(s: State, id: ConnId, nickname: Option<string>, now: int)
    requires Inv(s) && id in s.sessions
    ensures var o := OnSetNickname(s, id, nickname, now);
      var reg := o.state.registry;
      && id in reg.entries
      && o.out[0].to == ToSender(id)
      && o.out[0].payload == ActiveUsers(OrderedMap.Values(OrderedMap.Remove(reg, id)))
      && (forall u :: u in o.out[0].payload.users ==> u.userId != id)
      && (forall k :: k in reg.entries && k != id ==> reg.entries[k] in o.out[0].payload.users)
      && |o.out[0].payload.users| == |reg.entries| - 1
  {
    var o := OnSetNickname(s, id, nickname, now);
    SnapshotIsOthers(o.state.registry, id);
  }

  /** Join visibility: when `b` sets its nickname, its snapshot shows the
      registered record of `a`, and the `user-joined` announcement with
      `b`'s stored nickname reaches `a`. */
  lemma JoinVisibility(s: State, a: ConnId, b: ConnId, nickname: Option<string>, now: int)
    requires Inv(s) && b in s.sessions && a in s.registry.entries && a != b
    ensures var o := OnSetNickname(s, b, nickname, now);
      && s.registry.entries[a] in o.out[0].payload.users
      && a in Recipients(o.state.sessions.Keys, o.out[1].to)
      && o.out[1].payload == UserJoined(b, o.state.registry.entries[b].nickname, now)
  {
    NewcomerSeesRegistered(s, a, b, nickname, now);
    var o := OnSetNickname(s, b, nickname, now);
    var u := o.state.sessions[b];
    assert o.out[1] == Outbound(ToAllExcept(b), UserJoined(b, u.nickname, now));
    assert o.state.registry.entries[b] == u;
    assert a in o.state.sessions;
  }

  /** The newcomer's snapshot shows every record registered before it. */
  lemma NewcomerSeesRegistered(s: State, a: ConnId, b: ConnId, nickname: Option<string>, now: int)
    requires Inv(s) && b in s.sessions && a in s.registry.entries && a != b
    ensures var o := OnSetNickname(s, b, nickname, now);
      && a in o.state.registry.entries
      && o.state.registry.entries[a] == s.registry.entries[a]
      && s.registry.entries[a] in o.out[0].payload.users
  {
    var o := OnSetNickname(s, b, nickname, now);
    var reg := o.state.registry;
    assert OrderedMap.Get(reg, a) == OrderedMap.Get(s.registry, a);
    SnapshotIsOthers(reg, b);
  }

  /** No message of any successful step reaches its sender, except the
      `active-users` reply to `set-nickname`. */
  lemma SenderExcluded(s: State, id: ConnId, ev: Event, now: int)
    requires Inv(s) && Step(s, id, ev, now).Success?
    ensures var o := Step(s, id, ev, now).value;
      forall i :: 0 <= i < |o.out| ==>
        (id in Recipients(o.state.sessions.Keys, o.out[i].to) <==> o.out[i].payload.ActiveUsers?)
  {
    var o := Step(s, id, ev, now).value;
    NoEcho(id, o.out, o.state.sessions.Keys);
  }

  /** Last write wins: after two location updates from `id`, with any events
      from other connections in between, the registry holds exactly the
      second triple for `id`, and every other connection's snapshot shows
      `id` only with that triple. */
  lemma LastWriteWins(s: State, id: ConnId, d1: LocationData, t1: int,
                      others: seq<Inbound>, d2: LocationData, t2: int, viewer: ConnId)
    requires Inv(s) && id in s.sessions && AllFromOthers(others, id) && viewer != id
    requires var o1 := OnLocationUpdate(s, id, Some(d1), t1).value;
      Run(o1.state, others).Success?
    ensures var o1 := OnLocationUpdate(s, id, Some(d1), t1).value;
      var mid := Run(o1.state, others).value.state;
      && id in mid.sessions
      && var o2 := OnLocationUpdate(mid, id, Some(d2), t2).value;
      var reg := o2.state.registry;
      && id in reg.entries
      && reg.entries[id].lat == d2.lat && reg.entries[id].lng == d2.lng
      && reg.entries[id].accuracy == d2.accuracy && reg.entries[id].timestamp == t2
      && (forall u :: u in Snapshot(reg, viewer) && u.userId == id ==>
            u.lat == d2.lat && u.lng == d2.lng && u.accuracy == d2.accuracy)
  {
    var o1 := OnLocationUpdate(s, id, Some(d1), t1).value;
    var mid := Run(o1.state, others).value.state;
    OthersDoNotInterfere(o1.state, others, id);
    assert id in mid.sessions;
    var o2 := OnLocationUpdate(mid, id, Some(d2), t2).value;
    var reg := o2.state.registry;
    var u2 := o2.state.sessions[id];
    assert OrderedMap.Get(reg, id) == Some(u2);
    assert u2.lat == d2.lat && u2.lng == d2.lng && u2.accuracy == d2.accuracy && u2.timestamp == t2;
    SnapshotShowsRegisteredRecord(o2.state, viewer, id);
  }

  /** Any record of `id` a snapshot shows is `id`'s registered record. */
  lemma SnapshotShowsRegisteredRecord(s: State, viewer: ConnId, id: ConnId)
    requires Inv(s)
    ensures forall u :: u in Snapshot(s.registry, viewer) && u.userId == id ==>
      id in s.registry.entries && u == s.registry.entries[id]
  {
    var reg := s.registry;
    var vals := OrderedMap.Values(reg);
    forall u | u in Snapshot(reg, viewer) && u.userId == id
      ensures id in reg.entries && u == reg.entries[id]
    {
      assert u in vals;
      var i :| 0 <= i < |vals| && vals[i] == u;
      assert reg.order[i] == id;
    }
  }

  /** Rename propagation: after `update-nickname` to `z`, a later location
      update from the same connection (other connections may act in
      between) broadcasts `z` unless it carries a truthy override. */
  lemma RenamePropagates(s: State, id: ConnId, z: Option<string>,
                         others: seq<Inbound>, d: LocationData, now: int)
    requires Inv(s) && id in s.sessions && AllFromOthers(others, id)
    requires var o1 := OnUpdateNickname(s, id, Some(NicknameData(z))).value;
      Run(o1.state, others).Success?
    ensures var o1 := OnUpdateNickname(s, id, Some(NicknameData(z))).value;
      var mid := Run(o1.state, others).value.state;
      && id in mid.sessions
      && var o2 := OnLocationUpdate(mid, id, Some(d), now).value;
      && o1.out[0].payload.nickname == z
      && o1.out[0].payload.oldNickname == s.sessions[id].nickname
      && o2.out[0].payload.nickname == (if StrTruthy(d.nickname) then d.nickname else z)
      && o2.out[0].payload.nickname == o2.state.registry.entries[id].nickname
  {
    var o1 := OnUpdateNickname(s, id, Some(NicknameData(z))).value;
    OthersDoNotInterfere(o1.state, others, id);
  }

  /** Removal is idempotent: a second `stop-sharing` leaves the state as the
      first left it and announces the departure as 'Anonymous'. */
  lemma RemovalIdempotent(s: State, id: ConnId, now1: int, now2: int)
    requires Inv(s) && id in s.sessions
    ensures var o1 := Step(s, id, StopSharing, now1).value;
      var o2 := Step(o1.state, id, StopSharing, now2).value;
      && o2.state == o1.state
      && o2.out == [Outbound(ToAllExcept(id), UserLeft(id, Some(Anonymous)))]
  {
  }

  /** A `disconnect` after `stop-sharing` changes no registry entry and also
      announces the departure as 'Anonymous'. */
  lemma DisconnectAfterStopSharing(s: State, id: ConnId, now1: int, now2: int)
    requires Inv(s) && id in s.sessions
    ensures var o1 := Step(s, id, StopSharing, now1).value;
      var o2 := Step(o1.state, id, Disconnect, now2).value;
      && o2.state.registry == o1.state.registry
      && id !in o2.state.sessions
      && o2.out == [Outbound(ToAllExcept(id), UserLeft(id, Some(Anonymous)))]
  {
  }

  /** `stop-sharing` and `disconnect` make the same registry change and send
      the same message; they differ only in whether the connection stays open. */
  lemma StopSharingMatchesDisconnect(s: State, id: ConnId)
    requires Inv(s) && id in s.sessions
    ensures OnStopSharing(s, id).state.registry == OnDisconnect(s, id).state.registry
    ensures OnStopSharing(s, id).out == OnDisconnect(s, id).out
    ensures id in OnStopSharing(s, id).state.sessions && id !in OnDisconnect(s, id).state.sessions
  {
  }

  /** After `stop-sharing` the connection's closure record survives: a later
      location update without an override (other connections may act in
      between) re-inserts the connection under its earlier nickname. */
  lemma ReinsertAfterStopSharing(s: State, id: ConnId, others: seq<Inbound>, d: LocationData, now: int)
    requires Inv(s) && id in s.sessions && AllFromOthers(others, id) && !StrTruthy(d.nickname)
    requires Run(OnStopSharing(s, id).state, others).Success?
    ensures var mid := Run(OnStopSharing(s, id).state, others).value.state;
      && id !in mid.registry.entries
      && id in mid.sessions
      && var o := OnLocationUpdate(mid, id, Some(d), now).value;
      && id in o.state.registry.entries
      && o.state.registry.entries[id].nickname == s.sessions[id].nickname
      && o.out[0].payload.nickname == s.sessions[id].nickname
  {
    OthersDoNotInterfere(OnStopSharing(s, id).state, others, id);
  }

  /** Every reachable state satisfies the invariant: a run from the initial
      state keeps every registered record equal to its connection's closure
      record and keyed by its own `userId`. */
  lemma ReachableStatesAreConsistent(trace: seq<Inbound>)
    requires Run(Initial(), trace).Success?
    ensures var t := Run(Initial(), trace).value.state;
      && t.registry.entries.Keys <= t.sessions.Keys
      && (forall k :: k in t.registry.entries ==> t.registry.entries[k].userId == k)
      && |OrderedMap.Values(t.registry)| == |t.registry.entries|
  {
  }
}
