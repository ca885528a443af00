/** The presence registry and its per-connection event handlers, as a pure
    state machine: each inbound event takes the state and the current time
    and yields the next state and the addressed messages to send. */
module Presence {
  import opened JsTypes
  import opened Protocol
  import OrderedMap

  /** `activeUsers`: connection id to the record that connection last stored. */
  type Registry = OrderedMap.OMap<ConnId, User>

  /** `registry` is the shared `activeUsers` map. `sessions` holds, for each
      open connection, the `userData` record kept in that connection's
      closure; its keys are exactly the open connections. */
  datatype State = State(registry: Registry, sessions: map<ConnId, User>)

  /** The next state and the messages a handler emits, in emission order. */
  datatype Outcome = Outcome(state: State, out: seq<Outbound>)

  /** Why a delivery produced no outcome: a handler threw before touching
      any state, or the transport delivered something it never delivers. */
  datatype Fault =
    | TypeError      // a property read on a `null`/`undefined` payload
    | NotOpen        // an event on a connection that is not open
    | AlreadyOpen    // a second `connection` for an id that is open

  /** One inbound delivery: which connection, which event, and `Date.now()`. */
  datatype Inbound = Inbound(from: ConnId, event: Event, now: int)

  /** What every reachable state satisfies: the registry is a well-formed map,
      holds only open connections, holds for each one exactly that
      connection's closure record, and every record's `userId` is its key. */
  ghost predicate Inv(s: State) {
    && OrderedMap.Valid(s.registry)
    && (forall k :: k in s.registry.entries ==> k in s.sessions && s.registry.entries[k] == s.sessions[k])
    && (forall k :: k in s.sessions ==> s.sessions[k].userId == k)
  }

  /** `t` differs from `s` at most in connection `id`'s registry entry,
      open status and closure record. */
  ghost predicate OnlyTouches(s: State, t: State, id: ConnId) {
    && (forall k :: k != id ==> OrderedMap.Get(t.registry, k) == OrderedMap.Get(s.registry, k))
    && (forall k :: k != id ==> (k in t.sessions <==> k in s.sessions))
    && (forall k :: k != id && k in s.sessions ==> t.sessions[k] == s.sessions[k])
  }

  /** The server as it starts: nobody connected, nobody registered. */
  function Initial(): (s: State)
    ensures Inv(s)
    ensures |s.registry.entries| == 0 && |s.sessions| == 0
  {
    State(OrderedMap.Empty(), map[])
  }

  /** The record a connection's closure starts with. */
  function NewUser(id: ConnId, now: int): User {
    User(id, Some(Anonymous), Missing, Missing, Missing, now)
  }

  /** The registry records of everyone but `id`, in registry order:
      `Array.from(activeUsers.values()).filter(user => user.userId !== id)`. */
  function OthersOf(users: seq<User>, id: ConnId): (r: seq<User>)
    ensures forall u :: u in r <==> u in users && u.userId != id
  {
    if |users| == 0 then []
    else if users[0].userId == id then OthersOf(users[1..], id)
    else [users[0]] + OthersOf(users[1..], id)
  }

  /** The `active-users` snapshot sent to `id`. */
  function Snapshot(reg: Registry, id: ConnId): seq<User>
    requires OrderedMap.Valid(reg)
  {
    OthersOf(OrderedMap.Values(reg), id)
  }

  /** Filtering the values of `keys` by owner is the same as dropping the
      owner's key first, when every record's `userId` is its key. */
  lemma {:induction false} OthersOfValues(keys: seq<ConnId>, e: map<ConnId, User>, id: ConnId)
    requires forall k :: k in keys ==> k in e && e[k].userId == k
    ensures OthersOf(OrderedMap.ValuesOf(keys, e), id) == OrderedMap.ValuesOf(OrderedMap.Without(keys, id), e - {id})
  {
    if |keys| > 0 {
      OthersOfValues(keys[1..], e, id);
      var vals := OrderedMap.ValuesOf(keys, e);
      assert vals[1..] == OrderedMap.ValuesOf(keys[1..], e);
    }
  }

  /** The `active-users` snapshot for `id` is exactly the registry with `id`
      deleted, in the same order: every other record once, never `id`'s own. */
  lemma SnapshotIsOthers(reg: Registry, id: ConnId)
    requires OrderedMap.Valid(reg)
    requires forall k :: k in reg.entries ==> reg.entries[k].userId == k
    ensures Snapshot(reg, id) == OrderedMap.Values(OrderedMap.Remove(reg, id))
    ensures forall u :: u in Snapshot(reg, id) ==> u.userId != id
    ensures forall k :: k in reg.entries && k != id ==> reg.entries[k] in Snapshot(reg, id)
    ensures |Snapshot(reg, id)| == if id in reg.entries then |reg.entries| - 1 else |reg.entries|
  {
    OthersOfValues(reg.order, reg.entries, id);
    var rem := OrderedMap.Remove(reg, id);
    assert rem.entries == reg.entries - {id};
    forall k | k in reg.entries && k != id
      ensures reg.entries[k] in Snapshot(reg, id)
    {
      assert k in rem.entries && rem.entries[k] == reg.entries[k];
    }
    if id in reg.entries {
      assert |reg.entries - {id}| == |reg.entries| - 1 by {
        assert (reg.entries - {id}).Keys == reg.entries.Keys - {id};
      }
    }
  }

  /** Write the closure record `u` of `id` and store it in the registry:
      the `userData = …; activeUsers.set(socket.id, userData)` idiom. */
  function Commit(s: State, id: ConnId, u: User): (r: State)
    requires Inv(s) && id in s.sessions && u.userId == id
    ensures Inv(r)
    ensures r.sessions == s.sessions[id := u]
    ensures OrderedMap.Get(r.registry, id) == Some(u)
    ensures OnlyTouches(s, r, id)
  {
    State(OrderedMap.Set(s.registry, id, u), s.sessions[id := u])
  }

  /** `io.on('connection')`: a fresh closure record, registry untouched. */
  function OnConnect(s: State, id: ConnId, now: int): (r: State)
    requires Inv(s) && id !in s.sessions
    ensures Inv(r)
    ensures r.registry == s.registry && id !in r.registry.entries
    ensures r.sessions.Keys == s.sessions.Keys + {id}
    ensures OnlyTouches(s, r, id)
    ensures r.sessions[id] == User(id, Some(Anonymous), Missing, Missing, Missing, now)
  {
    State(s.registry, s.sessions[id := NewUser(id, now)])
  }

  /** `set-nickname`: store `nickname || 'Anonymous'`, register the sender,
      reply with everyone else, and announce the sender to everyone else. */
  function OnSetNickname(s: State, id: ConnId, nickname: Option<string>, now: int): (r: Outcome)
    requires Inv(s) && id in s.sessions
    ensures Inv(r.state)
    ensures id in r.state.sessions
    ensures var stored := r.state.sessions[id].nickname;
      && (StrTruthy(nickname) ==> stored == nickname)
      && (!StrTruthy(nickname) ==> stored == Some(Anonymous))
      && r.out == [Outbound(ToSender(id), ActiveUsers(Snapshot(r.state.registry, id))),
                   Outbound(ToAllExcept(id), UserJoined(id, stored, now))]
    ensures r.state.sessions == s.sessions[id := s.sessions[id].(nickname := r.state.sessions[id].nickname)]
    ensures OrderedMap.Get(r.state.registry, id) == Some(r.state.sessions[id])
    ensures OnlyTouches(s, r.state, id)
    ensures AddressedBy(id, r.out)
  {
    var u := s.sessions[id].(nickname := Or(nickname, Some(Anonymous)));
    var s' := Commit(s, id, u);
    Outcome(s', [Outbound(ToSender(id), ActiveUsers(Snapshot(s'.registry, id))),
                 Outbound(ToAllExcept(id), UserJoined(id, u.nickname, now))])
  }

  /** `update-nickname`: reading `data.newNickname` throws on a `null` or
      `undefined` payload; otherwise store the new nickname verbatim (no
      'Anonymous' default) and broadcast the old and new names. */
  function OnUpdateNickname(s: State, id: ConnId, data: Option<NicknameData>): (r: Result<Outcome, Fault>)
    requires Inv(s) && id in s.sessions
    ensures r.Failure? <==> data.None?
    ensures r.Failure? ==> r.error == TypeError
    ensures r.Success? ==>
      var o := r.value;
      && Inv(o.state)
      && o.state.sessions == s.sessions[id := s.sessions[id].(nickname := data.value.newNickname)]
      && OrderedMap.Get(o.state.registry, id) == Some(o.state.sessions[id])
      && OnlyTouches(s, o.state, id)
      && AddressedBy(id, o.out)
      && o.out == [Outbound(ToAllExcept(id), NicknameUpdated(id, s.sessions[id].nickname, data.value.newNickname))]
  {
    match data
    case None => Failure(TypeError)
    case Some(d) =>
      var oldNickname := s.sessions[id].nickname;
      var s' := Commit(s, id, s.sessions[id].(nickname := d.newNickname));
      Success(Outcome(s', [Outbound(ToAllExcept(id), NicknameUpdated(id, oldNickname, d.newNickname))]))
  }

  /** `location-update`: reading `data.lat` throws on a `null` or `undefined`
      payload; otherwise replace the closure record by one holding the new
      triple, the override nickname if truthy and the old one otherwise, and
      the current time, store it, and broadcast it. */
  function OnLocationUpdate(s: State, id: ConnId, data: Option<LocationData>, now: int): (r: Result<Outcome, Fault>)
    requires Inv(s) && id in s.sessions
    ensures r.Failure? <==> data.None?
    ensures r.Failure? ==> r.error == TypeError
    ensures r.Success? ==> id in r.value.state.sessions
    ensures r.Success? ==>
      var d := data.value;
      var o := r.value;
      var u := o.state.sessions[id];
      && Inv(o.state)
      && o.state.sessions.Keys == s.sessions.Keys
      && u == User(id, u.nickname, d.lat, d.lng, d.accuracy, now)
      && (StrTruthy(d.nickname) ==> u.nickname == d.nickname)
      && (!StrTruthy(d.nickname) ==> u.nickname == s.sessions[id].nickname)
      && OrderedMap.Get(o.state.registry, id) == Some(u)
      && OnlyTouches(s, o.state, id)
      && AddressedBy(id, o.out)
      && o.out == [Outbound(ToAllExcept(id), UserLocation(id, d.lat, d.lng, d.accuracy, u.nickname, now))]
  {
    match data
    case None => Failure(TypeError)
    case Some(d) =>
      var u := s.sessions[id].(lat := d.lat, lng := d.lng, accuracy := d.accuracy,
                               nickname := Or(d.nickname, s.sessions[id].nickname),
                               timestamp := now);
      var s' := Commit(s, id, u);
      Success(Outcome(s', [Outbound(ToAllExcept(id), UserLocation(id, d.lat, d.lng, d.accuracy, u.nickname, now))]))
  }

  /** The nickname announced in `user-left`: the registered record's, or
      'Anonymous' when the sender is not registered. */
  function LeavingNickname(reg: Registry, id: ConnId): Option<string> {
    match OrderedMap.Get(reg, id)
    case Some(u) => u.nickname
    case None => Some(Anonymous)
  }

  /** `stop-sharing`: unregister the sender and announce its departure; the
      connection and its closure record stay. */
  function OnStopSharing(s: State, id: ConnId): (r: Outcome)
    requires Inv(s) && id in s.sessions
    ensures Inv(r.state)
    ensures r.state.sessions == s.sessions
    ensures OrderedMap.Get(r.state.registry, id) == None
    ensures OnlyTouches(s, r.state, id)
    ensures AddressedBy(id, r.out)
    ensures id !in s.registry.entries ==> r.state.registry == s.registry
    ensures id in s.registry.entries ==>
      r.out == [Outbound(ToAllExcept(id), UserLeft(id, s.registry.entries[id].nickname))]
    ensures id !in s.registry.entries ==>
      r.out == [Outbound(ToAllExcept(id), UserLeft(id, Some(Anonymous)))]
  {
    var nickname := LeavingNickname(s.registry, id);
    Outcome(State(OrderedMap.Remove(s.registry, id), s.sessions),
            [Outbound(ToAllExcept(id), UserLeft(id, nickname))])
  }

  /** `disconnect`: the same departure as `stop-sharing`, and the connection
      (with its closure record) is gone. */
  function OnDisconnect(s: State, id: ConnId): (r: Outcome)
    requires Inv(s) && id in s.sessions
    ensures Inv(r.state)
    ensures r.state.sessions == s.sessions - {id}
    ensures OrderedMap.Get(r.state.registry, id) == None
    ensures OnlyTouches(s, r.state, id)
    ensures AddressedBy(id, r.out)
    ensures id !in s.registry.entries ==> r.state.registry == s.registry
    ensures id in s.registry.entries ==>
      r.out == [Outbound(ToAllExcept(id), UserLeft(id, s.registry.entries[id].nickname))]
    ensures id !in s.registry.entries ==>
      r.out == [Outbound(ToAllExcept(id), UserLeft(id, Some(Anonymous)))]
  {
    var nickname := LeavingNickname(s.registry, id);
    Outcome(State(OrderedMap.Remove(s.registry, id), s.sessions - {id}),
            [Outbound(ToAllExcept(id), UserLeft(id, nickname))])
  }

  /** Whether delivering `ev` on `id` produces no outcome. */
  predicate Faults(s: State, id: ConnId, ev: Event) {
    if ev.Connect? then id in s.sessions
    else
      || id !in s.sessions
      || (ev.UpdateNickname? && ev.nicknameData.None?)
      || (ev.LocationUpdate? && ev.locationData.None?)
  }

  /** One inbound event, dispatched to its handler. Every successful step
      keeps the invariant and touches no other connection's registry entry,
      open status or closure record. */
  function Step(s: State, id: ConnId, ev: Event, now: int): (r: Result<Outcome, Fault>)
    requires Inv(s)
    ensures r.Failure? <==> Faults(s, id, ev)
    ensures r.Success? ==> Inv(r.value.state)
    ensures r.Success? ==> OnlyTouches(s, r.value.state, id)
    ensures r.Success? ==> AddressedBy(id, r.value.out)
  {
    if !ev.Connect? && id !in s.sessions then Failure(NotOpen)
    else match ev
      case Connect =>
        if id in s.sessions then Failure(AlreadyOpen) else Success(Outcome(OnConnect(s, id, now), []))
      case SetNickname(nickname) => Success(OnSetNickname(s, id, nickname, now))
      case UpdateNickname(data) => OnUpdateNickname(s, id, data)
      case LocationUpdate(data) => OnLocationUpdate(s, id, data, now)
      case StopSharing => Success(OnStopSharing(s, id))
      case Disconnect => Success(OnDisconnect(s, id))
  }

  /** A sequence of deliveries, handled one after another to completion;
      the first fault ends the run. All messages are collected in order. */
  function Run(s: State, trace: seq<Inbound>): (r: Result<Outcome, Fault>)
    requires Inv(s)
    ensures r.Success? ==> Inv(r.value.state)
    decreases |trace|
  {
    if |trace| == 0 then Success(Outcome(s, []))
    else
      match Step(s, trace[0].from, trace[0].event, trace[0].now)
      case Failure(e) => Failure(e)
      case Success(o) =>
        match Run(o.state, trace[1..])
        case Failure(e) => Failure(e)
        case Success(rest) => Success(Outcome(rest.state, o.out + rest.out))
  }
}
