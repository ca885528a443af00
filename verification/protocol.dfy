/** The wire contract of the presence server: the participant record, the
    inbound events a connection can deliver, and the addressed outbound
    messages the server emits. */
module Protocol {
  import opened JsTypes

  /** `socket.id`, assigned by the transport when a connection opens. */
  type ConnId = string

  /** The nickname used when none has been given. */
  const Anonymous: string := "Anonymous"

  /** One connection's `userData` record. */
  datatype User = User(
    userId: ConnId,
    nickname: Option<string>,
    lat: Num,
    lng: Num,
    accuracy: Num,
    timestamp: int)

  /** The payload of `update-nickname`: `{ newNickname }`. */
  datatype NicknameData = NicknameData(newNickname: Option<string>)

  /** The payload of `location-update`: `{ lat, lng, accuracy, nickname? }`. */
  datatype LocationData = LocationData(lat: Num, lng: Num, accuracy: Num, nickname: Option<string>)

  /** An inbound event on one connection. A payload of None is `null` or
      `undefined`; a payload that is not an object reads every field as
      `undefined`, which is `Some` with every field missing. */
  datatype Event =
    | Connect
    | SetNickname(nickname: Option<string>)
    | UpdateNickname(nicknameData: Option<NicknameData>)
    | LocationUpdate(locationData: Option<LocationData>)
    | StopSharing
    | Disconnect

  /** The body of an outbound message. Each constructor travels under one
      event name: `active-users`, `user-joined`, `nickname-updated`,
      `user-location` and `user-left`, in declaration order. */
  datatype Payload =
    | ActiveUsers(users: seq<User>)
    | UserJoined(userId: ConnId, nickname: Option<string>, timestamp: int)
    | NicknameUpdated(userId: ConnId, oldNickname: Option<string>, nickname: Option<string>)
    | UserLocation(userId: ConnId, lat: Num, lng: Num, accuracy: Num, nickname: Option<string>, timestamp: int)
    | UserLeft(userId: ConnId, nickname: Option<string>)

  /** `socket.emit` (to the sender) or `socket.broadcast.emit` (to every
      open connection except the sender). */
  datatype Target = ToSender(sender: ConnId) | ToAllExcept(sender: ConnId)

  datatype Outbound = Outbound(to: Target, payload: Payload)

  /** The connections a message reaches when `open` are the open connections. */
  function Recipients(open: set<ConnId>, t: Target): set<ConnId> {
    match t
    case ToSender(id) => {id}
    case ToAllExcept(id) => open - {id}
  }

  /** A list of messages emitted by `id`'s handler: only the `active-users`
      reply goes back to the sender, everything else is a broadcast that
      excludes the sender. */
  predicate AddressedBy(id: ConnId, out: seq<Outbound>) {
    forall i :: 0 <= i < |out| ==>
      if out[i].payload.ActiveUsers? then out[i].to == ToSender(id)
      else out[i].to == ToAllExcept(id)
  }

  /** Messages addressed by `id` never reach `id` except the `active-users` reply. */
  lemma NoEcho(id: ConnId, out: seq<Outbound>, open: set<ConnId>)
    requires AddressedBy(id, out)
    ensures forall i :: 0 <= i < |out| ==>
      (id in Recipients(open, out[i].to) <==> out[i].payload.ActiveUsers?)
    ensures forall i :: 0 <= i < |out| && !out[i].payload.ActiveUsers? ==>
      Recipients(open, out[i].to) == open - {id}
  {
  }
}
