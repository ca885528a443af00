# Presence registry of the location-ping server

This project models the core of the location-ping server (`server.js`). The
server is a real-time presence and location relay built on socket.io. Each
connection announces a nickname and location samples. The server keeps a
shared `activeUsers` map from connection id to the last record that
connection stored. It fans every change out to all other open connections.

The model is a pure state machine. The state has two parts:

- the shared registry, a JavaScript `Map` with its insertion order (`OrderedMap`);
- each open connection's private `userData` closure record (`Presence.State.sessions`).

The keys of `sessions` are the open connections. Each inbound event (`connect`,
`set-nickname`, `update-nickname`, `location-update`, `stop-sharing`,
`disconnect`) takes the state and an explicit `now` timestamp, which stands in
for `Date.now()`. It yields the next state and a list of outbound messages.
Each message is addressed either `ToSender(id)` (`socket.emit`) or
`ToAllExcept(id)` (`socket.broadcast.emit`). The `/api/users` monitoring
report is a pure function of the registry (`Monitor.ApiUsers`).

Modules:

- `JsTypes` (js_types.dfy): optional values, handler results, opaque numbers and JavaScript truthiness.
- `OrderedMap` (ordered_map.dfy): `Map` with `get`, `set`, `delete` and `values()` in insertion order.
- `Protocol` (protocol.dfy): the user record, the inbound events, the outbound payloads and how they are addressed.
- `Presence` (presence.dfy): the state, the invariant, the six handlers, `Step` and `Run`.
- `PresenceProperties` (properties.dfy): properties that relate several events.
- `Monitor` (monitor.dfy): the `GET /api/users` report.
- `Scenario` (scenario.dfy): a concrete Alice-and-Bob session, step by step.

Modelling choices:

- JavaScript object aliasing needs no heap. Every handler that changes `userData`
  immediately stores it with `activeUsers.set`. So value semantics is exact: a
  registered record always equals its connection's closure record
  (`Presence.Inv`).
- Coordinates and accuracy are only stored, relayed and tested for
  truthiness. They are kept opaque as `Num = Missing | NaN | Finite(real)`.
  `Missing` stands for both `null` and `undefined`.
- A nickname is `Option<string>`. It is falsy when absent or `""`.
- `update-nickname` and `location-update` read a field of their payload
  first. A `null` or `undefined` payload makes them throw a `TypeError`
  before any state changes; the model returns `Failure(TypeError)`.
- socket.io never delivers an event on a closed connection, nor a second
  `connection` for a live id. `Step` answers those deliveries with
  `Failure(NotOpen)` and `Failure(AlreadyOpen)`.

Behaviour of the code worth knowing:

- `timestamp` is set when the connection opens and refreshed only by
  `location-update`. `set-nickname` and `update-nickname` leave it unchanged.
- `update-nickname` stores `newNickname` verbatim. An empty or missing name is
  stored and broadcast as such, with no 'Anonymous' default.
- A registry entry first appears on the first `set-nickname`,
  `update-nickname` or `location-update`, not at connect. Only `set-nickname`
  sends `active-users` and `user-joined`, and it sends them on every call.

## Model

| member | source | states |
|---|---|---|
| `OrderedMap.Empty` | server.js:27 | `new Map()` is a well-formed map with no entries. |
| `OrderedMap.Set` | server.js:46 | `activeUsers.set(id, v)`: afterwards `id` maps to `v` and every other key is unchanged. A present key keeps its position; a new key is appended. |
| `OrderedMap.Remove` | server.js:115 | `activeUsers.delete(id)`: afterwards `id` is absent and every other key is unchanged. The rest keep their order. Deleting an absent key changes nothing. |
| `OrderedMap.Without` | server.js:115 | Removing a key from the insertion order keeps every other key, keeps the order duplicate-free, and is the identity when the key is absent. |
| `OrderedMap.Values` | server.js:49 | `Array.from(activeUsers.values())` has one element per entry, in insertion order, and contains every stored record. |
| `OrderedMap.ValuesOf` | server.js:146 | The values listed for a key sequence correspond position by position to those keys. |
| `OrderedMap.DistinctCardinality` | server.js:153 | A duplicate-free key order has as many distinct keys as positions. |
| `OrderedMap.SizeIsOrderLength` | server.js:153 | A map's size equals the length of its insertion order. |
| `OrderedMap.DistinctCons` | server.js:115 | Putting a key that does not occur in front of a duplicate-free key order keeps it duplicate-free; deletion relies on this. |
| `Protocol.NoEcho` | server.js:50-53 | Under the addressing discipline only the `active-users` reply reaches its sender. Every other message reaches every open connection except the sender. |
| `Presence.Initial` | server.js:27 | The server starts with no connections and an empty registry, and satisfies the invariant. |
| `Presence.OthersOf` | server.js:49 | Filtering by `userId !== id` keeps exactly the records whose owner is not `id`. |
| `Presence.OthersOfValues` | server.js:49 | Filtering registry values by owner is the same as deleting the owner's key first, given records are keyed by their `userId`. |
| `Presence.SnapshotIsOthers` | server.js:49-50 | The `active-users` snapshot for `id` equals the registry's values with `id` deleted, in registry order. It never includes `id` and includes every other record. Its length is the registry size minus one if `id` is registered. |
| `Presence.Commit` | server.js:65-66 | Writing the closure record and `activeUsers.set` keep the invariant, register exactly that record under `id`, and leave every other key alone. |
| `Presence.OnConnect` | server.js:30-41 | A new connection gets exactly the closure record `{userId: id, nickname: 'Anonymous', lat: null, lng: null, accuracy: null, timestamp: now}`. The registry is unchanged and the connection is not registered. |
| `Presence.OnSetNickname` | server.js:44-60 | The stored nickname is the given one if truthy, else 'Anonymous'. The sender is registered with its closure record, and only the nickname of the record changes. The reply is the snapshot of others, and `user-joined` carries the stored nickname to all except the sender. |
| `Presence.OnUpdateNickname` | server.js:63-76 | It throws exactly when the payload is null or undefined. Otherwise it stores `newNickname` verbatim and registers the record, leaving other entries unchanged. It broadcasts the previous nickname and the new one to all except the sender. |
| `Presence.OnLocationUpdate` | server.js:79-100 | It throws exactly when the payload is null or undefined. Otherwise the record holds exactly the new triple and time `now`, with the override nickname if truthy and the old one otherwise. The broadcast carries the triple and the stored nickname. Other connections are untouched. |
| `Presence.OnStopSharing` | server.js:111-122 | The sender's key is removed and every other key is unchanged. The connection and its closure survive. `user-left` carries the registered nickname, or 'Anonymous' when the sender is not registered, in which case the registry is unchanged. |
| `Presence.OnDisconnect` | server.js:125-136 | The same departure as `stop-sharing`, and the connection with its closure is gone. |
| `Presence.Step` | server.js:30-136 | A delivery faults exactly in the cases above. Every successful step keeps the invariant and changes no other connection's registry entry, open status or closure. Only `active-users` goes to the sender; everything else goes to all except the sender. |
| `Presence.Run` | server.js:30-136 | Handling deliveries one after another to completion keeps the invariant. |
| `PresenceProperties.OthersDoNotInterfere` | server.js:46-129 | No sequence of events from other connections changes `id`'s registry entry, open status or closure record. |
| `PresenceProperties.OneRecordPerConnection` | server.js:34-35 | In every consistent state no two records of the registry's value list share a `userId`. |
| `PresenceProperties.SetNicknameRegistersAndExcludesSender` | server.js:46-50 | After `set-nickname` the sender is registered. Its `active-users` reply is the registry without the sender, lists every other record, and has one entry fewer than the registry. |
| `PresenceProperties.JoinVisibility` | server.js:44-57 | When `b` sets its nickname, its snapshot shows the registered record of `a`. The `user-joined` with `b`'s stored nickname reaches `a`. |
| `PresenceProperties.NewcomerSeesRegistered` | server.js:46-50 | A newcomer's `set-nickname` leaves every earlier registered record unchanged, and its snapshot shows each of them. |
| `PresenceProperties.SenderExcluded` | server.js:50-130 | In every successful step, a message reaches its sender exactly when it is the `active-users` reply. |
| `PresenceProperties.LastWriteWins` | server.js:79-90 | After two location updates from `id`, with others' events in between, the registry holds the second triple and time. Any snapshot shows `id` only with that triple. |
| `PresenceProperties.SnapshotShowsRegisteredRecord` | server.js:49 | Any record of `id` in a snapshot is `id`'s registered record. |
| `PresenceProperties.RenamePropagates` | server.js:63-98 | `nickname-updated` carries the old and new name. A later location update, after any events from others, broadcasts the new name unless it carries a truthy override. That name equals the stored one. |
| `PresenceProperties.RemovalIdempotent` | server.js:111-119 | A second `stop-sharing` leaves the state unchanged and announces 'Anonymous'. |
| `PresenceProperties.DisconnectAfterStopSharing` | server.js:111-133 | A `disconnect` after `stop-sharing` leaves the registry unchanged, closes the connection and announces 'Anonymous'. |
| `PresenceProperties.StopSharingMatchesDisconnect` | server.js:111-133 | Both handlers make the same registry change and send the same message. Only `disconnect` closes the connection. |
| `PresenceProperties.ReinsertAfterStopSharing` | server.js:80-90 | After `stop-sharing` and any events from others, a location update without an override re-registers the connection under its earlier nickname and broadcasts that nickname. |
| `PresenceProperties.ReachableStatesAreConsistent` | server.js:27-136 | In every state reached from the start, registered ids are open connections, every record is keyed by its `userId`, and the value list has one element per entry. |
| `Monitor.ApiUsers` | server.js:145-155 | `totalUsers` equals the registry size and the number of rows. Row `i` carries the nickname and timestamp of the `i`-th registered record. Its `hasLocation` holds exactly when both coordinates are truthy. |
| `Monitor.ReportListsEveryConnection` | server.js:146-150 | Every registered record has its summary row in the report. |
| `Monitor.ReportAfterLocationUpdate` | server.js:79-90 | After a location update, the row at the sender's position in insertion order carries the stored nickname and the update time, and reports a location exactly when both new coordinates are truthy. |
| `Monitor.ReportAfterLeave` | server.js:111-133 | After `stop-sharing` or `disconnect`, `totalUsers` drops by one if the sender was registered and is unchanged otherwise. |
| `Monitor.ReportAfterSetNickname` | server.js:44-46 | After `set-nickname`, `totalUsers` grows by one if the sender was not registered and is unchanged otherwise. |
| `Scenario.AliceConnects` | server.js:30-41 | Alice's connection opens with a default closure record and sends nothing. |
| `Scenario.AliceSetsNickname` | server.js:44-57 | Alone, Alice gets an empty `active-users` and is announced as 'Alice'. |
| `Scenario.AliceRegisters` | server.js:45-46 | Alice's `set-nickname` registers her as the only entry. |
| `Scenario.AliceSeesNobody` | server.js:49 | Alice's snapshot is empty. |
| `Scenario.BobConnects` | server.js:30-41 | Bob's connection opens; the registry still holds only Alice. |
| `Scenario.BobSetsNickname` | server.js:44-57 | Bob is shown exactly Alice's record, and Alice is told that Bob joined. |
| `Scenario.BobRegisters` | server.js:45-46 | Bob's `set-nickname` registers him after Alice. |
| `Scenario.BobSeesAlice` | server.js:49 | Bob's snapshot is Alice's record alone. |
| `Scenario.BobSharesLocation` | server.js:79-100 | Bob's location is relayed to all but Bob under the nickname 'Bob'. |
| `Scenario.BobMoves` | server.js:80-90 | Bob's location update replaces his record in place; he stays second in registry order. |
| `Scenario.BobDisconnects` | server.js:125-133 | Bob's departure is announced as 'Bob', and the registry is left holding Alice alone. |

## Left out

- Express setup, static files, `/health`, the error middleware and `server.listen` (server.js:1-24, 158-171): HTTP and bootstrap plumbing.
- The socket.io transport, CORS and actual delivery: messages are modelled as addressed values. `Protocol.Recipients` says who an address reaches.
- `console.log`/`console.error`, including `data.lat.toFixed(6)` (server.js:103-107). That call can throw on a non-number, but only after the registry write and the broadcast. It has no effect on the modelled state or messages; unlike the `TypeError` faults below, the model treats this handler as completed and a run continues past it.
- The `error` event handler (server.js:139-141): it only logs.
- What happens to the process after a handler throws: the model stops at `Failure(TypeError)`. Nothing has been changed by then.
- Real clocks: `Date.now()` is the parameter `now`. `location-update` calls it twice (server.js:86, 99). The model uses one `now` for both, so it does not capture a millisecond tick between the two calls.
- Floating-point coordinates: a number is an opaque `real`. Its only observable test is truthiness, which treats 0 and NaN as falsy.
- Other coordinate values: `Num` has no ±Infinity and no non-number values (strings, booleans, objects). JavaScript would store and relay these unchecked (server.js:82-84, 95-97). The model allows only a finite number, NaN or absence.
- Non-string nicknames (numbers, objects): JavaScript would store and relay any truthy value. The model allows only strings or absence.
- `Presence.Run`: it states only that the invariant is kept. The per-step guarantees are stated on `Presence.Step`, and the multi-step ones in `PresenceProperties`.
- An end-to-end `Run` over the whole Alice-and-Bob trace is not stated. The session is pinned down step by step in `Scenario` instead.
