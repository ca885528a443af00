/** The `GET /api/users` monitoring projection: a read-only summary of the
    registry. */
module Monitor {
  import opened JsTypes
  import opened Protocol
  import opened Presence
  import OrderedMap

  /** One row of the report: `{ nickname, hasLocation, lastUpdate }`. */
  datatype UserSummary = UserSummary(nickname: Option<string>, hasLocation: bool, lastUpdate: int)

  /** The report body: `{ totalUsers, users }`. */
  datatype UsersReport = UsersReport(totalUsers: nat, users: seq<UserSummary>)

  /** `!!(user.lat && user.lng)`, with the nickname and timestamp copied. */
  function Summarize(u: User): UserSummary {
    UserSummary(u.nickname, NumTruthy(u.lat) && NumTruthy(u.lng), u.timestamp)
  }

  /** The report for a registry: one row per registered connection, in
      registry order, counted by `totalUsers`. A row reports a location
      exactly when both coordinates are truthy, so a coordinate of 0, NaN,
      null or undefined reports none. */
  function ApiUsers(reg: Registry): (r: UsersReport)
    requires OrderedMap.Valid(reg)
    ensures r.totalUsers == |r.users| == OrderedMap.Size(reg)
    ensures forall i :: 0 <= i < |r.users| ==>
      var u := OrderedMap.Values(reg)[i];
      && r.users[i].nickname == u.nickname
      && r.users[i].lastUpdate == u.timestamp
      && (r.users[i].hasLocation <==> NumTruthy(u.lat) && NumTruthy(u.lng))
  {
    var vals := OrderedMap.Values(reg);
    var users := seq(|vals|, i requires 0 <= i < |vals| => Summarize(vals[i]));
    UsersReport(|users|, users)
  }

  /** Every registered connection has its row in the report. */
  lemma ReportListsEveryConnection(reg: Registry)
    requires OrderedMap.Valid(reg)
    ensures forall k :: k in reg.entries ==> Summarize(reg.entries[k]) in ApiUsers(reg).users
  {
    var users := ApiUsers(reg).users;
    var vals := OrderedMap.Values(reg);
    forall k | k in reg.entries
      ensures Summarize(reg.entries[k]) in users
    {
      var i :| 0 <= i < |reg.order| && reg.order[i] == k;
      assert vals[i] == reg.entries[k];
      assert users[i] == Summarize(vals[i]);
    }
  }

  /** After a location update, the sender's row reports a location exactly
      when both new coordinates are truthy, and carries the update time. */
  lemma ReportAfterLocationUpdate(s: State, id: ConnId, d: LocationData, now: int)
    requires Inv(s) && id in s.sessions
    ensures var st := OnLocationUpdate(s, id, Some(d), now).value.state;
      && id in st.registry.entries
      && UserSummary(st.registry.entries[id].nickname, NumTruthy(d.lat) && NumTruthy(d.lng), now)
         in ApiUsers(st.registry).users
    ensures var st := OnLocationUpdate(s, id, Some(d), now).value.state;
      forall i :: 0 <= i < |st.registry.order| && st.registry.order[i] == id ==>
        ApiUsers(st.registry).users[i]
        == UserSummary(st.registry.entries[id].nickname, NumTruthy(d.lat) && NumTruthy(d.lng), now)
  {
    var st := OnLocationUpdate(s, id, Some(d), now).value.state;
    assert OrderedMap.Get(st.registry, id) == Some(st.sessions[id]);
    var report := ApiUsers(st.registry);
    ReportListsEveryConnection(st.registry);
    assert Summarize(st.registry.entries[id]) in report.users;
  }

  /** `totalUsers` drops by one when a registered connection stops sharing
      or disconnects, and is unchanged when the connection was not registered. */
  lemma ReportAfterLeave(s: State, id: ConnId, disconnect: bool)
    requires Inv(s) && id in s.sessions
    ensures var st := if disconnect then OnDisconnect(s, id).state else OnStopSharing(s, id).state;
      ApiUsers(st.registry).totalUsers ==
        if id in s.registry.entries then ApiUsers(s.registry).totalUsers - 1
        else ApiUsers(s.registry).totalUsers
  {
    var st := if disconnect then OnDisconnect(s, id).state else OnStopSharing(s, id).state;
    assert st.registry == OrderedMap.Remove(s.registry, id);
  }

  /** `totalUsers` grows by one when a connection sets its nickname for the
      first time (or after stopping), and is unchanged otherwise. */
  lemma ReportAfterSetNickname(s: State, id: ConnId, nickname: Option<string>, now: int)
    requires Inv(s) && id in s.sessions
    ensures var st := OnSetNickname(s, id, nickname, now).state;
      ApiUsers(st.registry).totalUsers ==
        if id in s.registry.entries then ApiUsers(s.registry).totalUsers
        else ApiUsers(s.registry).totalUsers + 1
  {
    var st := OnSetNickname(s, id, nickname, now).state;
    var u := s.sessions[id].(nickname := Or(nickname, Some(Anonymous)));
    assert st.registry == OrderedMap.Set(s.registry, id, u);
  }
}
