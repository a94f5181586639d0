/** The label-addressed timer API: `POST /sessions/start`, `POST /sessions/stop`
    and `GET /sessions?user=`, over a store of Session documents. */
module Sessions {
  import opened Base
  import opened Schema
  import opened SessionModel
  import Ordering

  /** The body of `POST /start`. A `startTime` sent by the client is read by
      nobody: the route takes the start time from the server clock. An empty
      `username` stands for a missing or empty one. */
  datatype StartBody = StartBody(
    username: string,
    labelText: Option<string>,
    exerciseType: Option<string>,
    description: Option<string>,
    clientStartTime: Option<Time>)

  /** The body of `POST /stop`; an empty `username` stands for a missing one. */
  datatype StopBody = StopBody(username: string, sessionId: Option<nat>)

  /** `Math.round(ms / 1000)` for a whole number of milliseconds: the nearest
      whole second, halves rounded up (towards positive infinity). */
  function RoundedSeconds(ms: int): (r: int)
    ensures r * 1000 - 500 <= ms < r * 1000 + 500
  {
    (ms + 500) / 1000
  }

  /** A rounded duration is negative exactly when the interval is more than half a second negative. */
  lemma RoundedSecondsSign(ms: int)
    ensures RoundedSeconds(ms) >= 0 <==> ms >= -500
  {
  }

  predicate OwnsOpen(s: Session, user: string) {
    s.username == Some(user) && IsOpen(s)
  }

  /** `Session.findOne({ username: user, endTime: null })` finds something. */
  predicate HasOpen(ss: seq<Session>, user: string) {
    exists i :: 0 <= i < |ss| && OwnsOpen(ss[i], user)
  }

  /** The single-active-session invariant: no user has two open sessions. */
  predicate AtMostOneOpen(ss: seq<Session>) {
    forall i, j :: 0 <= i < j < |ss| && IsOpen(ss[i]) && IsOpen(ss[j]) ==> ss[i].username != ss[j].username
  }

  /** `ss[k]` is an open session of `user` with the greatest `startTime`. */
  predicate IsLatestOpen(ss: seq<Session>, user: string, k: int) {
    && 0 <= k < |ss|
    && OwnsOpen(ss[k], user)
    && forall j :: 0 <= j < |ss| && OwnsOpen(ss[j], user) ==> Ordering.AtOrAfter(ss[k].startTime, ss[j].startTime)
  }

  /** `Session.findOne({ username: user, endTime: null }).sort({ startTime: -1 })`:
      the position of the user's most recent open session. */
  function LatestOpen(ss: seq<Session>, user: string): (r: Option<nat>)
    ensures r.None? <==> !HasOpen(ss, user)
    ensures r.Some? ==> IsLatestOpen(ss, user, r.value)
  {
    if ss == [] then None
    else
      var init := ss[..|ss| - 1];
      var last := |ss| - 1;
      var rest := LatestOpen(init, user);
      assert forall j :: 0 <= j < last ==> ss[j] == init[j];
      if !OwnsOpen(ss[last], user) then rest
      else if rest.None? || !Ordering.AtOrAfter(ss[rest.value].startTime, ss[last].startTime) then Some(last)
      else rest
  }

  /** `Session.findById(id)`: the position of the document with that `_id`. */
  function IndexOfId(ss: seq<Session>, id: nat): (r: Option<nat>)
    ensures r.None? <==> forall i :: 0 <= i < |ss| ==> ss[i].id != id
    ensures r.Some? ==> r.value < |ss| && ss[r.value].id == id
  {
    if ss == [] then None
    else if ss[|ss| - 1].id == id then Some(|ss| - 1)
    else
      var r := IndexOfId(ss[..|ss| - 1], id);
      assert forall i :: 0 <= i < |ss| - 1 ==> ss[i] == ss[..|ss| - 1][i];
      r
  }

  /** The document after `stop`: `endTime` is now and the duration is read
      from the two server timestamps. */
  function Closed(s: Session, now: Time): (c: Session)
    requires s.startTime.Some?
    ensures c.endTime == Some(now) && !IsOpen(c)
    ensures c.durationSeconds == Some(RoundedSeconds(now - s.startTime.value))
    ensures c.(endTime := s.endTime, durationSeconds := s.durationSeconds) == s
  {
    s.(endTime := Some(now), durationSeconds := Some(RoundedSeconds(now - s.startTime.value)))
  }

  /** The session `stop` acts on: by id when one is given (whoever owns it),
      otherwise the named user's most recent open session; in both cases open. */
  ghost predicate Resolves(ss: seq<Session>, body: StopBody, i: int) {
    && 0 <= i < |ss|
    && IsOpen(ss[i])
    && match body.sessionId
       case Some(sid) => ss[i].id == sid
       case None => body.username != "" && IsLatestOpen(ss, body.username, i)
  }

  /** How `stop` resolves its target: a rejection with its status and message, or a position in the store. */
  datatype Resolution = Rejected(status: int, message: string) | Found(index: nat)

  /** Lines 37-49 of the route: the guard on the body, then the lookup by id or by user. */
  function ResolveStop(ss: seq<Session>, body: StopBody): (r: Resolution)
    requires DistinctIds(ss)
    ensures r.Found? ==> Resolves(ss, body, r.index)
    ensures r.Rejected? ==> forall i :: !Resolves(ss, body, i)
    ensures body.username == "" && body.sessionId.None? ==>
              r == Rejected(400, "username or sessionId is required")
    ensures body.sessionId.Some? && (forall i :: 0 <= i < |ss| ==> ss[i].id != body.sessionId.value) ==>
              r == Rejected(404, "Session not found")
    ensures body.sessionId.Some? && (exists i :: 0 <= i < |ss| && ss[i].id == body.sessionId.value && !IsOpen(ss[i])) ==>
              r == Rejected(400, "Session already stopped")
    ensures body.sessionId.None? && body.username != "" && !HasOpen(ss, body.username) ==>
              r == Rejected(400, "No active timer to stop")
  {
    if body.username == "" && body.sessionId.None? then Rejected(400, "username or sessionId is required")
    else if body.sessionId.Some? then
      match IndexOfId(ss, body.sessionId.value)
      case None => Rejected(404, "Session not found")
      case Some(i) =>
        if !IsOpen(ss[i]) then
          Rejected(400, "Session already stopped")
        else Found(i)
    else
      match LatestOpen(ss, body.username)
      case None => Rejected(400, "No active timer to stop")
      case Some(i) => Found(i)
  }

  /** No two documents share an `_id`. */
  predicate DistinctIds(ss: seq<Session>) {
    forall i, j :: 0 <= i < j < |ss| ==> ss[i].id != ss[j].id
  }

  /** Every saved document passed its schema. */
  predicate AllValid(ss: seq<Session>) {
    forall i :: 0 <= i < |ss| ==> IsValidSession(ss[i])
  }

  /** Closing a valid document fails validation exactly when the stop time is
      more than half a second before the start time. */
  lemma ClosedValidity(s: Session, now: Time)
    requires IsValidSession(s)
    ensures IsValidSession(Closed(s, now)) <==> now >= s.startTime.value - 500
  {
    RoundedSecondsSign(now - s.startTime.value);
  }

  /** When `stop` could resolve to more than one session (two open sessions of
      one user with the same start time), they all pass or all fail the save. */
  lemma ResolvedAgree(ss: seq<Session>, body: StopBody, i: int, k: int, now: Time)
    requires DistinctIds(ss) && AllValid(ss)
    requires Resolves(ss, body, i) && Resolves(ss, body, k)
    ensures IsValidSession(Closed(ss[k], now)) == IsValidSession(Closed(ss[i], now))
  {
    assert ss[k].startTime == ss[i].startTime;
    ClosedValidity(ss[k], now);
    ClosedValidity(ss[i], now);
  }

  /** Closing an open session keeps the store well formed and single-active,
      and leaves its owner with no open session when the store was single-active. */
  lemma CloseKeepsInvariants(ss: seq<Session>, i: int, now: Time)
    requires DistinctIds(ss) && AllValid(ss) && 0 <= i < |ss| && IsOpen(ss[i])
    requires IsValidSession(Closed(ss[i], now))
    ensures DistinctIds(ss[i := Closed(ss[i], now)]) && AllValid(ss[i := Closed(ss[i], now)])
    ensures AtMostOneOpen(ss) ==> AtMostOneOpen(ss[i := Closed(ss[i], now)])
    ensures AtMostOneOpen(ss) ==> !HasOpen(ss[i := Closed(ss[i], now)], ss[i].username.value)
  {
  }

  function StartOf(s: Session): Option<Time> {
    s.startTime
  }

  /** The user's sessions, in store order. */
  function SessionsOf(ss: seq<Session>, user: string): (r: seq<Session>)
    ensures forall s :: s in r <==> s in ss && s.username == Some(user)
  {
    Ordering.Filter(ss, (s: Session) => s.username == Some(user))
  }

  /** The sessions collection. `nextId` models the store's supply of fresh `_id`s. */
  class SessionStore {
    var sessions: seq<Session>
    var nextId: nat

    /** What the store maintains: every saved document passed its schema and ids are distinct and issued. */
    ghost predicate Valid()
      reads this
    {
      && AllValid(sessions)
      && DistinctIds(sessions)
      && (forall i :: 0 <= i < |sessions| ==> sessions[i].id < nextId)
    }

    constructor ()
      ensures Valid() && sessions == [] && AtMostOneOpen(sessions)
    {
      sessions := [];
      nextId := 0;
    }

    /** `POST /sessions/start`. */
    method Start(body: StartBody, now: Time) returns (reply: Reply<Session>)
      requires Valid()
      modifies this
      ensures Valid()
      ensures old(AtMostOneOpen(sessions)) ==> AtMostOneOpen(sessions)
      ensures body.username == "" ==> reply == Err(400, "username is required")
      ensures body.username != "" && old(HasOpen(sessions, body.username)) ==>
                reply == Err(400, "Timer is already running")
      ensures body.username != "" && !old(HasOpen(sessions, body.username))
                && !InEnum(body.exerciseType, SessionExerciseTypes) ==>
                reply == Err(500, "Failed to start timer")
      ensures reply.Ok? <==> body.username != "" && !old(HasOpen(sessions, body.username))
                               && InEnum(body.exerciseType, SessionExerciseTypes)
      ensures reply.Ok? ==>
                && reply.status == 200
                && reply.value == Session(old(nextId), Some(body.username), body.labelText, body.exerciseType,
                                          body.description, Some(now), None, None)
                && sessions == old(sessions) + [reply.value]
                && nextId == old(nextId) + 1
                && HasOpen(sessions, body.username)
      ensures reply.Err? ==> sessions == old(sessions) && nextId == old(nextId)
    {
      if body.username == "" {
        return Err(400, "username is required");
      }
      if HasOpen(sessions, body.username) {
        return Err(400, "Timer is already running");
      }
      var session := Session(nextId, Some(body.username), body.labelText, body.exerciseType,
                             body.description, Some(now), None, None);
      if !IsValidSession(session) {
        return Err(500, "Failed to start timer");
      }
      sessions := sessions + [session];
      nextId := nextId + 1;
      assert OwnsOpen(sessions[|sessions| - 1], body.username);
      reply := Ok(200, session);
    }

    /** `POST /sessions/stop`. */
    method Stop(body: StopBody, now: Time) returns (reply: Reply<Session>)
      requires Valid()
      modifies this
      ensures Valid() && nextId == old(nextId)
      ensures old(AtMostOneOpen(sessions)) ==> AtMostOneOpen(sessions)
      ensures reply.Err? ==> sessions == old(sessions)
      ensures body.username == "" && body.sessionId.None? ==>
                reply == Err(400, "username or sessionId is required")
      ensures body.sessionId.Some? && (forall i :: 0 <= i < |old(sessions)| ==> old(sessions)[i].id != body.sessionId.value) ==>
                reply == Err(404, "Session not found")
      ensures body.sessionId.Some? && (exists i :: 0 <= i < |old(sessions)| && old(sessions)[i].id == body.sessionId.value
                                                  && !IsOpen(old(sessions)[i])) ==>
                reply == Err(400, "Session already stopped")
      ensures body.sessionId.None? && body.username != "" && !old(HasOpen(sessions, body.username)) ==>
                reply == Err(400, "No active timer to stop")
      ensures (exists i :: Resolves(old(sessions), body, i) && !IsValidSession(Closed(old(sessions)[i], now))) ==>
                reply == Err(500, "Failed to stop timer")
      ensures reply.Ok? <==> exists i :: Resolves(old(sessions), body, i) && IsValidSession(Closed(old(sessions)[i], now))
      ensures reply.Ok? ==>
                && reply.status == 200
                && exists i :: && Resolves(old(sessions), body, i)
                               && sessions == old(sessions)[i := Closed(old(sessions)[i], now)]
                               && reply.value == sessions[i]
      ensures reply.Ok? && old(AtMostOneOpen(sessions)) ==> !HasOpen(sessions, reply.value.username.value)
    {
      var resolution := ResolveStop(sessions, body);
      if resolution.Rejected? {
        return Err(resolution.status, resolution.message);
      }
      var i := resolution.index;
      forall k | Resolves(sessions, body, k)
        ensures IsValidSession(Closed(sessions[k], now)) == IsValidSession(Closed(sessions[i], now))
      {
        ResolvedAgree(sessions, body, i, k, now);
      }
      var closed := Closed(sessions[i], now);
      if !IsValidSession(closed) {
        return Err(500, "Failed to stop timer");
      }
      CloseKeepsInvariants(sessions, i, now);
      sessions := sessions[i := closed];
      reply := Ok(200, closed);
    }

    /** `GET /sessions?user=`: the user's sessions, most recent first. */
    function List(user: string): (reply: Reply<seq<Session>>)
      reads this
      ensures user == "" ==> reply == Err(400, "user query param required")
      ensures user != "" ==> reply.Ok? && reply.status == 200
      ensures reply.Ok? ==>
                && Ordering.SortedDesc(reply.value, StartOf)
                && multiset(reply.value) == multiset(SessionsOf(sessions, user))
                && forall s :: s in reply.value <==> s in sessions && s.username == Some(user)
    {
      if user == "" then Err(400, "user query param required")
      else
        var mine := SessionsOf(sessions, user);
        var sorted := Ordering.SortDesc(mine, StartOf);
        assert forall s :: s in sorted <==> s in multiset(sorted);
        assert forall s :: s in mine <==> s in multiset(mine);
        Ok(200, sorted)
    }
  }

  /** A user starts a timer, tries to start a second, stops the first by
      username and then tries to stop again: only the first start and the
      first stop succeed, and the stored duration is the elapsed time rounded
      to whole seconds. */
  method StartStopTwice(user: string, exerciseType: string, t0: Time, t1: Time, t2: Time, t3: Time)
    returns (start: Reply<Session>, restart: Reply<Session>, stop: Reply<Session>, restop: Reply<Session>)
    requires user != "" && exerciseType in SessionExerciseTypes && t2 >= t0
    ensures start.Ok? && start.value.startTime == Some(t0) && IsOpen(start.value)
    ensures restart == Err(400, "Timer is already running")
    ensures stop.Ok? && stop.value.id == start.value.id
    ensures stop.value.endTime == Some(t2) && stop.value.durationSeconds == Some(RoundedSeconds(t2 - t0))
    ensures restop == Err(400, "No active timer to stop")
  {
    var store := new SessionStore();
    var body := StartBody(user, None, Some(exerciseType), None, None);
    start := store.Start(body, t0);
    restart := store.Start(body, t1);
    assert store.sessions == [start.value];
    assert Resolves(store.sessions, StopBody(user, None), 0);
    stop := store.Stop(StopBody(user, None), t2);
    restop := store.Stop(StopBody(user, None), t3);
  }

  /** Two sessions sorted newest first, with different start times, come in one order only. */
  lemma NewestFirstOfTwo(r: seq<Session>, older: Session, newer: Session)
    requires multiset(r) == multiset{older, newer} && Ordering.SortedDesc(r, StartOf)
    requires older.startTime.Some? && newer.startTime.Some? && older.startTime.value < newer.startTime.value
    ensures r == [newer, older]
  {
    assert |r| == 2;
    assert r == [r[0], r[1]];
    assert multiset{r[0], r[1]} == multiset{older, newer};
    assert Ordering.AtOrAfter(StartOf(r[0]), StartOf(r[1]));
  }

  /** One timed session: start at `t0`, stop by username at `t1`. */
  method TimeOne(store: SessionStore, body: StartBody, t0: Time, t1: Time) returns (timed: Session)
    requires store.Valid() && !HasOpen(store.sessions, body.username)
    requires body.username != "" && InEnum(body.exerciseType, SessionExerciseTypes) && t0 <= t1
    modifies store
    ensures store.Valid() && !HasOpen(store.sessions, body.username)
    ensures store.sessions == old(store.sessions) + [timed]
    ensures timed.startTime == Some(t0) && timed.username == Some(body.username)
  {
    var started := store.Start(body, t0);
    var i := |store.sessions| - 1;
    assert Resolves(store.sessions, StopBody(body.username, None), i);
    ClosedValidity(started.value, t1);
    var stopped := store.Stop(StopBody(body.username, None), t1);
    timed := stopped.value;
    assert store.sessions == old(store.sessions) + [Closed(started.value, t1)];
  }

  /** Two timed sessions of one user come back from the listing newest first. */
  method TwoSessionsListed(user: string, exerciseType: string, t0: Time, t1: Time, t2: Time, t3: Time)
    returns (listing: Reply<seq<Session>>)
    requires user != "" && exerciseType in SessionExerciseTypes
    requires t0 <= t1 < t2 <= t3
    ensures listing.Ok? && |listing.value| == 2
    ensures listing.value[0].startTime == Some(t2) && listing.value[1].startTime == Some(t0)
  {
    var store := new SessionStore();
    var body := StartBody(user, None, Some(exerciseType), None, None);
    var a := TimeOne(store, body, t0, t1);
    var b := TimeOne(store, body, t2, t3);
    assert store.sessions == [a, b];
    assert SessionsOf(store.sessions, user) == store.sessions;
    listing := store.List(user);
    NewestFirstOfTwo(listing.value, a, b);
  }
}
