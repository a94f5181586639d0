/** The identity-addressed timer API: `POST /timer-sessions`,
    `GET /timer-sessions` and `GET /timer-sessions/:id`, each behind the auth gate. */
module TimerSessions {
  import opened Base
  import opened TimerSessionModel
  import Ordering

  /** What the auth gate attaches to a request whose bearer token verified.
      The gate itself (JWT signature and expiry) is an oracle: a handler receives
      `Some(identity)` or, for any failed check, `None`. */
  datatype Identity = Identity(id: OwnerId, username: Option<string>)

  /** The body of `POST /timer-sessions`. A `userId` sent by the client is
      read by nobody: the owner always comes from the verified identity. */
  datatype CreateBody = CreateBody(
    taskLabel: LabelInput,
    startTime: Option<Time>,
    endTime: Option<Time>,
    duration: Option<int>,
    userId: Option<OwnerId>)

  const AuthRequired: string := "Authentication required"

  function StartOf(t: TimerSession): Option<Time> {
    t.startTime
  }

  /** The records that `find({ userId: owner })` matches, in store order. */
  function OwnedBy(rs: seq<TimerSession>, owner: OwnerId): (r: seq<TimerSession>)
    ensures forall t :: t in r <==> t in rs && t.userId == Some(owner)
  {
    Ordering.Filter(rs, (t: TimerSession) => t.userId == Some(owner))
  }

  /** `findOne({ _id: id, userId: owner })`. */
  function FindOwned(rs: seq<TimerSession>, id: nat, owner: OwnerId): (r: Option<TimerSession>)
    ensures r.None? <==> forall i :: 0 <= i < |rs| ==> !(rs[i].id == id && rs[i].userId == Some(owner))
    ensures r.Some? ==> r.value in rs && r.value.id == id && r.value.userId == Some(owner)
  {
    if rs == [] then None
    else if rs[0].id == id && rs[0].userId == Some(owner) then Some(rs[0])
    else
      var r := FindOwned(rs[1..], id, owner);
      assert forall i :: 1 <= i < |rs| ==> rs[i] == rs[1..][i - 1];
      r
  }

  /** The timer-sessions collection; `nextId` models the store's supply of fresh `_id`s. */
  class TimerSessionStore {
    var records: seq<TimerSession>
    var nextId: nat

    ghost predicate Valid()
      reads this
    {
      && (forall i :: 0 <= i < |records| ==> IsValidTimerSession(records[i]) && records[i].id < nextId)
      && (forall i, j :: 0 <= i < j < |records| ==> records[i].id != records[j].id)
    }

    constructor ()
      ensures Valid() && records == []
    {
      records := [];
      nextId := 0;
    }

    /** `POST /timer-sessions`. */
    method Create(auth: Option<Identity>, body: CreateBody) returns (reply: Reply<TimerSession>)
      requires Valid()
      modifies this
      ensures Valid()
      ensures auth.None? ==> reply == Err(401, AuthRequired)
      ensures reply.Ok? <==>
                auth.Some? && body.startTime.Some? && body.endTime.Some? && body.duration.Some?
      ensures reply.Ok? ==>
                && reply.status == 201
                && reply.value == NewTimerSession(old(nextId), body.taskLabel, body.startTime, body.endTime,
                                                  body.duration, Some(auth.value.id))
                && reply.value.userId == Some(auth.value.id)
                && records == old(records) + [reply.value]
                && nextId == old(nextId) + 1
      ensures auth.Some? && reply.Err? ==> reply.status == 400
      ensures reply.Err? ==> records == old(records) && nextId == old(nextId)
    {
      if auth.None? {
        return Err(401, AuthRequired);
      }
      var t := NewTimerSession(nextId, body.taskLabel, body.startTime, body.endTime,
                               body.duration, Some(auth.value.id));
      if !IsValidTimerSession(t) {
        return Err(400, "TimerSession validation failed");
      }
      records := records + [t];
      nextId := nextId + 1;
      reply := Ok(201, t);
    }

    /** `GET /timer-sessions`: the caller's records, most recent first. */
    function List(auth: Option<Identity>): (reply: Reply<seq<TimerSession>>)
      reads this
      ensures auth.None? ==> reply == Err(401, AuthRequired)
      ensures auth.Some? ==> reply.Ok? && reply.status == 200
      ensures reply.Ok? ==>
                && Ordering.SortedDesc(reply.value, StartOf)
                && multiset(reply.value) == multiset(OwnedBy(records, auth.value.id))
                && forall t :: t in reply.value <==> t in records && t.userId == Some(auth.value.id)
    {
      if auth.None? then Err(401, AuthRequired)
      else
        var mine := OwnedBy(records, auth.value.id);
        var sorted := Ordering.SortDesc(mine, StartOf);
        assert forall t :: t in sorted <==> t in multiset(sorted);
        assert forall t :: t in mine <==> t in multiset(mine);
        Ok(200, sorted)
    }

    /** `GET /timer-sessions/:id`: the record only when it exists and belongs to the caller. */
    function Get(auth: Option<Identity>, id: nat): (reply: Reply<TimerSession>)
      reads this
      ensures auth.None? ==> reply == Err(401, AuthRequired)
      ensures auth.Some? ==>
                (reply.Ok? <==> exists i :: 0 <= i < |records| && records[i].id == id
                                            && records[i].userId == Some(auth.value.id))
      ensures auth.Some? && reply.Err? ==> reply == Err(404, "Timer session not found")
      ensures reply.Ok? ==>
                reply.status == 200 && reply.value in records && reply.value.id == id
                && reply.value.userId == Some(auth.value.id)
    {
      if auth.None? then Err(401, AuthRequired)
      else
        match FindOwned(records, id, auth.value.id)
        case None => Err(404, "Timer session not found")
        case Some(t) => Ok(200, t)
    }
  }

  /** Another user's record can never be read: if the record with this id
      belongs to someone else, the caller gets 404. */
  lemma NoCrossUserRead(store: TimerSessionStore, caller: Identity, i: int)
    requires store.Valid()
    requires 0 <= i < |store.records| && store.records[i].userId != Some(caller.id)
    ensures store.Get(Some(caller), store.records[i].id) == Err(404, "Timer session not found")
  {
  }
}
