/** The TimerSession document of the identity-addressed API and its schema rules. */
module TimerSessionModel {
  import opened Base
  import opened Schema

  /** The `_id` of a user document, as carried in a verified token. */
  type OwnerId = string

  /** A `taskLabel` as it arrives in a request body: not sent (`undefined`),
      sent as `null`, or sent as a string. */
  datatype LabelInput = Undefined | Null | Given(text: string)

  const DefaultTaskLabel: string := "Untitled Task"

  /** One finished timer run reported by the client; `duration` is in seconds. */
  datatype TimerSession = TimerSession(
    id: nat,
    taskLabel: Option<string>,
    startTime: Option<Time>,
    endTime: Option<Time>,
    duration: Option<int>,
    userId: Option<OwnerId>)

  datatype TimerSessionPath = StartTime | EndTime | Duration | UserIdPath

  /** `new TimerSession({...})`: the document with the schema default applied
      to a `taskLabel` that was not sent. Mongoose applies a default only to
      `undefined`, so an explicit `null` is stored as null (`None`). */
  function NewTimerSession(id: nat, taskLabel: LabelInput, startTime: Option<Time>,
                           endTime: Option<Time>, duration: Option<int>, userId: Option<OwnerId>): (t: TimerSession)
    ensures taskLabel.Undefined? ==> t.taskLabel == Some(DefaultTaskLabel)
    ensures taskLabel.Null? ==> t.taskLabel.None?
    ensures taskLabel.Given? ==> t.taskLabel == Some(taskLabel.text)
    ensures t.(taskLabel := None) == TimerSession(id, None, startTime, endTime, duration, userId)
  {
    var stored :=
      if taskLabel.Undefined? then Some(DefaultTaskLabel)
      else if taskLabel.Null? then None
      else Some(taskLabel.text);
    TimerSession(id, stored, startTime, endTime, duration, userId)
  }

  /** The paths whose `required` validator rejects `t`. */
  function TimerSessionViolations(t: TimerSession): set<TimerSessionPath> {
    (if Required(t.startTime) then {} else {StartTime})
    + (if Required(t.endTime) then {} else {EndTime})
    + (if Required(t.duration) then {} else {Duration})
    + (if Required(t.userId) then {} else {UserIdPath})
  }

  predicate IsValidTimerSession(t: TimerSession) {
    TimerSessionViolations(t) == {}
  }

  /** Each required path on its own, and `taskLabel` is never a reason to fail. */
  lemma TimerSessionRules(t: TimerSession)
    ensures t.startTime.None? ==> StartTime in TimerSessionViolations(t) && !IsValidTimerSession(t)
    ensures t.endTime.None? ==> EndTime in TimerSessionViolations(t) && !IsValidTimerSession(t)
    ensures t.duration.None? ==> Duration in TimerSessionViolations(t) && !IsValidTimerSession(t)
    ensures t.userId.None? ==> UserIdPath in TimerSessionViolations(t) && !IsValidTimerSession(t)
    ensures IsValidTimerSession(t) <==>
              t.startTime.Some? && t.endTime.Some? && t.duration.Some? && t.userId.Some?
    ensures forall l :: IsValidTimerSession(t.(taskLabel := l)) == IsValidTimerSession(t)
  {
  }
}
