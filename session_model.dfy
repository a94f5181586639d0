/** The Session document of the label-addressed timer API and its schema rules. */
module SessionModel {
  import opened Base
  import opened Schema

  /** The values the schema admits for `exerciseType`. */
  const SessionExerciseTypes: seq<string> := ["Running", "Cycling", "Swimming", "Gym", "Other"]

  /** One timed interval of one user; `id` is the document's `_id`. */
  datatype Session = Session(
    id: nat,
    username: Option<string>,
    labelText: Option<string>,  // the `label` field (`label` is a Dafny keyword)
    exerciseType: Option<string>,
    description: Option<string>,
    startTime: Option<Time>,
    endTime: Option<Time>,
    durationSeconds: Option<int>)

  /** The schema paths that carry a validator. */
  datatype SessionPath = Username | ExerciseType | StartTime | DurationSeconds

  /** The paths whose validator rejects `s`; `save()` fails when this is non-empty. */
  function SessionViolations(s: Session): set<SessionPath> {
    (if RequiredString(s.username) then {} else {Username})
    + (if InEnum(s.exerciseType, SessionExerciseTypes) then {} else {ExerciseType})
    + (if Required(s.startTime) then {} else {StartTime})
    + (if AtLeastInt(s.durationSeconds, 0) then {} else {DurationSeconds})
  }

  predicate IsValidSession(s: Session) {
    SessionViolations(s) == {}
  }

  /** Open (running) sessions are the ones without an `endTime`. */
  predicate IsOpen(s: Session) {
    s.endTime.None?
  }

  /** Each schema rule on its own: a missing username or startTime, an unknown
      exerciseType and a negative duration each make the document invalid. */
  lemma SessionRules(s: Session)
    ensures !RequiredString(s.username) ==> Username in SessionViolations(s) && !IsValidSession(s)
    ensures s.startTime.None? ==> StartTime in SessionViolations(s) && !IsValidSession(s)
    ensures s.exerciseType.Some? && s.exerciseType.value !in SessionExerciseTypes ==>
              ExerciseType in SessionViolations(s) && !IsValidSession(s)
    ensures s.durationSeconds.Some? && s.durationSeconds.value < 0 ==>
              DurationSeconds in SessionViolations(s) && !IsValidSession(s)
    ensures IsValidSession(s) <==>
              && s.username.Some? && s.username.value != ""
              && s.startTime.Some?
              && (s.exerciseType.Some? ==> s.exerciseType.value in SessionExerciseTypes)
              && (s.durationSeconds.Some? ==> s.durationSeconds.value >= 0)
  {
  }

  /** `label` (labelText), `description` and `endTime` carry no validator: dropping them
      never changes whether a document is valid. */
  lemma SessionOptionalFields(s: Session)
    ensures IsValidSession(s.(labelText := None, description := None, endTime := None)) == IsValidSession(s)
  {
  }
}
