/** The Exercise document (one logged workout) and its schema rules. */
module ExerciseModel {
  import opened Base
  import opened Schema

  const ExerciseTypes: seq<string> := ["Running", "Cycling", "Swimming", "Gym", "Yoga", "Other"]

  /** `duration` is a JavaScript number, so it may arrive with a fractional part. */
  datatype Exercise = Exercise(
    username: Option<string>,
    exerciseType: Option<string>,
    subActivity: Option<string>,
    description: Option<string>,
    duration: Option<real>,
    date: Option<Time>)

  datatype ExercisePath = Username | ExerciseType | Duration | Date

  /** The paths whose validator rejects `e`: `required` on username, type,
      duration and date, the type's `enum`, and `Number.isInteger` and `min: 1`
      on the duration. */
  function ExerciseViolations(e: Exercise): set<ExercisePath> {
    (if RequiredString(e.username) then {} else {Username})
    + (if RequiredString(e.exerciseType) && InEnum(e.exerciseType, ExerciseTypes) then {} else {ExerciseType})
    + (if Required(e.duration) && IsWhole(e.duration.value) && AtLeast(e.duration, 1.0) then {} else {Duration})
    + (if Required(e.date) then {} else {Date})
  }

  predicate IsValidExercise(e: Exercise) {
    ExerciseViolations(e) == {}
  }

  /** Each rule on its own. */
  lemma ExerciseRules(e: Exercise)
    ensures !RequiredString(e.username) ==> Username in ExerciseViolations(e) && !IsValidExercise(e)
    ensures (e.exerciseType.None? || e.exerciseType.value !in ExerciseTypes) ==>
              ExerciseType in ExerciseViolations(e) && !IsValidExercise(e)
    ensures e.duration.None? ==> Duration in ExerciseViolations(e) && !IsValidExercise(e)
    ensures e.date.None? ==> Date in ExerciseViolations(e) && !IsValidExercise(e)
    ensures forall a, d :: IsValidExercise(e.(subActivity := a, description := d)) == IsValidExercise(e)
    ensures IsValidExercise(e) <==>
              && e.username.Some? && e.username.value != ""
              && e.exerciseType.Some? && e.exerciseType.value in ExerciseTypes
              && e.duration.Some? && IsWhole(e.duration.value) && e.duration.value >= 1.0
              && e.date.Some?
  {
    assert "" !in ExerciseTypes;
  }

  /** A valid exercise lasts a whole number of minutes, at least one: the
      integer check and the minimum together admit exactly 1, 2, 3, ... */
  function WholeMinutes(e: Exercise): (k: nat)
    requires IsValidExercise(e)
    ensures k >= 1 && e.duration == Some(k as real)
  {
    assert Duration !in ExerciseViolations(e);
    e.duration.value.Floor
  }

  /** A fractional duration fails even when it is at least one. */
  lemma FractionalDurationInvalid(e: Exercise)
    requires e.duration == Some(1.5)
    ensures Duration in ExerciseViolations(e)
  {
    assert (1.5).Floor == 1;
  }
}
