/** The CalorieRate document of the analytics service and the collection's
    unique index on `exerciseType`. */
module CalorieModel {
  import opened Base
  import opened Schema

  const CalorieExerciseTypes: seq<string> := ["Running", "Cycling", "Swimming", "Gym", "Walking", "Other"]

  datatype CalorieRate = CalorieRate(exerciseType: Option<string>, caloriesPerMinute: Option<real>)

  datatype CaloriePath = ExerciseType | CaloriesPerMinute

  function CalorieViolations(r: CalorieRate): set<CaloriePath> {
    (if RequiredString(r.exerciseType) && InEnum(r.exerciseType, CalorieExerciseTypes) then {} else {ExerciseType})
    + (if Required(r.caloriesPerMinute) && AtLeast(r.caloriesPerMinute, 0.0) then {} else {CaloriesPerMinute})
  }

  predicate IsValidRate(r: CalorieRate) {
    CalorieViolations(r) == {}
  }

  lemma CalorieRules(r: CalorieRate)
    ensures (r.exerciseType.None? || r.exerciseType.value !in CalorieExerciseTypes) ==>
              ExerciseType in CalorieViolations(r) && !IsValidRate(r)
    ensures r.caloriesPerMinute.None? ==> CaloriesPerMinute in CalorieViolations(r) && !IsValidRate(r)
    ensures r.caloriesPerMinute.Some? && r.caloriesPerMinute.value < 0.0 ==>
              CaloriesPerMinute in CalorieViolations(r) && !IsValidRate(r)
    ensures IsValidRate(r) <==>
              && r.exerciseType.Some? && r.exerciseType.value in CalorieExerciseTypes
              && r.caloriesPerMinute.Some? && r.caloriesPerMinute.value >= 0.0
  {
    assert "" !in CalorieExerciseTypes;
  }

  /** The unique index: no two rates share an exercise type. */
  predicate UniqueTypes(rs: seq<CalorieRate>) {
    forall i, j :: 0 <= i < j < |rs| ==> rs[i].exerciseType != rs[j].exerciseType
  }

  predicate TypeTaken(rs: seq<CalorieRate>, t: Option<string>) {
    exists i :: 0 <= i < |rs| && rs[i].exerciseType == t
  }

  /** What an insert reports: success, the schema's ValidationError with the
      failing paths, or MongoDB's duplicate-key error from the unique index. */
  datatype InsertOutcome = Inserted | ValidationFailed(paths: set<CaloriePath>) | DuplicateKey

  /** The calorierates collection. */
  class CalorieRateCollection {
    var rates: seq<CalorieRate>

    ghost predicate Valid()
      reads this
    {
      (forall i :: 0 <= i < |rates| ==> IsValidRate(rates[i])) && UniqueTypes(rates)
    }

    constructor ()
      ensures Valid() && rates == []
    {
      rates := [];
    }

    /** `CalorieRate.create(doc)`: the schema is checked first, then the unique index. */
    method Insert(r: CalorieRate) returns (outcome: InsertOutcome)
      requires Valid()
      modifies this
      ensures Valid()
      ensures !IsValidRate(r) ==> outcome == ValidationFailed(CalorieViolations(r))
      ensures IsValidRate(r) && old(TypeTaken(rates, r.exerciseType)) ==> outcome == DuplicateKey
      ensures outcome == Inserted <==> IsValidRate(r) && !old(TypeTaken(rates, r.exerciseType))
      ensures outcome == Inserted ==> rates == old(rates) + [r]
      ensures outcome != Inserted ==> rates == old(rates)
    {
      if !IsValidRate(r) {
        return ValidationFailed(CalorieViolations(r));
      }
      if TypeTaken(rates, r.exerciseType) {
        return DuplicateKey;
      }
      rates := rates + [r];
      outcome := Inserted;
    }
  }

  /** Seeding the same exercise type twice: the first insert succeeds, the
      second hits the unique index even with a different rate. */
  method SeedTwice(exerciseType: string, first: real, second: real) returns (a: InsertOutcome, b: InsertOutcome)
    requires exerciseType in CalorieExerciseTypes && first >= 0.0 && second >= 0.0
    ensures a == Inserted && b == DuplicateKey
  {
    var rates := new CalorieRateCollection();
    CalorieRules(CalorieRate(Some(exerciseType), Some(first)));
    CalorieRules(CalorieRate(Some(exerciseType), Some(second)));
    a := rates.Insert(CalorieRate(Some(exerciseType), Some(first)));
    assert rates.rates[0].exerciseType == Some(exerciseType);
    b := rates.Insert(CalorieRate(Some(exerciseType), Some(second)));
  }
}
