/** The experience-point award for one activity (calculateXP). */
module Experience {
  import opened Wrappers
  import opened Activity

  const XP_PER_KM := 10
  const RUN_SPEED_THRESHOLD := 10.0   // km/h
  const RUN_SPEED_BONUS := 50
  const BIKE_SPEED_THRESHOLD := 25.0  // km/h
  const BIKE_SPEED_BONUS := 75
  const XP_PER_TERRITORY := 100

  /** A numeric field is truthy in JavaScript when it is present and not 0. */
  predicate Truthy(field: Option<real>) {
    field.Some? && field.value != 0.0
  }

  /** The base award: floor(distance * 10) for a present, non-zero distance. */
  function DistanceXP(a: PartialActivity): int {
    if Truthy(a.distance) then (a.distance.value * XP_PER_KM as real).Floor else 0
  }

  /** +50 for a run strictly faster than 10 km/h. */
  function RunBonus(a: PartialActivity): int {
    if a.kind == Some(Run) && Truthy(a.avgSpeed) && a.avgSpeed.value > RUN_SPEED_THRESHOLD
    then RUN_SPEED_BONUS else 0
  }

  /** +75 for a bike ride strictly faster than 25 km/h. */
  function BikeBonus(a: PartialActivity): int {
    if a.kind == Some(Bike) && Truthy(a.avgSpeed) && a.avgSpeed.value > BIKE_SPEED_THRESHOLD
    then BIKE_SPEED_BONUS else 0
  }

  /** +100 for each territory conquered (a JavaScript number, so possibly fractional). */
  function ConquestXP(a: PartialActivity): real {
    if Truthy(a.territoriesConquered) then a.territoriesConquered.value * XP_PER_TERRITORY as real else 0.0
  }

  /** The award as a sum of its terms, floored once at the end. */
  function XPAward(a: PartialActivity): int {
    (DistanceXP(a) as real + (RunBonus(a) + BikeBonus(a)) as real + ConquestXP(a)).Floor
  }

  /** calculateXP: accumulates the award term by term in a local total. */
  method CalculateXP(activity: PartialActivity) returns (award: int)
    ensures award == XPAward(activity)
  {
    var xp: real := 0.0;
    if Truthy(activity.distance) {
      xp := xp + (activity.distance.value * 10.0).Floor as real;
    }
    if activity.kind == Some(Run) && Truthy(activity.avgSpeed) && activity.avgSpeed.value > 10.0 {
      xp := xp + 50.0;
    }
    if activity.kind == Some(Bike) && Truthy(activity.avgSpeed) && activity.avgSpeed.value > 25.0 {
      xp := xp + 75.0;
    }
    if Truthy(activity.territoriesConquered) {
      xp := xp + activity.territoriesConquered.value * 100.0;
    }
    award := xp.Floor;
  }

  /** With a whole number of territories the final floor changes nothing:
      the award is the base, plus the bonus, plus 100 per territory. */
  lemma XPAwardWholeTerritories(a: PartialActivity, territories: int)
    requires a.territoriesConquered == Some(territories as real) || (territories == 0 && a.territoriesConquered.None?)
    ensures XPAward(a) == DistanceXP(a) + RunBonus(a) + BikeBonus(a) + XP_PER_TERRITORY * territories
  {
  }

  /** No negative award when distance and territory count are not negative. */
  lemma XPAwardNonNegative(a: PartialActivity)
    requires a.distance.Some? ==> a.distance.value >= 0.0
    requires a.territoriesConquered.Some? ==> a.territoriesConquered.value >= 0.0
    ensures XPAward(a) >= 0
    ensures XPAward(a) >= DistanceXP(a) >= 0
  {
  }

  /** The speed bonuses are strict and belong to one activity type each:
      the bonus is 50 exactly for a run above 10 km/h, 75 exactly for a bike
      ride above 25 km/h, and 0 for everything else, walks included. */
  lemma SpeedBonusExact(a: PartialActivity)
    ensures RunBonus(a) + BikeBonus(a) == 50 <==>
              a.kind == Some(Run) && a.avgSpeed.Some? && a.avgSpeed.value > 10.0
    ensures RunBonus(a) + BikeBonus(a) == 75 <==>
              a.kind == Some(Bike) && a.avgSpeed.Some? && a.avgSpeed.value > 25.0
    ensures a.kind != Some(Run) && a.kind != Some(Bike) ==> RunBonus(a) + BikeBonus(a) == 0
    ensures a.avgSpeed == Some(10.0) ==> RunBonus(a) == 0
    ensures a.avgSpeed == Some(25.0) ==> BikeBonus(a) == 0
  {
  }

  /** Covering more distance, all else equal, never lowers the award. */
  lemma XPAwardMonotoneInDistance(a: PartialActivity, d1: real, d2: real)
    requires 0.0 <= d1 <= d2
    ensures XPAward(a.(distance := Some(d1))) <= XPAward(a.(distance := Some(d2)))
  {
    var a1, a2 := a.(distance := Some(d1)), a.(distance := Some(d2));
    FloorMonotone(d1 * 10.0, d2 * 10.0);
    assert DistanceXP(a1) <= DistanceXP(a2);
    var rest := (RunBonus(a) + BikeBonus(a)) as real + ConquestXP(a);
    assert RunBonus(a1) + BikeBonus(a1) == RunBonus(a) + BikeBonus(a) == RunBonus(a2) + BikeBonus(a2);
    assert ConquestXP(a1) == ConquestXP(a) == ConquestXP(a2);
    FloorMonotone(DistanceXP(a1) as real + rest, DistanceXP(a2) as real + rest);
  }

  /** Floor never decreases. */
  lemma FloorMonotone(x: real, y: real)
    requires x <= y
    ensures x.Floor <= y.Floor
  {
  }

  /** A 5 km run at exactly 10 km/h earns the base 50 and no bonus; the same
      run at 18 km/h with one territory earns 50 + 50 + 100. */
  lemma XPAwardExamples()
    ensures XPAward(PartialActivity(Some(Run), Some(5.0), Some(10.0), Some(0.0))) == 50
    ensures XPAward(PartialActivity(Some(Run), Some(5.0), Some(18.0), Some(1.0))) == 200
    ensures XPAward(PartialActivity(Some(Walk), Some(5.0), Some(30.0), None)) == 50
  {
  }
}
