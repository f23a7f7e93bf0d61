/** Territory size (calculateTerritorySize) and the 24-hour protection window
    (isTerritoryProtected). */
module Territory {
  import opened Wrappers

  const BASE_BUFFER := 50.0   // metres
  const MAX_BUFFER := 200.0   // metres
  const LOG_SCALE := 30.0
  const MS_PER_HOUR := 1000 * 60 * 60
  const PROTECTION_HOURS := 24
  const PROTECTION_MS := 86_400_000

  /** calculateTerritorySize: min(200, 50 + log(distance + 1) * 30). The
      logarithm is not modelled; `logDistance` stands for log(distance + 1).
      The buffer is the smaller of 200 m and the uncapped value, and is at
      least 50 m whenever the logarithm is not negative (that is, for every
      distance >= 0). */
  function TerritorySize(logDistance: real): (buffer: real)
    ensures buffer <= MAX_BUFFER
    ensures buffer <= BASE_BUFFER + logDistance * LOG_SCALE
    ensures buffer == MAX_BUFFER || buffer == BASE_BUFFER + logDistance * LOG_SCALE
    ensures logDistance >= 0.0 ==> BASE_BUFFER <= buffer
  {
    var uncapped := BASE_BUFFER + logDistance * LOG_SCALE;
    if MAX_BUFFER <= uncapped then MAX_BUFFER else uncapped
  }

  /** A longer route (a larger logarithm) never gives a smaller buffer; a
      zero distance (log 1 = 0) gives exactly the base; the cap is reached
      exactly when log(distance + 1) >= 5. */
  lemma TerritorySizeShape(l1: real, l2: real)
    requires l1 <= l2
    ensures TerritorySize(l1) <= TerritorySize(l2)
    ensures TerritorySize(0.0) == BASE_BUFFER
    ensures TerritorySize(l1) == MAX_BUFFER <==> l1 >= 5.0
  {
  }

  /** isTerritoryProtected with the clock read passed in as `now`, and the
      time of the last defence as milliseconds since the epoch. None stands
      for every value the source treats as falsy or that does not parse (no
      timestamp, the empty string, an invalid date): all of them give false.
      Otherwise the territory is protected exactly when less than 24 hours,
      86,400,000 ms, have passed since the defence. */
  function IsTerritoryProtected(lastDefendedAt: Option<int>, now: int): (isProtected: bool)
    ensures lastDefendedAt.None? ==> !isProtected
    ensures lastDefendedAt.Some? ==> (isProtected <==> now - lastDefendedAt.value < PROTECTION_MS)
  {
    match lastDefendedAt
    case None => false
    case Some(defended) =>
      var hoursSinceDefense := (now - defended) as real / MS_PER_HOUR as real;
      hoursSinceDefense < PROTECTION_HOURS as real
  }

  /** Protection only runs out: a territory unprotected at some instant
      stays unprotected at every later one, until it is defended again. */
  lemma ProtectionExpires(lastDefendedAt: Option<int>, now: int, later: int)
    requires now <= later
    requires !IsTerritoryProtected(lastDefendedAt, now)
    ensures !IsTerritoryProtected(lastDefendedAt, later)
  {
  }

  /** A defence 23 hours ago still protects; one 25 hours ago does not. */
  lemma ProtectionExamples(now: int)
    ensures IsTerritoryProtected(Some(now - 23 * MS_PER_HOUR), now)
    ensures !IsTerritoryProtected(Some(now - 25 * MS_PER_HOUR), now)
    ensures !IsTerritoryProtected(Some(now - PROTECTION_MS), now)
  {
  }
}
