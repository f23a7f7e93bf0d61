# Conquerix rule engine in Dafny

This project models the gamification rules of the Conquerix territory-conquest
fitness app, found in `src/lib/game-logic.ts`. The rules cover:

- the XP a finished activity earns;
- the level a total XP reaches, and the progress percentage toward the next level;
- how a duration is shown (`"1h 2m"`, `"2m 5s"`);
- the three daily missions drawn from a five-entry catalog;
- the motivational message picked for a moment of the day;
- the buffer radius of a conquered territory and its 24-hour protection window;
- the honorific title for a level, and the map colour of a friend's territory.

The activity record comes from `Activity` in `src/lib/types.ts`. The mission record is the return type of `generateDailyMissions` (src/lib/game-logic.ts:137-144).

Modules, one per file:

- `Wrappers` (`wrappers.dfy`): the `Option` type. It stands for optional fields, and for results that are not finite numbers.
- `Activity` (`activity.dfy`): `ActivityType`, the part of `Partial<Activity>` that the XP rule reads, and the record each generated mission has.
- `Experience` (`experience.dfy`): `calculateXP`. It is a method that adds to a local total step by step, as the source does. It is specified by the function `XPAward`.
- `Leveling` (`leveling.dfy`): `getLevelFromXP` without a square root, `getXPForNextLevel`, `getTotalXPForLevel` and `getLevelProgress`.
- `Formatting` (`formatting.dfy`): how a whole number renders as decimal text, and `formatDuration`. A reader for the rendered text is included, so the round trip can be proved.
- `Missions` (`missions.dfy`): the mission catalog, the in-place shuffle and `generateDailyMissions`. It also holds `getMotivationalMessage`.
- `Territory` (`territory.dfy`): `calculateTerritorySize` and `isTerritoryProtected`.
- `Identity` (`identity.dfy`): `getUserTitle` and `getFriendTerritoryColor`.

JavaScript numbers are modelled as exact Dafny `real`s or integers. Distance, speed and territory counts are `real`. XP totals and levels are `int`. Durations are whole seconds (`nat`). Timestamps are integer milliseconds.

Some inputs are outside the functions in the source. They become parameters:

- The clock read in `isTerritoryProtected` becomes the parameter `now`.
- The shuffle `sort(() => Math.random() - 0.5)` becomes an injected permutation `order`. The array is rearranged in place by that order. Any sort leaves a permutation of its input, whatever its comparator answers.
- The value of `Math.random()` in `getMotivationalMessage` becomes a parameter `random` in [0, 1).
- `Math.log(distance + 1)` in `calculateTerritorySize` becomes the parameter `logDistance`.

Some facts about the rules, as the source states them:

- `calculateXP` applies no activity-type multiplier.
- The run bonus is +50 above 10 km/h. The bike bonus is +75 above 25 km/h.
- `getLevelFromXP` is the square-root curve floor(sqrt(xp / 100)) + 1.
- `getLevelProgress` is not clamped.

## Model

| member | source | states |
|---|---|---|
| `Experience.CalculateXP` | src/lib/game-logic.ts:8-32 | The step-by-step total equals `XPAward`: floor(distance·10) for a present, non-zero distance, plus the run and bike bonuses, plus 100 per territory, floored once at the end |
| `Experience.XPAwardWholeTerritories` | src/lib/game-logic.ts:26-31 | With a whole number of territories, or none, the award is exactly base + bonus + 100·territories (the final floor changes nothing) |
| `Experience.XPAwardNonNegative` | src/lib/game-logic.ts:9-31 | Distance ≥ 0 and territories ≥ 0 (when present) give an award ≥ the base award ≥ 0 |
| `Experience.SpeedBonusExact` | src/lib/game-logic.ts:16-24 | The bonus is 50 iff a run has speed > 10, and 75 iff a bike ride has speed > 25. A walk, or an absent type, gets 0. Exactly 10 km/h (run) and exactly 25 km/h (bike) get no bonus |
| `Experience.XPAwardMonotoneInDistance` | src/lib/game-logic.ts:11-14 | With everything else equal, a longer non-negative distance never earns less XP |
| `Experience.XPAwardExamples` | src/lib/game-logic.ts:8-32 | A 5 km run at 10 km/h earns 50. A 5 km run at 18 km/h with one territory earns 200. A fast walk gets no speed bonus |
| `Leveling.LevelFromXP` | src/lib/game-logic.ts:37-40 | The level is ≥ 1, and xp lies in its band 100(L−1)² ≤ xp < 100L². So the level is the largest n with 100n² ≤ xp, plus 1, which is floor(sqrt(xp/100)) + 1 |
| `Leveling.LevelFromXPUnique` | src/lib/game-logic.ts:37-40 | Any level whose band holds xp is `LevelFromXP(xp)`: the band condition picks exactly one level |
| `Leveling.LevelFromXPMonotone` | src/lib/game-logic.ts:37-40 | xp1 ≤ xp2 implies 1 ≤ level(xp1) ≤ level(xp2) |
| `Leveling.XPForNextLevel` | src/lib/game-logic.ts:45-48 | For L ≥ 1, L²·100 is an XP total at which the level is exactly L + 1 |
| `Leveling.TotalXPForLevel` | src/lib/game-logic.ts:53-55 | For L ≥ 1, (L−1)²·100 is an XP total whose level is exactly L (the round trip getLevelFromXP(getTotalXPForLevel(L)) = L) |
| `Leveling.ThresholdsMeet` | src/lib/game-logic.ts:45-55 | getTotalXPForLevel(L+1) = getXPForNextLevel(L). For L ≥ 1 the start of level L lies strictly below the start of L+1 |
| `Leveling.LevelProgress` | src/lib/game-logic.ts:60-66 | Level 0 divides by zero, which gives a non-finite result (None). Any other level gives floor((xp − (L−1)²·100) / L²), the exact-arithmetic value of the expression |
| `Leveling.LevelProgressInRange` | src/lib/game-logic.ts:60-66 | With L = getLevelFromXP(xp), the percentage is defined and lies in [0, 99]. From level 2 on it is at most 74 |
| `Leveling.LevelProgressNegativeWhenLevelTooHigh` | src/lib/game-logic.ts:60-66 | Nothing clamps the result. With 0 XP and level 2 it is −25 |
| `Leveling.LevelProgressNeverFills` | src/lib/game-logic.ts:60-66 | The last XP of level 2 (399) shows 74%. One XP later the level is 3 and the bar shows 0% |
| `Leveling.BandProgress` | src/lib/game-logic.ts:60-66 | Corrected percentage: the XP inside the level divided by the band width 100(2L−1). For L ≥ 1 this is floor((xp − start)/(2L−1)) |
| `Leveling.BandProgressFills` | src/lib/game-logic.ts:60-66 | The corrected bar lies in [0, 99] for the XP's own level. It is 0 at the first XP of the level and 99 at the last |
| `Formatting.NatToString` | src/lib/game-logic.ts:101-103 | A whole number renders as at least one decimal digit, only digits, and no leading zero unless the number is 0 |
| `Formatting.ParseNatToString` | src/lib/game-logic.ts:101-103 | Reading the rendered digits back gives the number that was rendered |
| `Formatting.DurationParts` | src/lib/game-logic.ts:95-100 | The hours form is chosen iff seconds ≥ 3600. It shows h ≥ 1 and m < 60, and the duration lies in [h·3600 + m·60, h·3600 + m·60 + 60). The minutes form shows m < 60 and s < 60 with m·60 + s = seconds exactly |
| `Formatting.FormatDuration` | src/lib/game-logic.ts:95-104 | The text "Hh Mm" / "Mm Ss" reads back as exactly the pair given by `DurationParts` |
| `Formatting.FormatDurationInjectiveBelowAnHour` | src/lib/game-logic.ts:95-104 | Below one hour, two different durations never render to the same text |
| `Formatting.FormatDurationExamples` | src/lib/game-logic.ts:95-104 | 3725 s renders as "1h 2m" and 125 s as "2m 5s" |
| `Missions.Catalog` | src/lib/game-logic.ts:145-186 | The catalog has five mission templates |
| `Missions.SortInPlace` | src/lib/game-logic.ts:189 | The array is rearranged in place: position i receives the old element at order[i] |
| `Missions.GenerateDailyMissions` | src/lib/game-logic.ts:137-190 | The result is the first three entries of the catalog in the injected order. These are exactly three distinct catalog entries, each with target > 0 and reward > 0 |
| `Missions.DailyMissionsAreValid` | src/lib/game-logic.ts:145-189 | For every permutation of the catalog, its first three entries are three distinct catalog entries with positive target and reward |
| `Missions.EveryMissionCanLead` | src/lib/game-logic.ts:189 | Every catalog entry comes first under some permutation |
| `Missions.Messages` | src/lib/game-logic.ts:196-221 | Each of the four message kinds has four messages |
| `Missions.MotivationalMessage` | src/lib/game-logic.ts:195-225 | The result is one of the four messages of the requested kind. It is the one at index i where i ≤ random·4 < i+1 |
| `Missions.EveryMessageReachable` | src/lib/game-logic.ts:223-224 | The message at index i is picked when Math.random returns i/4 |
| `Territory.TerritorySize` | src/lib/game-logic.ts:230-243 | The buffer is ≤ 200 m. It is either 200 or 50 + 30·log(d+1). It is ≥ 50 m whenever log(d+1) ≥ 0 |
| `Territory.TerritorySizeShape` | src/lib/game-logic.ts:230-243 | The buffer is monotone in log(d+1). It is exactly 50 m at distance 0. It reaches the 200 m cap iff log(d+1) ≥ 5 |
| `Territory.IsTerritoryProtected` | src/lib/game-logic.ts:248-256 | Without a (usable) timestamp the result is false. Otherwise it is true iff now − lastDefendedAt < 86,400,000 ms |
| `Territory.ProtectionExpires` | src/lib/game-logic.ts:248-256 | A territory unprotected at some instant stays unprotected at every later instant |
| `Territory.ProtectionExamples` | src/lib/game-logic.ts:248-256 | A defence 23 h ago protects. Defences 24 h and 25 h ago do not |
| `Identity.UserTitle` | src/lib/game-logic.ts:261-268 | Every integer level gets a title, namely the tier whose band [start, next start) holds it. Levels below 10, including 0 and negatives, get Iniciante |
| `Identity.UserTitleIsBand` | src/lib/game-logic.ts:261-268 | UserTitle(level) = t iff level lies in t's band, with cut points 10/25/50/75/100 |
| `Identity.UserTitleMonotone` | src/lib/game-logic.ts:261-268 | A higher level never gets a lower tier in the order Iniciante < Explorador < Conquistador < Dominador < Lenda < Imperador |
| `Identity.TitleNamesDistinct` | src/lib/game-logic.ts:261-268 | Different tiers return different strings |
| `Identity.HashFromIsSum` | src/lib/game-logic.ts:285 | The left-to-right `reduce` starting at acc yields acc + the sum of the code units |
| `Identity.FriendTerritoryColor` | src/lib/game-logic.ts:273-287 | The colour is the palette entry at index (sum of the id's code units) mod 7. It is always one of the seven colours. The empty id gives "#3B82F6" |
| `Identity.CodeUnitSumOfMultiset` | src/lib/game-logic.ts:285 | Two sequences of code units with the same multiset have the same sum |
| `Identity.FriendTerritoryColorIgnoresOrder` | src/lib/game-logic.ts:285-286 | Two ids holding the same code units, each as often (the same multiset), get the same colour, whatever their order |
| `Identity.FriendTerritoryColorSwapHalves` | src/lib/game-logic.ts:285-286 | The ids u+v and v+u get the same colour |

## Left out

- `calculateCalories`, `formatDistance`, `formatSpeed` and `calculatePace` (src/lib/game-logic.ts:71-132) are left out. Their results depend on IEEE double rounding and `toFixed` digits.
- Floating point in general: every number is an exact real or integer. Where the source's double arithmetic could round, the model computes the exact value instead.
- `Math.random`, the system clock, `Math.log` and the parsing of ISO date strings are parameters, as described above. Their behaviour is not modelled.
- Experience.XPAward: `PartialActivity` holds only the four fields `calculateXP` reads. The other `Activity` fields of src/lib/types.ts:19-33 have no effect on the award. NaN field values are not modelled.
- Leveling.LevelFromXP: XP is a natural number. A negative XP gives NaN in the source, and a fractional XP is not modelled.
- Leveling.LevelProgress: XP and level are integers. A non-integer level and NaN inputs are not modelled. The model computes the exact quotient; double rounding of (xp / 100L²) · 100 makes the source show one point less at some inputs, such as (29, 1), (57, 1), (58, 1), (216, 2) and (328, 2), where the model gives 29, 57, 58, 29 and 57.
- Formatting.FormatDuration: durations are whole, non-negative seconds. Negative or fractional seconds render differently in JavaScript. So do numbers of 10^21 and above, which use exponent notation.
- Identity.UserTitle: levels are integers. A fractional level follows the same comparisons but is not modelled.
- Territory.TerritorySize: the logarithm is an input. A distance below −1, which makes the logarithm NaN, is not modelled.
- Missions.GenerateDailyMissions: `order` stands for whatever permutation the sort produces. The random choice of that permutation, and its distribution, are not modelled.
- The records `User`, `Territory`, `Mission`, `RankingEntry`, `FeedPost`, `Notification` and `Stats` of src/lib/types.ts have no behaviour in the rule engine and are not modelled.
- React screens, mock data, authentication and storage, the places search client and the build configuration are not part of this model. None of them holds rule logic.

## Findings

| source | as written | input that shows it | evidently intended | confidence | as-written member | corrected member |
|---|---|---|---|---|---|---|
| src/lib/game-logic.ts:60-66 | The XP inside the level is divided by getXPForNextLevel(L) = 100·L², the total XP at which the next level starts. It is not divided by the band width 100·(2L−1) | xp = 399, level 2: the bar shows 74%; at xp = 400 the level is 3 and the bar shows 0%. From level 2 on the bar never exceeds 74% | Divide by getXPForNextLevel(L) − getTotalXPForLevel(L), so the bar runs from 0% to 99% across each level | medium (not executed) | `Leveling.LevelProgressNeverFills` | `Leveling.BandProgressFills` |
