/** The activity record of src/lib/types.ts, and the record each mission
    generated by generateDailyMissions (src/lib/game-logic.ts) has. */
module Activity {
  import opened Wrappers

  /** `ActivityType`: the three kinds of session. */
  datatype ActivityType = Run | Walk | Bike

  /** The part of a `Partial<Activity>` that the XP award reads. Every field of
      a `Partial` may be missing, so each is an `Option`. JavaScript numbers
      are modelled as exact reals: distance in km, average speed in km/h and
      the number of territories conquered during the session. */
  datatype PartialActivity = PartialActivity(
    kind: Option<ActivityType>,
    distance: Option<real>,
    avgSpeed: Option<real>,
    territoriesConquered: Option<real>
  )

  /** The kinds of objective a daily mission can have. */
  datatype MissionKind = Distance | Speed | Territory | Time

  /** One daily mission as generateDailyMissions returns it (not the stored
      Mission record of types.ts): title, description, target, reward, icon
      name and kind. */
  datatype MissionSeed = MissionSeed(
    title: string,
    description: string,
    targetValue: int,
    xpReward: int,
    icon: string,
    kind: MissionKind
  )
}
