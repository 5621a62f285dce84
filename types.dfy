/** The records the dashboard receives from the server (src/utils/types.ts). */
module Types {

  /** A value that may be absent; `None` plays the part of JavaScript's `undefined`. */
  datatype Option<+T> = None | Some(value: T)

  /** Selector of one statistic field. On the wire it is the field's own name. */
  datatype StatType = KillCount | DeathCount
  {
    /** The field name used both to index `Stats` and as the `stat` of an update request. */
    function WireName(): (name: string)
      ensures this == KillCount <==> name == "kill_count"
      ensures this == DeathCount <==> name == "death_count"
    {
      match this
      case KillCount => "kill_count"
      case DeathCount => "death_count"
    }
  }

  /** The statistics of one user as the server stores them. */
  datatype Stats = Stats(killCount: int, deathCount: int)
  {
    /** `stats[statType]` */
    function Get(t: StatType): int
    {
      match t
      case KillCount => killCount
      case DeathCount => deathCount
    }
  }

  /** A user record: unique numeric id, display name and statistics. */
  datatype User = User(id: int, username: string, stats: Stats)

  /** Two different selectors name two different fields. */
  lemma WireNamesDistinct(s: StatType, t: StatType)
    requires s != t
    ensures s.WireName() != t.WireName()
  {
  }
}
