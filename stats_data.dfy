/** The records the two stats functions exchange with the stats table. */
module StatsData {
  import opened Wrappers

  /** The `gameStats` object a client posts: the two counters the handler reads. */
  datatype GameStats = GameStats(correct: Option<int>, incorrect: Option<int>)

  /** One entry of a player's game history: the posted stats stamped with a date. */
  datatype Game = Game(stats: GameStats, date: string)

  /** `n || 0` on a counter that may be absent or null. */
  function OrZero(n: Option<int>): int {
    n.GetOr(0)
  }

  /** `games || []` on a history that may be absent or null. */
  function OrEmpty(games: Option<seq<Game>>): seq<Game> {
    games.GetOr([])
  }
}
