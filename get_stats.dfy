/** The get-stats serverless function: answers CORS preflight, accepts only GET, and
    turns the rows of the stats table into one object keyed by player name. */
module GetStats {
  import opened Wrappers
  import opened StatsData

  /** A row of the stats table; any column but the name may be null. */
  datatype Row = Row(playerName: string, totalCorrect: Option<int>, totalIncorrect: Option<int>,
                     totalGames: Option<int>, games: Option<seq<Game>>)

  /** One player's entry in the reply. */
  datatype PlayerStats = PlayerStats(totalCorrect: int, totalIncorrect: int, totalGames: int, games: seq<Game>)

  /** What the table query gives: an error with its message, or the data (possibly null). */
  datatype Query = QueryError(message: string) | Rows(data: Option<seq<Row>>)

  /** The JSON bodies the handler answers with. */
  datatype ReplyBody =
    | Empty                                  // ''
    | MethodNotAllowed                       // { error: 'Method not allowed' }
    | StatsObject(stats: map<string, PlayerStats>)
    | InternalError(message: string)         // { error: 'Internal server error', message }

  /** Status code and body; the CORS headers are the same on every reply. */
  datatype Reply = Reply(statusCode: int, body: ReplyBody)

  /** The reply and whether the table was queried. */
  datatype Outcome = Outcome(reply: Reply, queried: bool)

  /** The replies given before the table is queried, in the order the handler checks:
      preflight, method, configuration. `None` means the table is queried. */
  function EarlyReply(httpMethod: string, configured: bool): (r: Option<Reply>)
    // Preflight is answered whatever the configuration.
    ensures httpMethod == "OPTIONS" ==> r == Some(Reply(200, Empty))
    // Every method but GET and OPTIONS is refused.
    ensures httpMethod != "OPTIONS" && httpMethod != "GET" ==> r == Some(Reply(405, MethodNotAllowed))
    // A missing configuration is not an error for reads: an empty object.
    ensures httpMethod == "GET" && !configured ==> r == Some(Reply(200, StatsObject(map[])))
    ensures r.None? <==> httpMethod == "GET" && configured
  {
    if httpMethod == "OPTIONS" then Some(Reply(200, Empty))
    else if httpMethod != "GET" then Some(Reply(405, MethodNotAllowed))
    else if !configured then Some(Reply(200, StatsObject(map[])))
    else None
  }

  /** A row's entry, with null counters read as 0 and a null history as empty. */
  function Entry(row: Row): (e: PlayerStats)
    ensures row.totalCorrect.Some? ==> e.totalCorrect == row.totalCorrect.value
    ensures row.totalCorrect.None? ==> e.totalCorrect == 0
    ensures row.totalIncorrect.Some? ==> e.totalIncorrect == row.totalIncorrect.value
    ensures row.totalIncorrect.None? ==> e.totalIncorrect == 0
    ensures row.totalGames.Some? ==> e.totalGames == row.totalGames.value
    ensures row.totalGames.None? ==> e.totalGames == 0
    ensures row.games.Some? ==> e.games == row.games.value
    ensures row.games.None? ==> e.games == []
  {
    PlayerStats(OrZero(row.totalCorrect), OrZero(row.totalIncorrect), OrZero(row.totalGames), OrEmpty(row.games))
  }

  /** The one name a plain object does not store as a key: assigning to `__proto__`
      replaces the object's prototype, so that row never reaches the JSON reply. */
  const ProtoKey: string := "__proto__"

  /** The rows turned into the stats object, one row at a time, each row's entry
      replacing any earlier entry under the same name. The keys are exactly the rows'
      names other than `__proto__`, and each key holds the entry of the LAST row with
      that name. */
  method ToStatsObject(rows: seq<Row>) returns (stats: map<string, PlayerStats>)
    ensures stats.Keys == set i | 0 <= i < |rows| && rows[i].playerName != ProtoKey :: rows[i].playerName
    ensures forall name :: name in stats ==>
      exists i :: 0 <= i < |rows| && rows[i].playerName == name && stats[name] == Entry(rows[i])
        && forall j :: i < j < |rows| ==> rows[j].playerName != name
  {
    stats := map[];
    var k := 0;
    while k < |rows|
      invariant 0 <= k <= |rows|
      invariant stats.Keys == set i | 0 <= i < k && rows[i].playerName != ProtoKey :: rows[i].playerName
      invariant forall name :: name in stats ==>
        exists i :: 0 <= i < k && rows[i].playerName == name && stats[name] == Entry(rows[i])
          && forall j :: i < j < k ==> rows[j].playerName != name
    {
      var row := rows[k];
      if row.playerName != ProtoKey {
        stats := stats[row.playerName := Entry(row)];
      }
      k := k + 1;
    }
  }

  /** The whole handler; `query` is what the table query would give. */
  method Handle(httpMethod: string, configured: bool, query: Query) returns (out: Outcome)
    // Early replies never query the table.
    ensures EarlyReply(httpMethod, configured).Some? ==> out == Outcome(EarlyReply(httpMethod, configured).value, false)
    ensures EarlyReply(httpMethod, configured).None? ==> out.queried
    // A query error is an internal error carrying its message.
    ensures EarlyReply(httpMethod, configured).None? && query.QueryError? ==>
      out.reply == Reply(500, InternalError(query.message))
    // Null data is an empty object.
    ensures EarlyReply(httpMethod, configured).None? && query == Rows(None) ==>
      out.reply == Reply(200, StatsObject(map[]))
    // Rows become an object keyed by exactly their names but `__proto__`, the last row
    // per name winning.
    ensures EarlyReply(httpMethod, configured).None? && query.Rows? && query.data.Some? ==>
      && out.reply.statusCode == 200 && out.reply.body.StatsObject?
      && var rows := query.data.value; var stats := out.reply.body.stats;
         && stats.Keys == (set i | 0 <= i < |rows| && rows[i].playerName != ProtoKey :: rows[i].playerName)
         && forall name :: name in stats ==>
              exists i :: 0 <= i < |rows| && rows[i].playerName == name && stats[name] == Entry(rows[i])
                && forall j :: i < j < |rows| ==> rows[j].playerName != name
  {
    var early := EarlyReply(httpMethod, configured);
    if early.Some? {
      return Outcome(early.value, false);
    }
    match query
    case QueryError(message) =>
      out := Outcome(Reply(500, InternalError(message)), true);
    case Rows(data) =>
      var stats: map<string, PlayerStats> := map[];
      if data.Some? {
        stats := ToStatsObject(data.value);
      }
      out := Outcome(Reply(200, StatsObject(stats)), true);
  }
}
