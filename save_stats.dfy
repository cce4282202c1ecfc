/** The save-stats serverless function: answers CORS preflight, accepts only POST,
    validates the posted player name and game stats, and records the game in the
    player's row of the stats table (counters bumped, history capped at 50 games). */
module SaveStats {
  import opened Wrappers
  import opened StatsData

  /** How many games a player's history keeps. */
  const HistoryLimit: nat := 50

  /** The posted JSON after parsing: the two fields the handler reads. */
  datatype Payload = Payload(playerName: Option<string>, gameStats: Option<GameStats>)

  /** `event.body`: text that parses, or text on which `JSON.parse` throws this message. */
  datatype Body = Parsed(payload: Payload) | Unparseable(message: string)

  datatype Event = Event(httpMethod: string, body: Body)

  /** The JSON bodies the handler answers with. */
  datatype ReplyBody =
    | Empty                          // ''
    | MethodNotAllowed               // { error: 'Method not allowed' }
    | MissingFields                  // { error: 'Missing required fields: playerName, gameStats' }
    | NotConfigured                  // { error: 'Database not configured', message: ... }
    | Saved                          // { success: true, message: 'Statistics saved successfully' }
    | InternalError(message: string) // { error: 'Internal server error', message }

  /** Status code and body; the CORS headers are the same on every reply. */
  datatype Reply = Reply(statusCode: int, body: ReplyBody)

  /** A player's row as the lookup returns it; any column but the name may be null. */
  datatype StoredStats = StoredStats(playerName: string, totalCorrect: Option<int>, totalIncorrect: Option<int>,
                                     totalGames: Option<int>, games: Option<seq<Game>>)

  /** The record the handler builds before writing it. */
  datatype UserStats = UserStats(playerName: string, totalCorrect: int, totalIncorrect: int, totalGames: int, games: seq<Game>)

  /** The write the handler issues: an update of the player's row, or an insert of a new one. */
  datatype Write = Update(playerName: string, stats: UserStats, updatedAt: string) | Insert(stats: UserStats)

  /** The stats table as this request sees it: the player's row, if the lookup found one
      (a failed lookup finds none), and the error the write reports, if any. */
  datatype Store = Store(existing: Option<StoredStats>, writeError: Option<string>)

  /** The reply, whether the table was read, and what was written to it. */
  datatype Outcome = Outcome(reply: Reply, lookedUp: bool, write: Option<Write>)

  /** JavaScript truthiness of an optional string: present and not empty. */
  predicate Truthy(s: Option<string>) {
    s.Some? && s.value != ""
  }

  /** Both required fields are truthy. */
  predicate HasRequiredFields(p: Payload) {
    Truthy(p.playerName) && p.gameStats.Some?
  }

  /** The replies the handler gives before it touches the table, in the order it
      checks: preflight, method, parse, required fields, configuration. `None` means
      the request goes on to the table. */
  function EarlyReply(event: Event, configured: bool): (r: Option<Reply>)
    // Preflight is answered whatever the body and configuration.
    ensures event.httpMethod == "OPTIONS" ==> r == Some(Reply(200, Empty))
    // Every method but POST and OPTIONS is refused.
    ensures event.httpMethod != "OPTIONS" && event.httpMethod != "POST" ==> r == Some(Reply(405, MethodNotAllowed))
    // A body that does not parse is an internal error carrying the parser's message.
    ensures event.httpMethod == "POST" && event.body.Unparseable? ==> r == Some(Reply(500, InternalError(event.body.message)))
    // Missing fields are reported whether or not the table is configured.
    ensures event.httpMethod == "POST" && event.body.Parsed? && !HasRequiredFields(event.body.payload) ==>
      r == Some(Reply(400, MissingFields))
    ensures event.httpMethod == "POST" && event.body.Parsed? && HasRequiredFields(event.body.payload) && !configured ==>
      r == Some(Reply(503, NotConfigured))
    // Only a valid POST against a configured table goes on.
    ensures r.None? <==> event.httpMethod == "POST" && event.body.Parsed? && HasRequiredFields(event.body.payload) && configured
  {
    if event.httpMethod == "OPTIONS" then Some(Reply(200, Empty))
    else if event.httpMethod != "POST" then Some(Reply(405, MethodNotAllowed))
    else match event.body
      case Unparseable(message) => Some(Reply(500, InternalError(message)))
      case Parsed(payload) =>
        if !HasRequiredFields(payload) then Some(Reply(400, MissingFields))
        else if !configured then Some(Reply(503, NotConfigured))
        else None
  }

  /** The record the update starts from: the stored row with a null history read as
      empty and a null counter read as 0 (every counter is then added to, and `null + n`
      is `n`), or a fresh record with zero counters and no games. */
  function Starting(existing: Option<StoredStats>, playerName: string): (u: UserStats)
    ensures existing.None? ==> u == UserStats(playerName, 0, 0, 0, [])
    ensures existing.Some? ==>
      && u.playerName == existing.value.playerName
      && u.totalCorrect == OrZero(existing.value.totalCorrect)
      && u.totalIncorrect == OrZero(existing.value.totalIncorrect)
      && u.totalGames == OrZero(existing.value.totalGames)
      && u.games == OrEmpty(existing.value.games)
  {
    match existing
    case Some(row) => UserStats(row.playerName, OrZero(row.totalCorrect), OrZero(row.totalIncorrect), OrZero(row.totalGames), OrEmpty(row.games))
    case None => UserStats(playerName, 0, 0, 0, [])
  }

  /** The record after one game: one more game, the game's counters added (a missing
      counter adds 0), and the game appended to the history, which keeps only the
      last 50 games. */
  function NextStats(existing: Option<StoredStats>, playerName: string, stats: GameStats, date: string): (u: UserStats)
    ensures var start := Starting(existing, playerName);
      && u.playerName == start.playerName
      && u.totalGames == start.totalGames + 1
      && u.totalCorrect == start.totalCorrect + OrZero(stats.correct)
      && u.totalIncorrect == start.totalIncorrect + OrZero(stats.incorrect)
      && |u.games| == (if |start.games| + 1 < HistoryLimit then |start.games| + 1 else HistoryLimit)
      && u.games[|u.games| - 1] == Game(stats, date)
      && u.games == (start.games + [Game(stats, date)])[|start.games| + 1 - |u.games|..]
  {
    var start := Starting(existing, playerName);
    var games := start.games + [Game(stats, date)];
    var kept := if |games| > HistoryLimit then games[|games| - HistoryLimit..] else games;
    UserStats(start.playerName,
              start.totalCorrect + OrZero(stats.correct),
              start.totalIncorrect + OrZero(stats.incorrect),
              start.totalGames + 1,
              kept)
  }

  /** The record update as the handler performs it: start from the stored row or a
      fresh record, push the dated game, bump the counters, then cut the history. The
      same record as `NextStats`, built in the handler's order; `RecordedIsNext` links
      the two. */
  method RecordGame(existing: Option<StoredStats>, playerName: string, stats: GameStats, date: string) returns (u: UserStats)
    ensures u == NextStats(existing, playerName, stats, date)
  {
    var start: UserStats;
    if existing.Some? {
      var row := existing.value;
      start := UserStats(row.playerName, OrZero(row.totalCorrect), OrZero(row.totalIncorrect), OrZero(row.totalGames), OrEmpty(row.games));
    } else {
      start := UserStats(playerName, 0, 0, 0, []);
    }
    var games := start.games + [Game(stats, date)];
    if |games| > HistoryLimit {
      games := games[|games| - HistoryLimit..];
    }
    u := UserStats(start.playerName, start.totalCorrect + OrZero(stats.correct),
                   start.totalIncorrect + OrZero(stats.incorrect), start.totalGames + 1, games);
    RecordedIsNext(existing, playerName, stats, date, u);
  }

  /** The handler's record, as `RecordGame` assembles it, is `NextStats`. The requires
      restates `RecordGame`'s result on purpose, so the equality is proved apart from
      the method's branches. */
  lemma RecordedIsNext(existing: Option<StoredStats>, playerName: string, stats: GameStats, date: string, u: UserStats)
    requires var start := Starting(existing, playerName);
      var games := start.games + [Game(stats, date)];
      u == UserStats(start.playerName, start.totalCorrect + OrZero(stats.correct),
                     start.totalIncorrect + OrZero(stats.incorrect), start.totalGames + 1,
                     if |games| > HistoryLimit then games[|games| - HistoryLimit..] else games)
    ensures u == NextStats(existing, playerName, stats, date)
  {
  }

  /** The whole handler. `now` is the timestamp the handler reads from the clock. */
  method Handle(event: Event, configured: bool, store: Store, now: string) returns (out: Outcome)
    // Early replies never touch the table.
    ensures EarlyReply(event, configured).Some? ==> out == Outcome(EarlyReply(event, configured).value, false, None)
    // Otherwise the row is looked up and the updated record written: an update when a
    // row was found, an insert when none was.
    ensures EarlyReply(event, configured).None? ==>
      && out.lookedUp
      && var p := event.body.payload;
         var record := NextStats(store.existing, p.playerName.value, p.gameStats.value, now);
         out.write == Some(if store.existing.Some? then Update(p.playerName.value, record, now) else Insert(record))
    // Only a successful write is reported as saved; a failed one is an internal error.
    ensures EarlyReply(event, configured).None? && store.writeError.None? ==> out.reply == Reply(200, Saved)
    ensures EarlyReply(event, configured).None? && store.writeError.Some? ==>
      out.reply == Reply(500, InternalError(store.writeError.value))
  {
    var early := EarlyReply(event, configured);
    if early.Some? {
      return Outcome(early.value, false, None);
    }
    var payload := event.body.payload;
    var playerName, gameStats := payload.playerName.value, payload.gameStats.value;
    var record := RecordGame(store.existing, playerName, gameStats, now);
    var write := if store.existing.Some? then Update(playerName, record, now) else Insert(record);
    var reply := if store.writeError.Some? then Reply(500, InternalError(store.writeError.value)) else Reply(200, Saved);
    out := Outcome(reply, true, Some(write));
  }

  /** The row the handler writes for the record: the same counters and history. */
  function Stored(u: UserStats): StoredStats {
    StoredStats(u.playerName, Some(u.totalCorrect), Some(u.totalIncorrect), Some(u.totalGames), Some(u.games))
  }

  /** The player's row after the games of `posts` are saved one after another, each
      save reading the row the previous one wrote. */
  function SaveAll(existing: Option<StoredStats>, playerName: string, posts: seq<Game>): Option<StoredStats> {
    if posts == [] then existing
    else
      var last := posts[|posts| - 1];
      Some(Stored(NextStats(SaveAll(existing, playerName, posts[..|posts| - 1]), playerName, last.stats, last.date)))
  }

  /** The last `n` elements of `s`, or all of it when it is shorter. */
  function LastGames(s: seq<Game>, n: nat): (r: seq<Game>)
    ensures |r| == if |s| < n then |s| else n
    ensures r == s[|s| - |r|..]
  {
    if |s| <= n then s else s[|s| - n..]
  }

  /** The correct answers over all the games, a missing counter counting 0. */
  function SumCorrect(posts: seq<Game>): int {
    if posts == [] then 0 else SumCorrect(posts[..|posts| - 1]) + OrZero(posts[|posts| - 1].stats.correct)
  }

  /** The incorrect answers over all the games, a missing counter counting 0. */
  function SumIncorrect(posts: seq<Game>): int {
    if posts == [] then 0 else SumIncorrect(posts[..|posts| - 1]) + OrZero(posts[|posts| - 1].stats.incorrect)
  }

  /** A new player who saves the games of `posts` ends with a row under their name that
      counts every game and every answer. */
  lemma {:induction false} SavesAccumulate(playerName: string, posts: seq<Game>)
    requires posts != []
    ensures var row := SaveAll(None, playerName, posts);
      && row.Some?
      && row.value.playerName == playerName
      && row.value.totalGames == Some(|posts|)
      && row.value.totalCorrect == Some(SumCorrect(posts))
      && row.value.totalIncorrect == Some(SumIncorrect(posts))
  {
    var init, last := posts[..|posts| - 1], posts[|posts| - 1];
    if init != [] {
      SavesAccumulate(playerName, init);
    }
    SaveOnce(SaveAll(None, playerName, init), playerName, last);
  }

  /** A new player who saves the games of `posts` ends with a history of the last 50
      games in the order they were played. */
  lemma SavesKeepLastGames(playerName: string, posts: seq<Game>)
    requires posts != []
    ensures var row := SaveAll(None, playerName, posts);
      row.Some? && row.value.games == Some(LastGames(posts, HistoryLimit))
  {
    SavesKeepHistory(playerName, posts);
    HistoryIsLastGames(posts);
  }

  /** The history the saves build: each save appends one game and caps the list. */
  function History(posts: seq<Game>): seq<Game> {
    if posts == [] then [] else LastGames(History(posts[..|posts| - 1]) + [posts[|posts| - 1]], HistoryLimit)
  }

  /** The row saved by a new player holds the history the saves build. */
  lemma {:induction false} SavesKeepHistory(playerName: string, posts: seq<Game>)
    requires posts != []
    ensures var row := SaveAll(None, playerName, posts);
      row.Some? && row.value.games == Some(History(posts))
  {
    var init, last := posts[..|posts| - 1], posts[|posts| - 1];
    if init != [] {
      SavesKeepHistory(playerName, init);
    }
    SaveOnceGames(SaveAll(None, playerName, init), playerName, last);
  }

  /** Capping after every game keeps exactly the last 50 games. */
  lemma {:induction false} HistoryIsLastGames(posts: seq<Game>)
    ensures History(posts) == LastGames(posts, HistoryLimit)
  {
    if posts != [] {
      var init, last := posts[..|posts| - 1], posts[|posts| - 1];
      HistoryIsLastGames(init);
      CapKeepsLast(posts);
    }
  }

  /** One save of `last` over the row `before` (or over no row) adds one game and the
      game's counters to the row's. */
  lemma SaveOnce(before: Option<StoredStats>, playerName: string, last: Game)
    ensures var start := Starting(before, playerName);
      var row := Stored(NextStats(before, playerName, last.stats, last.date));
      && row.playerName == start.playerName
      && row.totalGames == Some(start.totalGames + 1)
      && row.totalCorrect == Some(start.totalCorrect + OrZero(last.stats.correct))
      && row.totalIncorrect == Some(start.totalIncorrect + OrZero(last.stats.incorrect))
  {
    StoredFields(NextStats(before, playerName, last.stats, last.date));
  }

  /** The row written for a record carries the record's name and counters. */
  lemma StoredFields(u: UserStats)
    ensures Stored(u).playerName == u.playerName
    ensures Stored(u).totalGames == Some(u.totalGames)
    ensures Stored(u).totalCorrect == Some(u.totalCorrect)
    ensures Stored(u).totalIncorrect == Some(u.totalIncorrect)
  {
  }

  /** One save of `last` over the row `before` (or over no row) keeps the last 50 games
      of the row's history with `last` appended. */
  lemma SaveOnceGames(before: Option<StoredStats>, playerName: string, last: Game)
    ensures Stored(NextStats(before, playerName, last.stats, last.date)).games ==
      Some(LastGames(Starting(before, playerName).games + [last], HistoryLimit))
  {
  }

  /** Capping the history before adding the last game and capping it after give the same games. */
  lemma CapKeepsLast(posts: seq<Game>)
    requires posts != []
    ensures var init, last := posts[..|posts| - 1], posts[|posts| - 1];
      LastGames(LastGames(init, HistoryLimit) + [last], HistoryLimit) == LastGames(posts, HistoryLimit)
  {
    var init, last := posts[..|posts| - 1], posts[|posts| - 1];
    var capped := LastGames(init, HistoryLimit);
    var a, b := LastGames(capped + [last], HistoryLimit), LastGames(posts, HistoryLimit);
    assert |a| == |b|;
    forall i | 0 <= i < |a| ensures a[i] == b[i] {
      if i == |a| - 1 {
        assert a[i] == last && b[i] == last;
      } else {
        assert a[i] == (capped + [last])[|capped| + 1 - |a| + i];
        assert b[i] == posts[|posts| - |b| + i];
      }
    }
  }
}
