# Fußball-Quiz: offline cache, stats functions and question analysis

This project models four parts of the Fußball-Quiz web app and proves properties of the model.

- **The service worker (`sw.js`).**
  - On install it pre-loads the app shell into the cache `fußball-quiz-v1`.
  - It answers GET requests cache-first. A 200 `basic` network response is written through to the current cache.
  - When the network fails, an HTML request gets the cached `./index.html`.
  - On activation it deletes every other cache version.
  - The browser's cache store is an ordered list of named caches (`CacheStorage`). Each cache maps a request URL to a response.
  - The worker is the class `ServiceWorker.Controller`. Each of its three listeners is one method that updates the store.
- **The save-stats function (`netlify/functions/save-stats.js`).**
  - It answers CORS preflight and refuses every method but POST.
  - It validates the posted player name and game stats.
  - It records the game in the player's row: the counters rise, the game is appended, and the history keeps the last 50 games.
- **The get-stats function (`netlify/functions/get-stats.js`).**
  - It answers preflight and refuses every method but GET.
  - It turns the stats table into one object keyed by player name.
- **The question-analysis script (`analyze_questions.js`).**
  - `parseQuestions` turns pattern matches into question records.
  - The seven checks over the basic and advanced question lists are rule coverage, duplicate questions, duplicate options, answer-index bounds, per-rule statistics, short option lists, and rules short of basic questions.

Modules:

- `Wrappers`: `Option`.
- `CacheStorage`: the cache store, and the `caches.match`, `caches.open`, `cache.put`, `cache.addAll` and `caches.delete` operations, after sections 5.4 and 5.5 of the W3C Service Workers specification.
- `ServiceWorker`: the worker's constants, the three handlers as functions on the store, and the `Controller` class.
- `StatsData`: the game records shared by both stats functions.
- `SaveStats`, `GetStats`: the two handlers.
- `Questions`: the question record, `parseQuestions`, and generic counting and first-match helpers.
- `QuestionAnalysis`: the seven checks.

Host services are parameters of the model:

- The network is a function from URL to fetch result.
- The Supabase table is the row a lookup returns plus the error a write reports. For get-stats it is the query result.
- The environment is a `configured` flag.
- The clock is a timestamp argument.
- Text normalisation (`toLowerCase().trim()`) is a function argument.

The fetch handler is cache-first, as the code at `sw.js:32-37` is written. The comment at `sw.js:38` says "network first", but the code does not do that, and the model follows the code.

## Model

| member | source | states |
|---|---|---|
| CacheStorage.Lookup | sw.js:12 | a cache is found iff one of that name exists, and it is that cache's entries |
| CacheStorage.LookupAt | sw.js:12 | the lookup by a stored cache's name finds that cache |
| CacheStorage.MatchAll | sw.js:32 | a response is found iff some cache holds the URL, and it comes from the first cache in creation order that holds it |
| CacheStorage.Open | sw.js:12 | the named cache exists afterwards with its old entries (or none); other caches and every cross-cache match are unchanged; a new cache goes last |
| CacheStorage.LookupAppend | sw.js:12 | adding a cache with a new name makes it findable and changes no other lookup |
| CacheStorage.LookupSameNames | sw.js:15 | two stores with the same names in the same places (as before and after a write into one cache) have a cache of a given name in both or in neither |
| CacheStorage.MatchAllAppendEmpty | sw.js:12 | adding an empty cache changes no cross-cache match |
| CacheStorage.PutEntries | sw.js:15 | the caches keep their names and places; the entries are added to the named cache, overriding same keys; no other cache changes |
| CacheStorage.PutEntriesAt | sw.js:15 | place by place, the cache with the written name gains the entries and every other cache keeps its entries |
| CacheStorage.Put | sw.js:49 | the caches keep their names and places; the named cache maps the key to the response afterwards; no other cache changes; the cross-cache match of every other URL is unchanged |
| CacheStorage.PutKeepsOtherMatches | sw.js:49 | writing one key changes the cross-cache match of no other URL |
| CacheStorage.MatchAllSameEntry | sw.js:32 | two stores whose caches agree place by place on one URL give the same cross-cache match for it |
| CacheStorage.PutOnMiss | sw.js:46-50 | writing a URL no cache holds into an existing cache makes the next cross-cache match return the written response |
| CacheStorage.Keep | sw.js:66-75 | exactly the caches not named for deletion remain, still with distinct names |
| CacheStorage.Without | sw.js:71 | a deleted name is no longer found; every other name finds what it found before |
| CacheStorage.WithoutTwice | sw.js:68-73 | deleting one set of names after another equals deleting their union |
| CacheStorage.WithoutNothing | sw.js:68-73 | deleting no name changes nothing |
| CacheStorage.KeepTwice | sw.js:68-73 | keeping all but one set of names and then all but another equals keeping all but their union |
| CacheStorage.KeepNothing | sw.js:68-73 | excluding no name keeps the whole store |
| CacheStorage.StaleNames | sw.js:69 | every cache name other than the current one is stale, and the current one is not |
| CacheStorage.Pruned | sw.js:66-75 | only caches with the current name remain (at most one), with its entries unchanged |
| CacheStorage.PrunedIdempotent | sw.js:66-75 | pruning twice equals pruning once |
| CacheStorage.Storable | sw.js:15 | `addAll` stores only an arrived response: one with a status outside 200-299, a 206 or an error kind is refused, a 200 basic one is accepted |
| CacheStorage.AddAll | sw.js:15 | succeeds iff every fetch gives a storable response; then every URL maps to its response, other keys and caches are kept; on failure nothing is written |
| ServiceWorker.Install | sw.js:10-20 | the current cache exists; other caches unchanged; when every pre-load succeeds its keys are exactly its old keys plus the three shell URLs, each shell URL with its response and every other key kept; when one fails nothing is added |
| ServiceWorker.ShellLoaded | sw.js:15 | pre-loading the shell into an existing current cache leaves exactly its old keys plus the shell URLs, with their responses |
| ServiceWorker.HandleFetch | sw.js:25-61 | non-GET is not intercepted and touches nothing; a hit comes from the first cache holding the URL, with no fetch and no change; a miss fetches; an arrived response is returned as is; a 200 basic response is stored in the current cache only, found by the next match, and changes no other URL's match; other responses are not stored; on network failure nothing is stored, HTML requests get the cached shell page (possibly absent), others get no response, and a missing Accept header rejects |
| ServiceWorker.WriteThrough | sw.js:46-50 | on a miss, the current cache maps the URL to the copy, no other cache changes, the next cross-cache match returns the copy, and every other URL's match is unchanged |
| ServiceWorker.Cacheable | sw.js:42 | no response, a status other than 200 or a non-basic type is not cached, and a cached response is one `cache.addAll` would also accept (`Storable`) |
| ServiceWorker.Includes | sw.js:55 | `includes` holds for the empty part and for a prefix, and never for a part longer than the text |
| ServiceWorker.FetchWritesThrough | sw.js:39-51 | a GET miss whose fetched response is cacheable replies with it, reports the fetch, and writes it through |
| ServiceWorker.FetchOnce | sw.js:25-61 | the branch-by-branch fetch handler gives the reply, fetch flag and store of the fetch step |
| ServiceWorker.DeleteStale | sw.js:66-75 | deleting the stale names one by one, in `caches.keys()` order, leaves the activation store |
| ServiceWorker.Activate | sw.js:64-76 | every remaining cache is the current one, with its entries unchanged |
| ServiceWorker.ActivateIdempotent | sw.js:64-76 | activating twice leaves the store as activating once |
| ServiceWorker.StaleAmongAll | sw.js:66-69 | the names the listener deletes are exactly the stale names of the store |
| ServiceWorker.StaleAmongStep | sw.js:68-72 | one more name adds itself to the names deleted so far exactly when it is not the current cache |
| ServiceWorker.NamesOf | sw.js:66 | `caches.keys()` gives one name per cache, in creation order |
| ServiceWorker.DeleteNone | sw.js:66-75 | before the first name is visited nothing is deleted |
| ServiceWorker.DeleteStep | sw.js:68-73 | deleting the next stale name, or skipping the current cache, extends the deletions so far by that name |
| ServiceWorker.DeleteAll | sw.js:66-75 | once every name is visited, the deletions leave exactly the activation store |
| ServiceWorker.Controller.constructor | sw.js:1-7 | the worker starts over an existing store, not yet skipping waiting or claiming pages |
| ServiceWorker.Controller.OnInstall | sw.js:10-22 | the new store is the install step of the old one, and skipping waiting is requested either way |
| ServiceWorker.Controller.OnFetch | sw.js:25-61 | reply, fetch flag and new store (computed by `FetchOnce`) are those of the fetch step on the old store, and neither the waiting nor the claim flag changes |
| ServiceWorker.Controller.OnActivate | sw.js:64-78 | deleting the stale caches one by one (by `DeleteStale`) leaves the activation store, and the pages are claimed |
| SaveStats.EarlyReply | netlify/functions/save-stats.js:13-59 | OPTIONS gives 200 with an empty body; other non-POST methods give 405; an unparseable body gives 500 with the parser's message; missing fields give 400 even when unconfigured; an unconfigured store gives 503; the request goes on iff it is a valid POST against a configured store |
| SaveStats.Starting | netlify/functions/save-stats.js:72-99 | an existing row is reused with a null history read as empty and a null counter read as 0 (each counter is then added to, and `null + n` is `n`); a new player starts from zeros and no games |
| SaveStats.NextStats | netlify/functions/save-stats.js:91-105 | total games rise by 1, totals by the posted counters (missing counts 0), the history has min(old+1, 50) games, ends with the new game, and is a suffix of the old history plus it |
| SaveStats.RecordGame | netlify/functions/save-stats.js:72-105 | the in-place push, counter updates and cut give the next record |
| SaveStats.Handle | netlify/functions/save-stats.js:4-152 | early replies touch no table; otherwise the row is looked up and the next record written, as an update when a row exists and an insert when not; 200 only when the write succeeds, 500 with the write's message when it fails |
| SaveStats.SaveOnce | netlify/functions/save-stats.js:92-124 | one save over a row (or none) writes a row under the row's name with one more game and the game's counters added (a null counter read as 0) |
| SaveStats.SaveOnceGames | netlify/functions/save-stats.js:92-105 | one save over a row (or none) writes the last 50 games of the row's history with the new game appended |
| SaveStats.CapKeepsLast | netlify/functions/save-stats.js:97-105 | cutting the history before adding a game and after it keeps the same 50 games |
| SaveStats.LastGames | netlify/functions/save-stats.js:103-105 | `slice(-50)` keeps min(length, 50) elements, and they are the list's suffix |
| SaveStats.SavesAccumulate | netlify/functions/save-stats.js:72-124 | a new player's row after a run of saves is under their name and counts every game and every correct and incorrect answer |
| SaveStats.SavesKeepLastGames | netlify/functions/save-stats.js:97-124 | a new player's history after a run of saves is exactly the last 50 games, in play order |
| SaveStats.SavesKeepHistory | netlify/functions/save-stats.js:92-124 | a new player's stored history after a run of saves is the one built by appending each game and cutting to 50 |
| SaveStats.HistoryIsLastGames | netlify/functions/save-stats.js:97-105 | appending each game and cutting to 50 after every game keeps exactly the last 50 games |
| GetStats.EarlyReply | netlify/functions/get-stats.js:13-44 | OPTIONS gives 200 with an empty body; other non-GET methods give 405; an unconfigured store gives 200 with an empty object; the table is queried iff it is a GET against a configured store |
| GetStats.Entry | netlify/functions/get-stats.js:63-68 | a present counter or history is kept, a null counter reads 0 and a null history reads as empty |
| GetStats.ToStatsObject | netlify/functions/get-stats.js:59-70 | the keys are exactly the rows' player names other than `__proto__` (whose assignment replaces the object's prototype and stores no key), and each holds the defaulted entry of the last row with that name |
| GetStats.Handle | netlify/functions/get-stats.js:4-89 | early replies query nothing; a query error gives 500 with its message; null data gives 200 with an empty object; rows give 200 with the object keyed by their names other than `__proto__`, the last row per name winning |
| Questions.ParseQuestions | analyze_questions.js:12-32 | no array match gives no questions; otherwise one question per match in order, with the captured fields, no options when none is quoted, and non-negative numbers |
| Questions.CountIf | analyze_questions.js:47-48 | a count never exceeds the list's length |
| Questions.CountIfStep | analyze_questions.js:47-48 | one more element adds one to the count exactly when it matches |
| Questions.CountIfIsCardinality | analyze_questions.js:47-48 | the count is the number of positions whose element matches |
| Questions.FirstWhere | analyze_questions.js:147-149 | a match is found iff some element matches, and it is the element at the first matching position |
| Questions.FirstWhereStep | analyze_questions.js:147-149 | extending a list changes its first match only when it had none |
| QuestionAnalysis.RuleCoverage | analyze_questions.js:43-50 | the coverage has exactly the rules 1..17, each with the number of basic and of advanced questions on it |
| QuestionAnalysis.FirstWithTextFound | analyze_questions.js:86-95 | a question with the text is found iff the text occurs, and it is the first such question |
| QuestionAnalysis.TextsStep | analyze_questions.js:85-86 | one more question adds its normalised text to the texts seen |
| QuestionAnalysis.TextsLast | analyze_questions.js:86-96 | the last question adds one distinct text exactly when its text did not occur earlier |
| QuestionAnalysis.DuplicatesStep | analyze_questions.js:87-95 | the last question adds a record exactly when its text occurred earlier |
| QuestionAnalysis.DuplicatesCount | analyze_questions.js:82-97 | the number of duplicates is the number of questions minus the number of distinct normalised texts |
| QuestionAnalysis.GenuineExtends | analyze_questions.js:82-97 | a genuine duplicate record stays genuine when more questions follow |
| QuestionAnalysis.GenuineLast | analyze_questions.js:87-92 | the record for a repeated text names the first earlier question with it |
| QuestionAnalysis.DuplicatesSound | analyze_questions.js:82-97 | every record pairs a question with the first earlier question of the same normalised text |
| QuestionAnalysis.SeenStep | analyze_questions.js:86-96 | at each question, `questionTexts[normalized]` is set iff an earlier question has the text, and recording an unseen text keeps the dictionary mapping each text to its first question |
| QuestionAnalysis.SeenEntryStep | analyze_questions.js:88-95 | a text already in the dictionary keeps its first question, and an unseen text gets the current question |
| QuestionAnalysis.DuplicatesPrefixStep | analyze_questions.js:88-95 | the duplicates of one more question are those before it plus a record exactly when its text occurred earlier |
| QuestionAnalysis.FindDuplicates | analyze_questions.js:83-97 | the dictionary loop over the question list it is given (the script passes the basic questions followed by the advanced ones) reports the duplicates in order, each genuine, as many as questions minus distinct texts |
| QuestionAnalysis.SetSizeDetectsRepeat | analyze_questions.js:112-114 | the set of normalised options is never larger than the list, and is smaller iff two options normalise alike |
| QuestionAnalysis.OptionTextsLast | analyze_questions.js:112-113 | the set of normalised options is that of all but the last option plus the last one's text |
| QuestionAnalysis.RepeatLast | analyze_questions.js:112-114 | a list repeats a text iff all but its last option do, or the last option's text occurs among them |
| QuestionAnalysis.CountDuplicateOptions | analyze_questions.js:108-119 | counts exactly the questions with two options of the same normalised text |
| QuestionAnalysis.CountInvalidAnswers | analyze_questions.js:127-135 | counts exactly the questions whose answer index is negative or not below the number of options |
| QuestionAnalysis.Insert | analyze_questions.js:153 | inserting a new key into an ascending list keeps it ascending with that key added |
| QuestionAnalysis.SortAscending | analyze_questions.js:153 | the rule keys in strictly increasing order, each exactly once |
| QuestionAnalysis.SumCountsEmpty | analyze_questions.js:145-151 | with no questions every per-rule sum is zero |
| QuestionAnalysis.SumCountsStep | analyze_questions.js:145-151 | one more question adds one to the per-rule sum exactly when its rule is listed |
| QuestionAnalysis.CountsPartition | analyze_questions.js:145-151 | summed over a list naming every rule once, the per-rule counts give the number of questions |
| QuestionAnalysis.RuleStatistics | analyze_questions.js:143-155 | one line per rule present, with its number of questions and the rule name of its first question, in increasing rule order, the counts summing to the number of questions |
| QuestionAnalysis.NextEntry | analyze_questions.js:147-150 | a rule already listed gets one more question under its first name; a new rule's line starts at one question with the current question's rule name |
| QuestionAnalysis.StatsStep | analyze_questions.js:145-151 | recording one more question keeps the per-rule counts and first names right |
| QuestionAnalysis.StatsCountStep | analyze_questions.js:147-150 | after recording one more question (a new line starting at 1), every line's count is the number of questions so far on its rule |
| QuestionAnalysis.StatsNameStep | analyze_questions.js:147-149 | after recording one more question, every line's name is the rule name of the first question so far on its rule |
| QuestionAnalysis.StatsCounted | analyze_questions.js:145-151 | each line's count is the number of questions on its rule |
| QuestionAnalysis.StatsTotal | analyze_questions.js:145-153 | over the sorted rule list the counts add up to the number of questions |
| QuestionAnalysis.RulesStep | analyze_questions.js:145-151 | one more question adds its rule to the rules present |
| QuestionAnalysis.CountShortOptions | analyze_questions.js:157-165 | counts exactly the questions with fewer than four options |
| QuestionAnalysis.CountByRule | analyze_questions.js:173-180 | the tally has exactly the rules present, each with its number of questions |
| QuestionAnalysis.AbsentRuleCount | analyze_questions.js:185 | a rule no question is about has count zero |
| QuestionAnalysis.RuleName | analyze_questions.js:52-70 | every rule 1..17 has a non-empty name |
| QuestionAnalysis.RulesWithFewQuestions | analyze_questions.js:173-189 | exactly the rules 1..17 with fewer than three basic questions (an absent rule counting zero), increasing, each with its count and name |
| QuestionAnalysis.FewStep | analyze_questions.js:184-188 | looking at rule `i` keeps the list exactly the rules so far with fewer than three questions, in order |
| QuestionAnalysis.FewSoundStep | analyze_questions.js:185-187 | appending rule `i` with its count and name keeps every line a rule so far with fewer than three questions |
| QuestionAnalysis.FewSortedStep | analyze_questions.js:184-187 | appending a rule above every listed one keeps the rules increasing |
| QuestionAnalysis.FewCompleteStep | analyze_questions.js:184-187 | appending rule `i` lists every rule up to `i` with fewer than three questions |

## Left out

- Promises and asynchrony: each listener is one atomic step. The un-awaited `cache.put` at `sw.js:47-50` is taken to complete within the fetch step, and the concurrent deletes of `Promise.all` happen one after another.
- Concurrency between events: the asynchronous steps of two events never interleave; each event runs to completion before the next. So two fetches of the same uncached URL that both miss, both fetch and both write are not modelled.
- `skipWaiting` and `clients.claim` are recorded as flags, because their effect on the browser's page control is not part of this model.
- Requests are keyed by URL string only. URL resolution, header matching, `Vary` and the `reload` cache mode of the pre-load requests are not modelled.
- Response bodies, streams and `clone` are left out: a response is a plain value, and a clone equals the original.
- `fetch` never resolves with an absent response, but the `!response` guard at `sw.js:42` is kept through an optional response.
- Supabase client calls are foreign code. The lookup is the row it returns, a lookup error reads as no row, and the write is the error it reports.
- `process.env`, `JSON.parse` and `JSON.stringify` are left out. Configuration is a flag. A body is a parsed payload or a parse error message, and reply bodies are named variants.
- SaveStats.Handle: the two clock reads of `new Date().toISOString()` are one timestamp argument, because the clock is outside the model.
- SaveStats: a `gameStats` value is a record of two optional counters. Extra fields copied by the spread, non-object JSON values and counters that are not numbers are not modelled, because JavaScript's dynamic typing is outside the model.
- GetStats: a null `player_name` key and the JSON ordering of keys are not modelled, because the object is a map from string to entry. The prototype a `__proto__` row installs is not modelled either; only its effect on the reply, that the row is missing, is.
- CORS headers are the same on every reply and are left out.
- Console output in every file is left out.
- Questions.ParseQuestions: reading `index.html` and the lazy regular expressions are left out. Parsing starts from the list of matches with their captures. Precision loss of `parseInt` on digit strings longer than a double holds is not modelled.
- QuestionAnalysis: Unicode lower-casing and trimming are an abstract function. Keys inherited from JavaScript's object prototype (such as `constructor`) are not modelled, because they would make `questionTexts[normalized]` truthy for a text never seen. The report printing and the totals printed at `analyze_questions.js:37-40` are left out.
