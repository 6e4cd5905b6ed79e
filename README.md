# Highland Games scoreboard: the scoring and ranking engine in Dafny

The Highland Games scoreboard is a small PHP application. It keeps six JSON data files:
- participants
- events
- competitions
- scores
- categories
- teams

Its pages and JSON endpoints read and rewrite these files. This project models the application's engine and proves properties of that model.

**The store.** The `Store.Database` class holds the six collections as sequence fields. Its methods model the CRUD helpers of `includes/functions.php`:
- `update*` overwrites the first record with the id, keeping the id (and `created_at` where stored);
- `delete*` removes it;
- `add*` appends.

**Score recording.** `addScore` replaces the record with the same (competition, event, participant) key, or appends one.

**Rankings.** `calculateRankings` proceeds in four steps:
1. It seeds one row per resolvable participant id.
2. It credits each score to its participant's row.
3. It sorts the rows by total with PHP 8's stable `usort`.
4. It assigns competition ranks ("1, 1, 3") with a counter loop.

**Statistics.** `updateParticipantStats` merges the competition's scores into the per-event personal bests. It then writes one history entry per competition and sorts the history newest first.

**Endpoints and pages.** Each becomes a pure response function plus a method that runs the script's own loops over a `Database`; the method is proved equal to the function.
- `api/get_rankings.php`: category filter, ranks recomputed within the category, team names added.
- `api/get_scores.php`: scores grouped by event and then by participant.
- `event.php`: the event table, with its ordering, ranks and badges.
- `admin/scores.php`: the listing, plus the `add_score` and `delete_score` posts.
- `admin/update_competition_status.php`: status validation, the update, and the statistics refresh on completion.

**Conventions:**
- PHP's falsiness of ids and request parameters (`!$x`, `empty($x)`) is `Falsy`: "" or "0". An absent request parameter is "".
- Dates are integers.
- Fresh ids and the current time are parameters.

**Modules.** One per concern:
- `Collections`, `Sorting`, `Ranking`: generic lookups and filters, the stable sort, the rank loop;
- `Records`: the records;
- `Standings`, `ParticipantStats`: the results of `calculateRankings` and `updateParticipantStats`;
- `Store`: the database class;
- `Completion`: what `isCompetitionComplete` decides;
- `PhpInt`: PHP's `intval` on strings;
- `RankingsApi`, `ScoresApi`, `EventPage`, `AdminScores`, `StatusApi`: one per script.

**Where the code differs from its own documentation, the model follows the code:**
- `addScore` generates the new record's id before searching for the key. An overwrite therefore replaces the stored id as well: the whole record is replaced.
- The status endpoint enforces no order of statuses. Any of the three valid statuses is accepted from any current status; `StatusApi.AnyTransition` proves this.

## Model

| member | source | states |
|---|---|---|
| Store.Database.constructor | highland-games/includes/config.php:38-55 | The data files as first created: every collection is empty. |
| Store.Database.GetParticipant | highland-games/includes/functions.php:107-115 | None exactly when no participant has the id; otherwise the first stored participant with that id, the one the scan returns. |
| Store.Database.GetEvent | highland-games/includes/functions.php:218-226 | None exactly when no event has the id; otherwise the first stored event with that id, the one the scan returns. |
| Store.Database.GetCompetition | highland-games/includes/functions.php:321-329 | None exactly when no competition has the id; otherwise the first stored competition with that id, the one the scan returns. |
| Store.Database.GetCategory | highland-games/includes/functions.php:598-606 | None exactly when no category has the id; otherwise the first stored category with that id, the one the scan returns. |
| Store.Database.GetTeam | highland-games/includes/functions.php:693-701 | None exactly when no team has the id; otherwise the first stored team with that id, the one the scan returns. |
| Store.Database.CompetitionScores | highland-games/includes/functions.php:440-451 | Exactly the stored scores of the competition: the records at the matching indices, in stored order. |
| Store.Database.EventScores | highland-games/includes/functions.php:460-471 | Exactly the stored scores of the competition and event, in stored order. |
| Store.Database.ParticipantScores | highland-games/includes/functions.php:480-491 | Exactly the stored scores of the competition and participant, in stored order. |
| Store.Database.ParticipantsByCategory | highland-games/includes/functions.php:844-855 | Exactly the participants whose category list holds the category, in stored order. |
| Store.Database.ParticipantsByTeam | highland-games/includes/functions.php:863-874 | Exactly the participants with that team, in stored order; participants without a team never appear. |
| Store.Database.AddParticipant | highland-games/includes/functions.php:123-149 | The participant with its defaults filled in is appended; nothing else changes. |
| Store.Database.UpdateParticipant | highland-games/includes/functions.php:158-178 | Returns false with no change when the id is absent. Otherwise the first record with the id is replaced by the new data, keeping id and stored `created_at`. |
| Store.Database.DeleteParticipant | highland-games/includes/functions.php:186-200 | Returns false with no change when the id is absent; otherwise removes exactly the first record with the id. |
| Store.Database.AddEvent | highland-games/includes/functions.php:234-252 | The event with its defaults filled in is appended. |
| Store.Database.UpdateEvent | highland-games/includes/functions.php:261-281 | As for participants: first match replaced, id and stored `created_at` kept; false and no change when absent. |
| Store.Database.DeleteEvent | highland-games/includes/functions.php:289-303 | Removes only the first event with the id; false and no change when absent. |
| Store.Database.AddCompetition | highland-games/includes/functions.php:337-371 | The competition is appended, with status "upcoming" and empty id lists unless given. |
| Store.Database.UpdateCompetition | highland-games/includes/functions.php:380-400 | First match replaced, id and stored `created_at` kept; false and no change when absent. |
| Store.Database.DeleteCompetition | highland-games/includes/functions.php:408-422 | Removes only the first competition with the id; false and no change when absent. |
| Store.Database.AddCategory | highland-games/includes/functions.php:614-627 | The category is appended. |
| Store.Database.UpdateCategory | highland-games/includes/functions.php:636-653 | First match replaced, keeping only the id; false and no change when absent. |
| Store.Database.DeleteCategory | highland-games/includes/functions.php:661-675 | Removes only the first category with the id; false and no change when absent. |
| Store.Database.AddTeam | highland-games/includes/functions.php:709-722 | The team is appended. |
| Store.Database.UpdateTeam | highland-games/includes/functions.php:731-748 | First match replaced, keeping only the id; false and no change when absent. |
| Store.Database.DeleteTeam | highland-games/includes/functions.php:756-770 | Removes only the first team with the id; false and no change when absent. |
| Store.Database.AddScore | highland-games/includes/functions.php:499-529 | The completed record (fresh id, current time) replaces the first score with its key, else is appended. With at most one score per key before, the same holds after, and the key's only score is the new record. |
| Store.Database.UpdateScore | highland-games/includes/functions.php:538-558 | First score with the id replaced by the new data, keeping the id and stamping the time; false and no change when absent. |
| Store.Database.DeleteScore | highland-games/includes/functions.php:566-580 | Removes only the first score with the id; false and no change when absent. |
| Store.Database.CalculateRankings | highland-games/includes/functions.php:778-836 | The seed loop, the accumulation loop, the sort and the rank loop compute `Standings.Rankings`. |
| Store.Database.UpdateParticipantStats | highland-games/includes/functions.php:883-953 | The flag and the new participants are those of `ParticipantStats.RefreshStats`. |
| Store.Database.IsCompetitionComplete | highland-games/includes/functions.php:972-998 | The counting loop returns `CompleteByCount`: false for an unknown competition, true when completed or when the matching scores are at least events × participants. |
| Store.Database.ActiveCompetitions | highland-games/includes/functions.php:1005-1016 | Exactly the competitions with status "active", in stored order. |
| Store.Database.UpcomingCompetitions | highland-games/includes/functions.php:1023-1039 | A permutation of the "upcoming" competitions, all upcoming, soonest date first. |
| Store.Database.CompletedCompetitions | highland-games/includes/functions.php:1046-1062 | A permutation of the "completed" competitions, all completed, most recent date first. |
| Store.SeedLoop | highland-games/includes/functions.php:784-797 | The seed loop computes `Standings.Seed`. |
| Store.AccumulateLoop | highland-games/includes/functions.php:799-808 | The accumulation loop computes `Standings.Accumulate`. |
| Store.BestsLoop | highland-games/includes/functions.php:899-909 | The personal-bests loop computes `ParticipantStats.MergeBests`. |
| Store.HistoryStep | highland-games/includes/functions.php:911-944 | The `$competitionExists` loop and the newest-first sort compute `ParticipantStats.MergeHistory`. |
| Store.CountLoop | highland-games/includes/functions.php:987-994 | The counting loop computes `CountCovered`. |
| Store.CountCovered | highland-games/includes/functions.php:990-994 | The count never exceeds the number of scores, and equals it exactly when every score's event and participant are both listed. `Completion.CountIsPairs` and `Completion.CoveredPairsMembers` prove that it counts the covered pairs. |
| Store.CompleteByCount | highland-games/includes/functions.php:972-998 | An unknown competition is never complete, and a competition with status completed always is. Otherwise a true verdict needs at least events × participants scores in the competition. `Completion.CompleteMeansAllScored` proves the full characterisation. |
| Completion.CompleteMeansAllScored | highland-games/includes/functions.php:972-998 | Given unique score keys and no repeated ids, the count test holds exactly when the competition is completed or every listed event has a score for every listed participant; this includes vacuously when either list is empty. |
| Completion.CountIsPairs | highland-games/includes/functions.php:987-994 | With no two scores on one (event, participant) pair, the count equals the number of pairs filled. |
| Completion.GridSize | highland-games/includes/functions.php:988 | Without repeated ids, the required count is the number of distinct (event, participant) pairs. |
| Completion.CoveredPairsMembers | highland-games/includes/functions.php:990-994 | A pair is counted exactly when both ids are listed and some score of the competition has them. |
| Completion.CompetitionPairsDistinct | highland-games/includes/functions.php:985 | Unique (competition, event, participant) keys make one competition's pairs distinct. |
| Completion.CountFull | highland-games/includes/functions.php:987-997 | The count reaches events × participants exactly when every pair of the grid is filled. |
| Completion.GridFilled | highland-games/includes/functions.php:983-994 | The grid is filled exactly when every listed pair has a score of the competition. |
| Completion.PairedInCompetition | highland-games/includes/functions.php:985 | Scoring within the competition's selected scores is scoring in the store with that competition id. |
| Records.ScoreDraft.Complete | highland-games/includes/functions.php:499-509 | A fresh id and the current time where the draft omits them; every other field is the draft's. |
| Records.ParticipantDraft.Complete | highland-games/includes/functions.php:123-149 | Id, `created_at` and empty stats default where absent; other fields as given. |
| Records.EventDraft.Complete | highland-games/includes/functions.php:234-252 | Id and `created_at` default where absent; other fields as given. |
| Records.CompetitionDraft.Complete | highland-games/includes/functions.php:337-371 | Id, `created_at`, status "upcoming" and empty event, participant and category lists default where absent. |
| Records.CategoryDraft.Complete | highland-games/includes/functions.php:614-627 | Id defaults where absent. |
| Records.TeamDraft.Complete | highland-games/includes/functions.php:709-722 | Id defaults where absent. |
| Records.KeepParticipantIdentity | highland-games/includes/functions.php:162-170 | The written record has the stored id and the stored `created_at` when present; otherwise it is the caller's data. |
| Records.KeepEventIdentity | highland-games/includes/functions.php:265-273 | As for participants. |
| Records.KeepCompetitionIdentity | highland-games/includes/functions.php:384-392 | As for participants. |
| Records.SumPointsConcat | highland-games/includes/functions.php:923 | The points sum of two lists is the sum of their sums. |
| Collections.FindFirst | highland-games/includes/functions.php:162-166 | The scan returns the first index with the key, or -1 when no element has it. |
| Collections.FirstIndexOf | highland-games/includes/functions.php:107-115 | -1 exactly when no element has the key; otherwise an index with the key and none before it. |
| Collections.LastIndexOf | highland-games/api/get_scores.php:43-45 | -1 exactly when no element has the key; otherwise the last index with it. |
| Collections.KeyBy | highland-games/api/get_scores.php:43-45 | The map from a key to the element at its last index, defined exactly for the keys present. |
| Collections.Lookup | highland-games/includes/functions.php:107-115 | Nothing exactly when no element has the key. Otherwise an element with the key, taken from a position with no earlier element of that key. |
| Collections.Select | highland-games/includes/functions.php:440-491 | A filter is no longer than its input, and every element it keeps has the key. |
| Collections.SelectIsSubsequence | highland-games/includes/functions.php:440-451 | A filter's result is the elements at the increasing matching indices. |
| Collections.SelectMultiset | highland-games/includes/functions.php:440-451 | A filter keeps every matching element as often as it occurs, and nothing else. |
| Collections.SelectConcat | highland-games/includes/functions.php:440-451 | Filtering distributes over concatenation. |
| Collections.Upsert | highland-games/includes/functions.php:511-526 | The new element is stored. The length is unchanged exactly when the key was present, and grows by one otherwise. Elements with other keys keep their positions. |
| Collections.UpsertUnique | highland-games/includes/functions.php:511-526 | An upsert keeps at most one element per key, and the element's key then selects exactly it. |
| Collections.UpsertOtherKeys | highland-games/includes/functions.php:511-526 | An upsert leaves the elements of every other key untouched and in order. |
| Collections.UpsertOwnKey | highland-games/includes/functions.php:511-526 | With at most one element with the key before, exactly the new element has it after. |
| Collections.UpsertShape | highland-games/includes/functions.php:511-526 | Nothing is lost: every element after an upsert is the new one or the one that was there. |
| Collections.UpsertFinds | highland-games/includes/functions.php:511-526 | Every key present before, and the new one, is present after. |
| Collections.UpsertIdempotent | highland-games/includes/functions.php:511-526 | Writing the same record twice is writing it once. |
| Collections.UpsertDistinct | highland-games/includes/functions.php:788-795 | An upsert keeps the keys distinct. |
| Collections.RemoveAt | highland-games/includes/functions.php:566-580 | Removing one index shortens the list by one, removes exactly that element and keeps the others in order. |
| Collections.RemoveFirstSelect | highland-games/includes/functions.php:566-580 | Removing the first element with a key takes the first of that key's elements and leaves every other key's elements as they were. |
| Collections.ResolveAll | highland-games/event.php:49-55 | The resolved records are stored records, no more of them than listed ids. |
| Collections.ResolveAllMembers | highland-games/admin/scores.php:43-57 | Every resolved record's id is listed, and every listed id that resolves contributes its record. |
| Collections.ResolveLoop | highland-games/admin/scores.php:44-49 | The resolution loop computes `ResolveAll`. |
| Collections.ResolveAllCount | highland-games/event.php:49-55 | As many records as there are listed ids that resolve. |
| Sorting.SortDesc | highland-games/includes/functions.php:811-814 | The stable sort's result is sorted by the key, largest first, and is a permutation of its input. |
| Sorting.SortDescStable | highland-games/includes/functions.php:811-814 | Stability: for every key value, the elements carrying it keep their relative order. |
| Sorting.SortDescOfSorted | highland-games/includes/functions.php:811-814 | Sorting an already sorted list changes nothing. |
| Ranking.RankLoop | highland-games/includes/functions.php:817-833 | The counter loop gives index i rank `RankAt`: on a non-increasing list, rank = 1 + the number of strictly greater values. |
| Ranking.RankAt | highland-games/includes/functions.php:817-833 | Every rank the loop gives is at least 1. |
| Ranking.RankAtBound | highland-games/includes/functions.php:817-833 | A rank is at most the 1-based position, and the rank plus the length of the run of equal values before it fits within the position plus one. |
| Ranking.RankCountsHigher | highland-games/includes/functions.php:817-833 | On a non-increasing list, the loop's rank is one more than the number of greater values. |
| Ranking.TieGroupSize | highland-games/includes/functions.php:822-824 | Where the value drops, the rank advances by exactly the size of the preceding tie group. |
| Ranking.RanksFollowValues | highland-games/includes/functions.php:821-833 | Ties share a rank, and a strictly greater value has a strictly better rank. |
| Ranking.RankAtStartOfRun | highland-games/includes/functions.php:821-833 | On a non-increasing list, a rank is one more than the index where its run of equal values starts. |
| Ranking.CountAboveIsStartOfRun | highland-games/includes/functions.php:821-833 | The number of values greater than one value is the index where that value's run starts. |
| Standings.Seed | highland-games/includes/functions.php:784-797 | Seed rows have distinct ids. |
| Standings.SeedRow | highland-games/includes/functions.php:785-796 | Every seed row belongs to a listed id that resolves and is the row seeded from that participant: its name, team and categories, total 0, no event points. |
| Standings.SeedCovers | highland-games/includes/functions.php:785-796 | Every listed id that resolves has a seed row. |
| Standings.SeedInOrder | highland-games/includes/functions.php:784-797 | Without repeated ids, the seed is one row per resolvable id, in list order. |
| Standings.CreditAll | highland-games/includes/functions.php:804-807 | Crediting scores adds their points to the total; nothing but the total and the event points changes. |
| Standings.CreditAllAt | highland-games/includes/functions.php:804-807 | After crediting, an event has points exactly when it had some or a score is for it, and then those of its last score; events without scores keep theirs. |
| Standings.Accumulate | highland-games/includes/functions.php:799-808 | Accumulation keeps the rows and their order, changing only totals and event points. |
| Standings.AccumulateRow | highland-games/includes/functions.php:799-808 | With distinct ids, each row is credited with exactly its own participant's scores; other participants' scores are ignored. |
| Standings.AccumulatedRow | highland-games/includes/functions.php:799-808 | Each row's total is the sum of its participant's points, and `event_points[e]` holds its last score for e. |
| Standings.Rankings | highland-games/includes/functions.php:778-836 | An unknown competition gives no rankings, and the rows come out with totals non-increasing. |
| Standings.RankedSorted | highland-games/includes/functions.php:817-833 | The rank loop keeps a list that is sorted by total sorted. |
| Standings.RankingsTieOrder | highland-games/includes/functions.php:810-813 | Rows with equal totals stay in the order the seed step gave them, because PHP 8's `usort` is stable. |
| Standings.RankingsShape | highland-games/includes/functions.php:778-836 | An unknown competition gives no rankings. Otherwise the result is a permutation of the accumulated rows, sorted by total non-increasing, with rank = 1 + the number of greater totals. |
| Standings.RankingsRows | highland-games/includes/functions.php:778-836 | Every ranking row is the row of a resolvable listed participant, totalled over that participant's scores in the competition. |
| Standings.RankingsCoverIds | highland-games/includes/functions.php:784-797 | Every resolvable listed participant has exactly one ranking row. |
| Standings.SortedRanking | highland-games/includes/functions.php:811-833 | Sorting unranked rows and ranking them keeps the rows and gives rank = 1 + the number of greater totals. |
| Standings.UnrankedRanked | highland-games/includes/functions.php:817-833 | Ranking changes nothing but the rank. |
| ParticipantStats.MergeBests | highland-games/includes/functions.php:899-909 | Bests never decrease, and each ends at least as high as the points of every merged score for its event. |
| ParticipantStats.MergeBestsAt | highland-games/includes/functions.php:899-909 | Each event's best is max(old, new points), set when absent; events without new scores keep their bests; every best comes from the old map or a score. |
| ParticipantStats.MergeBestsIdempotent | highland-games/includes/functions.php:899-909 | Merging the same scores twice changes nothing more. |
| ParticipantStats.MergeBestsCovered | highland-games/includes/functions.php:906 | Scores no better than the bests change nothing. |
| ParticipantStats.EntryFor | highland-games/includes/functions.php:918-924 | The history entry carries the competition's id, name and date, the scores, and the sum of their points. |
| ParticipantStats.MergeHistory | highland-games/includes/functions.php:911-944 | The new history is the upserted one, reordered newest date first. |
| ParticipantStats.MergeHistoryUnique | highland-games/includes/functions.php:911-944 | At most one entry per competition before means the same after; the competition's entry is the new one; other competitions' entries keep their contents. |
| ParticipantStats.MergeHistoryIdempotent | highland-games/includes/functions.php:911-944 | Merging the same entry twice is merging it once. |
| ParticipantStats.Refreshed | highland-games/includes/functions.php:946-952 | Only `stats` changes: the merged bests and the merged history. |
| ParticipantStats.RefreshedIdempotent | highland-games/includes/functions.php:899-952 | Refreshing a participant twice for the same scores is refreshing once. |
| ParticipantStats.RefreshStats | highland-games/includes/functions.php:883-953 | False and no change when the participant or competition is missing; true and no change without scores. Otherwise only the first record with the id changes, and only its stats. |
| ParticipantStats.RefreshStatsHistory | highland-games/includes/functions.php:911-952 | Histories stay one entry per competition. The refreshed participant's entry for the competition is the one built from its scores. |
| ParticipantStats.RefreshStatsIdempotent | highland-games/includes/functions.php:883-953 | Refreshing twice leaves what one refresh leaves. |
| ParticipantStats.RefreshAll | highland-games/admin/update_competition_status.php:67-70 | The refresh loop changes only stats, and only of listed participants. |
| RankingsApi.RankingsResponse | highland-games/api/get_rankings.php:23-76 | A missing id gives "Competition ID is required." and an unknown one "Competition not found."; rows are returned exactly otherwise. |
| RankingsApi.GetRankings | highland-games/api/get_rankings.php:23-76 | The script's guards and loops compute `RankingsResponse`. |
| RankingsApi.FilterLoop | highland-games/api/get_rankings.php:40-46 | The filter loop keeps exactly the rows whose categories contain the category, in order. |
| RankingsApi.RankedRows | highland-games/api/get_rankings.php:35-66 | The rows are no more than `calculateRankings` gives, and totals are non-increasing. With a category, every row holds that category. |
| RankingsApi.RankAgain | highland-games/api/get_rankings.php:49-65 | The rank loop over the filtered rows computes `RankedInOrder`. |
| RankingsApi.TeamLoop | highland-games/api/get_rankings.php:69-76 | The team loop computes `WithTeamNames`. |
| RankingsApi.WithTeamName | highland-games/api/get_rankings.php:70-74 | Only `team_name` can change. It changes only when the team id is truthy and resolves, and then it is that team's name. |
| RankingsApi.WithTeamNames | highland-games/api/get_rankings.php:69-76 | Enrichment applies to each row in place, dropping and reordering none. |
| RankingsApi.UnfilteredRows | highland-games/api/get_rankings.php:36-39 | Without a category, the rows are those of `calculateRankings`, with the same totals and ranks; only team names are added. |
| RankingsApi.CategoryRows | highland-games/api/get_rankings.php:39-66 | With a category, the rows are exactly the rankings' rows in that category, in their order. Totals are non-increasing, and ranks are recomputed within the filtered list as 1 + the number of greater totals there. |
| RankingsApi.FilteredRows | highland-games/api/get_rankings.php:39-66 | The same for any list sorted by total. |
| RankingsApi.FilterSorted | highland-games/api/get_rankings.php:40-46 | Filtering rows sorted by total keeps them sorted. |
| RankingsApi.RankSorted | highland-games/api/get_rankings.php:49-65 | Ranking sorted rows gives rank = 1 + the number of greater totals. |
| RankingsApi.TeamNamesOnly | highland-games/api/get_rankings.php:69-76 | No row is dropped or reordered; a name is added only where the team resolves. |
| ScoresApi.ScoresResponse | highland-games/api/get_scores.php:23-57 | Error for a missing or unknown competition; a grouping exactly otherwise. |
| ScoresApi.GetScores | highland-games/api/get_scores.php:19-57 | The script's guards and loops compute `ScoresResponse`. |
| ScoresApi.KeyByLoop | highland-games/api/get_scores.php:43-45 | The one-event loop computes `KeyBy` by participant: the last score wins. |
| ScoresApi.GroupLoop | highland-games/api/get_scores.php:51-56 | The nested-assignment loop computes `GroupByEvent`. |
| ScoresApi.GroupByEvent | highland-games/api/get_scores.php:51-56 | An event key exists exactly when the event has a score. Under it lie that event's scores keyed by participant, the last one winning. |
| ScoresApi.FileScore | highland-games/api/get_scores.php:52-55 | The score sits under its event and participant. Other participants of that event keep their entries. A new event holds only this participant. Every other event is untouched. |
| ScoresApi.GroupStep | highland-games/api/get_scores.php:52-55 | Filing one more score keeps the grouping right for every event. |
| ScoresApi.EventGrouping | highland-games/api/get_scores.php:38-45 | The one-event response has exactly the one key, even without scores. It holds exactly the participants that have a score. |
| ScoresApi.GroupedScores | highland-games/api/get_scores.php:48-56 | A score is reachable under [event][participant] exactly when the competition has a score with those ids. Every grouped score belongs to its competition, event and participant. |
| ScoresApi.EventViewAgrees | highland-games/api/get_scores.php:36-57 | The one-event view equals the full view's entry for the event, or is empty when the full view has none. |
| ScoresApi.SelectCompetitionEvent | highland-games/includes/functions.php:460-471 | Selecting by competition and then by event is selecting by the pair. |
| EventPage.EventPageOf | highland-games/event.php:15-71 | Missing ids redirect to the list. An unknown competition, an unknown event, or an event not in the competition redirects with the script's message. The results page is shown exactly otherwise. |
| EventPage.RenderEvent | highland-games/event.php:15-71 | The script's guards, loops, sort and rank loop compute `EventPageOf`. |
| EventPage.RowLoop | highland-games/event.php:154-208 | The table loop computes `RowsOf`. |
| EventPage.RowsOf | highland-games/event.php:159-208 | One row per sorted participant, built pointwise. |
| EventPage.TeamNameOf | highland-games/event.php:183-188 | A team name exactly when the team id is truthy and resolves. |
| EventPage.Badge | highland-games/event.php:196-208 | A rank badge exactly for positive points, showing the rank. |
| EventPage.PointsOf | highland-games/event.php:67-70 | Each participant's points in the event, 0 when no score. |
| EventPage.RowsInOrder | highland-games/event.php:155-172 | On participants sorted by points, each row's rank is 1 + the number of rows with more points. |
| EventPage.EventRows | highland-games/event.php:43-208 | The rows are a permutation of the resolvable participants, with positions 1, 2, …. Points are each participant's last score in the event, or 0, and are non-increasing. Rank = 1 + the number of rows with more points. A badge appears exactly for positive points, and the rank column only for active or completed competitions. |
| EventPage.EventTies | highland-games/event.php:66-71 | Participants with equal points keep the order of the competition's participant list. |
| EventPage.PointsColumn | highland-games/event.php:192 | The points column of the rows. |
| EventPage.ParticipantColumn | highland-games/event.php:177-179 | The participant column of the rows. |
| AdminScores.FormPoints | highland-games/admin/scores.php:79 | Absent points count 0; points always lie in PHP's 64-bit integer range. |
| AdminScores.Complete | highland-games/admin/scores.php:83-84 | A form that passes has none of the three ids empty or "0". |
| AdminScores.SelectedCompetition | highland-games/admin/scores.php:28-33 | A requested id is kept. With none requested, the first active competition is used when there is one, and otherwise the empty request is kept. |
| AdminScores.DraftOf | highland-games/admin/scores.php:79-94 | The posted score has no id and is stamped now; points are the integer value of the posted string, 0 when absent. |
| AdminScores.ScoresViewOf | highland-games/admin/scores.php:24-58 | The competition selected defaults to the first active one. Its events and participants are listed only when it resolves, and no scores are listed without a competition. |
| AdminScores.LoadScoresView | highland-games/admin/scores.php:24-58 | The script's reads compute `ScoresViewOf`. |
| AdminScores.ViewContents | highland-games/admin/scores.php:31-57 | With no competition requested, the first active one is shown. Its events and participants are stored records named by its id lists, and every listed score belongs to it (and to the event when one is given). |
| AdminScores.HandleAddScore | highland-games/admin/scores.php:65-107 | A bad token or a missing id changes nothing. Otherwise the score is upserted and exactly that participant's stats are refreshed for exactly that competition, then the page redirects with "Score recorded successfully.". |
| AdminScores.HandleDeleteScore | highland-games/admin/scores.php:109-127 | A bad token or an empty id changes nothing. Otherwise the first score with the id is removed, or "Failed to delete score" comes back when none matches. Stats are never touched. |
| AdminScores.RecordedScore | highland-games/admin/scores.php:97-99 | After recording, the triple's only score is the new one and histories stay unique. The participant's entry for the competition is built from its scores there, the new one among them. |
| PhpInt.IntVal | highland-games/admin/scores.php:79 | `intval` of a string is within the 64-bit range. |
| PhpInt.IntValDecimal | highland-games/admin/scores.php:79 | Round trip: `intval` reads back any decimal numeral in range, unsigned or signed, followed by any non-digit text. |
| PhpInt.IntValUnsigned | highland-games/admin/scores.php:79 | A leading digit run is read as its value, saturated to the 64-bit range. |
| PhpInt.IntValSigned | highland-games/admin/scores.php:79 | A sign applies to the following digit run. |
| PhpInt.IntValNoDigits | highland-games/admin/scores.php:79 | Text with no leading digits (after space and sign) is 0. |
| PhpInt.IntValSkipsSpace | highland-games/admin/scores.php:79 | Leading whitespace is ignored. |
| PhpInt.Saturate | highland-games/admin/scores.php:79 | Saturation gives a value in range, and leaves values already in range unchanged. |
| PhpInt.DecimalValue | highland-games/admin/scores.php:79 | The decimal numeral of n has value n. |
| PhpInt.UnsignedDecimal | highland-games/admin/scores.php:79 | Reading a numeral followed by non-digits gives its value. |
| StatusApi.StatusResponse | highland-games/admin/update_competition_status.php:27-83 | Each guard gives its message: method, CSRF, missing id, invalid status, unknown competition. Success comes exactly when all pass, carrying the id, the competition's name and the new status. |
| StatusApi.UpdateCompetitionStatus | highland-games/admin/update_competition_status.php:27-83 | A failure changes nothing. On success only the competition's status changes. Stats are refreshed for every listed participant exactly when the new status is "completed"; otherwise participants are unchanged. |
| StatusApi.RefreshParticipants | highland-games/admin/update_competition_status.php:67-70 | The loop calling `updateParticipantStats` per listed id computes `RefreshAll`. |
| StatusApi.AnyTransition | highland-games/admin/update_competition_status.php:49-65 | Any valid status is accepted for an existing competition, whatever its current status. |
| StatusApi.RefreshAllUnique | highland-games/admin/update_competition_status.php:67-70 | The batch refresh keeps every history at one entry per competition. |
| StatusApi.RefreshAllEntry | highland-games/admin/update_competition_status.php:67-70 | After the batch refresh, every listed participant with scores in the competition has exactly the competition entry built from those scores. |

## Left out

- JSON file I/O and `flock` (`readJsonFile`, `writeJsonFile`) are left out. Collections live in memory, every write is taken to succeed, and so is every read (the `if (!$data) return false` branches are not modelled). So the "Failed to record score" branch of `admin/scores.php` and the "Failed to update competition status" branch of the status endpoint cannot arise in the model. The read-modify-write race between requests is a concurrency matter.
- `generateId` and `date('c')` become parameters: a fresh id and the current time, supplied by the caller. `strtotime` and `formatDate` are left out; dates are integers compared directly.
- `sanitizeInput`, a wrapper over PHP's `trim`, `stripslashes` and `htmlspecialchars`, is taken as the identity on posted strings.
- Sessions, login, CSRF tokens, flash messages and `redirect` are not modelled as such:
  - token validity and the request method are booleans;
  - the flash message and the redirect target are returned as values (`AdminScores.Outcome`, `EventPage.Page`).
- HTML templating, the other pages, and the JavaScript polling are left out; they only display data.
- Progress percentages and averages are left out, because they divide in floating point.
- `in_array` compares loosely in PHP; the model compares ids for equality. Ids carry letter prefixes, so numeric-string coercion does not arise. PHP's numeric-string array keys are likewise taken as ordinary keys.
- Integer overflow of sums to floating point is left out: totals are unbounded integers.
- PhpInt.IntVal: reads the leading decimal integer with PHP's whitespace, sign and 64-bit saturation rules. It does not model the exponent and fraction forms ("1e3", "1.5") that newer PHP versions read as numeric strings; it reads only their integer prefix.
- AdminScores.LoadScoresView: after a POST that does not redirect, the script lists scores for the ids of the POST rather than the query. The model computes the listing from the query parameters.
- The `update_status` action of `admin/competitions.php` is plain CRUD: it rewrites the status without refreshing statistics, and is covered by `Store.Database.UpdateCompetition`.
- Completion.CompleteMeansAllScored: holds only when score keys are unique and the competition lists no id twice. The count of `isCompetitionComplete` is not the number of scored pairs otherwise; for example, a repeated event id raises the required count.
