# Steam reviewer sampling and game-data collection, modelled in Dafny

This project models the decision core of the gaming-insights collection scripts. They do five things:

- walk the Steam store's review feed for a game, newest first, inside a date window;
- sample reviewers whose Steam profiles are public;
- build a table of the other games those reviewers own and how long they played them;
- crawl review text;
- keep caches of SteamSpy and store metadata complete.

Each network call is replaced by an input:

- **Review requests.** The `k`-th request of a walk receives `replies[k]`. A `PageReply` is either a connection failure or a status with a decoded page. Past the recorded replies the feed is exhausted.
- **Per-user endpoints.** Profile summaries and owned-games lists are total functions from a Steam id to a `Response`.
- **Retry loops.** The store-genre and SteamSpy-detail retry loops receive one reply per call index.
- **Clock.** The clock is an integer `now` in seconds. The collector's window is `[now - months_back * 30 * 86400, now]`.

Modules follow the scripts' structure:

| module | what it holds |
|---|---|
| `Common`, `Text`, `Json`, `SteamTypes` | Python dictionaries as association lists in insertion order; string helpers over ASCII; decoded JSON; the Steam record types. |
| `AppLookup` | the three app-id lookups |
| `ReviewWalk` | the windowed review walks: the collector's five-request walk, and the quota walks of the single-game sampler and the SteamSpy scripts |
| `ReviewText` | the review-text crawl |
| `Profiles` | the visibility test, the owned-games variants, batched player summaries, and the SteamSpy KPI projection |
| `Sampler` | the collector's window-widening, language-fallback sampler and the one-pass sampler |
| `Ownership` | the "other games" matrix |
| `Ranking` | the top-k selection |
| `PlaySimilars` | the play-based similar-games counter |
| `ExportName` | export file-name sanitising |
| `Merge` | the workbook merge |
| `MetadataCache` | the genre/tag cache |
| `SpyDatabase` | the full SteamSpy database builder |

Loops that update variables in the scripts are methods with loop invariants. Each method is proved equal to a recursive specification function. The properties the scripts promise are lemmas about those functions.

## Model

| member | source | states |
|---|---|---|
| AppLookup.NormalizeIdempotent | collect_game_data_and_reviews.py:39 | Lower-casing the letters and digits of a name and dropping everything else yields a name that the same normalisation leaves unchanged. |
| AppLookup.NormalizeAppend | collect_game_data_and_reviews.py:39 | Normalisation works character by character: normalising `s + t` gives normalised `s` followed by normalised `t`. |
| AppLookup.FirstMatchSpec | collect_game_data_and_reviews.py:40-45 | The scan over `apps_map.items()` returns the id of the first entry, in dictionary order, whose name passes the test; it returns `None` exactly when no entry passes. |
| AppLookup.FindAppIdByNameSpec | collect_game_data_and_reviews.py:34-45 | An all-digit title returns `int(title)`. Otherwise an exact key returns its own id. Otherwise the result is the first entry whose normalised name contains the normalised query, and `None` exactly when there is no such entry. |
| AppLookup.PunctuationOnlyQuery | collect_game_data_and_reviews.py:39-43 | A query with no letter or digit normalises to the empty string, so it matches the first entry of any non-empty dictionary. |
| AppLookup.FindAppIdExactOrLowerSpec | other_owned_games.py:27-34 | An exact key returns its id. Otherwise the result is the first name that contains the query case-insensitively, and `None` exactly when no name contains it. |
| AppLookup.FindAppIdBySearch | steamandsteamspy.py:31-38 | The result is the first search item's id and name exactly when the reply is ok and has items. An ok reply with no items raises `ValueError`. A non-ok status raises the HTTP error for that status. `steam_api_test.py:31-38` is the same function. |
| Profiles.ProfileNotPublic | collect_game_data_and_reviews.py:143-146 | A profile is public only if the reply is ok, `players` is non-empty and the first player's `communityvisibilitystate` is 3. A failed reply, an empty list or a non-public first player all mean private. |
| Profiles.ProfileFirstPlayerDecides | other_owned_games.py:81-84 | Only the status and the first player decide visibility; any players after the first are ignored. |
| Profiles.OwnedGamesOrEmpty | collect_game_data_and_reviews.py:159-162 | Status 401 or 403 gives `[]`, any other error status raises, and an ok reply gives its games. |
| Profiles.OwnedGamesIf200 | steamandsteamspy.py:117-120 | Any status other than 200 gives `[]`, and a non-empty result is the reply's games. |
| Profiles.OwnedGamesStrict | steam_api_test.py:104-109 | Every error status raises, and otherwise the reply's games are returned. |
| Profiles.OwnedGamesVariants | other_owned_games.py:99-102 | The three `get_owned_games` variants agree on a 200 reply. The collectors' variant differs from the strict one only on 401 and 403. A non-200 ok reply is dropped only by the SteamSpy variant. |
| Profiles.SlicesSpec | steam_api_test.py:95 | The slices `ids[i:i+size]` cover the ids exactly, in order, and each holds between 1 and `size` ids. |
| Profiles.SliceCount | steamandsteamspy.py:101-102 | There are `ceil(n / size)` slices, for batch sizes 100 and 50. |
| Profiles.ServedPlayersSpec | steamandsteamspy.py:105-107 | A player is returned exactly when some batch answered with 200 listed it. Failed batches are dropped silently. |
| Profiles.GetPlayerSummaries | steamandsteamspy.py:97-109 | The loop makes `ceil(n/100)` requests over consecutive slices of at most 100 ids, in order. It returns the players of the status-200 batches, concatenated in order. |
| Profiles.AllPlayersSpec | steam_api_test.py:99-100 | The strict version succeeds exactly when every batch is answered ok. When every batch is answered 200, both versions return the same players. |
| Profiles.GetPlayerSummariesStrict | steam_api_test.py:88-102 | The loop requests slices of 50 ids in order, and the first rejected reply raises. |
| Profiles.AllPlayersPrefixErr | steam_api_test.py:99 | Once a batch is rejected, later batches cannot change the error. |
| Profiles.Project | collect_game_data_and_reviews.py:174 | The projection lists exactly the given keys, in order; each holds the payload's value, or `None` when the key is missing. |
| Profiles.FetchKpisSpy | collect_game_data_and_reviews.py:164-174 | A failed reply gives `{}`. Otherwise the result has exactly the fourteen KPI keys, in order, each read with `get`. |
| PlaySimilars.ReviewerIdsSpec | steamandsteamspy.py:164-165 | The reviewer ids are the non-empty author ids of the reviews that have one, one per review, in order, with repeats kept. |
| PlaySimilars.AuthorIds | steam_api_test.py:153 | When every review has an author id, the result is one id per review, in order. |
| PlaySimilars.ReviewerIdsStrict | steam_api_test.py:153 | The extraction raises `KeyError` exactly when some review lacks an author or an id. Otherwise it returns one id per review, with no filtering. |
| PlaySimilars.StrictThenFiltered | steam_api_test.py:153 | Where the strict extraction succeeds, the lenient one at `steamandsteamspy.py:164-165` keeps exactly its non-empty ids. |
| PlaySimilars.CountPlays | steamandsteamspy.py:167-172 | After the nested loops, the counter has exactly the app ids counted at least once. Each holds the number of truthy occurrences over the sampled ids; an id sampled twice counts twice. |
| PlaySimilars.CountListing | steamandsteamspy.py:169-172 | One listing adds to each app id the number of its truthy occurrences in that listing. |
| PlaySimilars.BumpCounts | steamandsteamspy.py:172 | `play_counter[app] += 1` raises the count of `app` by one and leaves every other count unchanged. |
| PlaySimilars.BumpEntry | steamandsteamspy.py:172 | After the increment, the entry for `app` is one higher, and every other key reads what it read before. |
| PlaySimilars.PlayCounter | steamandsteamspy.py:164-177 | The sample is the first 1000 truthy reviewer ids. The result has `min(10, number of other counted apps)` entries, in non-increasing count order. It never includes the game itself and lists each app once with its count. No counted app left out has a higher count than a listed one. A ranking shorter than 10 holds every other app any sampled player played. |
| PlaySimilars.SimilarsSpec | steamandsteamspy.py:174-177 | After `del` and `most_common(10)`, the result has `min(10, len(counter))` entries, sorted by count. It excludes the game itself and holds distinct apps with their positive counts. No dropped app outranks a kept one. A result shorter than 10 holds every app with a positive count. |
| PlaySimilars.ShortRanking | steamandsteamspy.py:177 | When `most_common(10)` returns fewer than 10 entries, every other app with a positive count is among them. |
| PlaySimilars.SimilarsEntries | steamandsteamspy.py:174-177 | Each ranked entry is a counted app other than the game itself, listed once, with its own count. |
| PlaySimilars.DroppedGame | steamandsteamspy.py:177 | A counted app missing from the ranking has a count no larger than any ranked entry's. |
| PlaySimilars.EntryCount | steamandsteamspy.py:174-175 | After the deletion, each counter entry is a different app's positive count. |
| Ranking.Insert | merge_game_data.py:37 | Inserting into a list sorted largest first keeps it sorted and adds exactly that one element (multiset). |
| Ranking.SortDesc | merge_game_data.py:37 | `sort_values(ascending=False)` returns a permutation (multiset) of its input, sorted largest first. |
| Ranking.TopKSize | merge_game_data.py:37 | `head(k)` keeps `min(k, n)` elements, drawn from the input (sub-multiset) and sorted largest first. |
| Ranking.TopKAll | merge_game_data.py:37 | A top-k selection shorter than `k` keeps every element of the input. |
| Ranking.TopKBound | collect_game_data_and_reviews.py:271-272 | No element left out of the top k (wholly, or partly for a repeated element) scores more than any kept element. |
| Ranking.TopKDistinct | collect_game_data_and_reviews.py:272 | Without repeats in the input there are none in the selection, and everything selected comes from the input. |
| ExportName.Substitute | collect_game_data_and_reviews.py:279 | After `re.sub(r'[^A-Za-z0-9_]+', '_', s)` only letters, digits and `_` remain. |
| ExportName.StripLeft | collect_game_data_and_reviews.py:279 | Stripping `_` from the left leaves a suffix of the input that does not start with `_`. |
| ExportName.StripRight | collect_game_data_and_reviews.py:279 | Stripping `_` from the right leaves a prefix of the input that does not end with `_`. |
| ExportName.StripEnds | collect_game_data_and_reviews.py:279 | `strip('_')` leaves no `_` at either end. |
| ExportName.SafeNameShape | collect_game_data_and_reviews.py:279 | `safe_name` holds only `[A-Za-z0-9_]` and neither starts nor ends with `_`. |
| ExportName.SubstituteKeeps | collect_game_data_and_reviews.py:279 | A name made only of `[A-Za-z0-9_]` is left unchanged by the substitution. |
| ExportName.SafeNameIdempotent | collect_game_data_and_reviews.py:279 | Sanitising an already sanitised name changes nothing. |
| ExportName.SafeNameAlnums | collect_game_data_and_reviews.py:279 | Sanitising keeps exactly the ASCII letters and digits of the display name, in order. |
| ExportName.SkippedIff | collect_game_data_and_reviews.py:279-282 | The export is skipped (empty `safe_name`) exactly when the display name has no ASCII letter or digit. |
| ExportName.MergedBaseGame | collect_game_data_and_reviews.py:283 | The merge's `base_game` for the exported `<safe_name>_analysis.xlsx` is `safe_name` with `_` turned into spaces. The suffix cannot occur earlier in the name. |
| Merge.DiscoverFiles | merge_game_data.py:11-12 | A file is kept exactly when it is in the listing and ends with the suffix. |
| Merge.DiscoverFilesAppend | merge_game_data.py:12 | The selection follows the listing: selecting from two consecutive parts gives their selections one after the other. |
| Merge.BaseGame | merge_game_data.py:21 | `base_game` holds no `_` and is no longer than the file name. |
| Merge.BaseGameOfStem | merge_game_data.py:21 | For a stem followed by the suffix, where the suffix does not occur earlier, `base_game` is the stem with `_` turned into spaces. |
| Merge.FrameColumns | merge_game_data.py:24-25 | The reordered columns are distinct, and `base_game` comes first. |
| Merge.FrameColumnsSpec | merge_game_data.py:24-25 | A column is either `base_game` or a key of some row, and every key of every row is a column. |
| Merge.FilledCells | merge_game_data.py:41 | After `fillna`, each cell holds its row's value under its column, or the fill value when the row lacks that key. |
| Merge.KpiRow | merge_game_data.py:20-22 | The merged KPI row is the first KPI row with `base_game` set, every other field unchanged. |
| Merge.MergeKpis | merge_game_data.py:15-26 | A sheet without rows raises, and so does an empty file list. Otherwise there is one row per file, in file order, with `base_game` first. Every field of any first row becomes a column, and each cell is that file's field or missing. |
| Merge.KpiKeyed | merge_game_data.py:24 | A key of some merged KPI row is `base_game` or a field of some file's first row, and conversely. |
| Merge.AveragesEntries | merge_game_data.py:37 | Each averaged entry names a column with cells and holds that column's mean. |
| Merge.AveragesComplete | merge_game_data.py:37 | Every column with cells is averaged. |
| Merge.AveragesSize | merge_game_data.py:37 | Every column is either averaged or blank (its `NaN` mean). |
| Merge.TopShort | merge_game_data.py:37 | When at least `top_n` columns have cells, the selection is the top `top_n` of their means. |
| Merge.TopLong | merge_game_data.py:37 | Otherwise every column with cells is selected. |
| Merge.TopEntries | merge_game_data.py:35-37 | Each selected entry is a game column, never `steamid`, holding its mean, or 0 for a column without cells. |
| Merge.TopDistinct | merge_game_data.py:37 | The selected names are distinct. |
| Merge.FilledKept | merge_game_data.py:37 | Once `top_n` reaches the number of columns with cells, every such column is selected. |
| Merge.TopBound | merge_game_data.py:37 | A column with cells that is not selected has a mean no larger than any selected one's. |
| Merge.BlanksDropped | merge_game_data.py:37 | While at least `top_n` columns have cells, no blank column is selected. |
| Merge.TopAveragesSpec | merge_game_data.py:35-37 | After dropping `steamid`, a file keeps `min(top_n, #game columns)` distinct game columns, each with its mean. None left out has a larger mean than one kept, and blank columns come in only once every column with cells is in. |
| Merge.OtherCellSpec | merge_game_data.py:38-41 | A merged cell holds the file's mean when the game was selected, the game's name under `base_game`, and 0 otherwise. |
| Merge.MergeOtherGames | merge_game_data.py:29-43 | There is one row per file, in file order, with `base_game` first. The columns are exactly `base_game` and the games some file selected. A game another file kept reads 0. An empty file list raises. |
| Merge.OtherRows | merge_game_data.py:30-40 | The loop builds one row per file, in order, from the file's game and its selected means. |
| Merge.OtherCells | merge_game_data.py:41 | Each filled cell is that file's mean for the column, the game's name, or 0. |
| Merge.OtherKeyed | merge_game_data.py:41-42 | A column of the merged table is `base_game` or a game some file selected, and conversely. |
| Merge.RowKeys | merge_game_data.py:38-39 | A file's row has `base_game` and its selected games, and nothing else. |
| MetadataCache.Backoffs | metadata_cache_builder.py:29 | The waits before the retries are `backoff ** 0`, `backoff ** 1`, and so on, one per retry. |
| MetadataCache.SettledSpec | metadata_cache_builder.py:26-33 | The retry loop settles on the first call that is not a 429, unless `max_retries` retries run out first. Every call before the settled one was a 429. |
| MetadataCache.Get | metadata_cache_builder.py:35 | `.get` succeeds exactly on an object and returns the value under the key, or the default. |
| MetadataCache.Descriptions | metadata_cache_builder.py:36 | The comprehension succeeds exactly when every genre is an object. It then gives one description per genre, in order, `None` where one is missing. |
| MetadataCache.NoEntryNoGenres | metadata_cache_builder.py:35-36 | A reply without the game's entry gives no genres. |
| MetadataCache.NoDataNoGenres | metadata_cache_builder.py:35-36 | An entry without `data` gives no genres. |
| MetadataCache.NoListNoGenres | metadata_cache_builder.py:35-36 | Data without `genres` gives no genres. |
| MetadataCache.ListedGenres | metadata_cache_builder.py:35-36 | A list of genre objects gives their descriptions in order, and a list holding anything else raises. |
| MetadataCache.FetchStoreGenres | metadata_cache_builder.py:24-36 | The loop retries after each 429 until the retries are used up, waiting `backoff ** retries` before each retry. The settled call decides the result. |
| MetadataCache.DefaultRetries | metadata_cache_builder.py:24-34 | With the defaults there are at most 3 retries, after waits of 1, 2 and 4 seconds. A fourth 429 in a row raises. |
| MetadataCache.FetchSpyTags | metadata_cache_builder.py:39-44 | An error status raises. An ok reply whose payload has a `tags` object gives exactly that object's keys, in order. Any other payload gives `[]`. |
| MetadataCache.FreshId | metadata_cache_builder.py:71 | Distinct app ids give distinct `str(appid)` keys. |
| MetadataCache.StoreStep | metadata_cache_builder.py:64-71 | Storing the next id's entry extends the cache by exactly that id. |
| MetadataCache.FetchMeta | metadata_cache_builder.py:65-71 | The entry holds the genres and tags, or `{genres: [], tags: []}` when either fetch raises. |
| MetadataCache.BuildMetadataCache | metadata_cache_builder.py:61-75 | There is exactly one entry per input id, keyed `str(appid)`, holding its genres and tags or the empty entry. With distinct ids, the keys come in input order. |
| MetadataCache.ToFetch | metadata_cache_builder.py:87 | An id is fetched exactly when it is needed and its `str` is not a cache key. |
| MetadataCache.RefreshCache | metadata_cache_builder.py:78-97 | A missing needed-ids file changes nothing. Otherwise every needed id ends up cached, existing entries are unchanged, and only fetched ids are added. |
| MetadataCache.RefreshKeeps | metadata_cache_builder.py:93 | `cache.update(new_data)` keeps every cached entry, adds each fetched entry, and adds nothing else. |
| SpyDatabase.ParseInt | fetch_steamspy_full_db.py:28 | `int(s)` succeeds only on a non-empty string, and a negative value needs a leading `-`. |
| SpyDatabase.ParseShowInt | fetch_steamspy_full_db.py:28 | `int(str(n)) == n`. |
| SpyDatabase.SummaryRowSpec | fetch_steamspy_full_db.py:27-28 | A row is built exactly from an object stored under an integer key. It is that object with `appid` set to the key's value and every other column unchanged. |
| SpyDatabase.SummaryRows | fetch_steamspy_full_db.py:25-29 | The rows are built exactly when every entry gives one: one row per entry, in order. |
| SpyDatabase.SummaryRowsError | fetch_steamspy_full_db.py:26-29 | The error is that of the first entry that fails. |
| SpyDatabase.BuildRows | fetch_steamspy_full_db.py:19-29 | The download and the row loop together compute the summary table. |
| SpyDatabase.RowsOf | fetch_steamspy_full_db.py:25-29 | The row loop computes the rows of every entry, stopping at the first failure. |
| SpyDatabase.AppidsOf | fetch_steamspy_full_db.py:40 | `df['appid']` lists the ids in row order. A frame built from no rows has no such column. |
| SpyDatabase.DetailsNeeded | fetch_steamspy_full_db.py:40 | A key is listed exactly when it is `str(appid)` of a table id and not cached. |
| SpyDatabase.DetailsNeededAppend | fetch_steamspy_full_db.py:40 | The list follows table order. |
| SpyDatabase.FirstStoredSpec | fetch_steamspy_full_db.py:44-49 | The loop stops at the first attempt answered 200 with a JSON body, or after 3 attempts. Every earlier attempt failed. |
| SpyDatabase.DetailSpec | fetch_steamspy_full_db.py:43-54 | Three failed attempts store `{}` (the `else` branch). Otherwise the body of the first successful attempt is stored. |
| SpyDatabase.DetailFirstThree | fetch_steamspy_full_db.py:44 | Only the first three replies matter. |
| SpyDatabase.FetchDetail | fetch_steamspy_full_db.py:44-54 | The loop stores the detail and makes between 1 and 3 requests: one more than the index of the first success, or 3. |
| SpyDatabase.StoreAllLookup | fetch_steamspy_full_db.py:48-54 | Each needed key reads what its fetch stored, and every other key reads what it did before. |
| SpyDatabase.StoreAllDistinct | fetch_steamspy_full_db.py:48 | Storing keeps the cache keys distinct. |
| SpyDatabase.StoreAllKeys | fetch_steamspy_full_db.py:43-54 | New keys are added after the cached ones, in list order. |
| SpyDatabase.FetchDetails | fetch_steamspy_full_db.py:43-54 | The loop over `details_needed` stores each fetched detail under its key. |
| SpyDatabase.CompleteDetails | fetch_steamspy_full_db.py:40-54 | After the loop, every table id is a cache key. Cached entries are untouched, and only table ids are added. |
| SpyDatabase.GetDetail | fetch_steamspy_full_db.py:68-74 | An uncached id reads `[]` for `tags` and `languages` and `None` for any other key. A value of the wrong JSON type raises. |
| SpyDatabase.TagsDetail | fetch_steamspy_full_db.py:70-71 | `tags` reads the names of the stored tags, in order. |
| SpyDatabase.LanguagesDetail | fetch_steamspy_full_db.py:72-73 | `languages` reads pieces of strings that, joined with `', '`, give back the stored string. |
| SpyDatabase.OtherDetail | fetch_steamspy_full_db.py:74 | Any other key reads the stored value, or `None`. |
| SpyDatabase.PutDetailsSpec | fetch_steamspy_full_db.py:84-93 | A row is enriched exactly when every field can be read. Each assigned column then holds `get_detail`, and every other column is kept. |
| SpyDatabase.GetDetailOk | fetch_steamspy_full_db.py:68-74 | `get_detail` raises exactly when the entry is not an object, or when a non-empty `tags` is not an object, or when a non-empty `languages` is not a string. |
| SpyDatabase.EnrichedRowOk | fetch_steamspy_full_db.py:84-93 | A row can be enriched exactly when its `tags` and `languages` can be read. |
| SpyDatabase.EnrichTable | fetch_steamspy_full_db.py:84-93 | The column assignments succeed exactly when every row can be enriched. The result then has one enriched row per table row, in order. |
| SpyDatabase.UpdateDatabase | fetch_steamspy_full_db.py:17-93 | An unreadable summary leaves the cache as it was. Otherwise every table id is cached before the details are read, and cached entries are untouched. Each newly cached id is a table id whose entry is the details its own request returned. The table is enriched row by row. |
| SpyDatabase.TableDetails | fetch_steamspy_full_db.py:40-54 | Each table row whose id was not cached now reads the details fetched for it. Every key added to the cache is the id of a table row. |
| Ownership.HoursOfSpec | collect_game_data_and_reviews.py:255-259 | The row has one column per game name in the listing. A repeated name holds the hours of its last occurrence. |
| Ownership.FetchOwned | collect_game_data_and_reviews.py:244-250 | The loop succeeds exactly when no listing raises, and otherwise fails with the first error. `user_games` has exactly the sampled ids, each with its own listing, in sample order. `needed` holds exactly the names listed by some user. |
| Ownership.AddNames | collect_game_data_and_reviews.py:249-250 | `needed` gains exactly the listing's names. |
| Ownership.Remember | collect_game_data_and_reviews.py:248 | `user_games[sid] = glist` keeps the dictionary holding exactly the ids so far, each with its listing. |
| Ownership.NeededStep | collect_game_data_and_reviews.py:249-250 | One more listing extends `needed` to the names of one more user. |
| Ownership.RowDict | collect_game_data_and_reviews.py:255-259 | The loop builds the user's row: the `steamid` cell and the game hours. |
| Ownership.CollectRows | collect_game_data_and_reviews.py:252-260 | There is one row per sampled id, in sample order, built from that id's listing with the collector's hours. |
| Ownership.OtherRows | other_owned_games.py:168-175 | There is one row per entry of `user_games`, in its order, with hours equal to `playtime_forever / 60`. |
| Ownership.AllColumnsSpec | collect_game_data_and_reviews.py:264 | The frame's game columns are exactly the keys some row holds, each listed once. |
| Ownership.FrameOf | collect_game_data_and_reviews.py:264-269 | There is one row per user, the given columns in order, and each cell holds the user's hours or 0. |
| Ownership.KeptColumnsSpec | collect_game_data_and_reviews.py:265-274 | The kept columns are distinct and have positive sums. With at most 1000 played columns, all are kept in frame order; with more, exactly 1000 are kept and none dropped has a larger sum. |
| Ownership.TopColumns | collect_game_data_and_reviews.py:270-274 | Ranking distinct played columns by sum and keeping 1000 gives 1000 distinct played columns, none outranked by a dropped one. |
| Ownership.DroppedColumn | collect_game_data_and_reviews.py:271-272 | A played column left out has a sum no larger than any kept one's. |
| Ownership.SumsEntries | collect_game_data_and_reviews.py:271 | The ranked series pairs each column, once, with its own sum. |
| Ownership.MatrixCollectSpec | collect_game_data_and_reviews.py:261-274 | No export happens exactly when there are no rows or no game. Otherwise there is one row per user, at most 1001 columns, every game column is played, and each cell is the user's hours or 0. |
| Ownership.UserRows | collect_game_data_and_reviews.py:253-260 | There is one row per id, in order, built from that id's own listing. |
| Ownership.CellSpec | collect_game_data_and_reviews.py:258-259 | A cell holds the hours of the user's last listed game of that name, or 0 when the user lists none. |
| Ownership.CollectTable | collect_game_data_and_reviews.py:244-275 | The collector's table raises exactly when some listing raises. It exports nothing exactly when there is no id or nobody lists a game. Otherwise it exports the pruned table over one row per id, with `sample_size` = number of ids. |
| Ownership.NoGamesNoNeed | collect_game_data_and_reviews.py:261 | `needed` is empty exactly when no listing names a game. |
| Ownership.OtherTable | other_owned_games.py:158-179 | The single-game sampler's table raises exactly when some listing raises. Otherwise it has one row per distinct id, in sample order when the ids are distinct, with every game column kept and `sample_size` = number of ids. |
| Ownership.OtherRowsIds | other_owned_games.py:169 | The table's ids are the keys of `user_games`, in order. |
| Ownership.EntriesListed | other_owned_games.py:162 | Each entry of `user_games` holds what its own id's listing returned. |
| Ownership.OtherRowsInOrder | other_owned_games.py:169-175 | With distinct ids, the rows follow the sample, each built from the id's own listing. |
| ReviewWalk.ScanBatch | collect_game_data_and_reviews.py:72-79 | The page scan extends the records kept so far. Every new record lies in the window and carries the tag. Reaching the quota leaves the page after at most one record more, and an older record is reported only if the page has one. |
| ReviewWalk.ScanUncapped | collect_game_data_and_reviews.py:72-79 | Below the quota, the scan keeps exactly the in-window records before the first older one, and reports an older record exactly when the page has one. |
| ReviewWalk.ScanPage | collect_game_data_and_reviews.py:72-79 | The loop over one page computes the page scan. |
| ReviewWalk.CollectFrom | collect_game_data_and_reviews.py:53-85 | The walk makes at most 5 requests and at least one more while any remain. It only adds records, all in the window, and passes the quota by at most one record per request. |
| ReviewWalk.CollectWalkBounds | collect_game_data_and_reviews.py:47-86 | `get_reviews` makes 1 to 5 requests, every record returned has `start_ts <= ts <= end_ts`, and at most `max_reviews` plus the number of requests records are returned. |
| ReviewWalk.CollectQuotaOvershoot | collect_game_data_and_reviews.py:78-79 | With a quota of 1, two pages each holding one in-window record return both records: reaching the quota only leaves the current page. |
| ReviewWalk.CollectFromCursors | collect_game_data_and_reviews.py:80-85 | Each request sends the cursor left by the previous reply. |
| ReviewWalk.CollectWalkCursors | collect_game_data_and_reviews.py:50-85 | The first request sends `"*"`. A failed request is repeated with the same cursor, and after a page the next request sends the page's cursor, or the old one when the page has none. |
| ReviewWalk.CollectFromUncapped | collect_game_data_and_reviews.py:53-85 | Below the quota, the records are exactly each page's kept records, page after page, and every page before the last failed or was non-empty with no older record. |
| ReviewWalk.CollectFromEnd | collect_game_data_and_reviews.py:70-75 | A walk that stops before 5 requests stopped on a served page that was empty or held an older record. |
| ReviewWalk.CollectWalkStops | collect_game_data_and_reviews.py:70-79 | An empty page or an older record ends the walk for good. Below the quota, the result is exactly the in-window records of each page up to its first older record, in arrival order. |
| ReviewWalk.GetReviews | collect_game_data_and_reviews.py:47-86 | The loop of `get_reviews` computes the collector's walk: the same records and the same cursors sent. |
| ReviewWalk.UntilQuotaFrom | other_owned_games.py:43-72 | The walk never exceeds the quota, keeps only in-window tagged records, made only requests that did not raise, and raises exactly the error of a failed request. |
| ReviewWalk.UntilQuotaFromEnds | other_owned_games.py:60-65 | Below the quota, the walk went on only past non-empty pages without an older record, and returned after an empty page or an older record. |
| ReviewWalk.UntilQuotaFromKept | other_owned_games.py:62-69 | Below the quota, the walk keeps exactly each page's kept records, in arrival order. |
| ReviewWalk.UntilQuotaSpec | other_owned_games.py:37-72 | The result never exceeds `max_reviews`, and every record is in `[start_ts, end_ts]` and tagged. A failed request raises. Below the quota, the result is exactly each page's kept records and the walk ended on an empty page or an older record. |
| ReviewWalk.GetReviewsUntilQuota | other_owned_games.py:43-71 | The `while len(reviews) < max_reviews` loop computes the quota walk. |
| ReviewWalk.GetReviewsInRange | other_owned_games.py:37-72 | The single-game sampler's `get_reviews` returns at most `max_reviews` records, all created in `[start_ts, end_ts]`, and raises exactly when the quota walk raises. |
| ReviewWalk.FetchReviews | steamandsteamspy.py:41-77 | `fetch_reviews` returns at most `max_reviews` records, each with `country` set. A bound applies only when it is given and non-zero. The same method models `steam_api_test.py:41-68`. |
| ReviewText.RowsOfSpec | fetch_reviews_text.py:38-48 | Each record of a page becomes the row at its own position, with the same 8 fields. |
| ReviewText.CrawlFromRows | fetch_reviews_text.py:38-49 | The rows are those of the pages served, in order, and `total_fetched` equals the number of rows. |
| ReviewText.CrawlFromPrefix | fetch_reviews_text.py:22-30 | One more request is made exactly when `total_fetched < REVIEWS_PER_GAME`. It sends the current cursor and asks for `min(100, remaining)`. |
| ReviewText.CrawlFromSize | fetch_reviews_text.py:28 | Every request asks for 1 to 100 records. |
| ReviewText.CrawlFromCursor | fetch_reviews_text.py:50 | A later request follows a served, non-empty page and sends that page's cursor, or the old one. |
| ReviewText.CrawlFromEnd | fetch_reviews_text.py:22-56 | The loop ends at the target, or after a request that raised or returned an empty page. |
| ReviewText.CrawlGameSpec | fetch_reviews_text.py:19-57 | The crawl starts from cursor `"*"`. Every request asks for 1 to 100 records, and the cursor advances only after a served, non-empty page. The rows are every page's records, in order, and their count is `total_fetched`. The crawl ends at the target, or on an exception or an empty page. |
| ReviewText.FetchReviewsText | fetch_reviews_text.py:19-57 | The crawl loop computes the crawl: the same rows and the same requests. `collect_game_data_and_reviews.py:88-129` runs the same loop. |
| ReviewText.CrawlFromStep | fetch_reviews_text.py:31-56 | One iteration stops after an exception or an empty page. Otherwise it continues from the page's cursor with the page's rows added. |
| ReviewText.AppendRows | fetch_reviews_text.py:38-48 | The inner loop appends the page's rows, in order. |
| ReviewText.RowsOfAppend | fetch_reviews_text.py:38-48 | Flattening works record by record. |
| ReviewText.CsvHeader | fetch_reviews_text.py:61 | The header is the 8 names `appid, steamid, review, timestamp, voted_up, playtime_forever, language, review_id`. With rows, it equals the keys of the first row's dict, and every row's keys equal it. |
| ReviewText.Cells | fetch_reviews_text.py:39-48 | Each review's dict has the 8 keys of the header, in the same order. |
| Sampler.Candidates | collect_game_data_and_reviews.py:217-223 | Every candidate is non-empty and not yet sampled. |
| Sampler.CandidatesMembers | collect_game_data_and_reviews.py:219-223 | The candidates are distinct, and they are exactly the non-empty reviewer ids not yet sampled. |
| Sampler.CandidatesOrder | collect_game_data_and_reviews.py:219-223 | Candidates come in the order of each reviewer's first review. |
| Sampler.CollectCandidates | collect_game_data_and_reviews.py:217-223 | The loop with its `seen` set computes the candidates. |
| Sampler.PublicAmongMembers | collect_game_data_and_reviews.py:224-226 | An id is admitted exactly when it is a candidate and its profile is public. |
| Sampler.Admit | collect_game_data_and_reviews.py:224-228 | The loop adds the public profiles among the candidates checked. It leaves early only once the sample holds `SAMPLE_SIZE` ids, it was below that before the last check, and the sample never passes `SAMPLE_SIZE`. |
| Sampler.AdmitOne | collect_game_data_and_reviews.py:225-226 | A public profile joins the sample, and the sample grows by at most one. |
| Sampler.AdmitStep | collect_game_data_and_reviews.py:224-226 | Admitting the next candidate keeps the sample equal to the public profiles checked so far. |
| Sampler.ListOf | collect_game_data_and_reviews.py:240 | `list(s)` holds each element of the set exactly once. |
| Sampler.SamplePass | collect_game_data_and_reviews.py:211-228 | One pass walks the window with quota `min(2 * SAMPLE_SIZE, 2000)`, lists the candidates and admits the public ones until full. The sample only grows, never past `SAMPLE_SIZE`, and each newcomer is non-empty, public and wrote a fetched review. |
| Sampler.TraceShapeSnoc | collect_game_data_and_reviews.py:230-239 | A pass that follows the previous one by the loop's rules keeps the pass log well formed. |
| Sampler.ControlStep | collect_game_data_and_reviews.py:230-239 | Below the early floor `min(500, SAMPLE_SIZE)`, the loop moves to the next attempt, or to the first attempt of the next language once the attempts are used up. `months_back` grows by `initial_months` per attempt and restarts at `initial_months`. |
| Sampler.ControlExit | collect_game_data_and_reviews.py:210 | When the loop condition fails, no pass was made exactly when there were no attempts or no room in the sample. Otherwise the last pass was the last attempt in the last language. |
| Sampler.AdmissibleSnoc | collect_game_data_and_reviews.py:221-226 | Every sampled id stays non-empty, public and the author of a fetched review. |
| Sampler.FetchedBySnoc | collect_game_data_and_reviews.py:211-215 | Each pass fetched the reviews of its own window. |
| Sampler.AdmissionsSnoc | collect_game_data_and_reviews.py:217-228 | A pass that starts from the current sample and follows the admission rule extends the admission log, which then ends with that pass's result. |
| Sampler.AdmissionsUnion | collect_game_data_and_reviews.py:206-226 | The sample an admission log ends with is the union of what its passes admitted. |
| Sampler.PassComplete | collect_game_data_and_reviews.py:224-228 | A pass that left the sample below `SAMPLE_SIZE` admitted every public reviewer of its window who was not yet sampled. |
| Sampler.FetchedInWindow | collect_game_data_and_reviews.py:211-215 | Every fetched review lies in its pass's window `[now - months_back * 30 days, now]`. |
| Sampler.TraceIndex | collect_game_data_and_reviews.py:232-239 | Pass `k` is the `k`-th (language, attempt) pair, in order. |
| Sampler.TraceCount | collect_game_data_and_reviews.py:210-239 | There are at most `max_attempts × len(language_priority)` passes. |
| Sampler.RecordPass | collect_game_data_and_reviews.py:211-229 | One pass with its bookkeeping: the pass log, the fetched reviews and the admission log each grow by one. The sample only grows, never past `SAMPLE_SIZE`, stays admissible, and stays the sample the admission log ends with. |
| Sampler.NextPass | collect_game_data_and_reviews.py:232-239 | It computes the next (language, attempt) pair and the `months_back` that goes with it. |
| Sampler.SampleProfiles | collect_game_data_and_reviews.py:205-240 | The sampler makes at most 5 × 2 passes and stops early once the floor is reached. Each pass's reviews lie in its window. The final list is distinct and at most `SAMPLE_SIZE` long, and each id is non-empty, public and the author of a fetched review. Every pass followed the admission rule: it checked its candidates in order and stopped only once the sample was full. The list is `min(SAMPLE_SIZE, |union|)` ids of the union of what the passes admitted. |
| Sampler.RunPasses | collect_game_data_and_reviews.py:205-239 | The `while` loop leaves a well-formed log. The last pass reached the early floor or was the last attempt in the last language. The final set is the size the log records, at most `SAMPLE_SIZE`. It is the set the admission log ends with, and every pass followed the admission rule from the set the passes before it left. |
| Sampler.LoopStep | collect_game_data_and_reviews.py:211-239 | One iteration records a pass and breaks exactly when the sample reached the early floor `min(500, SAMPLE_SIZE)`. Otherwise it moves to the next (language, attempt) pair and keeps the loop invariant. |
| Sampler.SampleList | collect_game_data_and_reviews.py:240 | `list(steamids_set)[:SAMPLE_SIZE]` holds distinct sampled ids, `min(SAMPLE_SIZE, |set|)` of them. |
| Sampler.VisitKeepsAdmitted | other_owned_games.py:149-152 | After one more review, `steamids` is still the public profiles among the candidates, in first-seen order. |
| Sampler.VisitKeepsLog | other_owned_games.py:151 | No admitted id is checked again. |
| Sampler.VisitKeepsRequested | other_owned_games.py:150-151 | The ids checked are exactly the non-empty reviewer ids seen so far. |
| Sampler.VisitKeeps | other_owned_games.py:149-154 | One iteration keeps the loop state. |
| Sampler.VisitKeepsAfter | other_owned_games.py:149-154 | One iteration on one more review keeps the loop state. |
| Sampler.SampleOnePass | other_owned_games.py:148-154 | The sampled ids are the public profiles among the distinct non-empty reviewer ids, in review order, and no admitted id is re-checked. The loop leaves only once `SAMPLE_SIZE` ids are admitted, and never holds more. |
| Common.TakePrefix | collect_game_data_and_reviews.py:240 | `xs[:n]` is a prefix of `xs` with `min(n, len)` elements, or `len + n` for negative `n`. |
| Common.PutLookup | collect_game_data_and_reviews.py:248 | After `d[k] = v`, `k` reads `v`, every other key is unchanged, and `d` grows exactly when `k` is new. |
| Common.Remove | steamandsteamspy.py:174-175 | `del d[k]` removes `k`, keeps every other entry, and keeps keys distinct. |
| Common.Dedup | metadata_cache_builder.py:50 | `set(...)` holds each element once and exactly the input's elements. |
| Common.UpdateLookup | merge_game_data.py:39 | After `row.update(es)`, a key reads its value in `es`, or its old value if `es` lacks it. |
| Common.Filter | steamandsteamspy.py:165 | A filtering comprehension keeps exactly the elements that pass, and only those. |
| Text.LowerString | other_owned_games.py:32 | `s.lower()` lower-cases each character in place. |
| Text.ParseShowNat | fetch_steamspy_full_db.py:28 | Reading back the decimal form of a number gives the number. |
| Text.ShowIntInjective | metadata_cache_builder.py:71 | Distinct ids have distinct `str` keys. |
| Text.ContainsIff | collect_game_data_and_reviews.py:42 | `needle in hay` holds exactly when `needle` occurs at some position of `hay`. |
| Text.RemoveAllTrailing | merge_game_data.py:21 | `replace(suffix, '')` on a stem followed by the suffix, where the suffix does not occur earlier, gives back the stem. |
| Text.ReplaceChar | merge_game_data.py:21 | `replace('_', ' ')` replaces each `_` with a space and leaves every other character unchanged. |
| Text.JoinSplit | fetch_steamspy_full_db.py:73 | Joining the pieces of `split(', ')` with `', '` gives back the string. |
| Text.IdKeys | fetch_steamspy_full_db.py:40 | `str(appid)` of each id, in order. |

## Left out

- **Network and clock.** HTTP, `time.sleep`, dotenv loading, logging, and file and workbook reads and writes are not modelled:
  - parquet, xlsx, csv and json files, including the checkpoint writes at `fetch_steamspy_full_db.py:55-58` and `61-63`;
  - the exports at `collect_game_data_and_reviews.py:284-291` and `merge_game_data.py:46-68`.

  Replies are parameters. `datetime` is an integer `now`, and the collector's window start is `now - months_back * 30 * 86400`.
- **`load_app_list`, `get_store_details`, `get_steamspy_appdetails` and the KPI record** at `steamandsteamspy.py:141-161` are plain fetches with no decision logic. The app dictionary is an input.
- **Display-name choice.** The collector's choice of display name (`collect_game_data_and_reviews.py:187-197`) and its per-game loop over `GAME_NAMES` are not modelled. The model starts from one appid and one display name. The other per-item outer loops are not modelled either; the model starts from one item (game, appid or review list):
  - `other_owned_games.py:134-187`;
  - `fetch_reviews_text.py:17`;
  - the `COUNTRY_CODES` loop.
- **Floating point.** Hours (`/ 60`), column sums and means are exact reals. pandas rounding and `NaN` propagation are not modelled, except that a column without cells averages to `NaN` and is filled with 0.
- **Column order and duplicates.** DataFrame column order is modelled only where the source fixes it: `steamid` and `base_game` first, the others where they first appear. Duplicate column labels are not modelled: a game named `steamid` or `base_game` clashes with the fixed column, and the model treats such a game as the fixed column.
- **`int()` parsing.** `int()` is modelled on an optional sign followed by ASCII digits. Surrounding whitespace and `_` separators are not accepted. Unicode digits, `str.isdigit` on non-ASCII characters, Unicode `isalnum`/`lower`, and the regex's Unicode classes are all taken as ASCII.
- **JSON decoding.** A payload with duplicate object keys reads its first occurrence. Python keeps the last.
- **Null versus missing keys.** A field present with a JSON `null` reads as missing. `SteamTypes.Timestamp`, `Ownership.HoursCollect` and `Ownership.HoursOther` then use a default; the lines starting with their names below say where Python behaves otherwise.
- **Exceptions.** A summary reply whose body is not JSON is an error of the request (`RequestFailed`). The individual exception types are merged into the few kinds that `Common.Error` names.
- **Always-true subset test.** The check `set(nonzero_cols).issubset(set(df_games.columns))` at `collect_game_data_and_reviews.py:266-268` always holds by construction, so it has no branch in the model.
- **Enrichment order.** The enriched SpyDatabase table assigns column after column over all rows (`fetch_steamspy_full_db.py:84-93`); the model assigns row after row. Both give the same table, or raise on the same bad entry. When several entries are bad, which one raises first can differ.
- **Export file name.** The `.parquet` to `.xlsx` rename of the export file name is not modelled. `ExportName.ExportFile` names the `.xlsx` workbook that the merge reads.
- Sampler.SampleList: which members `list(steamids_set)[:SAMPLE_SIZE]` keeps depends on Python's set iteration order. The contract states only that they are distinct sampled ids and how many there are.
- Ownership.KeptColumnsSpec: the order of tied sums under `sort_values` is not fixed. The contract states only that no dropped column has a larger sum than a kept one; the model's sort is stable.
- Merge.TopAveragesSpec: as above, ties between equal means are left unspecified.
- PlaySimilars.PlayCounter: `Counter.most_common` orders equal counts by first insertion. The contract states only the count order and the bound between dropped and kept entries.
- Ownership.OtherTable: with repeated sampled ids (which the sampler does not produce), the contract states only which ids appear, not the row order.
- SteamTypes.Timestamp: uses 0 for a review whose `timestamp_created` is `null` or missing. In Python a `null` gives `None < start_ts`, which raises `TypeError`. In the collector's walk (`collect_game_data_and_reviews.py:72-85`) that error is caught: the records of the page appended so far are kept and the same cursor is requested again. The model instead treats the record as older than the window.
- Ownership.HoursCollect: uses 0 hours for a `null` `playtime_forever`, where Python's `None / 60` raises `TypeError`.
- Ownership.HoursOther: uses 0 hours for a `null` `playtime_forever`, where Python's `None / 60` raises `TypeError`. A present `null` `playtime_hours` is not distinguished from a missing one either.
