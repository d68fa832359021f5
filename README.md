# Charity events platform: a verified model of its query and display logic

The platform lists charity activities. It has two backends and one browser client.

- The Node service (`node_application`) answers `/activity/getActivity`. It turns query parameters into SQL predicates over the activity table (`ac`) and its reward table (`ar`). It also registers a participant by bumping the reward row. An article listing (`active_article`, `aa`) reuses the activity predicates.
- Two demonstration servers (`demo1/server`) answer `/api/events`, `/api/events/search`, `/api/events/:id` and `/api/locations`. The first builds SQL and sweeps past events to `ended`. The second filters fixed in-memory records.
- The browser service layer (`demo1/src/services/api.ts`) converts backend records into display events. It derives a status, formats expiration times, gates registration, and filters search results and locations.

The model has one Dafny module per source file, plus shared modules:

- `Strings`: text helpers. White space for `trim`, `parseInt` and `Number` is JavaScript's set: the ASCII tab, line feed, vertical tab, form feed, carriage return and space, plus U+00A0, U+1680, U+2000 to U+200A, U+2028, U+2029, U+202F, U+205F, U+3000 and U+FEFF.
- `Js`: the JavaScript coercions `String()`, truthiness, `parseInt` with and without a radix, `Number()` and `isNaN`.
- `Collections`: `filter`, `find`, `[...new Set(...)]` and order-preserving subsequences.
- `Sql`: predicates, their clause text and bound values, `?` counting, paging, the page envelope.

Inputs the code reads from its environment are parameters:

- the current time in milliseconds and the local zone offset in seconds;
- the date parser (`Clock` in `ApiClient`, `iso` in `DemoServer`);
- the database, a function from a statement to rows or an error;
- `DB_PREFIX`.

These modules build state step by step, as the code does:

- `ActivityModel.BuildWhereClauses` and `ActiveArticleModel.BuildWhereClauses` push clauses and values onto sequences.
- `EventServer.AddFilters` appends to an SQL string and a parameter list.
- `EventServer.Sweep` updates an array of rows in place.
- `ActivityModel.RewardTable.Register` updates a table object.

Each of these is proved equal to a specification function. The properties are proved about those functions.

Where the code and its own comments disagree, the model follows the code:

- `compare_time=0` does not switch the expiration filter off. It binds the epoch text `1970-01-01 00:00:00` (in UTC), which admits every activity with a later expiration (`ActivityModelFacts.CompareTimeZero`).
- `register` refuses only a zero or NaN id, so negative ids reach the update (`ActivityController.IdCheck`).

## Model

| member | source | states |
|---|---|---|
| DbConfig.TablePrefix | node_application/src/config/db.js:6 | an unset or empty `DB_PREFIX` gives `fa_`; otherwise the variable itself; never empty |
| DbConfig.GetTable | node_application/src/config/db.js:33-35 | the table name is the prefix followed by the bare name, and its length is the sum of theirs |
| DbConfig.GetTableDistinct | node_application/src/config/db.js:33-35 | a table name is the prefix followed by the bare name, and different names give different tables |
| DbConfig.Fields | node_application/src/config/db.js:41-45 | the local getters stay in range: month 1..12, day 1..31, hour 0..23, minute and second 0..59 |
| DbConfig.UnixDate | node_application/src/config/db.js:38 | `new Date(s * 1000)` is valid exactly for in-range seconds and then reports the local fields of `s + zone` |
| DbConfig.FormatDateTimeFromUnix | node_application/src/config/db.js:37-47 | a valid integer instant renders as the template applied to its local fields; NaN or an out-of-range instant renders `NaN-NaN-NaN NaN:NaN:NaN` |
| DbConfig.UnixText | node_application/src/config/db.js:37-47 | a valid instant renders as the template applied to its local fields |
| DbConfig.MillisecondsDropped | node_application/src/config/db.js:38 | a millisecond instant renders like its whole second (floor division) |
| DbConfig.RenderShape | node_application/src/config/db.js:39-46 | the text is the unpadded year followed by `-MM-DD HH:MM:SS` with two-digit fields |
| DbConfig.FormatShape | node_application/src/config/db.js:37-47 | for a 4-digit local year the text has exactly the shape `YYYY-MM-DD HH:MM:SS` |
| DbConfig.ShapeIffFourDigitYear | node_application/src/config/db.js:37-47 | the text has the shape `YYYY-MM-DD HH:MM:SS` exactly when the instant is valid and its local year has four digits; the unpadded year breaks the shape below 1000, at or above 10000, for negative years and for `Invalid Date` |
| DbConfig.FieldsOrder | node_application/src/config/db.js:40-45 | a later local second gives strictly later calendar fields |
| DbConfig.FormatMonotone | node_application/src/config/db.js:37-47 | under one zone, with 4-digit years, a later second renders as strictly greater text, which is what `expirationtime > ?` relies on |
| DbConfig.EpochText | node_application/src/config/db.js:37-47 | the epoch renders as `1970-01-01 00:00:00` in UTC and as `1970-01-01 08:00:00` eight hours east |
| ActivityModel.LikeFilter | node_application/src/models/Activity.js:15-18 | a substring filter adds one predicate exactly when its parameter is truthy, and it is `column LIKE` on `String(value)` |
| ActivityModel.StatusFilter | node_application/src/models/Activity.js:7-13 | the first predicate is an equality on `ac.status`, bound to `String(status)` when the status is given and not the empty text, else to `normal` |
| ActivityModel.CreatedFilter | node_application/src/models/Activity.js:20-33 | the creation filter adds one predicate exactly when its parameter is present and not the empty text, and it is the range or equality read from that parameter |
| ActivityModel.FirstPresent | node_application/src/models/Activity.js:35-36 | `a ?? b`: absent only when both are absent, and `a` wins whenever present |
| ActivityModel.BoundsFilter | node_application/src/models/Activity.js:35-42 | the start/end bounds add at most one predicate |
| ActivityModel.CompareOverride | node_application/src/models/Activity.js:44-49 | no override exactly when neither `compare_time` nor `createtime` is present and numeric; a numeric `compare_time` wins over `createtime` |
| ActivityModel.CompareText | node_application/src/models/Activity.js:44-50 | the bound text is the rendering of the override, or of the current second when there is none |
| ActivityModel.Filters | node_application/src/models/Activity.js:7-52 | 2 to 5 predicates, starting with the status predicate and ending with `ac.expirationtime > compare` |
| ActivityModel.PushAll | node_application/src/models/Activity.js:15-33 | pushing a group keeps the clause and value lists equal to the texts and bindings of the predicates pushed so far |
| ActivityModel.PushActivityGroup | node_application/src/models/Activity.js:15-52 | after the location, creation, bounds and expiration pushes the lists are the texts and bindings of that group |
| ActivityModel.BuildWhereClauses | node_application/src/models/Activity.js:3-55 | the returned clauses and values are exactly the texts and bindings of the predicate list for these parameters and this compare time |
| ActivityModel.Search | node_application/src/models/Activity.js:57-93 | the result is the count and list statements run with the shared predicates and the page, limit and offset |
| ActivityModel.Bump | node_application/src/models/Activity.js:104-105 | a bumped reward row keeps its id, activity, fee and status, and its count and amount become set |
| ActivityModel.Registered | node_application/src/models/Activity.js:101-108 | the update keeps the number of reward rows |
| ActivityModel.FirstFor | node_application/src/models/Activity.js:110-122 | the reread finds nothing exactly when no row belongs to the activity |
| ActivityModel.RewardTable.Register | node_application/src/models/Activity.js:98-123 | the table becomes the updated rows and the result is the first updated row for the activity |
| ActivityModelFacts.LikeKind | node_application/src/models/Activity.js:15-18 | the location filter is a `LIKE` on `ac.location` |
| ActivityModelFacts.CreatedKind | node_application/src/models/Activity.js:20-33 | the creation filter is an equality or a range on `ac.createtime` |
| ActivityModelFacts.BoundsKind | node_application/src/models/Activity.js:35-42 | the bounds filter is a range on `ac.createtime` |
| ActivityModelFacts.FiltersAligned | node_application/src/models/Activity.js:64 | the WHERE text has one `?` per bound value, and every clause's placeholders line up with its own values |
| ActivityModelFacts.ExpirationLast | node_application/src/models/Activity.js:50-52 | the last predicate, and only the last, is `ac.expirationtime > compare` |
| ActivityModelFacts.LocationGiven | node_application/src/models/Activity.js:15-18 | a truthy location gives the second predicate `ac.location LIKE` bound to `%location%` |
| ActivityModelFacts.LocationMissing | node_application/src/models/Activity.js:15 | without a truthy location there is no `LIKE` predicate |
| ActivityModelFacts.LocationClause | node_application/src/models/Activity.js:15-18 | a `LIKE` predicate is present exactly when the location is truthy |
| ActivityModelFacts.CreatedRange | node_application/src/models/Activity.js:25-28 | `"m,n"` becomes `ac.createtime BETWEEN m AND n` |
| ActivityModelFacts.CreatedPairList | node_application/src/models/Activity.js:22-24 | a repeated key with at least two values uses the first two as the range |
| ActivityModelFacts.CreatedSingle | node_application/src/models/Activity.js:29-31 | a single number becomes `ac.createtime = n` |
| ActivityModelFacts.CreatedOpenRange | node_application/src/models/Activity.js:26 | `"m,"` still becomes a range, with NaN as its upper end |
| ActivityModelFacts.BoundsPriority | node_application/src/models/Activity.js:35-42 | the bounds predicate is present exactly when one of the four keys is; `createtime_start` beats `starttime` and `createtime_end` beats `endtime`; the defaults are 0 and `MAX_SAFE_INTEGER` |
| ActivityModelFacts.CompareTimeWins | node_application/src/models/Activity.js:45-46 | a numeric `compare_time` sets the compared instant |
| ActivityModelFacts.CreatetimeCompares | node_application/src/models/Activity.js:47-48 | without `compare_time`, a numeric `createtime` sets it |
| ActivityModelFacts.RangeNotCompared | node_application/src/models/Activity.js:44-49 | a `createtime` range is not a number, so the current time is compared |
| ActivityModelFacts.CompareTimeZero | node_application/src/models/Activity.js:45-52 | `compare_time=0` binds the epoch text rather than dropping the filter |
| ActivityModelFacts.CompareTimeOnly | node_application/src/models/Activity.js:7-52 | with only `compare_time` the predicates are the `normal` status and the expiration test |
| ActivityModelFacts.CountAligned | node_application/src/models/Activity.js:66 | the count statement has one `?` per value and ends with the WHERE text |
| ActivityModelFacts.ListAligned | node_application/src/models/Activity.js:68-85 | the list statement binds the count values then limit and offset, one `?` each, with the WHERE text after its head |
| ActivityModelFacts.SearchAligned | node_application/src/models/Activity.js:63-85 | both statements of a search have as many `?` as bound values |
| RewardFacts.RegisterTotals | node_application/src/models/Activity.js:101-108 | the update adds one participant per matching row and adds each matching row's fee to the collected total |
| RewardFacts.RegisterRow | node_application/src/models/Activity.js:102-106 | other activities' rows are unchanged; a matching row gets `COALESCE(count,0)+1` and `COALESCE(havemoney,0)+COALESCE(fee,0)` |
| RewardFacts.RegisterMissing | node_application/src/models/Activity.js:106-122 | an activity with no reward row changes nothing and rereads `null` |
| RewardFacts.RegisterReports | node_application/src/models/Activity.js:101-122 | the reread is the first matching row of the table before the update, bumped |
| RewardFacts.RegisterCommutes | node_application/src/models/Activity.js:101-108 | registrations for two activities commute |
| RewardFacts.RegisterScenario | node_application/src/models/Activity.js:101-122 | two registrations with fee 20 move the count 5 to 7 and the amount 100 to 140 |
| Sql.PagingParam | node_application/src/models/Activity.js:59-60 | an absent key gives the default; a truthy value is parsed with `parseInt(v, 10)` |
| Sql.Paginate | node_application/src/models/Activity.js:59-61 | the offset is `(page - 1) * limit`, NaN when either is NaN |
| Sql.PaginateDefaults | node_application/src/models/Activity.js:59-61 | no page and no limit mean page 1, limit 10, offset 0 |
| Sql.PagingParamRendered | node_application/src/models/Activity.js:59-60 | a decimal page or limit is read back as that integer |
| Sql.PaginateNumbers | node_application/src/models/Activity.js:59-61 | page p with limit n gives offset (p-1)*n |
| Sql.TotalOf | node_application/src/models/Activity.js:83 | the total is the first row's `cnt` when it is truthy, else 0 |
| Sql.TotalOfCount | node_application/src/models/Activity.js:83 | a count row with n gives n; no row gives 0 |
| Sql.RunListing | node_application/src/models/Activity.js:82-92 | succeeds exactly when both queries do, returning list rows, total, page and limit; a failing count query's error is reported, and otherwise the failing list query's |
| Sql.WherePlaceholders | node_application/src/models/Activity.js:64 | the clauses joined with ` AND ` hold one `?` per bound value |
| ActiveArticleModel.TicketsFilter | node_application/src/models/ActiveArticle.js:12-15 | the tickets filter adds one predicate exactly when `tickets` is present and not the empty text, and it is `aa.Tickets =` bound to `String(tickets)` |
| ActiveArticleModel.ArticleFilters | node_application/src/models/ActiveArticle.js:7-20 | the article group has one predicate per truthy tag, per `tickets` that is neither absent nor empty, and per truthy registration |
| ActiveArticleModel.ActivityGroup | node_application/src/models/ActiveArticle.js:22-62 | the activity group holds 1 to 4 predicates and always ends with the expiration test, so the activity table is always joined |
| ActiveArticleModel.ArticleCompareText | node_application/src/models/ActiveArticle.js:54-60 | flooring `Date.now() / 1000` binds the same text as the unfloored second of the activity listing |
| ActiveArticleModel.BuildWhereClauses | node_application/src/models/ActiveArticle.js:3-73 | the article group and the activity group are the texts and bindings of their predicate lists; the activity group is always joined |
| ActiveArticleModel.CombineWhere | node_application/src/models/ActiveArticle.js:83-95 | the two groups combine into the WHERE text of their concatenation, with their values in the same order |
| ActiveArticleModel.JoinGroups | node_application/src/models/ActiveArticle.js:86-95 | joining the joined groups equals joining all clauses at once |
| ActiveArticleModel.Search | node_application/src/models/ActiveArticle.js:75-145 | the result is the count and list statements run with all the predicates and the page |
| ActiveArticleFacts.TagGiven | node_application/src/models/ActiveArticle.js:7-10 | a truthy `tag` gives the first article predicate, `aa.Tag LIKE` bound to `%tag%` |
| ActiveArticleFacts.TicketsGiven | node_application/src/models/ActiveArticle.js:12-15 | a present, non-empty `tickets` gives `aa.Tickets = String(tickets)`, right after the tag predicate when there is one |
| ActiveArticleFacts.RegistrationGiven | node_application/src/models/ActiveArticle.js:17-20 | a truthy `registration` gives the last article predicate, `aa.Registration LIKE` |
| ActiveArticleFacts.TicketsZeroFilters | node_application/src/models/ActiveArticle.js:12 | tickets `"0"` still filters, as `aa.Tickets = '0'` |
| ActiveArticleFacts.CreatedFilterGiven | node_application/src/models/ActiveArticle.js:25-43 | a present, non-empty `created_filter` gives its creation predicate, right after the location predicate when there is one |
| ActiveArticleFacts.CreatetimeNotFiltered | node_application/src/models/ActiveArticle.js:30-59 | `createtime` does not change the activity group; it only feeds the compare time |
| ActiveArticleFacts.ArticleGroupEmpty | node_application/src/models/ActiveArticle.js:83-95 | without article parameters only the activity group filters |
| ActiveArticleFacts.ArticleStatementsAligned | node_application/src/models/ActiveArticle.js:102-137 | both statements have one `?` per value; the list binds the count values then limit and offset |
| ActivityController.MapParamsMoves | node_application/src/application/api/controller/Activity.js:3-10 | a truthy numeric `createtime` moves to `compare_time` as a number and every other key is kept |
| ActivityController.MapParams | node_application/src/application/api/controller/Activity.js:3-10 | the mapped parameters never hold a `createtime` that would move again; every key other than `createtime` and `compare_time` is kept with its value, and no key is invented except `compare_time` |
| ActivityController.MapParamsKeeps | node_application/src/application/api/controller/Activity.js:5 | otherwise the parameters are copied unchanged |
| ActivityController.RangeKept | node_application/src/application/api/controller/Activity.js:5 | a `createtime` range is not numeric, so it stays a creation filter |
| ActivityController.MapParamsIdempotent | node_application/src/application/api/controller/Activity.js:3-10 | mapping twice is mapping once |
| ActivityController.ReparseNumber | node_application/src/application/api/controller/Activity.js:6 | the stored number is not NaN and parses back to itself in the model |
| ActivityController.MapParamsCompare | node_application/src/application/api/controller/Activity.js:5-7 | after mapping, the compared instant is the parsed `createtime` and no creation filter remains |
| ActivityController.ListingReply | node_application/src/application/api/controller/Activity.js:16-27 | success is code 200 with rows and total/page/limit meta; failure is 500 with the error message and no rows |
| ActivityController.GetActivity | node_application/src/application/api/controller/Activity.js:12-29 | the reply is the envelope of the model search on the mapped parameters |
| ActivityController.RegisterReply | node_application/src/application/api/controller/Activity.js:40-44 | 200 with the reread row or `null`, or 500 with the error message |
| ActivityController.Register | node_application/src/application/api/controller/Activity.js:32-45 | an invalid id gives 400 and leaves the table alone; a failing update leaves it alone with a 500; otherwise the table is updated and the reread row returned |
| ActivityController.IdCheck | node_application/src/application/api/controller/Activity.js:34-38 | a missing body or id is refused; a decimal id is accepted exactly when it is not 0 |
| ActivityController.AcceptedId | node_application/src/application/api/controller/Activity.js:35-36 | an id is accepted exactly when `parseInt(activity_id, 10)` is truthy and not NaN |
| ActivityController.TrailingJunkAccepted | node_application/src/application/api/controller/Activity.js:35 | `7x` is read as 7 |
| ArticleController.SearchReply | node_application/src/application/api/controller/active/Article.js:12-22 | success is code 1, `Success` and the page; failure is 500 with code 0, the message and an empty default page |
| ArticleController.Search | node_application/src/application/api/controller/active/Article.js:12-22 | the reply is the envelope of the article search on the mapped parameters |
| ArticleController.FallbackIsEmptyDefaultPage | node_application/src/application/api/controller/active/Article.js:20 | the failure page is the empty listing on the default page and limit |
| Js.ParseIntRoundTrip | node_application/src/models/Activity.js:46 | a rendered integer parses back to itself with `parseInt` and with `Number`; `"NaN"` parses to NaN |
| Js.Truthy | node_application/src/models/Activity.js:15 | a list is truthy; a text exactly when non-empty; a number exactly when neither NaN nor 0 |
| Js.ParseInt | node_application/src/models/Activity.js:46 | `parseInt(s, 10)` of the empty text is NaN and of a run of decimal digits is their value |
| Js.ParseIntAuto | demo1/server/server-demo.js:254 | `parseInt` without a radix agrees with `parseInt(s, 10)` unless the text starts with a `0x` prefix, and reads decimal digits as their value |
| Js.ToNumber | demo1/server/server-demo.js:226 | `Number(text)` of blank text is 0, of decimal digits their value, and of a text holding a comma NaN |
| Js.IsNaN | node_application/src/models/Activity.js:45 | `isNaN` of a number is whether it is NaN; a non-empty digit text is a number and a text holding a comma is not |
| Js.ParseDigitsThenText | demo1/server/server.js:185 | `parseInt` stops at the first non-digit: digits followed by any other text read as the digits, also without a radix unless an `x` follows |
| Strings.IdeographicSpaceBlank | demo1/server/server.js:147 | `trim` removes non-ASCII white space such as U+3000 and U+00A0 |
| Js.CommaNotNumber | node_application/src/models/Activity.js:47 | a text holding a comma is NaN for `isNaN` |
| Js.ParseIntAutoRendered | demo1/server/server-demo.js:254 | `parseInt` without a radix reads a rendered integer back unchanged |
| Collections.Filter | demo1/server/server-demo.js:168-170 | `filter` keeps exactly the elements that pass |
| Collections.FilterMultiplicity | demo1/server/server-demo.js:168-170 | `filter` keeps every passing value as often as it occurs and drops every failing one |
| Collections.FilterSubsequence | demo1/server/server-demo.js:168-170 | `filter` keeps the order of what it keeps |
| Collections.Dedupe | demo1/src/services/api.ts:355 | `[...new Set(xs)]` holds every value of xs once and nothing else |
| Collections.DedupeSubsequence | demo1/src/services/api.ts:355 | the distinct values appear in the order of the input |
| Collections.DedupeFirstOrder | demo1/src/services/api.ts:355 | the distinct values are listed in the order of their first occurrences in the input |
| Collections.DedupeUnique | demo1/src/services/api.ts:355 | any listing of all values of the input in first-occurrence order is `[...new Set(xs)]`, so that order fixes the result |
| Collections.Find | demo1/src/services/api.ts:267 | `find` is `undefined` exactly when nothing matches, and otherwise the first match |
| Collections.Narrow | demo1/src/services/api.ts:299-313 | a filter applied only when its parameter is given never adds or reorders; when given it keeps each passing value as often as it occurs and drops the others, and otherwise keeps the input |
| Collections.NarrowMembers | demo1/server/server-demo.js:212-234 | an element survives a conditional filter exactly when it was there and passes the applied test |
| ApiClient.DeriveStatus | demo1/src/services/api.ts:157-177 | suspended exactly when not `normal`; upcoming exactly when `normal` with no date or a later date; ended exactly when `normal` with an earlier date |
| ApiClient.ExpirationText | demo1/src/services/api.ts:217-221 | no expiration exactly when absent, 0 or empty; a text stamp is kept as it is |
| ApiClient.Convert | demo1/src/services/api.ts:187-222 | the id is kept; every display text is non-empty; a zero price means free; with a fee, free exactly when the fee is 0; without one, free exactly when `is_free` is 1 or the price is 0 |
| ApiClient.FirstText | demo1/src/services/api.ts:189-210 | an `\|\|` chain is the first non-empty text, empty only when all are |
| ApiClient.DisplayFallbacks | demo1/src/services/api.ts:180-210 | name, description, location, currency, category, organisation and image fall back in the written order |
| ApiClient.RewardPrecedence | demo1/src/services/api.ts:196-206 | reward amount, fee and count win over the activity's own amount, price and count, and then 0 |
| ApiClient.UnparsableDateOngoing | demo1/src/services/api.ts:162-170 | a `normal` activity whose date does not parse is `ongoing`, since NaN is neither later nor earlier |
| ApiClient.CurrencySymbol | demo1/src/services/api.ts:462-470 | the four known codes map to their symbols and every other code to `¥` |
| ApiClient.StatusText | demo1/src/services/api.ts:479-487 | an unknown status shows as itself; a known one shows with its first letter upper-cased and is then different from the status |
| ApiClient.StatusClass | demo1/src/services/api.ts:490-498 | the class is `status-` plus the status for a known status and empty otherwise |
| ApiClient.StatusDisplayed | demo1/src/services/api.ts:479-498 | every derived status has its class, and different statuses show different texts |
| ApiClient.FormatExpirationTime | demo1/src/services/api.ts:420-448 | missing or empty shows `Not set`; text already shaped `YYYY-MM-DD HH:MM:SS` is returned unchanged |
| ApiClient.FormatExpirationIdempotent | demo1/src/services/api.ts:426-428 | formatting a shaped text twice is formatting it once |
| ApiClient.ReformattedIsCanonical | demo1/src/services/api.ts:431-444 | a parsable instant with a 4-digit year is reformatted into the shape, and reformatting that changes nothing |
| ApiClient.CanonicalInstant | demo1/src/services/api.ts:437-444 | the template applied to a valid instant with a 4-digit year has the shape |
| ApiClient.BackendStampShown | demo1/src/services/api.ts:426-428 | a backend time normalised by `formatDateTimeFromUnix` is shown unchanged |
| ApiClient.Deadline | demo1/src/services/api.ts:503-504 | the deadline is the parsed `registration_deadline` when it is present and non-empty, else the parsed event date |
| ApiClient.CanRegister | demo1/src/services/api.ts:501-509 | registration is open only for an `upcoming` event with a parsable deadline, and a capped event must still have room |
| ApiClient.RegistrationByDate | demo1/src/services/api.ts:501-509 | with no deadline, registration is open exactly when the activity is `normal`, its date is ahead and there is room |
| ApiClient.RegistrationNeedsNormal | demo1/src/services/api.ts:506 | only `normal` activities can be registered for |
| ApiClient.RegistrationClosed | demo1/src/services/api.ts:506-508 | a full event or a passed deadline closes registration |
| ApiClient.ConvertAll | demo1/src/services/api.ts:241 | the converted list matches the records one for one |
| ApiClient.GetEvents | demo1/src/services/api.ts:234-257 | with data, success with every record converted and the total; without, failure with code 500 |
| ApiClient.GetEventById | demo1/src/services/api.ts:260-287 | an accepted reply without the id throws `Specified event not found`; a success holds the converted first record with that id; a rejected reply is a failure whose message is the backend's, or `Failed to get event detail` when that is empty |
| ApiClient.PlaceExact | demo1/src/services/api.ts:299-309 | the location and category filters keep exactly the records that pass both case-insensitive substring tests |
| ApiClient.SearchEventsAsWritten | demo1/src/services/api.ts:290-331 | the search as written: success exactly for an accepted reply, with its total |
| ApiClient.AsWrittenStatusFindsNothing | demo1/src/services/api.ts:311-313 | as written, a search by display status over `normal`/`hidden` records is empty |
| ApiClient.UpcomingSearchMissesUpcomingEvent | demo1/src/services/api.ts:311-315 | a record converted to `upcoming` is not found by a search for `upcoming` as written, and is found by the corrected search |
| ApiClient.SearchEvents | demo1/src/services/api.ts:290-331 | the corrected search: success exactly for an accepted reply, with its total |
| ApiClient.SearchStatusExact | demo1/src/services/api.ts:311-313 | every event found by the corrected search has the requested status |
| ApiClient.SearchSound | demo1/src/services/api.ts:296-315 | every event found is a converted record that passes all given filters |
| ApiClient.SearchComplete | demo1/src/services/api.ts:296-315 | every record that passes all given filters is found |
| ApiClient.ConvertSubsequence | demo1/src/services/api.ts:315 | conversion preserves the subsequence order |
| ApiClient.SearchWithinListing | demo1/src/services/api.ts:290-331 | the search result is an order-preserving subsequence of the converted listing |
| ApiClient.GetLocations | demo1/src/services/api.ts:350-371 | distinct locations covering exactly the listed ones, or the eight fixed cities as a success when the backend fails |
| ApiClient.LocationsInOrder | demo1/src/services/api.ts:355 | the locations are a subsequence of the listed ones, in the order of their first occurrences |
| EventServer.Swept | demo1/server/server.js:71-74 | only the status may change, to `ended`, and it changes exactly for a past `upcoming` event |
| EventServer.StaleIds | demo1/server/server.js:69-76 | at most one update per row |
| EventServer.Sweep | demo1/server/server.js:68-76 | every row becomes its swept self and the issued updates are the stale ids in row order |
| EventServer.SweepSettles | demo1/server/server.js:71 | a swept event is no longer stale, so a second sweep changes nothing |
| EventServer.StaleIdsExact | demo1/server/server.js:69-76 | an update is issued for an id exactly when a row with that id is stale |
| EventServer.NothingStaleNoUpdates | demo1/server/server.js:69-76 | with nothing stale no update is issued |
| EventServer.BuildSearch | demo1/server/server.js:116-162 | the statement is the head, one ` AND ` clause per given filter, then the order; the parameters are the filters' values in the same order |
| EventServer.AddFilters | demo1/server/server.js:139-160 | the four conditional appends give the filter text and the bound values of the search predicates |
| EventServer.SearchPredicates | demo1/server/server.js:142-160 | one predicate per given filter: date, trimmed location, category other than `all`, status other than `all` |
| EventServer.SearchSql | demo1/server/server.js:116-164 | the full statement has exactly one `?` per bound parameter |
| EventServer.SearchBindsOnePerFilter | demo1/server/server.js:142-160 | every search predicate binds exactly one value, so the parameters match the predicates one for one |
| EventServer.DateGiven | demo1/server/server.js:142-145 | a given date is the first filter, `DATE(e.event_date) = ?` bound to the date text |
| EventServer.CategoryBound | demo1/server/server.js:152-155 | a category other than `all` binds `parseInt(category)` without a radix, right after the given date and location filters |
| EventServer.CategoryTextsBound | demo1/server/server.js:154 | category `abc` binds NaN and category `0x1A` binds 26 |
| EventServer.StatusBound | demo1/server/server.js:157-160 | a status other than `all` is the last filter, bound to the status text as sent |
| EventServer.LocationFilter | demo1/server/server.js:147-150 | a `LIKE` predicate is present exactly when the trimmed location is non-empty, and it is then on `e.location` with the trimmed text |
| EventServer.LocationBound | demo1/server/server.js:149 | the bound pattern is `%trimmed%` |
| EventServer.BlankLocationIgnored | demo1/server/server.js:147 | a location of white space only, ASCII or not, adds no filter: the predicates are those for no location |
| EventServer.CategoryWildcard | demo1/server/server.js:152-155 | a category filter is present exactly when the category is given and not `all` |
| EventServer.StatusWildcard | demo1/server/server.js:157-160 | a status filter is present exactly when the status is given and not `all` |
| EventServer.FiltersPlaceholders | demo1/server/server.js:141-160 | each appended clause adds as many `?` as values |
| EventServer.EventById | demo1/server/server.js:183-232 | NaN id gives 400; a query error gives 500; no row gives 404; otherwise 200 with the first row |
| EventServer.RefusedBeforeQuery | demo1/server/server.js:185-192 | a refused id never reaches the database: the reply is the same whatever it holds |
| EventServer.TrailingTextIgnored | demo1/server/server.js:185 | `12abc` is read as 12 |
| EventServer.HexIdRead | demo1/server/server.js:185 | without a radix, `0x1A` is read as 26 |
| DemoServer.Listing | demo1/server/server-demo.js:168-170 | every listed event is stored and upcoming or ongoing, and each of those appears as often as it is stored |
| DemoServer.ListingExact | demo1/server/server-demo.js:168-170 | the listing is exactly the upcoming and ongoing events, in stored order and with their multiplicities |
| DemoServer.MockListingIsAll | demo1/server/server-demo.js:31-170 | every shipped mock event is upcoming, so all five are listed |
| DemoServer.GetEvents | demo1/server/server-demo.js:166-184 | success with the listing and its length |
| DemoServer.NamedBy | demo1/server/server-demo.js:226 | a name is found exactly when some category has the id, and it is the name of the first such category, as `find` returns |
| DemoServer.CategoryName | demo1/server/server-demo.js:226 | `c.id == category` compares the id with `Number(category)` |
| DemoServer.CategoryFilter | demo1/server/server-demo.js:225-230 | `all` or no category gives no filter; otherwise the filter is the looked-up name exactly when the lookup finds a non-empty one, as `if (categoryName)` tests |
| DemoServer.Search | demo1/server/server-demo.js:207-234 | the result is an order-preserving subsequence of the listing |
| DemoServer.SearchEvents | demo1/server/server-demo.js:203-249 | success with the filtered events and their count |
| DemoServer.SearchExact | demo1/server/server-demo.js:207-234 | an event is found exactly when it is listed and passes each given filter: ISO day, trimmed case-sensitive substring, category name, exact status |
| DemoServer.UnknownCategoryIgnored | demo1/server/server-demo.js:225-230 | an id naming no category filters nothing: the result equals the search for `all` |
| DemoServer.BlankLocationIgnored | demo1/server/server-demo.js:219 | a location of white space only gives the same result as no location |
| DemoServer.StatusAllIgnored | demo1/server/server-demo.js:232-234 | status `all` gives the same result as no status |
| DemoServer.CategoryByDecimalId | demo1/server/server-demo.js:226 | a decimal id text finds the category with that id |
| DemoServer.MockCategoryIds | demo1/server/server-demo.js:20-29 | id 3 is the silent auction and id 9 names no shipped category |
| DemoServer.EventById | demo1/server/server-demo.js:252-283 | NaN gives 400; an id no event has gives 404; otherwise 200 with an event carrying that id |
| DemoServer.ByIdFirst | demo1/server/server-demo.js:263 | the lookup returns the first event with the id |
| DemoServer.WithId | demo1/server/server-demo.js:263 | `find` is `undefined` exactly when no event has the id, and otherwise a stored event with that id |
| DemoServer.ByIdRendered | demo1/server/server-demo.js:254-263 | an event's decimal id finds it |
| DemoServer.GetLocations | demo1/server/server-demo.js:286-301 | distinct locations of all stored events, covering exactly them |
| DemoServer.LocationsInOrder | demo1/server/server-demo.js:288 | the locations are a subsequence of the stored ones, in the order of their first occurrences |

## Left out

- Connection pools, `initPool`, `event_db.js` and the MySQL driver are out. Databases are functions from a statement to rows or an error. `LIKE` and `BETWEEN` are not evaluated.
- HTTP wiring is out: Express routes, middleware, the 404 and error handlers, `apiRequest`, `fetch`, `registerForEvent`, start-up and shutdown. Replies are modelled as values.
- The clock, the zone and the date parser are parameters. This covers `Date.now()`, `new Date()`, `new Date(text)` and ISO output. The model assumes a fixed zone offset with no daylight-saving changes.
- Floating point is out: `getProgressPercentage`, `formatAmount`, `formatEventDate` and locale formatting. Amounts are integers.
- `Number(text)` is restricted to white space around an optionally signed run of decimal digits. Decimals, exponents, hexadecimal and `Infinity` read as NaN.
- ApiClient.PlaceExact: `toLowerCase` is modelled on ASCII letters only. Other scripts' case mappings (Latin-1, Greek, Cyrillic, full-width letters) are not modelled, so the model treats such letters as case-sensitive. Chinese text, which has no case, is unaffected. The same holds for ApiClient.SearchEvents.
- Js.ToText: an integer always renders in full decimal digits. JavaScript renders a number of magnitude 10^21 or more in exponent form (`1e+21`), and `parseInt` of that text reads only the leading digits. So a `createtime` of 10^21 is stored as `compare_time` (ActivityController.ReparseNumber) and then compared as second 1 by the source. The model compares 10^21 itself (ActivityModel.CompareOverride), which renders as the NaN text.
- Js.ParseInt: numbers are unbounded integers. JavaScript rounds a parsed text of 17 or more digits to the nearest double; the model keeps the exact value. The same holds for Js.ToNumber and Js.ParseIntAuto.
- Sql.Paginate: the offset `(page - 1) * limit` is exact. JavaScript rounds it to a double above 2^53.
- ApiClient.GetLocations: a record without `location` is read with the empty text. `new Set` keeps `undefined` apart from `""`, so such a listing may show one location fewer in the model.
- ApiClient.Convert: reward fields are integers. The backend's string form of `registration_fee` and `reward_havemoney`, and the `Number()` applied to it, are not modelled.
- ApiClient.SearchEvents: a record without `location` or `category_name` would make `toLowerCase` throw. The model reads the missing field as the empty text.
- ApiClient.StatusText: JavaScript's inherited object keys (`statusMap['constructor']`) are not modelled. Only the four own keys are known. The same holds for ApiClient.StatusClass and ApiClient.CurrencySymbol.
- ApiClient.Convert: pass-through fields are not carried. These are organisation description, contact details, website and address.
- `getCategories` in `api.ts`, `/api/categories` and `/api/health` of both servers, and the demo `register` endpoint are out. They return constant or pass-through data.
- EventServer.Sweep: a failing `UPDATE` part-way through the loop is not modelled. The sweep is modelled over rows already read.
- EventServer.BuildSearch: repeated query keys (arrays) are not modelled; query values are texts. The same holds for DemoServer.SearchEvents, where `trim` on an array would throw.
- DemoServer.SearchEvents: the reply's `query` echo is not carried. Invalid event dates (`toISOString` throwing) are not modelled.
- SQL text is modelled up to white space: the multi-line template literals become single-spaced text.
- ActivityModel.RewardTable.Register: the update and the reread are one step. The race between the two round trips is out.
- ActivityController.Register: a failure of the reread after a successful update is not modelled separately. One failure input covers the round trip.
- The `time` field of the article reply, the mock `registration_id` and the `/api/locations` query of the database server are out.
- MockEvent and Category carry only the fields the handlers read. Descriptions and figures are left out.

## Findings

| source | as written | input that shows it | evidently intended | confidence | as-written member | corrected member |
|---|---|---|---|---|---|---|
| demo1/src/services/api.ts:311-313 | the status filter compares the backend `status` (`normal`/`hidden`) with the requested display status before conversion | a `normal` activity dated one second after now, searched with status `upcoming`: it converts to `upcoming` but the search returns nothing | filter the converted events on their derived status | not executed | ApiClient.UpcomingSearchMissesUpcomingEvent | ApiClient.SearchStatusExact |
