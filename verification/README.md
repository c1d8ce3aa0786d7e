# Agent routes, usage ledger and knowledge helpers — a Dafny model

The backend runs chat turns through an agent and keeps a session cache: conversation id to the serialized agent thread plus running token statistics. It answers each turn either with one response (`POST /agent/run`) or as server-sent events (`POST /agent/stream`). A SQLite ledger of per-turn token usage backs two read-only routes: one pages through a conversation's turns, the other through per-conversation summaries. A knowledge store cleans uploaded text and cuts it into overlapping chunks for embedding.

This project models that core in Dafny and proves what it promises.

- **`Normalizer`** (`normalizer.dfy`, over the value type of `values.dfy`) — the result normaliser. It is a set of total functions over a datatype of loosely typed Python values: `None`, booleans, integers, strings, lists, insertion-ordered dictionaries, and objects with attributes and optional `model_dump()`/`dict()` hooks that return or raise. They cover `_as_int`, `_extract_usage`, `_extract_model_name`, `_extract_text` and `_extract_delta`, including the depth-bounded `find_text` search.
- **`TokenEstimator`** (`tokens.dfy`) — the fallback token estimate and the usage computed from a turn's texts.
- **`SessionStats`** (`stats.dfy`) — the running statistics. The dictionary the routes update in place is a class `Stats`, whose `ApplyUsage` is specified by the pure function `Applied`.
- **`Sessions`** (`sessions.dfy`) — the session cache: a class over `map<string, Record>`, the id resolution, the back-compat rule for old records, and `_get_stats`. `_get_stats` hands out the cached statistics object itself, so a turn's update shows through the cache.
- **`Turns`** (`turns.dfy`) — the two turn handlers as methods over the cache. The agent, the thread serializer and Python's `str()` of a value are parameters: `reply`, `call`, `serialized` and `render`. The streamed event sequence is a function with its protocol proved.
- **`UsageLedger`** (`ledger.dfy`, with the insertion sort of `sorting.dfy`) — the ledger.
  - The table is a class holding `seq<Row>` and an auto-increment counter.
  - `record_turn_usage` is its `Record` method.
  - The queries are filter, sort, window and sum functions of the rows, following SQLite's meaning of `LIMIT`/`OFFSET` (a negative limit is no limit, a negative offset is 0) and its binary text order.
- **`UsageRoutes`** (`usage_routes.dfy`) — the paging checks and the bodies of `GET /agent/usage` and `GET /agent/conversations`.
- **`Knowledge`** (`knowledge.dfy`) — the store's helpers:
  - `_clean_text`;
  - `chunk_text`, a method with the source's loop;
  - `_usage_from_embedding`;
  - the stored-file-name rule of `save_upload`.
- **`PyText`** (`text.dfy`) and **`Common`** (`common.dfy`) — Python's `isspace`/`strip`/`int(str)`, plus `Option`.

The model follows the code where it differs from what one would expect:

- **Empty usage is not a turn.** `_apply_usage` counts a turn only for non-empty usage; empty usage just clears `last`.
- **CJK characters count twice.** The fallback estimate counts each CJK ideograph twice. The word regex does not remove it, so it is counted again among the remaining characters.
- **The ledger is never written by a turn.** Both turn handlers call `record_turn_usage` with four positional arguments, but it accepts three. The resulting `TypeError` is swallowed, so the turn methods take no ledger. The ledger is modelled by its own signature.
- **`agent_usage` fails on any page that holds rows.** It reads a `model_name` attribute that `TurnUsageRow` does not have. `UsageRoutes.AgentUsage` models this as written; see Findings.

## Model

| member | source | states |
|---|---|---|
| Normalizer.FirstAccepted | backend/app/api/routes/agent.py:228-237 | the key loop returns the string under the first key whose value passes the test; None exactly when no key's value passes |
| Normalizer.AsInt | backend/app/api/routes/agent.py:156-164 | an integer exactly for an int, or for a string `int()` parses; None and booleans are refused; an int is kept as is |
| Normalizer.DumpUsage | backend/app/api/routes/agent.py:189-202 | a dictionary, and any non-object, is kept; an object whose `model_dump()` raises gives None; a non-object `model_dump()` result is taken; without `model_dump`, `dict()` gives its result, or None when it raises |
| Normalizer.UsageOf | backend/app/api/routes/agent.py:186-221 | None when the dumped usage is not a dictionary, in particular when `model_dump()` raises; for a dictionary, a usage exactly when one of the three keys parses, and then exactly the three parsed counts |
| Normalizer.ExtractUsage | backend/app/api/routes/agent.py:167-221 | None input gives None; a result holds at least one key; a present top-level `usage` (attribute, then key) decides the result even when it yields nothing; only without it is `response.usage` read |
| Normalizer.ExtractUsageTopLevel | backend/app/api/routes/agent.py:173-175 | a top-level usage dictionary yields its three counts |
| Normalizer.ExtractUsageNested | backend/app/api/routes/agent.py:177-184 | with no top-level usage, the counts come from `response.usage` |
| Normalizer.ExtractUsageAbsent | backend/app/api/routes/agent.py:170-187 | a value without usage, and None, give None |
| Normalizer.UsageRoundTrip | backend/app/api/routes/agent.py:167-221 | the dictionary `_extract_usage` returns, handed back as `usage`, is read back as the same usage |
| Normalizer.TopLevelUsageWins | backend/app/api/routes/agent.py:173-187 | a top-level `usage` without counts hides a `response.usage` that has counts |
| Normalizer.OwnModel | backend/app/api/routes/agent.py:228-237 | a found name is non-blank; a name among the attributes wins over the dictionary keys; None exactly when no model key holds a non-blank string among the attributes or the keys |
| Normalizer.ResponseChain | backend/app/api/routes/agent.py:239-243 | the chain of nested `response` values starts at the value itself |
| Normalizer.ResponsePart | backend/app/api/routes/agent.py:239-241 | a `response` field is structurally smaller than its holder, so the recursion ends |
| Normalizer.ExtractModelName | backend/app/api/routes/agent.py:224-245 | a returned name is non-blank and already stripped; when the value's own attributes or keys carry a name, it is the first such name, stripped |
| Normalizer.FirstModel | backend/app/api/routes/agent.py:224-245 | the first name along a chain is None exactly when no value of the chain carries one |
| Normalizer.ModelNameSearchesChain | backend/app/api/routes/agent.py:224-245 | the extracted name is the first name carried along the `response` chain; None exactly when no value in the chain carries one |
| Normalizer.ExtractText | backend/app/api/routes/agent.py:334-351 | None gives ""; otherwise the first non-blank text attribute, then the first non-blank dictionary text key; a plain string is itself; any other value with neither is `str(result)` |
| Normalizer.OutputTextFirst | backend/app/api/routes/agent.py:346-350 | a non-blank `output_text` at the head of a dictionary is the text, whatever follows it |
| Normalizer.NoTextKeysRenders | backend/app/api/routes/agent.py:346-351 | a dictionary with none of the text keys is `str()` of the whole dictionary |
| Normalizer.ToObj | backend/app/api/routes/agent.py:366-400 | scalars, lists and dictionaries are kept; an object becomes what `model_dump()` returns, else what `dict()` returns, else its attribute dictionary |
| Normalizer.FirstAcceptedIsFirstCandidate | backend/app/api/routes/agent.py:410-413 | a key loop returns the first of the accepted strings in key order, and None exactly when there is none |
| Normalizer.FindTextFirst | backend/app/api/routes/agent.py:402-424 | `find_text` returns the first candidate in its depth-first order (a dictionary's preferred keys in order, then what its values reach in insertion order; list items in order; nothing deeper than 6), and "" exactly when there is none |
| Normalizer.FindInEntriesFirst | backend/app/api/routes/agent.py:415-418 | the value loop returns the first candidate any value reaches, in insertion order, and "" exactly when there is none |
| Normalizer.FindInItemsFirst | backend/app/api/routes/agent.py:419-423 | the list loop returns the first candidate any item reaches, in order, and "" exactly when there is none |
| Normalizer.ExtractDeltaFirst | backend/app/api/routes/agent.py:354-428 | `_extract_delta` returns the first non-empty preferred attribute in key order, else the first `find_text` candidate of `to_obj(update)`; "" exactly when there is none |
| Normalizer.FindTextSpec | backend/app/api/routes/agent.py:402-424 | what `find_text` returns is a non-empty preferred-key string reachable within depth 6; it returns "" exactly when none is reachable |
| Normalizer.FindInEntriesSpec | backend/app/api/routes/agent.py:415-418 | the value loop finds a string reachable from one of the values, and finds "" only when none is reachable from any |
| Normalizer.FindInItemsSpec | backend/app/api/routes/agent.py:419-423 | the list loop finds a string reachable from one of the items, and finds "" only when none is reachable from any |
| Normalizer.AttrDeltaIsSource | backend/app/api/routes/agent.py:360-364 | a preferred attribute that is taken is a legitimate delta source |
| Normalizer.NoAttrDelta | backend/app/api/routes/agent.py:360-364 | when no preferred attribute qualifies, only the nested search can supply a delta |
| Normalizer.ExtractDeltaSpec | backend/app/api/routes/agent.py:354-427 | `_extract_delta` never fails; its result is "" exactly when no preferred attribute or reachable preferred key holds a non-empty string, and otherwise one of those strings |
| Normalizer.FindThroughNesting | backend/app/api/routes/agent.py:419-423 | each enclosing list costs one level of depth |
| Normalizer.DeltaDepthLimit | backend/app/api/routes/agent.py:403-404 | a `delta` key inside six nested lists is found; inside seven it is not |
| TokenEstimator.TokenCountFallback | backend/app/api/routes/agent.py:256-267 | 0 exactly for blank text; otherwise max(1, CJK chars + word runs + remaining non-space chars) of the text |
| TokenEstimator.LStripKeepsCount | backend/app/api/routes/agent.py:257 | leading whitespace adds nothing to the raw count |
| TokenEstimator.RStripKeepsCount | backend/app/api/routes/agent.py:257 | trailing whitespace adds nothing to the raw count |
| TokenEstimator.StripKeepsCount | backend/app/api/routes/agent.py:257 | stripping does not change the raw count |
| TokenEstimator.CjkCountAppend | backend/app/api/routes/agent.py:262 | the CJK count of a concatenation is the sum of the counts |
| TokenEstimator.RestCountAppend | backend/app/api/routes/agent.py:264-266 | the remaining-character count of a concatenation is the sum of the counts |
| TokenEstimator.RunStartsAppend | backend/app/api/routes/agent.py:263 | the word runs of a concatenation are those of the first part, plus those of the second counted from where the first ends |
| TokenEstimator.TokenCountMonotone | backend/app/api/routes/agent.py:256-267 | appending text never lowers the estimate |
| TokenEstimator.CjkCountedTwice | backend/app/api/routes/agent.py:262-266 | a run of CJK ideographs has raw count twice its length |
| TokenEstimator.CjkExample | backend/app/api/routes/agent.py:262-267 | one ideograph is estimated at two tokens |
| TokenEstimator.TokenCount | backend/app/api/routes/agent.py:270-285 | without a tokenizer, the count is the fallback estimate (0 for blank text) |
| TokenEstimator.ComputeUsageFromTexts | backend/app/api/routes/agent.py:288-295 | all three keys are present; total = input + output; each part is 0 exactly for blank text, otherwise at least 1 |
| TokenEstimator.WordIsOneRun | backend/app/api/routes/agent.py:263-265 | a run of word characters is one match of the word regex and leaves nothing else |
| TokenEstimator.WordIsOneToken | backend/app/api/routes/agent.py:256-267 | a single word is estimated at one token |
| SessionStats.Applied | backend/app/api/routes/agent.py:315-331 | empty or absent usage only sets `last` to None; otherwise each present key is added to its total, absent keys leave theirs unchanged, `last` becomes the usage, and `turns` grows by exactly 1 |
| SessionStats.ApplyAllAccumulates | backend/app/api/routes/agent.py:315-331 | over a sequence of turns, `turns` grows by the number of non-empty usages and the total by their reported totals |
| SessionStats.FromZero | backend/app/api/routes/agent.py:298-331 | from zeroed statistics, `turns` counts exactly the non-empty usages applied |
| SessionStats.Stats.constructor | backend/app/api/routes/agent.py:300-304 | a fresh statistics dictionary is zeroed |
| SessionStats.Stats.ApplyUsage | backend/app/api/routes/agent.py:315-331 | the in-place update leaves the dictionary holding `Applied` of its old value |
| Sessions.ThreadToLoad | backend/app/api/routes/agent.py:440-446 | no record gives a new thread; a legacy record is itself the thread; a current record resumes its `thread` exactly when that is a dictionary |
| Sessions.GetStats | backend/app/api/routes/agent.py:298-312 | a current record yields its own statistics object (aliased); anything else yields a fresh zeroed one |
| Sessions.ResolveConversationId | backend/app/api/routes/agent.py:435 | a non-blank given id is used stripped (and is non-empty); otherwise the generated id is used |
| Sessions.EchoedIdContinues | backend/app/api/routes/agent.py:435 | sending back the id a response carried continues the same conversation |
| Sessions.SessionCache.constructor | backend/app/api/routes/agent.py:21 | the cache starts empty |
| Sessions.SessionCache.Get | backend/app/api/routes/agent.py:438 | a lookup finds exactly the stored record |
| Sessions.SessionCache.Put | backend/app/api/routes/agent.py:481 | storing replaces that one conversation's record and nothing else |
| Sessions.StoredRecordReloads | backend/app/api/routes/agent.py:441-446 | a record stored by a turn resumes its thread and statistics on the next turn |
| Turns.ErrorResponse | backend/app/api/routes/agent.py:484-495 | an ImportError becomes 500 with the install message; a RuntimeError becomes 400 with its message; any other exception becomes 500 "Agent error: …" |
| Turns.TurnUsage | backend/app/api/routes/agent.py:459 | non-empty reported usage wins; otherwise the estimate over message and reply; the result is never empty |
| Turns.ModelFor | backend/app/api/routes/agent.py:461 | a reported model name wins; otherwise the fallback name |
| Turns.TurnCountsOnce | backend/app/api/routes/agent.py:459-462 | every completed turn counts as exactly one more turn |
| Turns.RunTurn | backend/app/api/routes/agent.py:431-483 | resumes the thread the record names; on agent failure, returns the error with cache and statistics unchanged; otherwise stores the serialized thread with the updated statistics and responds with the text, id and new statistics; a failed serialize leaves the records but keeps the in-place update of a cached record's statistics |
| Turns.Step | backend/app/api/routes/agent.py:541-552 | one update: a non-empty delta extends the text and adds one delta event, an empty one changes neither; a reported usage or model name replaces the last one, an unreported one keeps it |
| Turns.Gather | backend/app/api/routes/agent.py:537-552 | a gathered usage is non-empty and a gathered model name non-blank |
| Turns.LastSomeSpec | backend/app/api/routes/agent.py:547-552 | the last report is present exactly when some update reported, and is then a report after which no update reported |
| Turns.GatherKeepsLastUsage | backend/app/api/routes/agent.py:547-549 | the usage kept is the last one any update reported |
| Turns.GatherKeepsLastModel | backend/app/api/routes/agent.py:550-552 | the model name kept is the last one any update reported |
| Turns.GatherSpec | backend/app/api/routes/agent.py:541-552 | the gathered delta events are non-empty and join to the accumulated text |
| Turns.DeltaStep | backend/app/api/routes/agent.py:543-545 | one more non-empty delta keeps the events joining to the text |
| Turns.JoinedAppend | backend/app/api/routes/agent.py:544 | joining distributes over concatenation |
| Turns.CallDeltasJoin | backend/app/api/routes/agent.py:540-561 | for streamed and one-shot answers alike, the deltas are non-empty and join to the reply text |
| Turns.ErrorEndsStream | backend/app/api/routes/agent.py:589-590 | meta, deltas, then one error follows the protocol, starts with the meta, ends with the error and joins to the deltas' text |
| Turns.DoneEndsStream | backend/app/api/routes/agent.py:586-588 | meta, deltas, stats, then done for the same conversation follows the protocol, ends with that stats and done, and joins to the deltas' text |
| Turns.OneTerminalEvent | backend/app/api/routes/agent.py:586-590 | a protocol stream holds exactly one of error and done, and only as its last event |
| Turns.CollectUpdates | backend/app/api/routes/agent.py:537-552 | the stream loop yields the deltas, text, last non-empty usage and last model name of the fold `Gather` |
| Turns.Collect | backend/app/api/routes/agent.py:537-561 | the agent-call part gives non-empty deltas joining to the text, and the usage and model the call reported |
| Turns.StreamEvents | backend/app/api/routes/agent.py:533-590 | every stream follows the protocol and opens with meta carrying the prior statistics; a client joining its deltas gets the reply text; a failed agent call or failed serialization ends it with "Agent error: …"; otherwise it ends with the statistics with the turn applied, then done |
| Turns.JoinedBetween | backend/app/api/routes/agent.py:534-590 | the non-delta events around the deltas add no text |
| Turns.StreamTurn | backend/app/api/routes/agent.py:499-590 | yields exactly `StreamEvents`; on agent failure, cache and statistics are unchanged; otherwise the recorded model name is the last reported one or the fallback, and the cache holds the serialized thread with the updated statistics |
| UsageLedger.CountsOf | backend/app/db/token_usage.py:73-75 | missing input and output are 0; a missing total is input + output; a given total is kept as given |
| UsageLedger.RowsOf | backend/app/db/token_usage.py:164-169 | exactly the rows of that conversation |
| UsageLedger.RowsOfAppend | backend/app/db/token_usage.py:82-90 | a new row joins its own conversation's rows only |
| UsageLedger.Start | backend/app/db/token_usage.py:198-207 | the offset is clamped into the rows (negative reads as 0) |
| UsageLedger.Window | backend/app/db/token_usage.py:198-207 | `LIMIT`/`OFFSET` select a contiguous run of at most `limit` rows from the offset (all of them for a negative limit) |
| UsageLedger.SumOfAppend | backend/app/db/token_usage.py:254-273 | column sums add over concatenation |
| UsageLedger.SumOfRemoveAt | backend/app/db/token_usage.py:254-273 | taking one row out takes its cell out of the sum |
| UsageLedger.SumOfPermutation | backend/app/db/token_usage.py:254-273 | a sum does not depend on row order |
| UsageLedger.TurnBeforeOrders | backend/app/db/token_usage.py:170 | `turn_index, id` is a total, transitive order |
| UsageLedger.TurnRows | backend/app/db/token_usage.py:164-171 | a permutation of the conversation's rows, sorted by turn index then id, as many as `count_turn_usage` counts |
| UsageLedger.PublicRows | backend/app/db/token_usage.py:174-185 | each row is returned field for field without its id |
| UsageLedger.ListTurnUsagePage | backend/app/db/token_usage.py:188-220 | the sub-sequence of the ordered rows starting at the offset, of length min(limit, what remains) |
| UsageLedger.ListTurnUsage | backend/app/db/token_usage.py:154-185 | the first page of the same ordering, of at most `limit` rows |
| UsageLedger.CountTurnUsage | backend/app/db/token_usage.py:223-243 | at most the number of rows; 0 exactly when no row belongs to the conversation |
| UsageLedger.SummarizeUsage | backend/app/db/token_usage.py:246-275 | its turns are the count of the conversation's rows; a conversation without rows sums to all zeros |
| UsageLedger.SummaryMatchesList | backend/app/db/token_usage.py:223-275 | the count and the summary's turns are the number of listed rows, and its sums are the sums over them |
| UsageLedger.UnknownConversation | backend/app/db/token_usage.py:231-241 | an unknown conversation counts 0, lists nothing and sums to all zeros |
| UsageLedger.NoRowsOf | backend/app/db/token_usage.py:164-169 | a conversation no row names has no rows |
| UsageLedger.RecordedTurnIsSummarized | backend/app/db/token_usage.py:66-92 | recording a turn adds one turn and its counts to its conversation's summary |
| UsageLedger.OtherSummariesUnchanged | backend/app/db/token_usage.py:66-92 | recording a turn changes no other conversation's summary |
| UsageLedger.TextLeTotal | backend/app/db/token_usage.py:113 | SQLite's text order is total |
| UsageLedger.TextLeTransitive | backend/app/db/token_usage.py:113 | SQLite's text order is transitive |
| UsageLedger.LatestCreated | backend/app/db/token_usage.py:110 | `MAX(created_at)` is at or after every row's timestamp, and is one of them |
| UsageLedger.ConversationIds | backend/app/db/token_usage.py:112 | the grouped ids are distinct, cover every row, and are no more than the rows |
| UsageLedger.ConversationIdsOccur | backend/app/db/token_usage.py:112 | every grouped id has at least one row |
| UsageLedger.SummaryOf | backend/app/db/token_usage.py:105-112 | a group's line belongs to its conversation |
| UsageLedger.SummariesOf | backend/app/db/token_usage.py:105-112 | one summary line per id, in order |
| UsageLedger.LaterFirstOrders | backend/app/db/token_usage.py:113 | `last_created_at DESC` is a total, transitive order |
| UsageLedger.Conversations | backend/app/db/token_usage.py:104-115 | one summary per distinct conversation, so never more summaries than rows |
| UsageLedger.ConversationsOrdered | backend/app/db/token_usage.py:104-115 | the listed summaries are a permutation of the per-conversation summaries, latest activity first |
| UsageLedger.ConversationsPageWindow | backend/app/db/token_usage.py:95-128 | a page is the window of the ordered summaries that the limit and offset select |
| UsageLedger.ListConversationsPage | backend/app/db/token_usage.py:95-128 | never more summaries than there are, and at most `limit` of them for a non-negative limit |
| UsageLedger.WindowOf | backend/app/db/token_usage.py:114 | the window facts, for a window given by name |
| UsageLedger.CountConversations | backend/app/db/token_usage.py:131-151 | the count is the number of listed conversations |
| UsageLedger.ConversationsAreSummaries | backend/app/db/token_usage.py:104-115 | each listed summary has turns = its row count ≥ 1, total = its summed total, and a timestamp no earlier than any of its rows |
| UsageLedger.ListedSummary | backend/app/db/token_usage.py:104-115 | each listed summary is the group line of a conversation that has rows |
| UsageLedger.SummaryOfOccurring | backend/app/db/token_usage.py:104-115 | a conversation's group line agrees with `count_turn_usage` (at least 1), with `summarize_usage`'s total, and has the latest timestamp of its rows |
| UsageLedger.EveryConversationListed | backend/app/db/token_usage.py:104-115 | every conversation in the table is listed |
| UsageLedger.ConversationsDistinct | backend/app/db/token_usage.py:112 | no conversation is listed twice |
| UsageLedger.Ledger.constructor | backend/app/db/token_usage.py:28-45 | an empty table whose ids start at 1 |
| UsageLedger.Ledger.Record | backend/app/db/token_usage.py:66-92 | appends exactly one row with the next id and the defaulted counts, leaving every existing row unchanged; ids stay increasing |
| UsageLedger.ExampleRowsOf | backend/app/db/token_usage.py:164-169 | both recorded rows belong to the conversation |
| UsageLedger.ExampleTurnRows | backend/app/db/token_usage.py:170 | turns 1 and 2 are already in order |
| UsageLedger.ExampleListed | backend/app/db/token_usage.py:154-185 | the two recorded turns are listed as turns 1 then 2 |
| UsageLedger.ExampleSummed | backend/app/db/token_usage.py:246-275 | the two recorded turns sum to {2, 5, 9, 14} |
| UsageLedger.TwoTurnsExample | backend/app/db/token_usage.py:66-275 | recording two turns, then listing and summarizing, gives turns [1, 2] and sums {2, 5, 9, 14} |
| UsageRoutes.PagingError | backend/app/api/routes/agent.py:88-91 | paging is rejected exactly when page < 1 or page_size is outside 1..200; the page is checked first, with its own message |
| UsageRoutes.PageOffset | backend/app/api/routes/agent.py:94 | the offset of a valid page is non-negative |
| UsageRoutes.AgentUsage | backend/app/api/routes/agent.py:80-116 | a blank id, then bad paging, are rejected with 400 before any read; an offset past SQLite's 64-bit integers raises OverflowError; an answered page carries the stripped id, the paging, the row count and no items; any other outcome is an AttributeError |
| UsageRoutes.UsageAnsweredIffPastEnd | backend/app/api/routes/agent.py:93-107 | with valid input, a page is answered exactly when its offset is at or past the conversation's last row and fits a 64-bit integer; otherwise it crashes with OverflowError for an offset too large, else AttributeError |
| UsageRoutes.UsageCrashExample | backend/app/api/routes/agent.py:97-107 | the first page of a conversation with two turns crashes |
| UsageRoutes.AgentUsageCorrected | backend/app/api/routes/agent.py:80-116 | the same rejections; valid input whose offset fits a 64-bit integer is always served, with total = the row count and items = the ordered rows from the offset, at most page_size of them; a larger offset raises OverflowError |
| UsageRoutes.CorrectedAgreesWhereServed | backend/app/api/routes/agent.py:80-116 | wherever the route as written answers, the corrected route answers the same |
| UsageRoutes.EveryTurnOnItsPage | backend/app/api/routes/agent.py:93-95 | with the correction, for a table of fewer than 2^63 rows, the i-th turn is item i % page_size of page i / page_size + 1 |
| UsageRoutes.AgentConversations | backend/app/api/routes/agent.py:120-149 | bad paging is rejected with 400; an offset past SQLite's 64-bit integers raises OverflowError; otherwise it is served with total = number of conversations and the items the ordered summaries from offset (page-1)*page_size |
| UsageRoutes.ConversationsPageAt | backend/app/db/token_usage.py:95-128 | a page with non-negative limit and offset is the run of ordered summaries from the offset, element by element |
| UsageRoutes.WindowAt | backend/app/api/routes/agent.py:131-132 | a window with non-negative limit and offset, element by element |
| UsageRoutes.PageOfPosition | backend/app/api/routes/agent.py:130 | position i is on page i / page_size + 1 at item i % page_size, and that page is valid |
| UsageRoutes.PageHoldsItem | backend/app/api/routes/agent.py:129-132 | that page holds an item at that index |
| UsageRoutes.PageItemIsConversation | backend/app/api/routes/agent.py:129-132 | that item is the conversation at that position |
| UsageRoutes.EveryConversationOnItsPage | backend/app/api/routes/agent.py:120-149 | for a table of fewer than 2^63 rows, paging visits every conversation: the i-th in the model's order, which fixes an order among summaries with equal timestamps, is item i % page_size of page i / page_size + 1 |
| Knowledge.ReplaceNul | backend/app/knowledge/store.py:170 | same length; each NUL becomes a space and nothing else changes; no NUL is left |
| Knowledge.CollapseFrom | backend/app/knowledge/store.py:171 | no two adjacent whitespace characters; all whitespace is single spaces; the non-whitespace characters are exactly the input's, in order; as many spaces as the input has whitespace runs (where they fall is `CollapseWords`) |
| Knowledge.Words | backend/app/knowledge/store.py:172 | `str.split()` as a reference: the maximal non-whitespace runs in order, each non-empty and free of whitespace |
| Knowledge.JoinSpaceEnds | backend/app/knowledge/store.py:172 | `" ".join` of such words neither starts nor ends with whitespace |
| Knowledge.CollapseWords | backend/app/knowledge/store.py:171 | the collapsed text is the input's words joined by single spaces, plus one space for leading whitespace (unless it continues a run) and one for trailing whitespace; text without words becomes one space, or nothing inside a run |
| Knowledge.CollapsedIsTidy | backend/app/knowledge/store.py:170-171 | after the two substitutions the text is tidy |
| Knowledge.TidySlice | backend/app/knowledge/store.py:172 | a slice of tidy text is tidy |
| Knowledge.CleanText | backend/app/knowledge/store.py:169-172 | the output has no NUL, no whitespace at either end, and no two adjacent whitespace characters; its non-whitespace characters are exactly those of the input with NULs made spaces |
| Knowledge.CleanTextJoinsWords | backend/app/knowledge/store.py:169-172 | `_clean_text(text)` equals `" ".join(text.replace("\x00", " ").split())` for every text |
| Knowledge.StripKeepsNonSpace | backend/app/knowledge/store.py:172 | stripping removes whitespace only |
| Knowledge.StripKeepsTidy | backend/app/knowledge/store.py:172 | stripping tidy text makes it clean |
| Knowledge.CollapseKeeps | backend/app/knowledge/store.py:171 | collapsing changes nothing in text that has only single spaces |
| Knowledge.CleanTextKeepsClean | backend/app/knowledge/store.py:169-172 | clean text cleans to itself |
| Knowledge.CleanTextIdempotent | backend/app/knowledge/store.py:169-172 | cleaning twice is cleaning once |
| Knowledge.RFindSpace | backend/app/knowledge/store.py:189 | `rfind` returns the last space in the range, or -1 when there is none |
| Knowledge.WindowChunk | backend/app/knowledge/store.py:192 | a stripped window is a substring of the text inside the window |
| Knowledge.LastWindowChunk | backend/app/knowledge/store.py:186-194 | the window reaching the end strips to a non-empty suffix of the clean text |
| Knowledge.FirstWindowChunk | backend/app/knowledge/store.py:186-194 | the first window strips to something non-empty |
| Knowledge.WindowEnd | backend/app/knowledge/store.py:187-191 | the window ends after its start, at most max_chars on; before the text's end it ends at max_chars or at a space more than 200 characters in; when max_chars reaches past the end, it ends at the end |
| Knowledge.WindowStep | backend/app/knowledge/store.py:187-194 | a non-empty stripped window is a chunk (non-empty, ≤ max_chars, stripped, a substring at a known offset); the first and the last windows are non-empty |
| Knowledge.NextWindow | backend/app/knowledge/store.py:187-192 | one pass of the loop: the window end of `WindowEnd`, after the start, and its stripped text, a chunk when non-empty; the first and the last windows are non-empty, the last a suffix of the text |
| Knowledge.CleanIsStripped | backend/app/knowledge/store.py:180-181 | clean text is its own strip |
| Knowledge.ChunkText | backend/app/knowledge/store.py:175-198 | [] exactly for empty cleaned text; [cleaned] when it fits in max_chars; every chunk is non-empty, at most max_chars, stripped and a substring of the cleaned text; with overlap ≥ 0 the last chunk ends the text |
| Knowledge.Windows | backend/app/knowledge/store.py:183-198 | the loop terminates (window starts strictly increase) and yields a non-empty list of chunks, the last a suffix of the text |
| Knowledge.UsageAsDict | backend/app/knowledge/store.py:123-131 | a dictionary is kept; an object becomes the dictionary its `model_dump()` returns; anything else, a raising `model_dump()` or a non-dictionary result gives None |
| Knowledge.EmbeddingUsageDict | backend/app/knowledge/store.py:117-131 | the `usage` attribute is used when it is not None; the `usage` key only when the attribute is None and the response is a dictionary; otherwise None |
| Knowledge.OptionalInt | backend/app/knowledge/store.py:135-142 | `int(v)` or None: booleans are 0/1, integers themselves, strings parsed; None, and every value `int()` rejects, gives None |
| Knowledge.OptionalIntReadsDecimal | backend/app/knowledge/store.py:135-138 | a count sent as `str(n)`, padded with whitespace, reads back as `n` |
| Knowledge.EmbeddingChargesPrompt | backend/app/knowledge/store.py:116-147 | an SDK response whose `usage` object dumps to prompt `n` and total `m` is charged `n` input, 0 output, `n` total |
| Knowledge.EmbeddingFallsBackToTotal | backend/app/knowledge/store.py:133-147 | a dictionary response whose prompt count is None is charged its total |
| Knowledge.UsageFromEmbedding | backend/app/knowledge/store.py:116-147 | prompt_tokens, else total_tokens, charged as input = total with output 0; None exactly when there is no usage dictionary or neither field parses |
| Knowledge.LastSlash | backend/app/knowledge/store.py:227 | the position of the last `/`, or -1 |
| Knowledge.Basename | backend/app/knowledge/store.py:227 | `Path(filename).name` has no `/` and is never `.` (which component it is: `BasenameIsLastName`) |
| Knowledge.BasenameIsLastName | backend/app/knowledge/store.py:227 | the name is a whole `/`-separated component of the path after which every component is empty or `.`; with no such component the name is "" and every component is empty or `.` — so it is the last component that is neither |
| Knowledge.SanitizeFrom | backend/app/knowledge/store.py:227 | only `[A-Za-z0-9_.-]` characters remain; never longer than the input; empty exactly for empty input, or for input without an allowed character that continues a replaced run |
| Knowledge.SanitizeAllowed | backend/app/knowledge/store.py:227 | a run of allowed characters is copied unchanged |
| Knowledge.SanitizeRun | backend/app/knowledge/store.py:227 | a maximal run of disallowed characters becomes one `_` (nothing when it continues a run already replaced) |
| Knowledge.SanitizeAppend | backend/app/knowledge/store.py:227 | substitution over `a + b` is substitution over `a` followed by substitution over `b`, the latter knowing whether `a` ended inside a replaced run; with the two lemmas above this fixes the output of every input |
| Knowledge.SafeName | backend/app/knowledge/store.py:227 | never empty; only allowed characters; the substituted name when that is non-empty, else "upload"; "upload" when there is no name; an already-safe name is kept |
| Knowledge.SanitizeKeepsAllowed | backend/app/knowledge/store.py:227 | the substitution changes a name exactly when it has a disallowed character |
| Knowledge.SafeNameIdempotent | backend/app/knowledge/store.py:227 | a stored name sanitizes to itself |
| PyText.LStrip | backend/app/api/routes/agent.py:85 | no longer than the input, and starts with a non-space |
| PyText.RStrip | backend/app/api/routes/agent.py:85 | no longer than the input, and ends with a non-space |
| PyText.LStripSuffix | backend/app/api/routes/agent.py:85 | `lstrip` drops exactly a whitespace prefix |
| PyText.RStripPrefix | backend/app/api/routes/agent.py:85 | `rstrip` drops exactly a whitespace suffix |
| PyText.Strip | backend/app/api/routes/agent.py:85 | no longer than the input, with no whitespace at either end |
| PyText.StripSlice | backend/app/api/routes/agent.py:85 | `strip` is the slice between a whitespace prefix and a whitespace suffix |
| PyText.StripEmptyIffBlank | backend/app/api/routes/agent.py:85-87 | stripping leaves nothing exactly when the string is blank |
| PyText.StripOffset | backend/app/knowledge/store.py:192 | where the stripped string sits in the original |
| PyText.StripKeepsEnd | backend/app/knowledge/store.py:192 | a string ending in a non-space strips to a non-empty suffix |
| PyText.StripKeepsStart | backend/app/knowledge/store.py:192 | a string starting with a non-space strips to something non-empty |
| PyText.StripIdempotent | backend/app/api/routes/agent.py:85 | stripping twice is stripping once |
| PyText.ParseInt | backend/app/api/routes/agent.py:163 | an integer exactly when the stripped string is an optional sign followed by one or more ASCII digits; a parsed integer comes from a non-blank string |
| PyText.Digits | backend/app/api/routes/agent.py:163 | the decimal digits of a natural number read back as that number |
| PyText.ParseDecimal | backend/app/api/routes/agent.py:163 | `int()` of an integer's decimal form, whatever whitespace surrounds it, gives the integer back |
| PyText.StripPadded | backend/app/api/routes/agent.py:163 | whitespace around a string without edge whitespace strips off exactly |
| Sorting.Insert | backend/app/db/token_usage.py:170 | insertion adds exactly the one element |
| Sorting.InsertSorted | backend/app/db/token_usage.py:170 | insertion into an ordered sequence keeps it ordered |
| Sorting.Sort | backend/app/db/token_usage.py:170 | sorting is a permutation |
| Sorting.SortSorted | backend/app/db/token_usage.py:170 | under a total preorder, sorting yields an ordered sequence |
| Sorting.KeptByPermutation | backend/app/db/token_usage.py:113 | a permutation keeps every element |
| Sorting.PositionInPermutation | backend/app/db/token_usage.py:113 | an element of a sequence sits at some position of any permutation of it |
| Sorting.MatchLast | backend/app/db/token_usage.py:113 | the last element of a sequence can be matched in any permutation of it, leaving permutations of each other |
| Sorting.RemoveAt | backend/app/db/token_usage.py:113 | removing one position removes one occurrence |
| Sorting.RemoveAtKeys | backend/app/db/token_usage.py:112 | removing one element keeps keys distinct |
| Sorting.DistinctKeysKept | backend/app/db/token_usage.py:112-113 | ordering a sequence with distinct keys keeps them distinct |
| Values.KeyIndex | backend/app/api/routes/agent.py:411 | the first entry with the key, or -1 when there is none |

## Findings

| source | as written | input that shows it | evidently intended | confidence | as-written member | corrected member |
|---|---|---|---|---|---|---|
| backend/app/api/routes/agent.py:97-107 | each listed `TurnUsageRow` is read for `model_name`, a field the row type does not have, so the route raises `AttributeError` (answered as 500) | two recorded turns of `conv-1`, then `GET /agent/usage?conversation_id=conv-1&page=1&page_size=20` | items carry the row's own fields, and every valid page is served | high, not executed | UsageRoutes.UsageCrashExample | UsageRoutes.AgentUsageCorrected |

## Left out

- The agent SDK is left out: agent creation, `run`, `run_stream`, `get_new_thread` and `deserialize_thread`. What a call returned or raised is a parameter (`reply`, `call`, `serialized`). `resumed` says which thread would be deserialized. Awaitables are not distinguished from values.
- Exceptions raised before a turn starts are left out: a missing agent package when the agent is built, and the `ImportError`, `RuntimeError` and other handlers around building the stream response. The turn handlers map exceptions raised during a turn (`ErrorResponse`, `StreamEvents`). FastAPI routing, `StreamingResponse` and the `json.dumps` encoding of `_sse` are left out too: events are datatype values.
- The tiktoken branch of `_token_count` is a foreign tokenizer. Only the fallback path is modelled.
- `_fallback_model_name` reads the environment. It is the parameter `fallbackModel`.
- The fresh UUID of a new conversation is the parameter `generated`, because it is random.
- The `asyncio.Lock`, `asyncio.to_thread` and the async generator are concurrency. The cache is a plain sequential map.
- The ledger call from the turn handlers always raises `TypeError` (four positional arguments against three). The error is swallowed, so the turns take no ledger. The same call in `index_file` is not part of this model.
- The SQLite plumbing is left out: connections, schema and clock reads. `created_at` is an opaque string supplied to `Ledger.Record`.
- UsageLedger.Conversations: ties in `last_created_at DESC` are ordered by the insertion sort. Their order is not asserted, because SQLite leaves it unspecified.
- Records of other shapes are outside the record datatype:
  - a cached current record whose `stats` is not a dictionary;
  - a legacy record that carries its own `stats` key.
- UsageLedger.SummarizeUsage: SQLite's `SUM` raises an integer-overflow error when a total passes 2^63 - 1. The model adds without bound, so that error is not modelled.
- UsageLedger.Conversations: the same unbounded `SUM` holds for the per-conversation totals.
- UsageLedger.ListTurnUsagePage: binding a limit or offset past 2^63 - 1 raises OverflowError. The routes model this for the offset they compute, and the ledger functions take unbounded integers.
- Floats are left out: `_as_int` on a float, and `to_obj` on floats.
- PyText.ParseInt: `int()` of strings with underscores between digits or with non-ASCII digits is not modelled. Such strings read as not parsing.
- Python's `str()` of an arbitrary value is the parameter `render` of `ExtractText`.
- `to_obj` reaching `__dict__` through a raising property is not modelled. An object's attributes are its `__dict__`.
- `Path(filename).name` is modelled for `/`-separated paths. Windows drive and backslash handling is left out.
- Knowledge.ChunkText: requires `max_chars > 0`, `overlap < max_chars` and `overlap ≤ 200`. Under these every window starts later than the one before, so the loop ends. The source loops forever only when a window's end minus `overlap` is at or before its start, which depends on where spaces fall. So other arguments sometimes end too (2000 letters `a` with 900/300 give three chunks), but they are not modelled. The defaults 900/120 meet the bounds.
- Knowledge I/O is left out: Chroma, the embeddings client, PDF reading, file writes, `list_uploads`, `index_file`, `query_knowledge`, and `save_upload`'s write to disk under a UUID prefix.
- `agent_info`, the knowledge routes and the application wiring are not part of this model.
