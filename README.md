# Company news digest pipeline — a Dafny model

This project models the core of a service that writes a daily digest of the news about each tracked company. For each company it does the following:

- It checks an article-count gate in the `companies` table.
- It collects the ids of the company's recent `news_items`.
- It builds a semantic query and its embedding, and retrieves the matching passages from a vector index.
- It asks a language model for a JSON digest of facts and opinions, with citations. The digest goes through a schema validator, three stages of JSON salvage, a repair loop and a retry loop with exponential back-off. When all of that fails, a fixed-shape fallback digest is used.
- It extracts a deduplicated, score-sorted list of sources.
- It moves the company's checkpoint count forward only after certain outcomes.

The model has one module per concern:

| module | file | models |
|---|---|---|
| `Wrappers` | wrappers.dfy | `Option` |
| `Json` | json.dfy | JSON values as Python sees them: truthiness, `dict.get`, item assignment |
| `Text` | text.dfy | `str.strip`, `startswith`/`endswith`, substring search, `str(n)`, `sep.join` |
| `Passages` | passages.dfy | retrieved passages and their metadata fallbacks (`article_title` then `title`, and so on) |
| `DigestSchema` | digest_schema.dfy | `_validate_json_structure` |
| `JsonSalvage` | json_salvage.dfy | `_try_parse_json` |
| `Gemini` | gemini.dfy | `analyze_news`, `_fix_json_format`, `_generate_error_response`, `_format_news_for_analysis`, `generate_company_query` |
| `Supabase` | supabase.dfy | `SupabaseService`: the `companies` table and the `news_items` rows as the fields of class `CompanyStore` |
| `Sources` | sources.dfy | `NewsAnalyzer._extract_sources` |
| `Analyzer` | analyzer.dfy | class `NewsAnalyzer`: the single-company pipeline, the count checkpoint, the sweep over all companies |

The language model is a function `llm: nat -> Reply`, giving the reply to the k-th call. A reply is an answer text, an empty response, or a raised exception. Every generation, repair call and `time.sleep` is recorded in a trace of `Effect`s. This makes call counts and back-off pauses statable. `Gemini.Monitor` is an automaton that accepts exactly the traces paced as the source intends. It serves as the independent reference for the retry loop.

Every call of `SupabaseService` sends one request to the hosted database, and any request can raise. The store's oracle `down: nat -> bool` says which requests fail, by their position in the order they are sent, and the store counts the requests it has sent. A failing read and a successful one can therefore meet in a single analysis, and a failing write can follow a successful read. The analyzer's specifications carry the request index along. NULL columns that the code reads (`title`, the two article counts, `summary_24hrs`) are `Option` values.

Some operations are specified by a function, and the method that performs them carries a loop with invariants and is proved equal to that function. This is the case for the repair and retry loops, the passage formatter, source extraction, the news-id filters, and the sweep over companies. Further lemmas state what each function means.

## Model

| member | source | states |
|---|---|---|
| DigestSchema.ValidatorDecidesSchema | src/services/gemini_service.py:293-364 | The early-return validator accepts exactly the values where both `facts` and `opinions` are lists of topics with a `topic` and a list of `summaries`. Each summary must have `aspect`, `content` and a list of `citations`, and each citation must have `news_id` and `content`. |
| DigestSchema.CitationsValidSchema | src/services/gemini_service.py:333-337 | The citation loop accepts a list exactly when every element is a dict with `news_id` and `content`. |
| DigestSchema.SummariesValidSchema | src/services/gemini_service.py:324-337 | The summary loop accepts a list exactly when every element is a well-formed summary. |
| DigestSchema.TopicsValidSchema | src/services/gemini_service.py:315-337 | The topic loop accepts a list exactly when every element is a well-formed topic. |
| DigestSchema.AcceptsEmptyDigest | src/services/gemini_service.py:303-312 | `{"facts": [], "opinions": []}` is accepted. |
| DigestSchema.RejectsMalformedTop | src/services/gemini_service.py:303-312 | A non-dict, a dict missing `facts` or `opinions`, or either of them not being a list is rejected. |
| DigestSchema.RejectsTopicWithoutSummaries | src/services/gemini_service.py:318-319 | A fact or opinion without `summaries` is rejected. |
| DigestSchema.RejectsCitationWithoutNewsId | src/services/gemini_service.py:336-337 | A citation without `news_id`, at any depth, is rejected. |
| DigestSchema.FactsOpinionsSymmetric | src/services/gemini_service.py:315-362 | Facts and opinions are checked by the same rule: swapping them does not change the verdict. |
| DigestSchema.OtherKeysIgnored | src/services/gemini_service.py:303-364 | Keys other than `facts` and `opinions`, such as the `status` added later, do not affect the verdict. |
| DigestSchema.ValidDigestIsTruthy | src/services/gemini_service.py:179 | A value that passes the schema is truthy, so `result and valid` reduces to `valid`. |
| JsonSalvage.TryParseJson | src/services/gemini_service.py:257-262 | Empty text parses to nothing. Text that `json.loads` accepts is returned as loaded, with no cleanup. |
| JsonSalvage.ParsedFromCandidate | src/services/gemini_service.py:257-291 | Any parse result comes from `json.loads` of one of three texts: the raw text, the fence-cleaned text, or the greedy brace span of the cleaned text. |
| JsonSalvage.UnwrapsJsonFence | src/services/gemini_service.py:267-276 | A reply wrapped, with any surrounding white space, in a fence opened by three backquotes and `json` is cleaned to its trimmed body. |
| JsonSalvage.UnwrapsBareFence | src/services/gemini_service.py:267-276 | A bare three-backquote fence whose body does not begin with `json` is cleaned to its trimmed body. |
| JsonSalvage.CleanupKeepsTrimmedText | src/services/gemini_service.py:267-276 | Text without surrounding white space or backquotes passes cleanup unchanged. |
| JsonSalvage.GreedyBraceSpan | src/services/gemini_service.py:284 | A span exists exactly when some `{` precedes some `}`. It runs from the first `{` to the last `}` of the text. |
| JsonSalvage.SpanIsGreedyNotBalanced | src/services/gemini_service.py:284 | On `{} {}` the span is the whole text, not the first balanced object. |
| JsonSalvage.SpanOfObjectInProse | src/services/gemini_service.py:284 | An object placed between prose with no `{` before it and no `}` after it is exactly the span. |
| JsonSalvage.RecoversFencedReply | src/services/gemini_service.py:257-279 | A fenced reply that `json.loads` rejects whole, but whose trimmed body it accepts, parses to that body. |
| JsonSalvage.RecoversObjectInProse | src/services/gemini_service.py:257-287 | An object embedded in prose is recovered by the third stage. |
| Gemini.FixJsonFormat | src/services/gemini_service.py:428-449 | The repair loop returns only truthy, schema-valid objects. It makes at most 3 calls. It equals `RepairFrom`. |
| Gemini.RepairReturnsUsable | src/services/gemini_service.py:437-441 | Any object that a repair run returns passed the schema. |
| Gemini.AttemptAt | src/services/gemini_service.py:166-189 | An attempt generates once, with reply `llm(k)`, and may repair after that. It ends with no text exactly when the reply has no text. |
| Gemini.AttemptAcceptsUsable | src/services/gemini_service.py:178-189 | An attempt accepts only a truthy object that passed the schema, whether it came directly or through repair. |
| Gemini.AnalyzeNews | src/services/gemini_service.py:58-205 | The retry loop's digest and trace equal `AnalyzeNewsSpec`. |
| Gemini.NoPassagesNoCall | src/services/gemini_service.py:70-76 | With no passages the answer is `no_data` with empty facts and opinions. The trace is empty, so no model call is made. |
| Gemini.AnalyzeNewsOutcome | src/services/gemini_service.py:161-205 | On passages, the digest always passes the schema. Its status is `success` exactly when some attempt was accepted. Otherwise it is the fallback, carrying the error text of the last attempt. |
| Gemini.GenerateOutcome | src/services/gemini_service.py:196-205 | A degraded run explains its error: the text of the exception from the last attempt, or the exhaustion message when that attempt produced an unusable answer. |
| Gemini.AnalyzeNewsPaced | src/services/gemini_service.py:161-199 | The monitor accepts the whole trace with no pause pending. There are at most `max_retries` generations. Every back-off is `2^attempt` seconds, falls between generations and never follows the last one. Repairs pause 1 s between tries. There are at most 4 model calls per attempt. |
| Gemini.GeneratePaced | src/services/gemini_service.py:161-199 | From any attempt on, the remaining trace is accepted by the monitor. |
| Gemini.RunWithinBudget | src/services/gemini_service.py:161-199 | Along an accepted trace the number of model calls stays within `(3 + 1)` per generation attempt. |
| Gemini.RepairPaced | src/services/gemini_service.py:428-446 | A repair run is accepted by the monitor and makes as many calls as it reports. |
| Gemini.AttemptPaced | src/services/gemini_service.py:166-189 | One attempt is one generation followed by its repair calls. The call count matches. |
| Gemini.AttemptSound | src/services/gemini_service.py:166-189 | Every attempt has the properties the loop relies on: at least one call, its reply as the last generation, and its pacing. |
| Gemini.GenerateMakesCall | src/services/gemini_service.py:161-172 | With at least one attempt left, the loop makes a generation call. |
| Gemini.RepairHasNoGeneration | src/services/gemini_service.py:428-449 | Repair calls are not generation calls, so they never change which exception is reported. |
| Gemini.FallbackShape | src/services/gemini_service.py:451-497 | The fallback passes the schema. Its status is `partial_success`, with the given error and empty opinions. It has exactly one fact, with one summary and one citation. The citation holds the first passage's `news_id` (default 未知ID) and its title cut to 100 characters. |
| Gemini.FirstPassSucceeds | src/services/gemini_service.py:178-182 | When the first reply is accepted at once, the digest is that object with status `success`, after one generation and nothing else. |
| Gemini.AcceptedAtOnce | src/services/gemini_service.py:177-182 | A reply whose text parses to a usable object is accepted without a repair call. |
| Gemini.FencedReplyFirstShot | src/services/gemini_service.py:177-182 | A first reply holding a valid digest in a code fence succeeds on the first call, with no repair. |
| Gemini.FormatNewsForAnalysis | src/services/gemini_service.py:207-245 | The loop's text is the newline-join of one block per passage, in order. |
| Gemini.FormattedShowsEveryPassage | src/services/gemini_service.py:219-245 | Every passage's block, and its `news_id` header, appears verbatim in the text at that block's offset. |
| Gemini.ShortContentFlagged | src/services/gemini_service.py:232-233 | Content shorter than 200 characters brings the short-content note into its block. |
| Gemini.QueryRoundTrip | src/services/gemini_service.py:46-56 | The company can be read back from its query, so different companies get different queries. |
| Supabase.CompanyStore.GetCompanies | src/services/supabase_service.py:10-22 | Every row in table order, or [] when the request fails. One request is sent. |
| Supabase.CompanyStore.GetCompanyArticleCounts | src/services/supabase_service.py:189-210 | The first row with the id gives its two counts, None for a NULL column. A missing row or a failed request gives (0, 0). |
| Supabase.CompanyStore.ShouldAnalyzeCompany | src/services/supabase_service.py:212-233 | The answer is `(current != last, current)` on the counts read. |
| Supabase.Gate | src/services/supabase_service.py:222-230 | Analysis happens exactly when the counts differ, up or down. A NULL count differs from every number and equals only another NULL. The current count is reported. |
| Supabase.MissingRowIsSkipped | src/services/supabase_service.py:199-210 | A company with no row is skipped with count 0. |
| Supabase.CompanyStore.UpdateLastArticleCount | src/services/supabase_service.py:235-258 | Every row with the id gets `last_article_count_24hrs` set to the new count, NULL for None. The rest of the table is unchanged. A failed request is reported and writes nothing. |
| Supabase.SetLastCountChangesOnlyLast | src/services/supabase_service.py:249-251 | The checkpoint write changes no other field and no other row. |
| Supabase.CommitClosesGate | src/services/supabase_service.py:222-251 | Writing the current count as checkpoint closes the gate for that id, a NULL count included. |
| Supabase.CompanyStore.UpdateCompanySummary | src/services/supabase_service.py:127-168 | An empty summary (no analysis and news count 0) writes NULL. Otherwise the caller's dict gains `updated_at`, also when the request then fails, and its serialisation is written. |
| Supabase.CompanyStore.GetCompanyByName | src/services/supabase_service.py:170-187 | The first row carrying the name, or none when there is no such row or the request fails. |
| Supabase.RowNamedIsFirst | src/services/supabase_service.py:181-183 | The row found is the first with that name. A row is found exactly when one has the name. |
| Supabase.RowWithIdIsFirst | src/services/supabase_service.py:200-202 | The row read is the first with that id. A row is read exactly when one has the id. |
| Supabase.CompanyStore.GetCompanyNewsIds | src/services/supabase_service.py:64-125 | The ids of the recent items that name the company, in table order. The answer is [] when the request fails or when one of those items has a NULL title. |
| Supabase.FilterCompanyNews | src/services/supabase_service.py:98-125 | The loop keeps the id of each row that names the company. A kept row with a NULL title makes `title[:50]` raise, so the handler answers []. |
| Supabase.UntitledMatchSnoc | src/services/supabase_service.py:98-106 | One more row raises exactly when it passes the company test and has a NULL title. |
| Supabase.UntitledMatchIsUntitledMention | src/services/supabase_service.py:85-106 | The loop raises exactly when some item published at or after the threshold names the company and has a NULL title. |
| Supabase.CompanyFilterMembers | src/services/supabase_service.py:85-103 | The filter keeps an id exactly when some item with it was published at or after the threshold and names the company inside one of its `companies` strings. |
| Supabase.CompanyNewsIdsMembers | src/services/supabase_service.py:77-125 | An id is reported exactly when some recent item with it names the company and no recent item naming the company has a NULL title. |
| Supabase.MentionsIsContainment | src/services/supabase_service.py:99-102 | The exact-element test adds nothing to the substring test. |
| Supabase.CompanyStore.GetRecentNewsIds | src/services/supabase_service.py:24-62 | The ids of the recent items that list one of the names as an element, in table order, or [] when the request fails. |
| Supabase.FilterRecentNews | src/services/supabase_service.py:50-58 | The loop keeps the id of each row that lists one of the names. |
| Supabase.RecentIdsWithinCompanyIds | src/services/supabase_service.py:50-58 | For a single name, the recent-ids filter keeps a subsequence of what the company filter keeps. |
| Supabase.IdsWhereMembers | src/services/supabase_service.py:98-103 | An id is kept exactly when an item with it passes the test. |
| Supabase.IdsWhereAppend | src/services/supabase_service.py:98-103 | Filtering is compositional over stretches of the table, so order is kept. |
| Sources.ExtractSources | src/core/analyzer.py:257-291 | The loop with the `seen_urls` set, followed by the sort, equals sorting the collected records. |
| Sources.CollectedDistinct | src/core/analyzer.py:270-287 | No collected URL is empty, and none is collected twice. |
| Sources.CollectedFirstSeen | src/core/analyzer.py:270-287 | Each record is built from the first passage carrying its URL. |
| Sources.CollectedComplete | src/core/analyzer.py:270-287 | Every non-empty URL among the passages is collected. |
| Sources.CollectedLength | src/core/analyzer.py:270-287 | There is at most one record per passage. |
| Sources.ExtractedSorted | src/core/analyzer.py:290 | The output is non-increasing in score, a permutation of the collected records, and stable on equal scores. It is no longer than the input. |
| Sources.ExtractedDistinct | src/core/analyzer.py:270-290 | After the sort, URLs are still distinct and non-empty, and each record still comes from its URL's first passage. |
| Sources.ExtractedComplete | src/core/analyzer.py:270-290 | Every non-empty passage URL appears in the output. |
| Sources.SortByScoreSpec | src/core/analyzer.py:290 | The sort is sorted, a permutation, and stable. |
| Sources.SortIsUnique | src/core/analyzer.py:290 | Any stable descending sort of the records equals this one. |
| Sources.InsertSorted | src/core/analyzer.py:290 | Inserting into a sorted list keeps it sorted. |
| Sources.InsertStable | src/core/analyzer.py:290 | Insertion keeps the order among records of equal score. |
| Sources.Round3 | src/core/analyzer.py:284 | `round(score, 3)` is the nearest thousandth, with ties going to the even one. |
| Sources.Round3Monotone | src/core/analyzer.py:284 | Rounding preserves score order. |
| Sources.UrlsOfMembers | src/core/analyzer.py:268-287 | The `seen_urls` set holds exactly the URLs of the records so far. |
| Analyzer.NewsAnalyzer.AnalyzeSingleCompany | src/core/analyzer.py:121-255 | The straight-line stages equal `SingleCompany`, on whether the store's next request succeeds. Exactly one request is sent. |
| Analyzer.SingleCompanyStages | src/core/analyzer.py:142-255 | No ids give `no_news` with count 0. No query vector gives None. No passages give `no_vector_data` with the id count and message. An exception gives `error` with its text, count 0, no analysis and no sources. |
| Analyzer.DigestResult | src/core/analyzer.py:220-241 | Past retrieval, the count is the number of ids, the analysis is the digest, and the sources are the extracted ones. The status is `success` exactly when the generation loop succeeded, and `partial_success` otherwise. |
| Analyzer.SourcesAreCompanyNews | src/core/analyzer.py:257-291 | When retrieval honours its `news_id in ids` filter, every source is one of the company's news items. |
| Analyzer.NewsAnalyzer.AnalyzeWithCountUpdate | src/core/analyzer.py:72-119 | The result, the new table and the requests sent equal `CountUpdate` from the old state. |
| Analyzer.ZeroCountSkipsPipeline | src/core/analyzer.py:86-105 | A zero count answers `no_news` with nothing in it and checkpoints 0, unless that write fails. The answer is the same whatever the services and news would give. |
| Analyzer.CheckpointRule | src/core/analyzer.py:107-119 | For any other count, NULL included, the result is the pipeline's. The checkpoint moves to exactly the gate-time count when the status is `success`, `no_news` or `no_vector_data` and the write succeeds. A failed write leaves the table as it was while the result is still returned. After `partial_success`, `error` or no result, nothing is written. |
| Analyzer.FailedWriteKeepsResult | src/core/analyzer.py:111-119 | Whether the checkpoint write fails changes neither the result nor the number of requests. |
| Analyzer.UntitledNewsReadsAsNoNews | src/core/analyzer.py:136-151 | When a recent item naming the company has a NULL title, the company is answered `no_news` with count 0, and that answer commits the checkpoint. |
| Analyzer.CommitClosesCompanyGate | src/core/analyzer.py:86-113 | When the checkpoint is written, the company's gate is closed. This holds for the zero-count write and for the write after a committing status, whenever that write succeeds. |
| Analyzer.NewsAnalyzer.VisitCompany | src/core/analyzer.py:48-67 | One turn of the loop equals `Visit`: it reads the counts, then skips the company or runs the checkpointed analysis and keeps a non-None result. |
| Analyzer.NewsAnalyzer.AnalyzeAllCompanies | src/core/analyzer.py:25-70 | The loop's results, counters, table and requests equal the sweep `AllCompanies` from the old state. |
| Analyzer.SweepCounts | src/core/analyzer.py:57-67 | `analyzed_count` equals the number of results. Analysed plus skipped is at most the number of companies. |
| Analyzer.SweepResults | src/core/analyzer.py:48-67 | The results are exactly the non-None results of the companies whose gate was open, in listing order. Each is the one its checkpointed analysis gave after the sweep of the companies before it. |
| Analyzer.SweepNames | src/core/analyzer.py:48-64 | Every result is for a company of the listing. |
| Analyzer.SweepChangesOnlyLastCounts | src/core/analyzer.py:48-67 | The sweep changes no field of the table except the checkpoints. |
| Analyzer.UnchangedCountIsSkipped | src/core/analyzer.py:55-67 | A company whose counts did not move, or whose count read fails, is counted as skipped, and nothing is written. |
| Analyzer.NoCompaniesNoResults | src/core/analyzer.py:36-40 | No companies, or a failed listing request, give [] and write nothing. |

## Left out

- Output, logging and `traceback.print_exc()` are not modelled; the model writes nothing.
- Console previews and debug output in `analyze_single_company` are not modelled, except that any exception they raise is covered by the `fault` oracle.
- Prompt text: the model does not check the Chinese prompt prose. The prompt's content never influences control flow; the model's replies are given by `llm`.
- `generate_embedding` is the oracle `embed`. Its exception handler makes a failure yield the empty vector, so [] stands for failure.
- `search_with_semantic_and_metadata` (pinecone_service.py) is the oracle `search`. Only its `news_id in ids` filter is used, as a hypothesis of `Analyzer.SourcesAreCompanyNews`.
- Where exactly an exception inside `analyze_single_company` arises is not modelled. The formatter, previews, `round` and the metadata lookups can only raise on ill-typed records. Which retrieved lists raise, and with what text, is the oracle `fault`.
- `json.loads` is the oracle `Loads`; `json.dumps` is a parameter of `UpdateCompanySummary`. The regular-expression engine is replaced by `GreedyBraceSpan`, the greedy first-`{`-to-last-`}` match.
- Time: `datetime.now()` is the parameter `now`, in seconds. `time.sleep` is recorded as a `Sleep` effect rather than waited for. Time comparisons use integer seconds instead of ISO strings. A whole sweep is modelled at a single instant `env.now`, while the source reads the clock again on every query, so its time window shifts slightly from company to company.
- The `llm` oracle is indexed per company, so each company's analysis starts its own call count at 0.
- Floating point is not modelled. Similarity scores are integers in millionths, and `round(score, 3)` gives thousandths with ties to even. Python rounds a binary double, so a decimal tie such as 0.0005 may round differently there.
- The list sort is modelled as a functional stable insertion sort on a `seq`, not as an in-place sort of Python's list object; `list.sort` is a foreign call.
- Record types: every metadata value is a string or absent, and a row always has `id` and `name`. A non-string value, or the `未知公司` default for a missing name, is not modelled. NULL is modelled (as None) for the columns whose NULL changes what the code does: `title`, the two article counts and `summary_24hrs`. A NULL `published_at` is not modelled, because the `.gte` filter drops such rows; a NULL `companies` is the empty list, which the code treats the same way.
- JSON numbers are integers (`JNum(int)`). A reply holding a float is not represented exactly. Nothing in the digest schema or the pipeline reads a number from a reply.
- A request fails or succeeds as a whole. A write that partly lands before raising is not modelled.
- The `(True, 0)` branch of `should_analyze_company` is not modelled. It needs an exception escaping `get_company_article_counts`, which catches everything itself.
- Analyzer.StatusOf: a `status` value that is not a string is folded into "success". `Analyzer.DigestResult` proves that only `success` or `partial_success` strings reach it.
- Analyzer.SweepCounts: states the bound `analyzed + skipped <= |companies|`. The exact split of gate-true and gate-false companies is given by the definition `Visit` rather than by a separate count.
- `src/main.py`, `run_analysis.py`, `src/utils/formatter.py` and `src/config/database.py` are glue, report rendering and configuration, and are not part of this model.
