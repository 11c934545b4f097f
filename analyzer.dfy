/**
 * `NewsAnalyzer` (src/core/analyzer.py): the per-company pipeline (news ids
 * from the store, a query embedding, retrieval, the digest, the sources), the
 * article-count checkpoint around it, and the sweep over all companies.
 *
 * The collaborators other than the store are oracles gathered in `Services`:
 * the embedding call, the vector search, the `json.loads` behind the digest
 * parser `Salvager(loads)`, the language model's replies for each company's
 * analysis, the clock, and `fault`, the exception (if any) that processing a
 * list of retrieved records raises inside the pipeline.
 */
module Analyzer {
  import opened Wrappers
  import opened Json
  import opened Text
  import opened Passages
  import opened JsonSalvage
  import opened Gemini
  import opened Sources
  import opened Supabase

  datatype Services = Services(
    loads: Loads,
    llm: string -> Model,
    embed: string -> seq<int>,
    search: (seq<int>, seq<string>, string, int, nat) -> seq<Passage>,
    fault: seq<Passage> -> Option<string>,
    now: int)

  /** The `top_k` of the retrieval call. */
  const TopK: nat := 50

  const StatusNoNews := "no_news"
  const StatusNoVectorData := "no_vector_data"
  const StatusError := "error"
  const ZeroCountMessage := "当前24小时内无文章"

  /** The result dictionary of one company; `None` for a key the dictionary does not have. */
  datatype CompanyResult = CompanyResult(
    company: string,
    newsCount: nat,
    analysis: Option<JValue>,
    sources: seq<Source>,
    timeRangeHours: int,
    status: string,
    message: Option<string>,
    error: Option<string>)

  function NoVectorMessage(count: nat): string {
    "找到" + Decimal(count) + "条新闻记录，但向量数据库中无对应内容"
  }

  /** `analysis_result.get('status', 'success')` on the digest. */
  function StatusOf(digest: JValue): string {
    match Get(digest, "status")
    case Some(JStr(s)) => s
    case _ => StatusSuccess
  }

  /** The statuses after which the checkpoint is committed. */
  predicate Commits(status: string) {
    status == StatusSuccess || status == StatusNoNews || status == StatusNoVectorData
  }

  // ---------------------------------------------------------------------------
  // `analyze_single_company` as a specification

  /** The ids `get_company_news_ids` reports. */
  function NewsIdsFor(online: bool, items: seq<NewsItem>, company: string, hours: int, now: int): seq<string> {
    if online then CompanyNewsIds(items, company, hours, now) else []
  }

  /** The result once passages were retrieved for the ids. */
  function ResultOnPassages(env: Services, company: string, ids: seq<string>, news: seq<Passage>, hours: int): CompanyResult {
    match env.fault(news)
    case Some(e) => CompanyResult(company, 0, None, [], hours, StatusError, None, Some(e))
    case None =>
      var digest := AnalyzeNewsSpec(Salvager(env.loads), company, news, DefaultMaxRetries, env.llm(company)).digest;
      CompanyResult(company, |ids|, Some(digest), SortByScore(Collected(news)), hours, StatusOf(digest), None, None)
  }

  /** `analyze_single_company(company_name, hours)`; `None` when no query vector could be made. */
  function SingleCompany(env: Services, online: bool, items: seq<NewsItem>, company: string, hours: int): Option<CompanyResult> {
    var ids := NewsIdsFor(online, items, company, hours, env.now);
    if ids == [] then Some(CompanyResult(company, 0, None, [], hours, StatusNoNews, None, None))
    else
      var vector := env.embed(CompanyQuery(company));
      if vector == [] then None
      else
        var news := env.search(vector, ids, company, hours, TopK);
        if news == [] then Some(CompanyResult(company, |ids|, None, [], hours, StatusNoVectorData, Some(NoVectorMessage(|ids|)), None))
        else Some(ResultOnPassages(env, company, ids, news, hours))
  }

  /**
   * Each stage that comes back empty has its own answer: no ids give
   * "no_news" with count 0, no query vector gives None, no passages give
   * "no_vector_data" with the id count, and an exception gives "error" with
   * its text, count 0 and no analysis.
   */
  lemma SingleCompanyStages(env: Services, online: bool, items: seq<NewsItem>, company: string, hours: int)
    ensures var ids := NewsIdsFor(online, items, company, hours, env.now);
      var r := SingleCompany(env, online, items, company, hours);
      var vector := env.embed(CompanyQuery(company));
      var news := env.search(vector, ids, company, hours, TopK);
      && (ids == [] ==> r.Some? && r.value.status == StatusNoNews && r.value.newsCount == 0
                        && r.value.analysis.None? && r.value.sources == [])
      && (ids != [] && vector == [] ==> r.None?)
      && (ids != [] && vector != [] && news == [] ==>
            r.Some? && r.value.status == StatusNoVectorData && r.value.newsCount == |ids|
            && r.value.analysis.None? && r.value.sources == [] && r.value.message == Some(NoVectorMessage(|ids|)))
      && (ids != [] && vector != [] && news != [] && env.fault(news).Some? ==>
            r.Some? && r.value.status == StatusError && r.value.error == env.fault(news)
            && r.value.newsCount == 0 && r.value.analysis.None? && r.value.sources == [])
      && (r.Some? ==> r.value.company == company && r.value.timeRangeHours == hours)
  {
  }

  /**
   * A pipeline that reached the digest reports every id the store found, the
   * digest, and the sources of the passages; its status is "success" exactly
   * when the generation loop succeeded, and "partial_success" otherwise.
   */
  lemma DigestResult(env: Services, company: string, ids: seq<string>, news: seq<Passage>, hours: int)
    requires news != [] && env.fault(news).None?
    ensures var r := ResultOnPassages(env, company, ids, news, hours);
      var run := AnalyzeNewsSpec(Salvager(env.loads), company, news, DefaultMaxRetries, env.llm(company));
      && r.newsCount == |ids| && r.analysis == Some(run.digest) && r.sources == SortByScore(Collected(news))
      && (r.status == StatusSuccess || r.status == StatusPartialSuccess)
      && (r.status == StatusSuccess
          <==> GenerateFrom(ServicePasses(Salvager(env.loads), env.llm(company)), DefaultMaxRetries, 0, 0).outcome.Succeeded?)
  {
    var run := AnalyzeNewsSpec(Salvager(env.loads), company, news, DefaultMaxRetries, env.llm(company));
    AnalyzeNewsOutcome(Salvager(env.loads), company, news, DefaultMaxRetries, env.llm(company));
    if Get(run.digest, "status") != Some(JStr(StatusSuccess)) {
      FallbackShape(company, news, ErrorFor(LastGenerated(run.effects)));
      assert StatusSuccess != StatusPartialSuccess by { assert |StatusSuccess| != |StatusPartialSuccess|; }
    }
  }

  /** When retrieval honours its `news_id in ids` filter, every reported source is one of the company's news items. */
  lemma SourcesAreCompanyNews(news: seq<Passage>, ids: seq<string>, i: nat)
    requires forall p :: p in news ==> p.metadata.newsId.Some? && p.metadata.newsId.value in ids
    requires i < |SortByScore(Collected(news))|
    ensures SortByScore(Collected(news))[i].newsId in ids
  {
    ExtractedDistinct(news);
    var r := SortByScore(Collected(news));
    var j :| FirstWithUrl(news, r[i].url, j) && r[i] == ToSource(news[j]);
    assert news[j] in news;
  }

  // ---------------------------------------------------------------------------
  // `analyze_single_company_with_count_update` as a specification

  /** A result, the `companies` table after it, and the number of store requests sent by then. */
  datatype Checkpointed = Checkpointed(result: Option<CompanyResult>, table: seq<CompanyRow>, requests: nat)

  /** The table after the checkpoint write sent as request `k`: unchanged when that request fails. */
  function Checkpoint(down: nat -> bool, k: nat, table: seq<CompanyRow>, id: string, n: Option<int>): seq<CompanyRow> {
    if down(k) then table else SetLastCount(table, id, n)
  }

  /** From the `k`-th store request on: the zero-count answer, or the pipeline and then the checkpoint after a committing status. */
  function CountUpdate(env: Services, down: nat -> bool, k: nat, table: seq<CompanyRow>, items: seq<NewsItem>,
                       company: string, id: string, current: Option<int>, hours: int): Checkpointed
  {
    if current == Some(0) then
      Checkpointed(Some(CompanyResult(company, 0, None, [], hours, StatusNoNews, Some(ZeroCountMessage), None)),
                   Checkpoint(down, k, table, id, Some(0)), k + 1)
    else
      var r := SingleCompany(env, !down(k), items, company, hours);
      if r.Some? && Commits(r.value.status) then Checkpointed(r, Checkpoint(down, k + 1, table, id, current), k + 2)
      else Checkpointed(r, table, k + 1)
  }

  /**
   * A company with no current articles is answered "no_news" with nothing in
   * it and checkpointed at 0 (unless that write fails), whatever the services
   * and news items would have given: the pipeline does not run.
   */
  lemma ZeroCountSkipsPipeline(env: Services, env': Services, down: nat -> bool, k: nat, table: seq<CompanyRow>,
                               items: seq<NewsItem>, items': seq<NewsItem>, company: string, id: string, hours: int)
    ensures var c := CountUpdate(env, down, k, table, items, company, id, Some(0), hours);
      && c == CountUpdate(env', down, k, table, items', company, id, Some(0), hours)
      && c.result.Some? && c.result.value.status == StatusNoNews && c.result.value.newsCount == 0
      && c.result.value.analysis.None? && c.result.value.sources == []
      && c.table == (if down(k) then table else SetLastCount(table, id, Some(0)))
      && c.requests == k + 1
  {
  }

  /**
   * Otherwise (a NULL count included) the result is the pipeline's, and the
   * checkpoint moves to the gate-time count exactly when the status is
   * "success", "no_news" or "no_vector_data" and the write that follows
   * succeeds; after "partial_success", "error" or no result nothing is
   * written and the table is unchanged.
   */
  lemma CheckpointRule(env: Services, down: nat -> bool, k: nat, table: seq<CompanyRow>, items: seq<NewsItem>,
                       company: string, id: string, current: Option<int>, hours: int)
    requires current != Some(0)
    ensures var c := CountUpdate(env, down, k, table, items, company, id, current, hours);
      var commits := c.result.Some? && Commits(c.result.value.status);
      && c.result == SingleCompany(env, !down(k), items, company, hours)
      && (commits && !down(k + 1) ==> c.table == SetLastCount(table, id, current))
      && (commits && down(k + 1) ==> c.table == table)
      && (!commits ==> c.table == table)
      && c.requests == (if commits then k + 2 else k + 1)
      && (c.result.Some? && (c.result.value.status == StatusPartialSuccess || c.result.value.status == StatusError) ==> c.table == table)
  {
  }

  /** A failed checkpoint write is only reported: the result is the one a successful write would come with. */
  lemma FailedWriteKeepsResult(env: Services, down: nat -> bool, down': nat -> bool, k: nat, table: seq<CompanyRow>,
                               items: seq<NewsItem>, company: string, id: string, current: Option<int>, hours: int)
    requires down(k) == down'(k)
    ensures var c := CountUpdate(env, down, k, table, items, company, id, current, hours);
      var c' := CountUpdate(env, down', k, table, items, company, id, current, hours);
      c.result == c'.result && c.requests == c'.requests
  {
  }

  /**
   * A company whose recent news includes an untitled item mentioning it is
   * answered "no_news" with count 0, and that answer commits the checkpoint.
   */
  lemma UntitledNewsReadsAsNoNews(env: Services, down: nat -> bool, k: nat, table: seq<CompanyRow>, items: seq<NewsItem>,
                                  company: string, id: string, current: Option<int>, hours: int, item: NewsItem)
    requires current != Some(0) && !down(k)
    requires item in items && item.title.None? && RecentMention(item, company, env.now - hours * SecondsPerHour)
    ensures var c := CountUpdate(env, down, k, table, items, company, id, current, hours);
      && c.result.Some? && c.result.value.status == StatusNoNews && c.result.value.newsCount == 0
      && c.table == (if down(k + 1) then table else SetLastCount(table, id, current))
  {
    UntitledMatchIsUntitledMention(items, company, env.now - hours * SecondsPerHour);
  }

  /**
   * Committing the count read at the gate closes the gate: once the
   * checkpoint is written, the next sweep skips the company until its count
   * moves.
   */
  lemma CommitClosesCompanyGate(env: Services, down: nat -> bool, k: nat, table: seq<CompanyRow>, items: seq<NewsItem>,
                                company: string, id: string, hours: int)
    ensures var current := CountsOf(table, id).0;
      var c := CountUpdate(env, down, k, table, items, company, id, current, hours);
      var r := SingleCompany(env, !down(k), items, company, hours);
      && (current == Some(0) && !down(k) ==> !Gate(CountsOf(c.table, id)).0)
      && (current != Some(0) && r.Some? && Commits(r.value.status) && !down(k + 1) ==> !Gate(CountsOf(c.table, id)).0)
      && (c.table != table ==> !Gate(CountsOf(c.table, id)).0)
  {
    CommitClosesGate(table, id);
  }

  // ---------------------------------------------------------------------------
  // `analyze_all_companies` as a specification

  /** The sweep so far: the results, the two counters, the table and the number of store requests sent. */
  datatype Sweep = Sweep(results: seq<CompanyResult>, analyzed: nat, skipped: nat, table: seq<CompanyRow>, requests: nat)

  /** One turn of the sweep's loop: read the counts, skip a company whose counts did not move, else analyse and keep a non-None result. */
  function Visit(env: Services, down: nat -> bool, items: seq<NewsItem>, hours: int, s: Sweep, row: CompanyRow): Sweep {
    var (should, current) := Gate(if down(s.requests) then NoCounts else CountsOf(s.table, row.id));
    if !should then s.(skipped := s.skipped + 1, requests := s.requests + 1)
    else
      var c := CountUpdate(env, down, s.requests + 1, s.table, items, row.name, row.id, current, hours);
      if c.result.Some? then Sweep(s.results + [c.result.value], s.analyzed + 1, s.skipped, c.table, c.requests)
      else s.(table := c.table, requests := c.requests)
  }

  /** The sweep over the first companies `rows` of the listing, from the table `table` and the `k`-th request. */
  function SweepOf(env: Services, down: nat -> bool, items: seq<NewsItem>, hours: int, table: seq<CompanyRow>, k: nat,
                   rows: seq<CompanyRow>): Sweep
    decreases |rows|
  {
    if rows == [] then Sweep([], 0, 0, table, k)
    else Visit(env, down, items, hours, SweepOf(env, down, items, hours, table, k, rows[..|rows| - 1]), rows[|rows| - 1])
  }

  /** `analyze_all_companies(hours)` from the `k`-th request on: the sweep over the listing `get_companies` gives. */
  function AllCompanies(env: Services, down: nat -> bool, k: nat, table: seq<CompanyRow>, items: seq<NewsItem>, hours: int): Sweep {
    SweepOf(env, down, items, hours, table, k + 1, if down(k) then [] else table)
  }

  /** All rows agree except perhaps in `last_article_count_24hrs`. */
  predicate SameButLastCounts(a: seq<CompanyRow>, b: seq<CompanyRow>) {
    |a| == |b| && forall i :: 0 <= i < |a| ==> a[i].(lastCount := None) == b[i].(lastCount := None)
  }

  lemma SetLastCountSameButLast(rows: seq<CompanyRow>, id: string, n: Option<int>)
    ensures SameButLastCounts(rows, SetLastCount(rows, id, n))
  {
    forall i | 0 <= i < |rows|
      ensures rows[i].(lastCount := None) == SetLastCount(rows, id, n)[i].(lastCount := None)
    {
      SetLastCountChangesOnlyLast(rows, id, n, i);
    }
  }

  lemma VisitSameButLast(env: Services, down: nat -> bool, items: seq<NewsItem>, hours: int, s: Sweep, row: CompanyRow)
    ensures var s' := Visit(env, down, items, hours, s, row);
      SameButLastCounts(s.table, s'.table)
      && s'.results == s.results + (if |s'.results| == |s.results| then [] else [s'.results[|s.results|]])
  {
    var current := (if down(s.requests) then NoCounts else CountsOf(s.table, row.id)).0;
    if current == Some(0) {
      SetLastCountSameButLast(s.table, row.id, Some(0));
    } else {
      SetLastCountSameButLast(s.table, row.id, current);
    }
  }

  /** The sweep counts one analysed company per kept result and never counts more companies than it visits. */
  lemma {:induction false} SweepCounts(env: Services, down: nat -> bool, items: seq<NewsItem>, hours: int,
                                       table: seq<CompanyRow>, k: nat, rows: seq<CompanyRow>)
    ensures var s := SweepOf(env, down, items, hours, table, k, rows);
      s.analyzed == |s.results| && s.analyzed + s.skipped <= |rows|
    decreases |rows|
  {
    if rows != [] {
      var init := rows[..|rows| - 1];
      SweepCounts(env, down, items, hours, table, k, init);
      VisitNames(env, down, items, hours, SweepOf(env, down, items, hours, table, k, init), rows[|rows| - 1]);
    } else {
      assert SweepOf(env, down, items, hours, table, k, rows) == Sweep([], 0, 0, table, k);
    }
  }

  /** The sweep changes no field of the table but the checkpoints. */
  lemma {:induction false} SweepChangesOnlyLastCounts(env: Services, down: nat -> bool, items: seq<NewsItem>, hours: int,
                                                      table: seq<CompanyRow>, k: nat, rows: seq<CompanyRow>)
    ensures SameButLastCounts(table, SweepOf(env, down, items, hours, table, k, rows).table)
    decreases |rows|
  {
    if rows != [] {
      var init := rows[..|rows| - 1];
      var prior := SweepOf(env, down, items, hours, table, k, init);
      SweepChangesOnlyLastCounts(env, down, items, hours, table, k, init);
      VisitSameButLast(env, down, items, hours, prior, rows[|rows| - 1]);
    } else {
      assert SweepOf(env, down, items, hours, table, k, rows) == Sweep([], 0, 0, table, k);
    }
  }

  /** Every result names a company of the listing. */
  predicate FromListing(results: seq<CompanyResult>, rows: seq<CompanyRow>) {
    forall i :: 0 <= i < |results| ==> exists j :: 0 <= j < |rows| && results[i].company == rows[j].name
  }

  /** The sweep reports only companies of the listing. */
  lemma {:induction false} SweepNames(env: Services, down: nat -> bool, items: seq<NewsItem>, hours: int,
                                      table: seq<CompanyRow>, k: nat, rows: seq<CompanyRow>)
    ensures FromListing(SweepOf(env, down, items, hours, table, k, rows).results, rows)
    decreases |rows|
  {
    if rows != [] {
      var n := |rows| - 1;
      var init := rows[..n];
      var prior := SweepOf(env, down, items, hours, table, k, init);
      var s := SweepOf(env, down, items, hours, table, k, rows);
      SweepNames(env, down, items, hours, table, k, init);
      VisitNames(env, down, items, hours, prior, rows[n]);
      forall i | 0 <= i < |s.results|
        ensures exists j :: 0 <= j < |rows| && s.results[i].company == rows[j].name
      {
        if i < |prior.results| {
          assert s.results[i] == prior.results[i];
          var j :| 0 <= j < |init| && prior.results[i].company == init[j].name;
          assert init[j] == rows[j];
        } else {
          assert s.results[i].company == rows[n].name;
        }
      }
    } else {
      assert SweepOf(env, down, items, hours, table, k, rows) == Sweep([], 0, 0, table, k);
    }
  }

  /** What a visit contributes: the result of the checkpointed analysis when the gate is open, nothing when it is shut. */
  function VisitAdds(env: Services, down: nat -> bool, items: seq<NewsItem>, hours: int, s: Sweep, row: CompanyRow): seq<CompanyResult> {
    var (should, current) := Gate(if down(s.requests) then NoCounts else CountsOf(s.table, row.id));
    if !should then []
    else
      match CountUpdate(env, down, s.requests + 1, s.table, items, row.name, row.id, current, hours).result
      case Some(r) => [r]
      case None => []
  }

  lemma VisitResults(env: Services, down: nat -> bool, items: seq<NewsItem>, hours: int, s: Sweep, row: CompanyRow)
    ensures Visit(env, down, items, hours, s, row).results == s.results + VisitAdds(env, down, items, hours, s, row)
  {
  }

  /** The contributions of the first `n` listed companies, each after the sweep of those before it, in listing order. */
  function AddedUpTo(env: Services, down: nat -> bool, items: seq<NewsItem>, hours: int, table: seq<CompanyRow>, k: nat,
                     rows: seq<CompanyRow>, n: nat): seq<CompanyResult>
    requires n <= |rows|
  {
    if n == 0 then []
    else
      var before := SweepOf(env, down, items, hours, table, k, rows[..n - 1]);
      AddedUpTo(env, down, items, hours, table, k, rows, n - 1) + VisitAdds(env, down, items, hours, before, rows[n - 1])
  }

  /** The results are the non-None results of the gate-open companies, in listing order. */
  lemma SweepResults(env: Services, down: nat -> bool, items: seq<NewsItem>, hours: int,
                     table: seq<CompanyRow>, k: nat, rows: seq<CompanyRow>)
    ensures SweepOf(env, down, items, hours, table, k, rows).results == AddedUpTo(env, down, items, hours, table, k, rows, |rows|)
  {
    SweepResultsPrefix(env, down, items, hours, table, k, rows, |rows|);
    assert rows[..|rows|] == rows;
  }

  lemma {:induction false} SweepResultsPrefix(env: Services, down: nat -> bool, items: seq<NewsItem>, hours: int,
                                              table: seq<CompanyRow>, k: nat, rows: seq<CompanyRow>, n: nat)
    requires n <= |rows|
    ensures SweepOf(env, down, items, hours, table, k, rows[..n]).results == AddedUpTo(env, down, items, hours, table, k, rows, n)
    decreases n
  {
    if n == 0 {
      assert rows[..0] == [];
    } else {
      SweepResultsPrefix(env, down, items, hours, table, k, rows, n - 1);
      var p := rows[..n];
      var before := SweepOf(env, down, items, hours, table, k, rows[..n - 1]);
      assert p[..n - 1] == rows[..n - 1];
      assert p[n - 1] == rows[n - 1];
      assert SweepOf(env, down, items, hours, table, k, p) == Visit(env, down, items, hours, before, rows[n - 1]);
      VisitResults(env, down, items, hours, before, rows[n - 1]);
    }
  }

  /** A visit keeps the earlier results and adds at most the visited company's, named for it. */
  lemma VisitNames(env: Services, down: nat -> bool, items: seq<NewsItem>, hours: int, s: Sweep, row: CompanyRow)
    ensures var s' := Visit(env, down, items, hours, s, row);
      && s'.analyzed + s'.skipped <= s.analyzed + s.skipped + 1
      && s'.analyzed - |s'.results| == s.analyzed - |s.results|
      && (|s'.results| == |s.results| || (|s'.results| == |s.results| + 1 && s'.results[|s.results|].company == row.name))
      && s'.results[..|s.results|] == s.results
  {
    var current := (if down(s.requests) then NoCounts else CountsOf(s.table, row.id)).0;
    if current != Some(0) {
      SingleCompanyStages(env, !down(s.requests + 1), items, row.name, hours);
    }
  }

  /** A company whose counts did not move, or whose count query fails, is skipped and written nothing. */
  lemma UnchangedCountIsSkipped(env: Services, down: nat -> bool, items: seq<NewsItem>, hours: int, s: Sweep, row: CompanyRow)
    requires down(s.requests) || CountsOf(s.table, row.id).0 == CountsOf(s.table, row.id).1
    ensures Visit(env, down, items, hours, s, row) == s.(skipped := s.skipped + 1, requests := s.requests + 1)
  {
  }

  /** With no company listed, or the listing query failing, the sweep returns nothing and writes nothing. */
  lemma NoCompaniesNoResults(env: Services, down: nat -> bool, k: nat, table: seq<CompanyRow>, items: seq<NewsItem>, hours: int)
    requires down(k) || table == []
    ensures AllCompanies(env, down, k, table, items, hours) == Sweep([], 0, 0, table, k + 1)
  {
  }

  // ---------------------------------------------------------------------------
  // The analyzer

  class NewsAnalyzer {
    const store: CompanyStore
    const env: Services

    constructor (store: CompanyStore, env: Services)
      ensures this.store == store && this.env == env
    {
      this.store := store;
      this.env := env;
    }

    /** `analyze_single_company`: the stages in order, each empty answer ending the pipeline. */
    method AnalyzeSingleCompany(company: string, hours: int) returns (r: Option<CompanyResult>)
      modifies store
      ensures r == SingleCompany(env, !store.down(old(store.requests)), store.newsItems, company, hours)
      ensures store.requests == old(store.requests) + 1
      ensures store.companies == old(store.companies) && store.newsItems == old(store.newsItems)
    {
      ghost var online := !store.down(store.requests);
      var ids := store.GetCompanyNewsIds(company, hours, env.now);
      assert ids == NewsIdsFor(online, store.newsItems, company, hours, env.now);
      if ids == [] {
        return Some(CompanyResult(company, 0, None, [], hours, StatusNoNews, None, None));
      }
      var query := CompanyQuery(company);
      var vector := env.embed(query);
      if vector == [] {
        return None;
      }
      var news := env.search(vector, ids, company, hours, TopK);
      if news == [] {
        return Some(CompanyResult(company, |ids|, None, [], hours, StatusNoVectorData, Some(NoVectorMessage(|ids|)), None));
      }
      var fault := env.fault(news);
      if fault.Some? {
        // the exception handler's answer
        return Some(CompanyResult(company, 0, None, [], hours, StatusError, None, fault));
      }
      var digest, _ := AnalyzeNews(Salvager(env.loads), company, news, DefaultMaxRetries, env.llm(company));
      var sources := ExtractSources(news);
      r := Some(CompanyResult(company, |ids|, Some(digest), sources, hours, StatusOf(digest), None, None));
      assert r == Some(ResultOnPassages(env, company, ids, news, hours));
    }

    /** `analyze_single_company_with_count_update`. */
    method AnalyzeWithCountUpdate(company: string, id: string, current: Option<int>, hours: int) returns (r: Option<CompanyResult>)
      modifies store
      ensures Checkpointed(r, store.companies, store.requests)
        == CountUpdate(env, store.down, old(store.requests), old(store.companies), old(store.newsItems), company, id, current, hours)
      ensures store.newsItems == old(store.newsItems)
    {
      if current == Some(0) {
        var _ := store.UpdateLastArticleCount(id, Some(0));
        return Some(CompanyResult(company, 0, None, [], hours, StatusNoNews, Some(ZeroCountMessage), None));
      }
      r := AnalyzeSingleCompany(company, hours);
      if r.Some? && Commits(r.value.status) {
        var _ := store.UpdateLastArticleCount(id, current);
      }
    }

    /** One turn of the loop of `analyze_all_companies`: the gate, then the checkpointed analysis of one company. */
    method VisitCompany(row: CompanyRow, hours: int, results: seq<CompanyResult>, analyzed: nat, skipped: nat)
      returns (results': seq<CompanyResult>, analyzed': nat, skipped': nat)
      modifies store
      ensures Sweep(results', analyzed', skipped', store.companies, store.requests)
        == Visit(env, store.down, old(store.newsItems), hours,
                 Sweep(results, analyzed, skipped, old(store.companies), old(store.requests)), row)
      ensures store.newsItems == old(store.newsItems)
    {
      results', analyzed', skipped' := results, analyzed, skipped;
      var should, current := store.ShouldAnalyzeCompany(row.id);
      if should {
        var r := AnalyzeWithCountUpdate(row.name, row.id, current, hours);
        if r.Some? {
          results' := results + [r.value];
          analyzed' := analyzed + 1;
        }
      } else {
        skipped' := skipped + 1;
      }
    }

    /** `analyze_all_companies`: the gate, then the checkpointed analysis, company by company. */
    method AnalyzeAllCompanies(hours: int) returns (results: seq<CompanyResult>, analyzed: nat, skipped: nat)
      modifies store
      ensures Sweep(results, analyzed, skipped, store.companies, store.requests)
        == AllCompanies(env, store.down, old(store.requests), old(store.companies), old(store.newsItems), hours)
      ensures store.newsItems == old(store.newsItems)
    {
      ghost var k, table, items := store.requests, store.companies, store.newsItems;
      results, analyzed, skipped := [], 0, 0;
      var companies := store.GetCompanies();
      if companies == [] {
        return;
      }
      for i := 0 to |companies|
        invariant store.newsItems == items
        invariant Sweep(results, analyzed, skipped, store.companies, store.requests)
          == SweepOf(env, store.down, items, hours, table, k + 1, companies[..i])
      {
        ghost var before := Sweep(results, analyzed, skipped, store.companies, store.requests);
        assert companies[..i + 1][..i] == companies[..i];
        assert SweepOf(env, store.down, items, hours, table, k + 1, companies[..i + 1])
          == Visit(env, store.down, items, hours, before, companies[i]);
        results, analyzed, skipped := VisitCompany(companies[i], hours, results, analyzed, skipped);
      }
      assert companies[..|companies|] == companies;
    }
  }
}
