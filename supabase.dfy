/**
 * `SupabaseService` (src/services/supabase_service.py) over an in-memory copy
 * of its two tables. The `companies` table is a sequence of rows in table
 * order; `news_items` is a sequence of items. Every call of the service sends
 * one request to the hosted database, and any request can raise: the store's
 * `down` oracle says which of them (by their position in the order they are
 * sent) fail, and every method catches the failure.
 */
module Supabase {
  import opened Wrappers
  import opened Json
  import opened Text

  /** A `companies` row: its key, its name, the two 24-hour article counts and `summary_24hrs`; None for NULL. */
  datatype CompanyRow = CompanyRow(
    id: string,
    name: string,
    currentCount: Option<int>,
    lastCount: Option<int>,
    summary: Option<string>)

  /** A `news_items` row as the service selects it: `published_at` in seconds, `companies` empty and `title` None when NULL. */
  datatype NewsItem = NewsItem(id: string, companies: seq<string>, publishedAt: int, title: Option<string>)

  const SecondsPerHour := 3600

  // ---------------------------------------------------------------------------
  // Queries on the table contents

  /** The first row of the `id` query's result, if any. */
  function RowWithId(rows: seq<CompanyRow>, id: string): Option<CompanyRow>
    decreases |rows|
  {
    if rows == [] then None
    else if rows[0].id == id then Some(rows[0])
    else RowWithId(rows[1..], id)
  }

  /** The first row of the `name` query's result, if any. */
  function RowNamed(rows: seq<CompanyRow>, name: string): Option<CompanyRow>
    decreases |rows|
  {
    if rows == [] then None
    else if rows[0].name == name then Some(rows[0])
    else RowNamed(rows[1..], name)
  }

  /** The `id` query finds a row exactly when one has that id, and then the first such row. */
  lemma {:induction false} RowWithIdIsFirst(rows: seq<CompanyRow>, id: string)
    ensures RowWithId(rows, id).Some? <==> exists i :: 0 <= i < |rows| && rows[i].id == id
    ensures RowWithId(rows, id).Some? ==> exists i :: FirstWithId(rows, id, i) && rows[i] == RowWithId(rows, id).value
    decreases |rows|
  {
    if rows != [] && rows[0].id != id {
      var tail := rows[1..];
      RowWithIdIsFirst(tail, id);
      if exists i :: 0 <= i < |rows| && rows[i].id == id {
        var i :| 0 <= i < |rows| && rows[i].id == id;
        assert tail[i - 1] == rows[i];
      }
      if RowWithId(tail, id).Some? {
        var i :| FirstWithId(tail, id, i) && tail[i] == RowWithId(tail, id).value;
        assert rows[i + 1] == tail[i];
        assert FirstWithId(rows, id, i + 1);
      }
    } else if rows != [] {
      assert FirstWithId(rows, id, 0);
    }
  }

  /** `i` is the position of the first row with that id. */
  predicate FirstWithId(rows: seq<CompanyRow>, id: string, i: int) {
    0 <= i < |rows| && rows[i].id == id && forall j :: 0 <= j < i ==> rows[j].id != id
  }

  /** The `name` query finds a row exactly when one has that name, and then the first such row. */
  lemma {:induction false} RowNamedIsFirst(rows: seq<CompanyRow>, name: string)
    ensures RowNamed(rows, name).Some? <==> exists i :: 0 <= i < |rows| && rows[i].name == name
    ensures RowNamed(rows, name).Some? ==> exists i :: FirstNamed(rows, name, i) && rows[i] == RowNamed(rows, name).value
    decreases |rows|
  {
    if rows != [] && rows[0].name != name {
      var tail := rows[1..];
      RowNamedIsFirst(tail, name);
      if exists i :: 0 <= i < |rows| && rows[i].name == name {
        var i :| 0 <= i < |rows| && rows[i].name == name;
        assert tail[i - 1] == rows[i];
      }
      if RowNamed(tail, name).Some? {
        var i :| FirstNamed(tail, name, i) && tail[i] == RowNamed(tail, name).value;
        assert rows[i + 1] == tail[i];
        assert FirstNamed(rows, name, i + 1);
      }
    } else if rows != [] {
      assert FirstNamed(rows, name, 0);
    }
  }

  /** `i` is the position of the first row with that name. */
  predicate FirstNamed(rows: seq<CompanyRow>, name: string, i: int) {
    0 <= i < |rows| && rows[i].name == name && forall j :: 0 <= j < i ==> rows[j].name != name
  }

  /** The counts the service reports when no row has the id or the query fails. */
  const NoCounts: (Option<int>, Option<int>) := (Some(0), Some(0))

  /** The `(current, last)` counts the service reports for a company: the first row's columns, None for NULL. */
  function CountsOf(rows: seq<CompanyRow>, id: string): (Option<int>, Option<int>) {
    match RowWithId(rows, id)
    case Some(row) => (row.currentCount, row.lastCount)
    case None => NoCounts
  }

  /** The table after `update({'last_article_count_24hrs': n}).eq('id', id)`: every row with that id. */
  function SetLastCount(rows: seq<CompanyRow>, id: string, n: Option<int>): (r: seq<CompanyRow>)
    ensures |r| == |rows|
    ensures forall i :: 0 <= i < |rows| ==> r[i] == (if rows[i].id == id then rows[i].(lastCount := n) else rows[i])
    decreases |rows|
  {
    if rows == [] then []
    else [if rows[0].id == id then rows[0].(lastCount := n) else rows[0]] + SetLastCount(rows[1..], id, n)
  }

  /** The table after `update({'summary_24hrs': s}).eq('id', id)`. */
  function SetSummary(rows: seq<CompanyRow>, id: string, s: Option<string>): (r: seq<CompanyRow>)
    ensures |r| == |rows|
    ensures forall i :: 0 <= i < |rows| ==> r[i] == (if rows[i].id == id then rows[i].(summary := s) else rows[i])
    decreases |rows|
  {
    if rows == [] then []
    else [if rows[0].id == id then rows[0].(summary := s) else rows[0]] + SetSummary(rows[1..], id, s)
  }

  /** The candidates of `.gte('published_at', now - hours)`, in table order. */
  function PublishedSince(items: seq<NewsItem>, threshold: int): (r: seq<NewsItem>)
    ensures forall x :: x in r <==> x in items && x.publishedAt >= threshold
    ensures |r| <= |items|
    decreases |items|
  {
    if items == [] then []
    else (if items[0].publishedAt >= threshold then [items[0]] else []) + PublishedSince(items[1..], threshold)
  }

  /** The keep-test of `get_company_news_ids`: an exact element, or an element containing the name. */
  predicate MentionsCompany(item: NewsItem, name: string) {
    item.companies != [] && (name in item.companies || exists c :: c in item.companies && IsInfix(name, c))
  }

  /** The keep-test of `get_recent_news_ids`: some requested name is an element. */
  predicate MentionsAnyOf(item: NewsItem, names: seq<string>) {
    item.companies != [] && exists name :: name in names && name in item.companies
  }

  function MentionsCompanyTest(name: string): NewsItem -> bool {
    x => MentionsCompany(x, name)
  }

  function MentionsAnyOfTest(names: seq<string>): NewsItem -> bool {
    x => MentionsAnyOf(x, names)
  }

  /** The ids of the items that pass `keep`, in item order. */
  function IdsWhere(items: seq<NewsItem>, keep: NewsItem -> bool): (r: seq<string>)
    ensures |r| <= |items|
    decreases |items|
  {
    if items == [] then []
    else (if keep(items[0]) then [items[0].id] else []) + IdsWhere(items[1..], keep)
  }

  /** Some item that passes the company test has a NULL title. */
  predicate HasUntitledMatch(items: seq<NewsItem>, name: string) {
    exists i :: 0 <= i < |items| && MentionsCompany(items[i], name) && items[i].title.None?
  }

  /**
   * The ids `get_company_news_ids` reports when its request succeeds: those
   * of the recent items that name the company, unless one of them has a NULL
   * title, whose `[:50]` raises and sends the call to its handler.
   */
  function CompanyNewsIds(items: seq<NewsItem>, name: string, hours: int, now: int): seq<string> {
    var candidates := PublishedSince(items, now - hours * SecondsPerHour);
    if HasUntitledMatch(candidates, name) then [] else IdsWhere(candidates, MentionsCompanyTest(name))
  }

  /** One more item of the table raises exactly when it passes the test with a NULL title. */
  lemma UntitledMatchSnoc(items: seq<NewsItem>, i: nat, name: string)
    requires i < |items|
    ensures HasUntitledMatch(items[..i + 1], name)
      <==> HasUntitledMatch(items[..i], name) || (MentionsCompany(items[i], name) && items[i].title.None?)
  {
    var longer := items[..i + 1];
    if HasUntitledMatch(longer, name) {
      var k :| 0 <= k < |longer| && MentionsCompany(longer[k], name) && longer[k].title.None?;
      if k < i {
        assert items[..i][k] == longer[k];
      }
    }
    if HasUntitledMatch(items[..i], name) {
      var k :| 0 <= k < i && MentionsCompany(items[..i][k], name) && items[..i][k].title.None?;
      assert longer[k] == items[..i][k];
    }
    if MentionsCompany(items[i], name) && items[i].title.None? {
      assert longer[i] == items[i];
    }
  }

  /** The ids `get_recent_news_ids` reports when its request succeeds. */
  function RecentNewsIds(items: seq<NewsItem>, names: seq<string>, hours: int, now: int): seq<string> {
    IdsWhere(PublishedSince(items, now - hours * SecondsPerHour), MentionsAnyOfTest(names))
  }

  /** Filtering the items of two stretches of the table gives the ids of the first, then those of the second. */
  lemma {:induction false} IdsWhereAppend(a: seq<NewsItem>, b: seq<NewsItem>, keep: NewsItem -> bool)
    ensures IdsWhere(a + b, keep) == IdsWhere(a, keep) + IdsWhere(b, keep)
    decreases |a|
  {
    if a == [] {
      assert a + b == b;
    } else {
      var head := if keep(a[0]) then [a[0].id] else [];
      assert (a + b)[0] == a[0];
      assert (a + b)[1..] == a[1..] + b;
      assert IdsWhere(a + b, keep) == head + IdsWhere(a[1..] + b, keep);
      IdsWhereAppend(a[1..], b, keep);
      assert IdsWhere(a, keep) == head + IdsWhere(a[1..], keep);
      assert head + (IdsWhere(a[1..], keep) + IdsWhere(b, keep)) == (head + IdsWhere(a[1..], keep)) + IdsWhere(b, keep);
    }
  }

  /** One more item of the table adds its id when it passes the test. */
  lemma IdsWhereSnoc(items: seq<NewsItem>, i: nat, keep: NewsItem -> bool)
    requires i < |items|
    ensures IdsWhere(items[..i + 1], keep) == IdsWhere(items[..i], keep) + (if keep(items[i]) then [items[i].id] else [])
  {
    assert items[..i + 1] == items[..i] + [items[i]];
    IdsWhereAppend(items[..i], [items[i]], keep);
  }

  /** An id is reported exactly when some item with that id passes the test. */
  lemma {:induction false} IdsWhereMembers(items: seq<NewsItem>, keep: NewsItem -> bool, x: string)
    ensures x in IdsWhere(items, keep) <==> exists i :: 0 <= i < |items| && items[i].id == x && keep(items[i])
    decreases |items|
  {
    if items != [] {
      IdsWhereMembers(items[1..], keep, x);
      if exists i :: 0 <= i < |items[1..]| && items[1..][i].id == x && keep(items[1..][i]) {
        var i :| 0 <= i < |items[1..]| && items[1..][i].id == x && keep(items[1..][i]);
        assert items[i + 1] == items[1..][i];
      }
      if exists i :: 0 <= i < |items| && items[i].id == x && keep(items[i]) {
        var i :| 0 <= i < |items| && items[i].id == x && keep(items[i]);
        if i > 0 {
          assert items[1..][i - 1] == items[i];
        }
      }
    }
  }

  /** A test that keeps at least what another keeps reports at least the other's ids, in the same order. */
  lemma {:induction false} IdsWhereWeaker(items: seq<NewsItem>, keep: NewsItem -> bool, wider: NewsItem -> bool)
    requires forall x :: keep(x) ==> wider(x)
    ensures IsSubsequence(IdsWhere(items, keep), IdsWhere(items, wider))
    decreases |items|
  {
    if items != [] {
      IdsWhereWeaker(items[1..], keep, wider);
      var r := IdsWhere(items[1..], keep);
      var w := IdsWhere(items[1..], wider);
      if keep(items[0]) {
        assert ([items[0].id] + r)[1..] == r;
        assert ([items[0].id] + w)[1..] == w;
      } else if wider(items[0]) {
        assert ([items[0].id] + w)[1..] == w;
        SubsequenceOfCons(r, [items[0].id] + w);
        assert IdsWhere(items, keep) == [] + r && [] + r == r;
      } else {
        assert IdsWhere(items, keep) == [] + r && [] + r == r;
        assert IdsWhere(items, wider) == [] + w && [] + w == w;
      }
    }
  }

  /** `a` can be obtained from `b` by deleting elements. */
  predicate IsSubsequence<T(==)>(a: seq<T>, b: seq<T>)
    decreases |b|
  {
    a == [] || (b != [] && (if a[0] == b[0] then IsSubsequence(a[1..], b[1..]) else IsSubsequence(a, b[1..])))
  }

  /** A subsequence of the tail is a subsequence of the whole. */
  lemma {:induction false} SubsequenceOfCons<T>(a: seq<T>, b: seq<T>)
    requires b != [] && IsSubsequence(a, b[1..])
    ensures IsSubsequence(a, b)
    decreases |b|, 0
  {
    if a != [] && a[0] == b[0] {
      SubsequenceDropsHead(a, b[1..]);
    }
  }

  lemma {:induction false} SubsequenceDropsHead<T>(a: seq<T>, b: seq<T>)
    requires a != [] && IsSubsequence(a, b)
    ensures IsSubsequence(a[1..], b)
    decreases |b|, 1
  {
    if a[0] != b[0] {
      SubsequenceDropsHead(a, b[1..]);
    }
    if a[1..] != [] {
      SubsequenceOfCons(a[1..], b);
    }
  }

  /** The exact-element test is subsumed by the substring test: a name contains itself. */
  lemma MentionsIsContainment(item: NewsItem, name: string)
    ensures MentionsCompany(item, name) <==> exists c :: c in item.companies && IsInfix(name, c)
  {
    if name in item.companies {
      InfixOfSelf(name);
    }
  }

  /** What the exact-match query finds for `[name]` the combined query for `name` finds too. */
  lemma RecentIdsWithinCompanyIds(items: seq<NewsItem>, name: string)
    ensures IsSubsequence(IdsWhere(items, MentionsAnyOfTest([name])), IdsWhere(items, MentionsCompanyTest(name)))
  {
    IdsWhereWeaker(items, MentionsAnyOfTest([name]), MentionsCompanyTest(name));
  }

  // ---------------------------------------------------------------------------
  // The gate

  /**
   * `should_analyze_company` on counts: analyse exactly when the count moved,
   * in either direction; a NULL count differs from every number and equals
   * only another NULL.
   */
  function Gate(counts: (Option<int>, Option<int>)): (r: (bool, Option<int>))
    ensures r.0 <==> counts.0 != counts.1
    ensures r.1 == counts.0
  {
    (counts.0 != counts.1, counts.0)
  }

  /** A company without a row (or an unreadable store, whose counts are zeros) is skipped with count 0. */
  lemma MissingRowIsSkipped(rows: seq<CompanyRow>, id: string)
    requires forall i :: 0 <= i < |rows| ==> rows[i].id != id
    ensures Gate(CountsOf(rows, id)) == (false, Some(0))
  {
    RowWithIdIsFirst(rows, id);
  }

  /** Committing the gate-time count closes the gate: the next check skips the company. */
  lemma CommitClosesGate(rows: seq<CompanyRow>, id: string)
    ensures var (current, _) := CountsOf(rows, id);
      !Gate(CountsOf(SetLastCount(rows, id, current), id)).0
  {
    var updated := SetLastCount(rows, id, CountsOf(rows, id).0);
    RowWithIdIsFirst(rows, id);
    RowWithIdIsFirst(updated, id);
    match RowWithId(rows, id)
    case None =>
      assert forall i :: 0 <= i < |updated| ==> updated[i].id == rows[i].id;
    case Some(row) =>
      var i :| FirstWithId(rows, id, i) && rows[i] == row;
      assert updated[i] == row.(lastCount := row.currentCount);
      assert FirstWithId(updated, id, i);
      var i' :| FirstWithId(updated, id, i') && updated[i'] == RowWithId(updated, id).value;
      assert i' == i;
  }

  /** Setting the checkpoint touches only `last_article_count_24hrs` of the rows with that id. */
  lemma SetLastCountChangesOnlyLast(rows: seq<CompanyRow>, id: string, n: Option<int>, i: nat)
    requires i < |rows|
    ensures var r := SetLastCount(rows, id, n)[i];
      && r.id == rows[i].id && r.name == rows[i].name && r.currentCount == rows[i].currentCount
      && r.summary == rows[i].summary
      && r.lastCount == (if rows[i].id == id then n else rows[i].lastCount)
  {
  }

  // ---------------------------------------------------------------------------
  // The service

  /** A JSON object the caller holds and the service may update in place (`summary_data`). */
  class JsonDict {
    var entries: map<string, JValue>

    constructor (entries: map<string, JValue>)
      ensures this.entries == entries
    {
      this.entries := entries;
    }
  }

  /** `summary_data.get('analysis') is None and summary_data.get('news_count', 0) == 0`. */
  predicate IsEmptySummary(entries: map<string, JValue>) {
    && ("analysis" !in entries || entries["analysis"] == JNull)
    && ("news_count" !in entries || entries["news_count"] == JNum(0) || entries["news_count"] == JBool(false))
  }

  class CompanyStore {
    var companies: seq<CompanyRow>
    var newsItems: seq<NewsItem>
    /** The requests that raise: the `k`-th request sent (counting from 0) fails exactly when `down(k)`. */
    const down: nat -> bool
    /** How many requests the service has sent so far. */
    var requests: nat

    constructor (companies: seq<CompanyRow>, newsItems: seq<NewsItem>, down: nat -> bool)
      ensures this.companies == companies && this.newsItems == newsItems && this.down == down
      ensures requests == 0
    {
      this.companies := companies;
      this.newsItems := newsItems;
      this.down := down;
      this.requests := 0;
    }

    /** Sends one request; `ok` says whether it reached the database. */
    method Send() returns (ok: bool)
      modifies this
      ensures ok == !down(old(requests)) && requests == old(requests) + 1
      ensures companies == old(companies) && newsItems == old(newsItems)
    {
      ok := !down(requests);
      requests := requests + 1;
    }

    /** `get_companies`: every row, or [] when the query fails. */
    method GetCompanies() returns (rows: seq<CompanyRow>)
      modifies this
      ensures rows == if down(old(requests)) then [] else companies
      ensures requests == old(requests) + 1 && companies == old(companies) && newsItems == old(newsItems)
    {
      var ok := Send();
      if !ok {
        return [];
      }
      rows := companies;
    }

    /** `get_company_article_counts`: the first matching row's counts (None for NULL), zeros for no row or a failed query. */
    method GetCompanyArticleCounts(id: string) returns (current: Option<int>, last: Option<int>)
      modifies this
      ensures (current, last) == if down(old(requests)) then NoCounts else CountsOf(companies, id)
      ensures !down(old(requests)) && RowWithId(companies, id).Some? ==>
        exists i :: 0 <= i < |companies| && companies[i].id == id
          && current == companies[i].currentCount && last == companies[i].lastCount
      ensures down(old(requests)) || RowWithId(companies, id).None? ==> current == Some(0) && last == Some(0)
      ensures requests == old(requests) + 1 && companies == old(companies) && newsItems == old(newsItems)
    {
      var ok := Send();
      if !ok {
        return Some(0), Some(0);
      }
      RowWithIdIsFirst(companies, id);
      var row := RowWithId(companies, id);
      if row.None? {
        return Some(0), Some(0);
      }
      current, last := row.value.currentCount, row.value.lastCount;
    }

    /** `should_analyze_company`: analyse exactly when the counts differ; report the current count. */
    method ShouldAnalyzeCompany(id: string) returns (should: bool, current: Option<int>)
      modifies this
      ensures (should, current) == Gate(if down(old(requests)) then NoCounts else CountsOf(companies, id))
      ensures requests == old(requests) + 1 && companies == old(companies) && newsItems == old(newsItems)
    {
      var last;
      current, last := GetCompanyArticleCounts(id);
      should := current != last;
    }

    /** `update_last_article_count`: the checkpoint of every row with that id becomes `n` (NULL for None). */
    method UpdateLastArticleCount(id: string, n: Option<int>) returns (ok: bool)
      modifies this
      ensures ok == !down(old(requests)) && requests == old(requests) + 1
      ensures companies == if ok then SetLastCount(old(companies), id, n) else old(companies)
      ensures newsItems == old(newsItems)
    {
      ok := Send();
      if !ok {
        return;
      }
      companies := SetLastCount(companies, id, n);
    }

    /**
     * `update_company_summary`: NULL for an empty summary; otherwise the
     * caller's dict gains `updated_at` (before the write, so also when it fails)
     * and its serialisation `dumps` is written.
     */
    method UpdateCompanySummary(id: string, summaryData: JsonDict, now: string, dumps: JValue -> string)
      returns (ok: bool)
      modifies this, summaryData
      ensures ok == !down(old(requests)) && requests == old(requests) + 1
      ensures summaryData.entries
        == if IsEmptySummary(old(summaryData.entries)) then old(summaryData.entries)
           else old(summaryData.entries)["updated_at" := JStr(now)]
      ensures companies
        == if !ok then old(companies)
           else if IsEmptySummary(old(summaryData.entries)) then SetSummary(old(companies), id, None)
           else SetSummary(old(companies), id, Some(dumps(JObj(summaryData.entries))))
      ensures newsItems == old(newsItems)
    {
      if IsEmptySummary(summaryData.entries) {
        ok := Send();
        if !ok {
          return;
        }
        companies := SetSummary(companies, id, None);
        return;
      }
      summaryData.entries := summaryData.entries["updated_at" := JStr(now)];
      var text := dumps(JObj(summaryData.entries));
      ok := Send();
      if !ok {
        return;
      }
      companies := SetSummary(companies, id, Some(text));
    }

    /** `get_company_by_name`: the first row with that name, or None (`{}`) when there is none or the query fails. */
    method GetCompanyByName(name: string) returns (row: Option<CompanyRow>)
      modifies this
      ensures row == if down(old(requests)) then None else RowNamed(companies, name)
      ensures row.Some? ==> row.value in companies && row.value.name == name
      ensures requests == old(requests) + 1 && companies == old(companies) && newsItems == old(newsItems)
    {
      var ok := Send();
      if !ok {
        return None;
      }
      RowNamedIsFirst(companies, name);
      row := RowNamed(companies, name);
    }

    /**
     * `get_company_news_ids`: the ids of the items published at or after
     * `now - hours` that name the company exactly or inside an element, in table
     * order; [] when the query fails or one of those items has a NULL title.
     */
    method GetCompanyNewsIds(name: string, hours: int, now: int) returns (ids: seq<string>)
      modifies this
      ensures ids == if down(old(requests)) then [] else CompanyNewsIds(newsItems, name, hours, now)
      ensures requests == old(requests) + 1 && companies == old(companies) && newsItems == old(newsItems)
    {
      var ok := Send();
      if !ok {
        return [];
      }
      ids := FilterCompanyNews(PublishedSince(newsItems, now - hours * SecondsPerHour), name);
    }

    /** `get_recent_news_ids`: the ids of the recent items of which some requested name is an element. */
    method GetRecentNewsIds(names: seq<string>, hours: int, now: int) returns (ids: seq<string>)
      modifies this
      ensures ids == if down(old(requests)) then [] else RecentNewsIds(newsItems, names, hours, now)
      ensures requests == old(requests) + 1 && companies == old(companies) && newsItems == old(newsItems)
    {
      var ok := Send();
      if !ok {
        return [];
      }
      ids := FilterRecentNews(PublishedSince(newsItems, now - hours * SecondsPerHour), names);
    }
  }

  /**
   * The loop of `get_company_news_ids` over the rows the query returned: keep
   * the id of each row that names the company; a kept row with a NULL title
   * raises, and the handler answers [].
   */
  method FilterCompanyNews(candidates: seq<NewsItem>, name: string) returns (ids: seq<string>)
    ensures ids == if HasUntitledMatch(candidates, name) then [] else IdsWhere(candidates, MentionsCompanyTest(name))
  {
    ids := [];
    ghost var keep := MentionsCompanyTest(name);
    for i := 0 to |candidates|
      invariant ids == IdsWhere(candidates[..i], keep)
      invariant !HasUntitledMatch(candidates[..i], name)
    {
      var item := candidates[i];
      IdsWhereSnoc(candidates, i, keep);
      UntitledMatchSnoc(candidates, i, name);
      assert keep(item) == MentionsCompany(item, name);
      if MentionsCompany(item, name) {
        if item.title.None? {
          // `news_item.get('title', ...)` is None, and slicing it raises
          assert HasUntitledMatch(candidates, name);
          return [];
        }
        ids := ids + [item.id];
      }
    }
    assert candidates[..|candidates|] == candidates;
  }

  /** The loop of `get_recent_news_ids` over the rows the query returned. */
  method FilterRecentNews(candidates: seq<NewsItem>, names: seq<string>) returns (ids: seq<string>)
    ensures ids == IdsWhere(candidates, MentionsAnyOfTest(names))
  {
    ids := [];
    ghost var keep := MentionsAnyOfTest(names);
    for i := 0 to |candidates|
      invariant ids == IdsWhere(candidates[..i], keep)
    {
      var item := candidates[i];
      IdsWhereSnoc(candidates, i, keep);
      assert keep(item) == MentionsAnyOf(item, names);
      if MentionsAnyOf(item, names) {
        ids := ids + [item.id];
      }
    }
    assert candidates[..|candidates|] == candidates;
  }

  /** The item was published at or after `threshold` and some element of its `companies` contains the name. */
  predicate RecentMention(item: NewsItem, name: string, threshold: int) {
    item.publishedAt >= threshold && exists c :: c in item.companies && IsInfix(name, c)
  }

  /** Some item published at or after `threshold` with id `x` names the company. */
  ghost predicate MentionWithId(items: seq<NewsItem>, name: string, threshold: int, x: string) {
    exists item :: item in items && item.id == x && RecentMention(item, name, threshold)
  }

  /** Some item published at or after `threshold` that names the company has a NULL title. */
  ghost predicate UntitledMention(items: seq<NewsItem>, name: string, threshold: int) {
    exists item :: item in items && RecentMention(item, name, threshold) && item.title.None?
  }

  /** The company filter keeps exactly the recent items that name the company, exactly or inside an element. */
  lemma CompanyFilterMembers(items: seq<NewsItem>, name: string, threshold: int, x: string)
    ensures x in IdsWhere(PublishedSince(items, threshold), MentionsCompanyTest(name)) <==> MentionWithId(items, name, threshold, x)
  {
    var candidates := PublishedSince(items, threshold);
    IdsWhereMembers(candidates, MentionsCompanyTest(name), x);
    if x in IdsWhere(candidates, MentionsCompanyTest(name)) {
      var i :| 0 <= i < |candidates| && candidates[i].id == x && MentionsCompanyTest(name)(candidates[i]);
      KeptIsRecentMention(items, name, threshold, candidates[i]);
    }
    if MentionWithId(items, name, threshold, x) {
      var item :| item in items && item.id == x && RecentMention(item, name, threshold);
      var i := RecentMentionIsKept(items, name, threshold, item);
      assert candidates[i].id == x;
    }
  }

  /** A candidate that passes the company test is a recent mention. */
  lemma KeptIsRecentMention(items: seq<NewsItem>, name: string, threshold: int, item: NewsItem)
    requires item in PublishedSince(items, threshold) && MentionsCompany(item, name)
    ensures item in items && RecentMention(item, name, threshold)
  {
    MentionsIsContainment(item, name);
  }

  /** A recent mention is a candidate, and it passes the company test. */
  lemma RecentMentionIsKept(items: seq<NewsItem>, name: string, threshold: int, item: NewsItem) returns (i: nat)
    requires item in items && RecentMention(item, name, threshold)
    ensures var candidates := PublishedSince(items, threshold);
      i < |candidates| && candidates[i] == item && MentionsCompanyTest(name)(item)
  {
    var candidates := PublishedSince(items, threshold);
    assert item in candidates;
    i :| 0 <= i < |candidates| && candidates[i] == item;
    MentionsIsContainment(item, name);
  }

  /** The query raises exactly when some recent item that names the company has a NULL title. */
  lemma UntitledMatchIsUntitledMention(items: seq<NewsItem>, name: string, threshold: int)
    ensures HasUntitledMatch(PublishedSince(items, threshold), name) <==> UntitledMention(items, name, threshold)
  {
    var candidates := PublishedSince(items, threshold);
    if HasUntitledMatch(candidates, name) {
      var i :| 0 <= i < |candidates| && MentionsCompany(candidates[i], name) && candidates[i].title.None?;
      KeptIsRecentMention(items, name, threshold, candidates[i]);
    }
    if UntitledMention(items, name, threshold) {
      var item :| item in items && RecentMention(item, name, threshold) && item.title.None?;
      var i := RecentMentionIsKept(items, name, threshold, item);
      assert MentionsCompany(candidates[i], name) && candidates[i].title.None?;
    }
  }

  /**
   * The company query reports exactly the recent items that name the company,
   * exactly or inside an element, provided none of those has a NULL title;
   * if one has, it reports nothing.
   */
  lemma CompanyNewsIdsMembers(items: seq<NewsItem>, name: string, hours: int, now: int, x: string)
    ensures var threshold := now - hours * SecondsPerHour;
      x in CompanyNewsIds(items, name, hours, now)
      <==> !UntitledMention(items, name, threshold) && MentionWithId(items, name, threshold, x)
  {
    var threshold := now - hours * SecondsPerHour;
    var candidates := PublishedSince(items, threshold);
    UntitledMatchIsUntitledMention(items, name, threshold);
    CompanyFilterMembers(items, name, threshold, x);
    assert CompanyNewsIds(items, name, hours, now)
      == if HasUntitledMatch(candidates, name) then [] else IdsWhere(candidates, MentionsCompanyTest(name));
  }
}
