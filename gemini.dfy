/**
 * The digest generator of src/services/gemini_service.py: the generate /
 * validate / repair / back-off loop of `analyze_news` and `_fix_json_format`,
 * the degraded answer of `_generate_error_response`, the prompt blocks of
 * `_format_news_for_analysis` and the query of `generate_company_query`.
 *
 * The language model is an oracle `llm`: `llm(k)` is its reply to the k-th
 * call (counting generation and repair calls together). `time.sleep` is not
 * performed; each call and each sleep is recorded, in order, as an `Effect`.
 */
module Gemini {
  import opened Wrappers
  import opened Json
  import opened Text
  import opened Passages
  import opened DigestSchema
  import opened JsonSalvage

  /** What one `generate_content` call gives: no response, a response with `.text`, or an exception. */
  datatype Reply = NoResponse | Answer(text: string) | Raised(message: string)

  type Model = nat -> Reply

  /** `_try_parse_json`, supplied by the caller as `JsonSalvage.Salvager(loads)`. */
  type Parser = string -> Option<JValue>

  datatype Effect = Generate(reply: Reply) | Repair(reply: Reply) | Sleep(seconds: nat)

  const MaxFixAttempts: nat := 3
  const DefaultMaxRetries: int := 3

  const StatusSuccess := "success"
  const StatusPartialSuccess := "partial_success"
  const StatusNoData := "no_data"

  const EmptyResponseError := "API返回空响应"
  const ExhaustedError := "多次尝试后仍无法生成有效分析"
  const DegradedMessage := "由于技术问题，仅能提供部分分析结果。"

  function Pow2(n: nat): (r: nat)
    ensures r >= 1
  {
    if n == 0 then 1 else 2 * Pow2(n - 1)
  }

  /** `response.text` when `response and response.text`; otherwise the call counts as failed. */
  function ReplyText(r: Reply): Option<string> {
    if r.Answer? && r.text != "" then Some(r.text) else None
  }

  /** `str(e)` for the exception a failed call leads to: the client's own, or "empty response". */
  function FailureText(r: Reply): string {
    if r.Raised? then r.message else EmptyResponseError
  }

  /** `result and self._validate_json_structure(result)`. */
  predicate Usable(parsed: Option<JValue>) {
    parsed.Some? && Truthy(parsed.value) && ValidateJsonStructure(parsed.value)
  }

  /** `result['status'] = status`. */
  function WithStatus(d: JValue, status: string): JValue {
    Put(d, "status", JStr(status))
  }

  // ---------------------------------------------------------------------------
  // Fixed-shape answers

  /** The answer for an empty passage list. */
  function NoDataResponse(company: string): JValue {
    JObj(map[
      "status" := JStr(StatusNoData),
      "facts" := JList([]),
      "opinions" := JList([]),
      "message" := JStr("未找到" + company + "相关的最新新闻。")])
  }

  /** The one synthetic fact of the degraded answer, citing the first passage. */
  function FallbackFact(company: string, news: seq<Passage>): JValue
    requires news != []
  {
    var metadata := news[0].metadata;
    var newsId := NewsIdOr(metadata, "未知ID");
    var title := Take(TitleOr(metadata, ""), 100);
    var summary := "找到" + Decimal(|news|) + "条关于" + company + "的相关新闻。"
      + (if title != "" then " 其中包括：" + title + "等。" else "");
    JObj(map[
      "topic" := JStr(company + "相关新闻"),
      "summaries" := JList([JObj(map[
        "aspect" := JStr("新闻概览"),
        "content" := JStr(summary),
        "citations" := JList([JObj(map["news_id" := JStr(newsId), "content" := JStr(title)])])])])])
  }

  /** `_generate_error_response`. */
  function ErrorResponse(company: string, news: seq<Passage>, error: string): JValue {
    JObj(map[
      "status" := JStr(StatusPartialSuccess),
      "facts" := JList(if news != [] then [FallbackFact(company, news)] else []),
      "opinions" := JList([]),
      "error" := JStr(error),
      "message" := JStr(DegradedMessage)])
  }

  /** The list under `key`, or `[]` when there is none. */
  function Items(v: JValue, key: string): seq<JValue> {
    match Get(v, key)
    case Some(JList(items)) => items
    case _ => []
  }

  /**
   * The degraded answer passes the schema and carries exactly one fact with
   * one summary and one citation: the first passage's id (default 未知ID) and
   * its title cut to 100 characters; no opinions; the error it was given.
   */
  lemma FallbackShape(company: string, news: seq<Passage>, error: string)
    requires news != []
    ensures var d := ErrorResponse(company, news, error);
      && ValidateJsonStructure(d)
      && Get(d, "status") == Some(JStr(StatusPartialSuccess))
      && Get(d, "error") == Some(JStr(error))
      && Get(d, "opinions") == Some(JList([]))
      && |Items(d, "facts")| == 1
      && |Items(Items(d, "facts")[0], "summaries")| == 1
      && |Items(Items(Items(d, "facts")[0], "summaries")[0], "citations")| == 1
      && var citation := Items(Items(Items(d, "facts")[0], "summaries")[0], "citations")[0];
      && Get(citation, "news_id") == Some(JStr(NewsIdOr(news[0].metadata, "未知ID")))
      && Get(citation, "content") == Some(JStr(Take(TitleOr(news[0].metadata, ""), 100)))
  {
    var fact := FallbackFact(company, news);
    var summary := fact.fields["summaries"].items[0];
    var citation := summary.fields["citations"].items[0];
    assert IsCitation(citation);
    assert IsSummary(summary);
    assert IsTopic(fact);
    ValidatorDecidesSchema(ErrorResponse(company, news, error));
  }

  // ---------------------------------------------------------------------------
  // The repair loop, `_fix_json_format`, as a specification

  datatype RepairRun = RepairRun(fixed: Option<JValue>, calls: nat, effects: seq<Effect>)

  /** What a reply yields once parsed: nothing when the call raised or gave no text. */
  function ParseReply(parse: Parser, reply: Reply): Option<JValue> {
    if ReplyText(reply).Some? then parse(ReplyText(reply).value) else None
  }

  /** The one-second pause after a repair try that did not raise, except after the last try. */
  function RepairPause(reply: Reply, attempt: nat): seq<Effect> {
    if !reply.Raised? && attempt < MaxFixAttempts - 1 then [Sleep(1)] else []
  }

  /** `_fix_json_format` from its `attempt`-th try on; the try makes call number `base + attempt`. */
  function RepairFrom(parse: Parser, llm: Model, base: nat, attempt: nat): (run: RepairRun)
    requires attempt <= MaxFixAttempts
    ensures run.calls <= MaxFixAttempts - attempt
    decreases MaxFixAttempts - attempt
  {
    if attempt == MaxFixAttempts then RepairRun(None, 0, [])
    else
      var reply := llm(base + attempt);
      var parsed := ParseReply(parse, reply);
      if Usable(parsed) then RepairRun(parsed, 1, [Repair(reply)])
      else
        var rest := RepairFrom(parse, llm, base, attempt + 1);
        RepairRun(rest.fixed, 1 + rest.calls, [Repair(reply)] + RepairPause(reply, attempt) + rest.effects)
  }

  /** The repair loop returns only a validated, non-empty object. */
  lemma {:induction false} RepairReturnsUsable(parse: Parser, llm: Model, base: nat, attempt: nat)
    requires attempt <= MaxFixAttempts
    ensures var run := RepairFrom(parse, llm, base, attempt); run.fixed.Some? ==> Usable(run.fixed)
    decreases MaxFixAttempts - attempt
  {
    if attempt < MaxFixAttempts && !Usable(ParseReply(parse, llm(base + attempt))) {
      RepairReturnsUsable(parse, llm, base, attempt + 1);
    }
  }

  /** A repair try that gave nothing usable is followed by its pause and the tries from `i'` on. */
  lemma RepairStep(parse: Parser, llm: Model, base: nat, i: nat, i': nat) returns (rest: RepairRun)
    requires i' == i + 1 && i < MaxFixAttempts && !Usable(ParseReply(parse, llm(base + i)))
    ensures rest == RepairFrom(parse, llm, base, i')
    ensures RepairFrom(parse, llm, base, i)
      == RepairRun(rest.fixed, 1 + rest.calls, [Repair(llm(base + i))] + RepairPause(llm(base + i), i) + rest.effects)
  {
    rest := RepairFrom(parse, llm, base, i');
  }

  /** After a repair try that gave nothing usable, the loop pauses if it should and goes on with `rest`. */
  lemma RepairResume(parse: Parser, llm: Model, base: nat, attempt: nat, done: seq<Effect>,
                     current: RepairRun, whole: RepairRun, attempt': nat) returns (rest: RepairRun)
    requires attempt' == attempt + 1 && attempt < MaxFixAttempts && !Usable(ParseReply(parse, llm(base + attempt)))
    requires current == RepairFrom(parse, llm, base, attempt)
    requires whole == RepairRun(current.fixed, attempt + current.calls, done + current.effects)
    ensures rest == RepairFrom(parse, llm, base, attempt')
    ensures whole == RepairRun(rest.fixed, attempt' + rest.calls,
      (done + ([Repair(llm(base + attempt))] + RepairPause(llm(base + attempt), attempt))) + rest.effects)
  {
    rest := RepairStep(parse, llm, base, attempt, attempt');
    var spent := [Repair(llm(base + attempt))] + RepairPause(llm(base + attempt), attempt);
    assert done + (spent + rest.effects) == (done + spent) + rest.effects;
  }

  /** `_fix_json_format`: up to three repair calls, one second apart, returning only validated objects. */
  method FixJsonFormat(parse: Parser, llm: Model, base: nat) returns (fixed: Option<JValue>, calls: nat, effects: seq<Effect>)
    ensures RepairRun(fixed, calls, effects) == RepairFrom(parse, llm, base, 0)
    ensures fixed.Some? ==> Truthy(fixed.value) && ValidateJsonStructure(fixed.value)
    ensures calls <= MaxFixAttempts
  {
    var attempt: nat := 0;
    effects := [];
    ghost var rest := RepairFrom(parse, llm, base, attempt);
    ghost var whole := rest;
    EmptyPrefix(whole.effects);
    while attempt < MaxFixAttempts
      invariant attempt <= MaxFixAttempts
      invariant rest == RepairFrom(parse, llm, base, attempt)
      invariant whole == RepairRun(rest.fixed, attempt + rest.calls, effects + rest.effects)
    {
      var reply := llm(base + attempt);
      if !reply.Raised? {
        if ReplyText(reply).Some? {
          var parsed := parse(ReplyText(reply).value);
          if Usable(parsed) {
            return parsed, attempt + 1, effects + [Repair(reply)];
          }
        }
      }
      // a raised exception is caught and the next try follows at once
      var attempt' := attempt + 1;
      rest := RepairResume(parse, llm, base, attempt, effects, rest, whole, attempt');
      effects := effects + ([Repair(reply)] + RepairPause(reply, attempt));
      attempt := attempt';
    }
    return None, MaxFixAttempts, effects;
  }

  // ---------------------------------------------------------------------------
  // The generation loop, `analyze_news`, as a specification

  /** How one pass of the retry loop's body ended. */
  datatype AttemptEnd = Accepted(result: JValue) | NoText | Unusable

  /** One pass: its reply, how it ended, the calls it made and its trace (without the back-off). */
  datatype Attempt = Attempt(end: AttemptEnd, reply: Reply, calls: nat, spent: seq<Effect>)

  /** The body of the retry loop, making call `k` and, when the answer is unusable, the repair calls after it. */
  function AttemptAt(parse: Parser, llm: Model, k: nat): (t: Attempt)
    ensures t.reply == llm(k) && t.calls >= 1
    ensures t.end.NoText? <==> ReplyText(t.reply).None?
  {
    var reply := llm(k);
    if ReplyText(reply).None? then Attempt(NoText, reply, 1, [Generate(reply)])
    else
      var parsed := parse(ReplyText(reply).value);
      if Usable(parsed) then Attempt(Accepted(parsed.value), reply, 1, [Generate(reply)])
      else
        var fix := RepairFrom(parse, llm, k + 1, 0);
        var end := if fix.fixed.Some? && Truthy(fix.fixed.value) then Accepted(fix.fixed.value) else Unusable;
        Attempt(end, reply, 1 + fix.calls, [Generate(reply)] + fix.effects)
  }

  /** A pass accepts only a validated, non-empty object. */
  lemma AttemptAcceptsUsable(parse: Parser, llm: Model, k: nat)
    ensures var t := AttemptAt(parse, llm, k);
      t.end.Accepted? ==> Truthy(t.end.result) && ValidateJsonStructure(t.end.result)
  {
    RepairReturnsUsable(parse, llm, k + 1, 0);
  }

  /** How the retry loop ended: with an object to mark "success", or degraded with an error text. */
  datatype Outcome = Succeeded(result: JValue) | Degraded(error: string)

  datatype GenerationRun = GenerationRun(outcome: Outcome, effects: seq<Effect>)

  /** The pause `2 ** attempt` after a failed attempt, none after the last one. */
  function Backoff(attempt: nat, maxRetries: int): seq<Effect> {
    if attempt < maxRetries - 1 then [Sleep(Pow2(attempt))] else []
  }

  /** The passes the retry loop can make, by the number of their generation call. */
  type Passes = nat -> Attempt

  /** The passes as `analyze_news` makes them. */
  function ServicePasses(parse: Parser, llm: Model): Passes {
    (k: nat) => AttemptAt(parse, llm, k)
  }

  /** The retry loop of `analyze_news` from its `attempt`-th attempt on, whose first call is number `next`. */
  function GenerateFrom(passes: Passes, maxRetries: int, attempt: nat, next: nat): GenerationRun
    decreases maxRetries - attempt
  {
    if attempt >= maxRetries then GenerationRun(Degraded(ExhaustedError), [])
    else
      var t := passes(next);
      if t.end.Accepted? then GenerationRun(Succeeded(t.end.result), t.spent)
      else if t.end.NoText? && attempt == maxRetries - 1 then GenerationRun(Degraded(FailureText(t.reply)), t.spent)
      else
        var rest := GenerateFrom(passes, maxRetries, attempt + 1, next + t.calls);
        GenerationRun(rest.outcome, t.spent + Backoff(attempt, maxRetries) + rest.effects)
  }

  /** The dictionary `analyze_news` returns for an outcome. */
  function DigestOf(company: string, news: seq<Passage>, outcome: Outcome): JValue {
    match outcome
    case Succeeded(v) => WithStatus(v, StatusSuccess)
    case Degraded(error) => ErrorResponse(company, news, error)
  }

  datatype Analysis = Analysis(digest: JValue, effects: seq<Effect>)

  /** `analyze_news(company_name, news_data, max_retries)`. */
  function AnalyzeNewsSpec(parse: Parser, company: string, news: seq<Passage>, maxRetries: int, llm: Model): Analysis {
    if news == [] then Analysis(NoDataResponse(company), [])
    else
      var run := GenerateFrom(ServicePasses(parse, llm), maxRetries, 0, 0);
      Analysis(DigestOf(company, news, run.outcome), run.effects)
  }

  /** A pass that neither succeeded nor ended the loop is followed by its back-off and the loop from `a'`, `k'`. */
  lemma GenerateStep(passes: Passes, n: int, a: nat, k: nat, t: Attempt, a': nat, k': nat)
    returns (rest: GenerationRun)
    requires a' == a + 1 && k' == k + t.calls
    requires a < n && t == passes(k)
    requires !t.end.Accepted? && !(t.end.NoText? && a == n - 1)
    ensures rest == GenerateFrom(passes, n, a', k')
    ensures GenerateFrom(passes, n, a, k) == GenerationRun(rest.outcome, t.spent + Backoff(a, n) + rest.effects)
  {
    rest := GenerateFrom(passes, n, a', k');
  }

  /** After a pass that neither succeeded nor ended the loop, the loop backs off if it can and goes on with `rest`. */
  lemma GenerateResume(passes: Passes, n: int, a: nat, k: nat, t: Attempt, done: seq<Effect>,
                       current: GenerationRun, whole: GenerationRun, a': nat, k': nat) returns (rest: GenerationRun)
    requires a' == a + 1 && k' == k + t.calls
    requires a < n && t == passes(k) && current == GenerateFrom(passes, n, a, k)
    requires !t.end.Accepted? && !(t.end.NoText? && a == n - 1)
    requires whole == GenerationRun(current.outcome, done + current.effects)
    ensures rest == GenerateFrom(passes, n, a', k')
    ensures whole == GenerationRun(rest.outcome, (done + (t.spent + Backoff(a, n))) + rest.effects)
  {
    rest := GenerateStep(passes, n, a, k, t, a', k');
    assert done + (t.spent + Backoff(a, n) + rest.effects) == (done + (t.spent + Backoff(a, n))) + rest.effects;
  }

  lemma AnalyzeNewsOnPassages(parse: Parser, company: string, news: seq<Passage>, maxRetries: int, llm: Model)
    requires news != []
    ensures var run := GenerateFrom(ServicePasses(parse, llm), maxRetries, 0, 0);
      AnalyzeNewsSpec(parse, company, news, maxRetries, llm) == Analysis(DigestOf(company, news, run.outcome), run.effects)
  {
  }

  /** With no passages the answer is "no_data" with empty facts and opinions, and nothing is asked of the model. */
  lemma NoPassagesNoCall(parse: Parser, company: string, maxRetries: int, llm: Model)
    ensures var run := AnalyzeNewsSpec(parse, company, [], maxRetries, llm);
      && run.effects == [] && CallCount(run.effects) == 0
      && Get(run.digest, "status") == Some(JStr(StatusNoData))
      && Get(run.digest, "facts") == Some(JList([])) && Get(run.digest, "opinions") == Some(JList([]))
      && ValidateJsonStructure(run.digest)
  {
  }

  lemma EmptyPrefix<T>(s: seq<T>)
    ensures [] + s == s
  {
  }

  /** One pass of the retry loop's body: a generation call and, for an unusable answer, the repair loop. */
  method MakeAttempt(parse: Parser, llm: Model, k: nat) returns (t: Attempt)
    ensures t == AttemptAt(parse, llm, k)
  {
    var reply := llm(k);
    if ReplyText(reply).None? {
      // `raise Exception("API返回空响应")`, or the client's own exception
      return Attempt(NoText, reply, 1, [Generate(reply)]);
    }
    var parsed := parse(ReplyText(reply).value);
    if Usable(parsed) {
      return Attempt(Accepted(parsed.value), reply, 1, [Generate(reply)]);
    }
    var fixed, calls, fixEffects := FixJsonFormat(parse, llm, k + 1);
    var end := if fixed.Some? && Truthy(fixed.value) then Accepted(fixed.value) else Unusable;
    return Attempt(end, reply, 1 + calls, [Generate(reply)] + fixEffects);
  }

  /** `analyze_news`: at most `maxRetries` generation attempts with exponential back-off between them. */
  method AnalyzeNews(parse: Parser, company: string, news: seq<Passage>, maxRetries: int, llm: Model)
    returns (digest: JValue, effects: seq<Effect>)
    ensures Analysis(digest, effects) == AnalyzeNewsSpec(parse, company, news, maxRetries, llm)
  {
    if news == [] {
      return NoDataResponse(company), [];
    }
    AnalyzeNewsOnPassages(parse, company, news, maxRetries, llm);
    var attempt: nat := 0;
    var next: nat := 0;
    effects := [];
    ghost var passes := ServicePasses(parse, llm);
    ghost var rest := GenerateFrom(passes, maxRetries, attempt, next);
    ghost var whole := rest;
    EmptyPrefix(whole.effects);
    while attempt < maxRetries
      invariant attempt == 0 || attempt <= maxRetries
      invariant rest == GenerateFrom(passes, maxRetries, attempt, next)
      invariant whole == GenerationRun(rest.outcome, effects + rest.effects)
      decreases maxRetries - attempt
    {
      var t := MakeAttempt(parse, llm, next);
      assert t == passes(next);
      if t.end.Accepted? {
        return DigestOf(company, news, Succeeded(t.end.result)), effects + t.spent;
      }
      if t.end.NoText? && attempt == maxRetries - 1 {
        // the last attempt's exception becomes the error of the degraded answer
        return DigestOf(company, news, Degraded(FailureText(t.reply))), effects + t.spent;
      }
      var attempt', next' := attempt + 1, next + t.calls;
      rest := GenerateResume(passes, maxRetries, attempt, next, t, effects, rest, whole, attempt', next');
      effects := effects + (t.spent + Backoff(attempt, maxRetries));
      attempt, next := attempt', next';
    }
    return DigestOf(company, news, Degraded(ExhaustedError)), effects;
  }

  // ---------------------------------------------------------------------------
  // Pacing, checked against an independent monitor

  /**
   * A monitor of the call trace. A generation call is allowed first, or after
   * the pause 2^(k-1) owed by the k-th attempt; a repair call only after a
   * generation, at most `MaxFixAttempts` for one generation, and after a
   * one-second pause unless it is the first or the previous repair raised;
   * a pause is allowed only when no pause is pending.
   */
  datatype Monitor = Monitor(attempts: nat, repairs: nat, lastRaised: bool, pending: Option<nat>)

  const Start := Monitor(0, 0, false, None)

  function Step(m: Monitor, e: Effect): Option<Monitor> {
    match e
    case Generate(_) =>
      if m.pending == (if m.attempts == 0 then None else Some(Pow2(m.attempts - 1)))
      then Some(Monitor(m.attempts + 1, 0, false, None))
      else None
    case Repair(r) =>
      if m.attempts > 0 && m.repairs < MaxFixAttempts
         && m.pending == (if m.repairs == 0 || m.lastRaised then None else Some(1))
      then Some(Monitor(m.attempts, m.repairs + 1, r.Raised?, None))
      else None
    case Sleep(s) =>
      if m.pending.None? then Some(m.(pending := Some(s))) else None
  }

  /** The monitor's state after a trace, or None when the trace breaks a rule. */
  function Run(m: Monitor, es: seq<Effect>): Option<Monitor>
    decreases |es|
  {
    if es == [] then Some(m)
    else
      match Step(m, es[0])
      case None => None
      case Some(m') => Run(m', es[1..])
  }

  lemma {:induction false} RunAppend(m: Monitor, a: seq<Effect>, b: seq<Effect>)
    ensures Run(m, a + b) == match Run(m, a) case None => None case Some(m') => Run(m', b)
    decreases |a|
  {
    if a == [] {
      assert a + b == b;
    } else {
      assert (a + b)[0] == a[0];
      assert (a + b)[1..] == a[1..] + b;
      match Step(m, a[0])
      case None =>
      case Some(m1) => RunAppend(m1, a[1..], b);
    }
  }

  /** The repair loop from its `i`-th try keeps to the monitor's rules and ends with no pause pending. */
  lemma {:induction false} RepairPaced(parse: Parser, llm: Model, base: nat, i: nat, m: Monitor)
    requires i <= MaxFixAttempts
    requires m.attempts > 0 && m.repairs == i
    requires m.pending == (if i == 0 || i == MaxFixAttempts || m.lastRaised then None else Some(1))
    ensures var run := RepairFrom(parse, llm, base, i);
      var r := Run(m, run.effects);
      r.Some? && r.value.attempts == m.attempts && r.value.repairs == i + run.calls && r.value.pending.None?
    decreases MaxFixAttempts - i
  {
    if i < MaxFixAttempts {
      var reply := llm(base + i);
      if Usable(ParseReply(parse, reply)) {
        var _ := RepairThen(m, reply, i, []);
        assert [Repair(reply)] + [] == [Repair(reply)];
      } else {
        var i' := i + 1;
        var rest := RepairStep(parse, llm, base, i, i');
        var m2 := RepairThen(m, reply, i, rest.effects);
        RepairPaced(parse, llm, base, i', m2);
      }
    }
  }

  /** An allowed repair call, with the pause after it if any, moves the monitor on by one repair. */
  lemma RepairThen(m: Monitor, reply: Reply, i: nat, rest: seq<Effect>) returns (m2: Monitor)
    requires i < MaxFixAttempts && m.attempts > 0 && m.repairs == i
    requires m.pending == (if i == 0 || m.lastRaised then None else Some(1))
    ensures Run(m, [Repair(reply)] + rest) == Run(Monitor(m.attempts, i + 1, reply.Raised?, None), rest)
    ensures Run(m, [Repair(reply)] + RepairPause(reply, i) + rest) == Run(m2, rest)
    ensures m2 == Monitor(m.attempts, i + 1, reply.Raised?, if RepairPause(reply, i) != [] then Some(1) else None)
  {
    var m1 := Monitor(m.attempts, i + 1, reply.Raised?, None);
    var pause := RepairPause(reply, i);
    m2 := if pause != [] then m1.(pending := Some(1)) else m1;
    assert [Repair(reply)][1..] == [];
    assert Run(m, [Repair(reply)]) == Some(m1);
    RunAppend(m, [Repair(reply)], rest);
    if pause != [] {
      assert pause[1..] == [];
    }
    assert Run(m1, pause) == Some(m2);
    RunAppend(m, [Repair(reply)], pause);
    RunAppend(m, [Repair(reply)] + pause, rest);
  }

  /** One pass of the retry loop keeps to the monitor's rules and leaves no pause pending. */
  lemma AttemptPaced(parse: Parser, llm: Model, k: nat, m: Monitor)
    requires m.pending == (if m.attempts == 0 then None else Some(Pow2(m.attempts - 1)))
    ensures var t := AttemptAt(parse, llm, k);
      var r := Run(m, t.spent);
      r.Some? && r.value.attempts == m.attempts + 1 && r.value.pending.None? && r.value.repairs + 1 == t.calls
  {
    var t := AttemptAt(parse, llm, k);
    var fix := AttemptParts(parse, llm, k, t);
    var m1 := Monitor(m.attempts + 1, 0, false, None);
    GenerateThen(m, t.reply, fix.effects, m1);
    if fix == RepairFrom(parse, llm, k + 1, 0) {
      RepairPaced(parse, llm, k + 1, 0, m1);
    }
  }

  /** A pass is its generation call followed by the repair loop's trace, or by nothing. */
  lemma AttemptParts(parse: Parser, llm: Model, k: nat, t: Attempt) returns (fix: RepairRun)
    requires t == AttemptAt(parse, llm, k)
    ensures t.spent == [Generate(t.reply)] + fix.effects && t.calls == 1 + fix.calls
    ensures fix == RepairRun(None, 0, []) || fix == RepairFrom(parse, llm, k + 1, 0)
  {
    var reply := llm(k);
    if ReplyText(reply).Some? && !Usable(parse(ReplyText(reply).value)) {
      fix := RepairFrom(parse, llm, k + 1, 0);
    } else {
      fix := RepairRun(None, 0, []);
      assert [Generate(reply)] + [] == [Generate(reply)];
    }
  }

  /** An allowed generation call moves the monitor to a fresh attempt. */
  lemma GenerateThen(m: Monitor, reply: Reply, rest: seq<Effect>, m1: Monitor)
    requires m.pending == (if m.attempts == 0 then None else Some(Pow2(m.attempts - 1)))
    requires m1 == Monitor(m.attempts + 1, 0, false, None)
    ensures Run(m, [Generate(reply)] + rest) == Run(m1, rest)
  {
    assert [Generate(reply)][1..] == [];
    assert Run(m, [Generate(reply)]) == Some(m1);
    RunAppend(m, [Generate(reply)], rest);
  }

  /** The generation loop from its `a`-th attempt keeps to the monitor's rules and ends with no pause pending. */
  lemma {:induction false} GeneratePaced(passes: Passes, n: int, a: nat, k: nat, m: Monitor)
    requires SoundPasses(passes)
    requires m.attempts == a && (a == 0 || a <= n)
    requires m.pending == (if a == 0 || a >= n then None else Some(Pow2(a - 1)))
    ensures var r := Run(m, GenerateFrom(passes, n, a, k).effects);
      r.Some? && r.value.pending.None? && r.value.attempts <= (if n > 0 then n else 0)
    decreases n - a
  {
    if a < n {
      var t := passes(k);
      assert SoundPass(t);
      assert PacedFrom(m, t);
      if !t.end.Accepted? && !(t.end.NoText? && a == n - 1) {
        var a', k' := a + 1, k + t.calls;
        var rest := GenerateStep(passes, n, a, k, t, a', k');
        var m1 := Run(m, t.spent).value;
        var m2 := if a < n - 1 then m1.(pending := Some(Pow2(a))) else m1;
        GeneratePaced(passes, n, a', k', m2);
        RunThrough(m, t.spent, Backoff(a, n), rest.effects, m2);
      }
    }
  }

  /** A pass started when the monitor allows a generation keeps to its rules and leaves no pause pending. */
  ghost predicate PacedFrom(m: Monitor, t: Attempt) {
    m.pending == (if m.attempts == 0 then None else Some(Pow2(m.attempts - 1))) ==>
      var r := Run(m, t.spent);
      r.Some? && r.value.attempts == m.attempts + 1 && r.value.pending.None? && r.value.repairs + 1 == t.calls
  }

  /** What the loop needs of a pass: its trace names its reply, it ends without text only on a failed call, it accepts only valid objects, and it is paced. */
  ghost predicate SoundPass(t: Attempt) {
    && t.calls >= 1
    && LastGenerated(t.spent) == Some(t.reply)
    && (t.end.NoText? <==> ReplyText(t.reply).None?)
    && (t.end.Accepted? ==> Truthy(t.end.result) && ValidateJsonStructure(t.end.result))
    && forall m :: PacedFrom(m, t)
  }

  ghost predicate SoundPasses(passes: Passes) {
    forall k :: SoundPass(passes(k))
  }

  /** Every pass `analyze_news` makes has the properties the loop relies on. */
  lemma AttemptSound(parse: Parser, llm: Model, k: nat)
    ensures SoundPass(AttemptAt(parse, llm, k))
  {
    var t := AttemptAt(parse, llm, k);
    AttemptTrace(parse, llm, k);
    AttemptAcceptsUsable(parse, llm, k);
    forall m: Monitor
      ensures PacedFrom(m, t)
    {
      if m.pending == (if m.attempts == 0 then None else Some(Pow2(m.attempts - 1))) {
        AttemptPaced(parse, llm, k, m);
      }
    }
  }

  lemma ServicePassesSound(parse: Parser, llm: Model)
    ensures SoundPasses(ServicePasses(parse, llm))
  {
    forall k: nat
      ensures SoundPass(ServicePasses(parse, llm)(k))
    {
      AttemptSound(parse, llm, k);
    }
  }

  /** A trace run in three pieces: the monitor resumes in the state the first two leave. */
  lemma RunThrough(m: Monitor, a: seq<Effect>, b: seq<Effect>, c: seq<Effect>, m2: Monitor)
    requires Run(m, a).Some? && Run(Run(m, a).value, b) == Some(m2)
    ensures Run(m, a + b + c) == Run(m2, c)
  {
    RunAppend(m, a, b);
    RunAppend(m, a + b, c);
  }

  /** The number of model calls in a trace. */
  function CallCount(es: seq<Effect>): nat
    decreases |es|
  {
    if es == [] then 0 else (if es[0].Sleep? then 0 else 1) + CallCount(es[1..])
  }

  /** Calls made so far fit in `MaxFixAttempts + 1` per started attempt. */
  ghost predicate WithinBudget(m: Monitor, calls: nat) {
    && m.repairs <= MaxFixAttempts
    && if m.attempts == 0 then calls == 0
       else calls <= (MaxFixAttempts + 1) * (m.attempts - 1) + 1 + m.repairs
  }

  lemma {:induction false} RunWithinBudget(m: Monitor, es: seq<Effect>, calls: nat)
    requires WithinBudget(m, calls) && Run(m, es).Some?
    ensures WithinBudget(Run(m, es).value, calls + CallCount(es))
    decreases |es|
  {
    if es != [] {
      var m1 := Step(m, es[0]).value;
      assert WithinBudget(m1, calls + (if es[0].Sleep? then 0 else 1));
      RunWithinBudget(m1, es[1..], calls + (if es[0].Sleep? then 0 else 1));
    }
  }

  /**
   * `analyze_news` keeps to the pacing rules, never sleeps after its last
   * call, starts at most `max(maxRetries, 0)` generations and makes at most
   * `MaxFixAttempts + 1` model calls per generation.
   */
  lemma AnalyzeNewsPaced(parse: Parser, company: string, news: seq<Passage>, maxRetries: int, llm: Model)
    ensures var run := AnalyzeNewsSpec(parse, company, news, maxRetries, llm);
      var r := Run(Start, run.effects);
      && r.Some? && r.value.pending.None?
      && r.value.attempts <= (if maxRetries > 0 then maxRetries else 0)
      && CallCount(run.effects) <= (MaxFixAttempts + 1) * r.value.attempts
  {
    var run := AnalyzeNewsSpec(parse, company, news, maxRetries, llm);
    if news != [] {
      ServicePassesSound(parse, llm);
      GeneratePaced(ServicePasses(parse, llm), maxRetries, 0, 0, Start);
    }
    RunWithinBudget(Start, run.effects, 0);
  }

  // ---------------------------------------------------------------------------
  // What `analyze_news` returns

  /** The reply to the last generation call of a trace. */
  function LastGenerated(es: seq<Effect>): Option<Reply>
    decreases |es|
  {
    if es == [] then None
    else if es[|es| - 1].Generate? then Some(es[|es| - 1].reply)
    else LastGenerated(es[..|es| - 1])
  }

  /** The error of the degraded answer: the last attempt's exception, or the exhaustion message. */
  function ErrorFor(last: Option<Reply>): string {
    if last.Some? && ReplyText(last.value).None? then FailureText(last.value) else ExhaustedError
  }

  lemma {:induction false} LastGeneratedAppend(a: seq<Effect>, b: seq<Effect>)
    ensures LastGenerated(a + b) == if LastGenerated(b).Some? then LastGenerated(b) else LastGenerated(a)
    decreases |b|
  {
    if b == [] {
      assert a + b == a;
    } else {
      assert (a + b)[..|a + b| - 1] == a + b[..|b| - 1];
      LastGeneratedAppend(a, b[..|b| - 1]);
    }
  }

  lemma {:induction false} RepairHasNoGeneration(parse: Parser, llm: Model, base: nat, i: nat)
    requires i <= MaxFixAttempts
    ensures LastGenerated(RepairFrom(parse, llm, base, i).effects).None?
    decreases MaxFixAttempts - i
  {
    if i < MaxFixAttempts {
      var reply := llm(base + i);
      var rest := RepairFrom(parse, llm, base, i + 1);
      var pause := RepairPause(reply, i);
      RepairHasNoGeneration(parse, llm, base, i + 1);
      LastGeneratedAppend([Repair(reply)], pause);
      LastGeneratedAppend([Repair(reply)] + pause, rest.effects);
    }
  }

  /** A pass's trace holds one generation call, its own. */
  lemma AttemptTrace(parse: Parser, llm: Model, k: nat)
    ensures LastGenerated(AttemptAt(parse, llm, k).spent) == Some(llm(k))
  {
    var reply := llm(k);
    if ReplyText(reply).Some? && !Usable(parse(ReplyText(reply).value)) {
      RepairHasNoGeneration(parse, llm, k + 1, 0);
      LastGeneratedAppend([Generate(reply)], RepairFrom(parse, llm, k + 1, 0).effects);
    }
  }

  /** A loop with an attempt left makes a generation call. */
  lemma GenerateMakesCall(passes: Passes, n: int, a: nat, k: nat)
    requires SoundPasses(passes) && a < n
    ensures LastGenerated(GenerateFrom(passes, n, a, k).effects).Some?
  {
    var t := passes(k);
    assert SoundPass(t);
    if !t.end.Accepted? && !(t.end.NoText? && a == n - 1) {
      var rest := GenerateStep(passes, n, a, k, t, a + 1, k + t.calls);
      LastGeneratedAppend(t.spent, Backoff(a, n));
      LastGeneratedAppend(t.spent + Backoff(a, n), rest.effects);
    }
  }

  /** A run whose outcome is explained by its trace: success only on a truthy valid object, errors named by the last attempt. */
  ghost predicate Explained(run: GenerationRun) {
    match run.outcome
    case Succeeded(v) => Truthy(v) && ValidateJsonStructure(v)
    case Degraded(error) => error == ErrorFor(LastGenerated(run.effects))
  }

  /**
   * From attempt `a` on, the loop succeeds only with a truthy object that
   * passed the schema, and otherwise degrades with the last attempt's
   * exception text, or the exhaustion message when that attempt got an
   * answer that could not be used.
   */
  lemma {:induction false} GenerateOutcome(passes: Passes, n: int, a: nat, k: nat)
    requires SoundPasses(passes)
    ensures Explained(GenerateFrom(passes, n, a, k))
    decreases n - a
  {
    if a < n {
      var t := passes(k);
      assert SoundPass(t);
      if !t.end.Accepted? && !(t.end.NoText? && a == n - 1) {
        var a', k' := a + 1, k + t.calls;
        var rest := GenerateStep(passes, n, a, k, t, a', k');
        GenerateOutcome(passes, n, a', k');
        if a' < n {
          GenerateMakesCall(passes, n, a', k');
        }
        ExplainedContinuation(t.reply, t.spent, Backoff(a, n), rest);
      }
    }
  }

  /** A pass whose trace names its reply, a pause, and an explained rest make an explained run. */
  lemma ExplainedContinuation(reply: Reply, spent: seq<Effect>, pause: seq<Effect>, rest: GenerationRun)
    requires LastGenerated(spent) == Some(reply) && LastGenerated(pause).None?
    requires Explained(rest)
    requires LastGenerated(rest.effects).None? ==> ReplyText(reply).Some?
    ensures Explained(GenerationRun(rest.outcome, spent + pause + rest.effects))
  {
    LastGeneratedAppend(spent, pause);
    LastGeneratedAppend(spent + pause, rest.effects);
  }

  lemma SuccessStatus(v: JValue)
    requires ValidateJsonStructure(v)
    ensures ValidateJsonStructure(WithStatus(v, StatusSuccess))
    ensures Get(WithStatus(v, StatusSuccess), "status") == Some(JStr(StatusSuccess))
  {
    OtherKeysIgnored(v, "status", JStr(StatusSuccess));
  }

  /**
   * On passages, `analyze_news` answers status "success" exactly when the
   * retry loop succeeded, with an object that passed the schema, and answers
   * the (valid) degraded digest otherwise, its error named by the last attempt.
   */
  lemma AnalyzeNewsOutcome(parse: Parser, company: string, news: seq<Passage>, maxRetries: int, llm: Model)
    requires news != []
    ensures var run := AnalyzeNewsSpec(parse, company, news, maxRetries, llm);
      && ValidateJsonStructure(run.digest)
      && (Get(run.digest, "status") == Some(JStr(StatusSuccess))
          || run.digest == ErrorResponse(company, news, ErrorFor(LastGenerated(run.effects))))
      && (Get(run.digest, "status") == Some(JStr(StatusSuccess))
          <==> GenerateFrom(ServicePasses(parse, llm), maxRetries, 0, 0).outcome.Succeeded?)
  {
    ServicePassesSound(parse, llm);
    GenerateOutcome(ServicePasses(parse, llm), maxRetries, 0, 0);
    var run := GenerateFrom(ServicePasses(parse, llm), maxRetries, 0, 0);
    match run.outcome
    case Succeeded(v) =>
      SuccessStatus(v);
    case Degraded(error) =>
      FallbackShape(company, news, error);
      assert StatusSuccess != StatusPartialSuccess by { assert |StatusSuccess| != |StatusPartialSuccess|; }
  }

  /** A reply wrapped in a ```json fence, whose body is a valid digest, succeeds at the first call. */
  lemma FencedReplyFirstShot(loads: Loads, company: string, news: seq<Passage>, maxRetries: int, llm: Model,
                             w1: string, body: string, w2: string)
    requires news != [] && maxRetries >= 1
    requires AllSpace(w1) && AllSpace(w2)
    requires llm(0) == Answer(w1 + JsonFence + body + Fence + w2)
    requires loads(w1 + JsonFence + body + Fence + w2).None?
    requires loads(Strip(body)).Some? && Truthy(loads(Strip(body)).value)
    requires ValidateJsonStructure(loads(Strip(body)).value)
    ensures AnalyzeNewsSpec(Salvager(loads), company, news, maxRetries, llm)
      == Analysis(WithStatus(loads(Strip(body)).value, StatusSuccess), [Generate(llm(0))])
  {
    var parse := Salvager(loads);
    var v := loads(Strip(body)).value;
    RecoversFencedReply(loads, w1, body, w2);
    assert ReplyText(llm(0)) == Some(w1 + JsonFence + body + Fence + w2);
    AcceptedAtOnce(parse, llm, 0, v);
    FirstPassSucceeds(parse, company, news, maxRetries, llm, v);
  }

  /** A first reply whose text parses to a usable object is accepted at once, with no repair call. */
  lemma AcceptedAtOnce(parse: Parser, llm: Model, k: nat, v: JValue)
    requires ReplyText(llm(k)).Some? && parse(ReplyText(llm(k)).value) == Some(v) && Usable(Some(v))
    ensures AttemptAt(parse, llm, k) == Attempt(Accepted(v), llm(k), 1, [Generate(llm(k))])
  {
  }

  /** When the first pass is accepted, `analyze_news` answers its object marked "success" after one call. */
  lemma FirstPassSucceeds(parse: Parser, company: string, news: seq<Passage>, maxRetries: int, llm: Model, v: JValue)
    requires news != [] && maxRetries >= 1
    requires AttemptAt(parse, llm, 0) == Attempt(Accepted(v), llm(0), 1, [Generate(llm(0))])
    ensures AnalyzeNewsSpec(parse, company, news, maxRetries, llm) == Analysis(WithStatus(v, StatusSuccess), [Generate(llm(0))])
  {
    var passes := ServicePasses(parse, llm);
    assert passes(0) == Attempt(Accepted(v), llm(0), 1, [Generate(llm(0))]);
    assert GenerateFrom(passes, maxRetries, 0, 0) == GenerationRun(Succeeded(v), [Generate(llm(0))]);
  }

  // ---------------------------------------------------------------------------
  // `_format_news_for_analysis` and `generate_company_query`

  const ShortContentNote := "\n[注意：此新闻内容较短，在引用时请确保包含完整的上下文]"

  /** The heading line of a passage's block, naming its news id. */
  function IdHeader(newsId: string): string {
    "\n===== 新闻 ID: " + newsId + " =====\n"
  }

  /** One passage's block of the prompt. */
  function NewsBlock(p: Passage): string {
    IdHeader(NewsIdOr(p.metadata, "未知ID")) + BlockBody(p)
  }

  /** A block's lines after its heading. */
  function BlockBody(p: Passage): string {
    var content := ContentOr(p.metadata, "无内容");
    BlockFields(p) + (if |content| < 200 then ShortContentNote else "") + BlockEnd
  }

  /** The title, time, source, link and content lines of a block. */
  function BlockFields(p: Passage): string {
    var m := p.metadata;
    "标题: " + TitleOr(m, "无标题")
      + "\n时间: " + PublishedOr(m, "未知时间")
      + "\n来源: " + SourceOr(m, "未知来源")
      + "\n链接: " + UrlOf(m)
      + "\n完整内容: " + ContentOr(m, "无内容")
  }

  const BlockEnd := "\n==================\n            "

  function Blocks(news: seq<Passage>): (r: seq<string>)
    ensures |r| == |news| && forall i :: 0 <= i < |news| ==> r[i] == NewsBlock(news[i])
  {
    if news == [] then [] else [NewsBlock(news[0])] + Blocks(news[1..])
  }

  /** `_format_news_for_analysis`: the passages' blocks in order, joined by newlines. */
  method FormatNewsForAnalysis(news: seq<Passage>) returns (text: string)
    ensures text == Join(Blocks(news), "\n")
  {
    var formatted: seq<string> := [];
    for i := 0 to |news|
      invariant formatted == Blocks(news)[..i]
    {
      formatted := formatted + [NewsBlock(news[i])];
    }
    assert formatted == Blocks(news);
    text := Join(formatted, "\n");
  }

  /** Every passage's block, and so its news id heading, appears in the prompt text at its offset. */
  lemma FormattedShowsEveryPassage(news: seq<Passage>, i: nat)
    requires i < |news|
    ensures var text := Join(Blocks(news), "\n");
      var at := JoinOffset(Blocks(news), "\n", i);
      && OccursAt(NewsBlock(news[i]), text, at)
      && OccursAt(IdHeader(NewsIdOr(news[i].metadata, "未知ID")), text, at)
  {
    JoinShowsHead(Blocks(news), "\n", i, IdHeader(NewsIdOr(news[i].metadata, "未知ID")), BlockBody(news[i]));
  }

  lemma ShortContentFlagged(p: Passage)
    requires |ContentOr(p.metadata, "无内容")| < 200
    ensures IsInfix(ShortContentNote, NewsBlock(p))
  {
    var header := IdHeader(NewsIdOr(p.metadata, "未知ID"));
    var fields := BlockFields(p);
    var body := BlockBody(p);
    OccursInside(fields, ShortContentNote, BlockEnd);
    OccursAtBack(header, body);
    OccursWithin(ShortContentNote, body, NewsBlock(p), |fields|, |header|);
    IsInfixAt(ShortContentNote, NewsBlock(p));
  }

  const QuerySuffix := "公司的最新新闻、财报、股价和市场动态"

  /** `generate_company_query`. */
  function CompanyQuery(company: string): (q: string)
    ensures EndsWith(q, QuerySuffix) && StartsWith(q, company)
  {
    company + QuerySuffix
  }

  /** The company a query was generated for, recovered from the query text. */
  function QueryCompany(q: string): Option<string> {
    if EndsWith(q, QuerySuffix) then Some(q[..|q| - |QuerySuffix|]) else None
  }

  /** The query names its company: the company can be read back, so distinct companies get distinct queries. */
  lemma QueryRoundTrip(company: string, other: string)
    ensures QueryCompany(CompanyQuery(company)) == Some(company)
    ensures CompanyQuery(company) == CompanyQuery(other) ==> company == other
  {
    var q := CompanyQuery(company);
    assert q[..|q| - |QuerySuffix|] == company;
    var q' := CompanyQuery(other);
    assert q'[..|q'| - |QuerySuffix|] == other;
  }
}
