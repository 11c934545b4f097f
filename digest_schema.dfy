/**
 * The digest schema the language model must answer in, and the validator
 * `_validate_json_structure` (src/services/gemini_service.py) that enforces it.
 */
module DigestSchema {
  import opened Json

  // The schema, stated with quantifiers: a digest holds two lists of topics,
  // a topic holds a list of summaries, a summary a list of citations.

  predicate IsCitation(c: JValue) {
    c.JObj? && "news_id" in c.fields && "content" in c.fields
  }

  predicate IsSummary(s: JValue) {
    && s.JObj? && "aspect" in s.fields && "content" in s.fields && "citations" in s.fields
    && s.fields["citations"].JList?
    && forall c :: c in s.fields["citations"].items ==> IsCitation(c)
  }

  predicate IsTopic(t: JValue) {
    && t.JObj? && "topic" in t.fields && "summaries" in t.fields
    && t.fields["summaries"].JList?
    && forall s :: s in t.fields["summaries"].items ==> IsSummary(s)
  }

  /** Facts and opinions obey one and the same rule. */
  predicate IsTopicList(v: JValue) {
    v.JList? && forall t :: t in v.items ==> IsTopic(t)
  }

  predicate IsDigest(d: JValue) {
    && d.JObj? && "facts" in d.fields && "opinions" in d.fields
    && IsTopicList(d.fields["facts"]) && IsTopicList(d.fields["opinions"])
  }

  // The validator as the service writes it: checks in order, returning
  // false at the first element that fails.

  function CitationsValid(cs: seq<JValue>): bool {
    if cs == [] then true
    else if !cs[0].JObj? then false
    else if "news_id" !in cs[0].fields || "content" !in cs[0].fields then false
    else CitationsValid(cs[1..])
  }

  function SummariesValid(ss: seq<JValue>): bool {
    if ss == [] then true
    else if !ss[0].JObj? then false
    else if "aspect" !in ss[0].fields || "content" !in ss[0].fields || "citations" !in ss[0].fields then false
    else if !ss[0].fields["citations"].JList? then false
    else if !CitationsValid(ss[0].fields["citations"].items) then false
    else SummariesValid(ss[1..])
  }

  function TopicsValid(ts: seq<JValue>): bool {
    if ts == [] then true
    else if !ts[0].JObj? then false
    else if "topic" !in ts[0].fields || "summaries" !in ts[0].fields then false
    else if !ts[0].fields["summaries"].JList? then false
    else if !SummariesValid(ts[0].fields["summaries"].items) then false
    else TopicsValid(ts[1..])
  }

  /** `_validate_json_structure`. */
  function ValidateJsonStructure(data: JValue): bool {
    if !data.JObj? then false
    else if "facts" !in data.fields || "opinions" !in data.fields then false
    else if !data.fields["facts"].JList? || !data.fields["opinions"].JList? then false
    else TopicsValid(data.fields["facts"].items) && TopicsValid(data.fields["opinions"].items)
  }

  // The early-exit checks decide exactly the quantified schema.

  lemma {:induction false} CitationsValidSchema(cs: seq<JValue>)
    ensures CitationsValid(cs) <==> forall c :: c in cs ==> IsCitation(c)
    decreases |cs|
  {
    if cs != [] {
      assert cs[0] in cs;
      CitationsValidSchema(cs[1..]);
      assert forall c :: c in cs ==> c == cs[0] || c in cs[1..];
    }
  }

  lemma SummaryValidSchema(s: JValue)
    ensures (&& s.JObj? && "aspect" in s.fields && "content" in s.fields && "citations" in s.fields
             && s.fields["citations"].JList? && CitationsValid(s.fields["citations"].items)) <==> IsSummary(s)
  {
    if s.JObj? && "citations" in s.fields && s.fields["citations"].JList? {
      CitationsValidSchema(s.fields["citations"].items);
    }
  }

  lemma {:induction false} SummariesValidSchema(ss: seq<JValue>)
    ensures SummariesValid(ss) <==> forall s :: s in ss ==> IsSummary(s)
    decreases |ss|
  {
    if ss != [] {
      assert ss[0] in ss;
      SummaryValidSchema(ss[0]);
      SummariesValidSchema(ss[1..]);
      assert forall s :: s in ss ==> s == ss[0] || s in ss[1..];
    }
  }

  lemma TopicValidSchema(t: JValue)
    ensures (&& t.JObj? && "topic" in t.fields && "summaries" in t.fields
             && t.fields["summaries"].JList? && SummariesValid(t.fields["summaries"].items)) <==> IsTopic(t)
  {
    if t.JObj? && "summaries" in t.fields && t.fields["summaries"].JList? {
      SummariesValidSchema(t.fields["summaries"].items);
    }
  }

  lemma {:induction false} TopicsValidSchema(ts: seq<JValue>)
    ensures TopicsValid(ts) <==> forall t :: t in ts ==> IsTopic(t)
    decreases |ts|
  {
    if ts != [] {
      assert ts[0] in ts;
      TopicValidSchema(ts[0]);
      TopicsValidSchema(ts[1..]);
      assert forall t :: t in ts ==> t == ts[0] || t in ts[1..];
    }
  }

  /** The validator accepts exactly the documents of the schema. */
  lemma ValidatorDecidesSchema(data: JValue)
    ensures ValidateJsonStructure(data) <==> IsDigest(data)
  {
    if data.JObj? && "facts" in data.fields && "opinions" in data.fields
       && data.fields["facts"].JList? && data.fields["opinions"].JList? {
      TopicsValidSchema(data.fields["facts"].items);
      TopicsValidSchema(data.fields["opinions"].items);
    }
  }

  /** The smallest digest, `{"facts": [], "opinions": []}`, is accepted. */
  lemma AcceptsEmptyDigest()
    ensures ValidateJsonStructure(JObj(map["facts" := JList([]), "opinions" := JList([])]))
  {
  }

  /** A topic (fact or opinion) that is not an object with a `summaries` key makes the document invalid. */
  lemma RejectsTopicWithoutSummaries(data: JValue, part: string, i: nat)
    requires part == "facts" || part == "opinions"
    requires data.JObj? && part in data.fields && data.fields[part].JList?
    requires i < |data.fields[part].items|
    requires Get(data.fields[part].items[i], "summaries").None?
    ensures !ValidateJsonStructure(data)
  {
    assert data.fields[part].items[i] in data.fields[part].items;
    ValidatorDecidesSchema(data);
  }

  /** A citation that is not an object with a `news_id` key makes the document invalid. */
  lemma RejectsCitationWithoutNewsId(data: JValue, part: string, i: nat, j: nat, k: nat)
    requires part == "facts" || part == "opinions"
    requires data.JObj? && part in data.fields && data.fields[part].JList?
    requires i < |data.fields[part].items|
    requires var t := data.fields[part].items[i];
      && t.JObj? && "summaries" in t.fields && t.fields["summaries"].JList?
      && j < |t.fields["summaries"].items|
      && var s := t.fields["summaries"].items[j];
      && s.JObj? && "citations" in s.fields && s.fields["citations"].JList?
      && k < |s.fields["citations"].items|
      && Get(s.fields["citations"].items[k], "news_id").None?
    ensures !ValidateJsonStructure(data)
  {
    var t := data.fields[part].items[i];
    var s := t.fields["summaries"].items[j];
    assert s.fields["citations"].items[k] in s.fields["citations"].items;
    assert s in t.fields["summaries"].items;
    assert t in data.fields[part].items;
    ValidatorDecidesSchema(data);
  }

  /** Anything but a dict holding the lists `facts` and `opinions` is rejected outright. */
  lemma RejectsMalformedTop(data: JValue)
    requires Get(data, "facts").None? || Get(data, "opinions").None?
          || !Get(data, "facts").value.JList? || !Get(data, "opinions").value.JList?
    ensures !ValidateJsonStructure(data)
  {
  }

  /** Facts and opinions are checked by the same rule: exchanging them preserves the verdict. */
  lemma FactsOpinionsSymmetric(m: map<string, JValue>)
    requires "facts" in m && "opinions" in m
    ensures ValidateJsonStructure(JObj(m))
        == ValidateJsonStructure(JObj(m["facts" := m["opinions"]]["opinions" := m["facts"]]))
  {
  }

  /** Keys other than `facts` and `opinions` play no part, so adding `status` keeps a digest valid. */
  lemma OtherKeysIgnored(d: JValue, key: string, x: JValue)
    requires key != "facts" && key != "opinions"
    ensures ValidateJsonStructure(Put(d, key, x)) == ValidateJsonStructure(d)
  {
    if d.JObj? {
      assert Put(d, key, x) == JObj(d.fields[key := x]);
    }
  }

  /** A valid digest is a non-empty dict, so the `if result and ...` test reduces to validation. */
  lemma ValidDigestIsTruthy(d: JValue)
    requires ValidateJsonStructure(d)
    ensures Truthy(d)
  {
    assert "facts" in d.fields;
  }
}
