/**
 * `_try_parse_json` (src/services/gemini_service.py): salvaging a JSON
 * document from a model reply in three stages. Python's `json.loads` is a
 * foreign call; the model takes it as the partial function `loads`, where
 * `None` stands for a `JSONDecodeError` (and `Some(JNull)` for the text `null`).
 */
module JsonSalvage {
  import opened Wrappers
  import opened Json
  import opened Text

  type Loads = string -> Option<JValue>

  const JsonFence := "```json"
  const Fence := "```"

  /** Drops one leading "```json", or else one leading "```". */
  function DropOpeningFence(t: string): string {
    if StartsWith(t, JsonFence) then t[7..] else if StartsWith(t, Fence) then t[3..] else t
  }

  /** Drops one trailing "```". */
  function DropClosingFence(t: string): string {
    if EndsWith(t, Fence) then t[..|t| - 3] else t
  }

  /** Stage 2's cleanup: trim, drop one opening fence and one closing fence, trim again. */
  function StripFences(text: string): string {
    Strip(DropClosingFence(DropOpeningFence(Strip(text))))
  }

  /** A reply wrapped in a ```json fence (with any white space around it) is unwrapped to its body. */
  lemma UnwrapsJsonFence(w1: string, body: string, w2: string)
    requires AllSpace(w1) && AllSpace(w2)
    ensures StripFences(w1 + JsonFence + body + Fence + w2) == Strip(body)
  {
    DropsJsonFence(body + Fence);
    DropsClosingFence(body);
    UnwrapsFence(w1, JsonFence, body, Fence, w2);
  }

  /** A reply wrapped in a bare ``` fence is unwrapped too, unless its body itself starts like `json`. */
  lemma UnwrapsBareFence(w1: string, body: string, w2: string)
    requires AllSpace(w1) && AllSpace(w2)
    requires !StartsWith(body + Fence, "json")
    ensures StripFences(w1 + Fence + body + Fence + w2) == Strip(body)
  {
    DropsBareFence(body + Fence);
    DropsClosingFence(body);
    UnwrapsFence(w1, Fence, body, Fence, w2);
  }

  /** Fences that the two drop steps remove, with white space around them, leave the stripped body. */
  lemma UnwrapsFence(w1: string, opening: string, body: string, closing: string, w2: string)
    requires AllSpace(w1) && AllSpace(w2)
    requires opening != [] && opening[0] == '`' && closing != [] && closing[|closing| - 1] == '`'
    requires DropOpeningFence(opening + (body + closing)) == body + closing
    requires DropClosingFence(body + closing) == body
    ensures StripFences(w1 + opening + body + closing + w2) == Strip(body)
  {
    var x := FencedText(w1, opening, body, closing, w2);
    StripFencedText(w1, x, w2);
    StripFencesVia(w1 + opening + body + closing + w2, body + closing, body);
  }

  /** The fenced text inside its padding, which starts and ends with a backtick. */
  lemma FencedText(w1: string, opening: string, body: string, closing: string, w2: string) returns (x: string)
    requires opening != [] && opening[0] == '`' && closing != [] && closing[|closing| - 1] == '`'
    ensures x == opening + (body + closing) && w1 + opening + body + closing + w2 == w1 + x + w2
    ensures x != [] && x[0] == '`' && x[|x| - 1] == '`'
  {
    x := opening + (body + closing);
    assert w1 + opening + body + closing + w2 == w1 + x + w2;
  }

  /** The first trim removes just the padding around a text that starts and ends with a backtick. */
  lemma StripFencedText(w1: string, x: string, w2: string)
    requires AllSpace(w1) && AllSpace(w2)
    requires x != [] && x[0] == '`' && x[|x| - 1] == '`'
    ensures Strip(w1 + x + w2) == x
  {
    StripPadded(w1, x, w2);
  }

  /** The cleanup, read off its three steps. */
  lemma StripFencesVia(text: string, unopened: string, unclosed: string)
    requires DropOpeningFence(Strip(text)) == unopened && DropClosingFence(unopened) == unclosed
    ensures StripFences(text) == Strip(unclosed)
  {
  }

  lemma DropsJsonFence(rest: string)
    ensures DropOpeningFence(JsonFence + rest) == rest
  {
    var x := JsonFence + rest;
    assert x[..7] == JsonFence;
    assert x[7..] == rest;
  }

  lemma DropsBareFence(rest: string)
    requires !StartsWith(rest, "json")
    ensures DropOpeningFence(Fence + rest) == rest
  {
    var x := Fence + rest;
    assert x[..3] == Fence;
    assert x[3..] == rest;
    if |x| >= 7 {
      assert x[3..7] == rest[..4];
    }
  }

  lemma DropsClosingFence(body: string)
    ensures DropClosingFence(body + Fence) == body
  {
    assert (body + Fence)[|body|..] == Fence;
    assert (body + Fence)[..|body|] == body;
  }

  /** The first occurrence of `c` in `t`, or `|t|` when there is none. */
  function FirstIndex(t: string, c: char): (i: nat)
    ensures i <= |t|
    ensures i < |t| ==> t[i] == c
    ensures forall j :: 0 <= j < i ==> t[j] != c
  {
    if t == [] then 0 else if t[0] == c then 0 else 1 + FirstIndex(t[1..], c)
  }

  /** The last occurrence of `c` in `t`, or `-1` when there is none. */
  function LastIndex(t: string, c: char): (i: int)
    ensures -1 <= i < |t|
    ensures i >= 0 ==> t[i] == c
    ensures forall j :: i < j < |t| ==> t[j] != c
  {
    if t == [] then -1 else if t[|t| - 1] == c then |t| - 1 else LastIndex(t[..|t| - 1], c)
  }

  /** `t[i..j]` is the first `{` through the last `}`: there is no `{` before it and no `}` after it. */
  predicate IsGreedySpan(t: string, i: int, j: int) {
    && 0 <= i < j < |t| && t[i] == '{' && t[j] == '}'
    && (forall k :: 0 <= k < i ==> t[k] != '{')
    && (forall k :: j < k < |t| ==> t[k] != '}')
  }

  /**
   * `re.search(r'\{[\s\S]*\}', t)`: the leftmost `{` that some `}` follows, and,
   * the star being greedy, the LAST `}` of the text, whether or not the braces
   * in between balance.
   */
  function GreedyBraceSpan(t: string): (r: Option<string>)
    ensures r.Some? <==> exists i, j :: 0 <= i < j < |t| && t[i] == '{' && t[j] == '}'
    ensures r.Some? ==> exists i, j :: IsGreedySpan(t, i, j) && r.value == t[i..j + 1]
  {
    var i := FirstIndex(t, '{');
    var j := LastIndex(t, '}');
    if i < j then
      assert IsGreedySpan(t, i, j);
      Some(t[i..j + 1])
    else
      None
  }

  /** Two separate objects are taken as one span, from the first `{` to the last `}`. */
  lemma SpanIsGreedyNotBalanced()
    ensures GreedyBraceSpan("{} {}") == Some("{} {}")
  {
    var t := "{} {}";
    assert t[0] == '{' && t[4] == '}';
    assert FirstIndex(t, '{') == 0;
    assert LastIndex(t, '}') == 4;
    assert t[0..5] == t;
  }

  /** `_try_parse_json`. */
  function TryParseJson(loads: Loads, text: string): (r: Option<JValue>)
    ensures text == "" ==> r.None?
    ensures text != "" && loads(text).Some? ==> r == loads(text)
  {
    if text == "" then None
    else if loads(text).Some? then loads(text)
    else
      var cleaned := StripFences(text);
      if loads(cleaned).Some? then loads(cleaned)
      else
        match GreedyBraceSpan(cleaned)
        case Some(span) => loads(span)
        case None => None
  }

  /** `_try_parse_json` as a value, the form in which the digest generator receives it. */
  function Salvager(loads: Loads): (parse: string -> Option<JValue>)
    ensures forall text :: parse(text) == TryParseJson(loads, text)
  {
    text => TryParseJson(loads, text)
  }

  /** Whatever `_try_parse_json` returns was produced by `json.loads` from one of its three candidates. */
  lemma ParsedFromCandidate(loads: Loads, text: string)
    requires TryParseJson(loads, text).Some?
    ensures var r := TryParseJson(loads, text);
      || r == loads(text)
      || r == loads(StripFences(text))
      || (GreedyBraceSpan(StripFences(text)).Some? && r == loads(GreedyBraceSpan(StripFences(text)).value))
  {
  }

  /** A fenced reply whose body parses is recovered by the second stage. */
  lemma RecoversFencedReply(loads: Loads, w1: string, body: string, w2: string)
    requires AllSpace(w1) && AllSpace(w2)
    requires loads(w1 + JsonFence + body + Fence + w2).None?
    requires loads(Strip(body)).Some?
    ensures TryParseJson(loads, w1 + JsonFence + body + Fence + w2) == loads(Strip(body))
  {
    UnwrapsJsonFence(w1, body, w2);
  }

  /** Text that neither starts nor ends with white space or a backtick passes the cleanup unchanged. */
  lemma CleanupKeepsTrimmedText(t: string)
    requires t != [] && !IsSpace(t[0]) && t[0] != '`' && !IsSpace(t[|t| - 1]) && t[|t| - 1] != '`'
    ensures StripFences(t) == t
  {
    StripOfTrimmed(t);
    assert !StartsWith(t, Fence) && !StartsWith(t, JsonFence) && !EndsWith(t, Fence);
  }

  /** In prose without braces of its own, the span is exactly the embedded object. */
  lemma {:induction false} SpanOfObjectInProse(before: string, obj: string, after: string)
    requires forall k :: 0 <= k < |before| ==> before[k] != '{'
    requires forall k :: 0 <= k < |after| ==> after[k] != '}'
    requires |obj| >= 2 && obj[0] == '{' && obj[|obj| - 1] == '}'
    ensures GreedyBraceSpan(before + obj + after) == Some(obj)
  {
    var t := before + obj + after;
    var i := |before|;
    var j := |before| + |obj| - 1;
    assert forall k :: 0 <= k < i ==> t[k] == before[k];
    assert forall k :: j < k < |t| ==> t[k] == after[k - j - 1];
    assert IsGreedySpan(t, i, j);
    var span := GreedyBraceSpan(t).value;
    var i', j' :| IsGreedySpan(t, i', j') && span == t[i'..j' + 1];
    assert i' == i && j' == j;
    assert t[i..j + 1] == obj;
  }

  /** A reply with prose around one JSON object is recovered by the third stage. */
  lemma RecoversObjectInProse(loads: Loads, before: string, obj: string, after: string)
    requires forall k :: 0 <= k < |before| ==> before[k] != '{'
    requires forall k :: 0 <= k < |after| ==> after[k] != '}'
    requires |obj| >= 2 && obj[0] == '{' && obj[|obj| - 1] == '}'
    requires before != [] && !IsSpace(before[0]) && before[0] != '`'
    requires after != [] && !IsSpace(after[|after| - 1]) && after[|after| - 1] != '`'
    requires loads(before + obj + after).None?
    requires loads(obj).Some?
    ensures TryParseJson(loads, before + obj + after) == loads(obj)
  {
    var t := before + obj + after;
    assert t[0] == before[0] && t[|t| - 1] == after[|after| - 1];
    CleanupKeepsTrimmedText(t);
    SpanOfObjectInProse(before, obj, after);
  }
}
