/**
 * `NewsAnalyzer._extract_sources` (src/core/analyzer.py): one citation record
 * per distinct non-empty URL, the first passage with that URL giving its
 * fields, then ordered by rounded similarity score, highest first, with
 * Python's stable `list.sort`.
 */
module Sources {
  import opened Wrappers
  import opened Passages

  /** One entry of `sources`; `score` is the similarity rounded to three decimals, in thousandths. */
  datatype Source = Source(newsId: string, title: string, source: string, publishedAt: string, url: string, score: int)

  // ---------------------------------------------------------------------------
  // `round(score, 3)`

  /** `round(x, 3)` for a score given in millionths: the nearest thousandth, ties to the even one. */
  function Round3(millionths: int): (r: int)
    ensures 1000 * r - 500 <= millionths <= 1000 * r + 500
    ensures millionths == 1000 * r + 500 || millionths == 1000 * r - 500 ==> r % 2 == 0
  {
    var q := millionths / 1000;
    var rest := millionths % 1000;
    if rest < 500 then q
    else if rest > 500 then q + 1
    else if q % 2 == 0 then q else q + 1
  }

  /** Rounding is determined by its contract: no other thousandth is as near, with the same tie rule. */
  lemma Round3Unique(millionths: int, r: int)
    requires 1000 * r - 500 <= millionths <= 1000 * r + 500
    requires millionths == 1000 * r + 500 || millionths == 1000 * r - 500 ==> r % 2 == 0
    ensures r == Round3(millionths)
  {
  }

  /** Rounding keeps the order of scores, so ranking by rounded score never inverts two passages. */
  lemma Round3Monotone(a: int, b: int)
    requires a <= b
    ensures Round3(a) <= Round3(b)
  {
  }

  /** The record built for a passage: `news_id` falls back to the passage id, the other fields to their defaults. */
  function ToSource(p: Passage): Source {
    var m := p.metadata;
    Source(
      m.newsId.OrElse(p.id).GetOr(""),
      TitleOr(m, "无标题"),
      SourceOr(m, "未知来源"),
      PublishedOr(m, "未知时间"),
      UrlOf(m),
      Round3(p.score.GetOr(0)))
  }

  // ---------------------------------------------------------------------------
  // De-duplication by URL

  /** The URLs of a list of records (`seen_urls`). */
  function UrlsOf(sources: seq<Source>): set<string>
    decreases |sources|
  {
    if sources == [] then {} else UrlsOf(sources[..|sources| - 1]) + {sources[|sources| - 1].url}
  }

  lemma {:induction false} UrlsOfMembers(sources: seq<Source>, u: string)
    ensures u in UrlsOf(sources) <==> exists i :: 0 <= i < |sources| && sources[i].url == u
    decreases |sources|
  {
    if sources != [] {
      var init := sources[..|sources| - 1];
      UrlsOfMembers(init, u);
      if exists i :: 0 <= i < |init| && init[i].url == u {
        var i :| 0 <= i < |init| && init[i].url == u;
        assert sources[i] == init[i];
      }
      if exists i :: 0 <= i < |sources| && sources[i].url == u {
        var i :| 0 <= i < |sources| && sources[i].url == u;
        if i < |init| {
          assert init[i] == sources[i];
        }
      }
    }
  }

  /** The records the loop of `_extract_sources` has collected after the passages `news`, in passage order. */
  function Collected(news: seq<Passage>): seq<Source>
    decreases |news|
  {
    if news == [] then []
    else
      var prior := Collected(news[..|news| - 1]);
      var url := UrlOf(news[|news| - 1].metadata);
      if url == "" || url in UrlsOf(prior) then prior else prior + [ToSource(news[|news| - 1])]
  }

  predicate DistinctUrls(sources: seq<Source>) {
    forall i, j :: 0 <= i < j < |sources| ==> sources[i].url != sources[j].url
  }

  /** `j` is the first passage with the URL `u`. */
  predicate FirstWithUrl(news: seq<Passage>, u: string, j: int) {
    0 <= j < |news| && UrlOf(news[j].metadata) == u && forall k :: 0 <= k < j ==> UrlOf(news[k].metadata) != u
  }

  /** One record at most per passage. */
  lemma {:induction false} CollectedLength(news: seq<Passage>)
    ensures |Collected(news)| <= |news|
    decreases |news|
  {
    if news != [] {
      CollectedLength(news[..|news| - 1]);
    }
  }

  /** The last passage adds its record exactly when its URL is non-empty and new. */
  lemma CollectedStep(news: seq<Passage>)
    requires news != []
    ensures var prior := Collected(news[..|news| - 1]);
      var url := UrlOf(news[|news| - 1].metadata);
      Collected(news) == if url == "" || url in UrlsOf(prior) then prior else prior + [ToSource(news[|news| - 1])]
  {
  }

  /** No collected URL is empty and none is collected twice. */
  lemma {:induction false} CollectedDistinct(news: seq<Passage>)
    ensures DistinctUrls(Collected(news))
    ensures forall i :: 0 <= i < |Collected(news)| ==> Collected(news)[i].url != ""
    decreases |news|
  {
    if news != [] {
      var prior := Collected(news[..|news| - 1]);
      var url := UrlOf(news[|news| - 1].metadata);
      CollectedDistinct(news[..|news| - 1]);
      CollectedStep(news);
      if url != "" && url !in UrlsOf(prior) {
        UrlsOfMembers(prior, url);
        AppendDistinct(prior, ToSource(news[|news| - 1]));
      }
    }
  }

  lemma AppendDistinct(prior: seq<Source>, x: Source)
    requires DistinctUrls(prior) && forall i :: 0 <= i < |prior| ==> prior[i].url != x.url
    ensures DistinctUrls(prior + [x])
  {
  }

  /** Each record of `c` is the record of the first passage of `news` carrying its URL. */
  ghost predicate FirstSeen(news: seq<Passage>, c: seq<Source>) {
    forall i :: 0 <= i < |c| ==> FirstSeenAt(news, c[i])
  }

  /** `x` is the record of the first passage of `news` carrying its URL. */
  ghost predicate FirstSeenAt(news: seq<Passage>, x: Source) {
    exists j :: FirstWithUrl(news, x.url, j) && x == ToSource(news[j])
  }

  /** Each collected record is the record of the first passage carrying its URL. */
  lemma {:induction false} CollectedFirstSeen(news: seq<Passage>)
    ensures FirstSeen(news, Collected(news))
    decreases |news|
  {
    if news != [] {
      var init := news[..|news| - 1];
      var prior := Collected(init);
      var url := UrlOf(news[|news| - 1].metadata);
      CollectedFirstSeen(init);
      CollectedStep(news);
      FirstSeenExtends(news, prior);
      if url != "" && url !in UrlsOf(prior) {
        NewUrlFirstSeen(news, prior);
        FirstSeenAppend(news, prior);
      }
    } else {
      assert Collected(news) == [];
    }
  }

  /** A record first seen among the earlier passages is still first seen once a passage is added. */
  lemma FirstSeenExtends(news: seq<Passage>, c: seq<Source>)
    requires news != [] && FirstSeen(news[..|news| - 1], c)
    ensures FirstSeen(news, c)
  {
    var init := news[..|news| - 1];
    forall i | 0 <= i < |c|
      ensures FirstSeenAt(news, c[i])
    {
      assert FirstSeenAt(init, c[i]);
      var j :| FirstWithUrl(init, c[i].url, j) && c[i] == ToSource(init[j]);
      assert forall k :: 0 <= k <= j ==> news[k] == init[k];
      assert FirstWithUrl(news, c[i].url, j) && c[i] == ToSource(news[j]);
    }
  }

  /** The record of a last passage whose URL first appears there is first seen. */
  lemma FirstSeenAppend(news: seq<Passage>, c: seq<Source>)
    requires news != [] && FirstSeen(news, c)
    requires FirstWithUrl(news, UrlOf(news[|news| - 1].metadata), |news| - 1)
    ensures FirstSeen(news, c + [ToSource(news[|news| - 1])])
  {
    var c' := c + [ToSource(news[|news| - 1])];
    forall i | 0 <= i < |c'|
      ensures FirstSeenAt(news, c'[i])
    {
      if i < |c| {
        assert c'[i] == c[i];
      } else {
        assert c'[i] == ToSource(news[|news| - 1]);
        assert c'[i].url == UrlOf(news[|news| - 1].metadata);
      }
    }
  }

  /** A URL the earlier passages did not contribute first appears at the last passage. */
  lemma NewUrlFirstSeen(news: seq<Passage>, prior: seq<Source>)
    requires news != [] && prior == Collected(news[..|news| - 1])
    requires UrlOf(news[|news| - 1].metadata) != "" && UrlOf(news[|news| - 1].metadata) !in UrlsOf(prior)
    ensures FirstWithUrl(news, UrlOf(news[|news| - 1].metadata), |news| - 1)
  {
    var init := news[..|news| - 1];
    var url := UrlOf(news[|news| - 1].metadata);
    forall k | 0 <= k < |init|
      ensures UrlOf(news[k].metadata) != url
    {
      assert init[k] == news[k];
      CollectedComplete(init);
    }
  }

  /** Every non-empty URL of the passages is among the collected ones. */
  lemma {:induction false} CollectedComplete(news: seq<Passage>)
    ensures forall j :: 0 <= j < |news| && UrlOf(news[j].metadata) != "" ==> UrlOf(news[j].metadata) in UrlsOf(Collected(news))
    decreases |news|
  {
    if news != [] {
      var init := news[..|news| - 1];
      var prior := Collected(init);
      var c := Collected(news);
      CollectedComplete(init);
      CollectedStep(news);
      assert UrlsOf(prior) <= UrlsOf(c) by {
        if c != prior {
          assert c[..|c| - 1] == prior;
        }
      }
      forall j | 0 <= j < |init|
        ensures init[j] == news[j]
      {
      }
    }
  }

  // ---------------------------------------------------------------------------
  // `sources.sort(key=lambda x: x['score'], reverse=True)`

  /** Places a record before the first one whose score is not higher, as a stable descending sort must. */
  function Insert(x: Source, ys: seq<Source>): (r: seq<Source>)
    ensures |r| == |ys| + 1
    decreases |ys|
  {
    if ys == [] || x.score >= ys[0].score then [x] + ys else [ys[0]] + Insert(x, ys[1..])
  }

  /** Python's stable `list.sort` by score, highest first. */
  function SortByScore(xs: seq<Source>): (r: seq<Source>)
    ensures |r| == |xs|
    decreases |xs|
  {
    if xs == [] then [] else Insert(xs[0], SortByScore(xs[1..]))
  }

  predicate SortedByScore(xs: seq<Source>) {
    forall i, j :: 0 <= i < j < |xs| ==> xs[i].score >= xs[j].score
  }

  /** The records with score `s`, in their order. */
  function WithScore(xs: seq<Source>, s: int): seq<Source>
    decreases |xs|
  {
    if xs == [] then [] else (if xs[0].score == s then [xs[0]] else []) + WithScore(xs[1..], s)
  }

  lemma {:induction false} InsertSorted(x: Source, ys: seq<Source>)
    requires SortedByScore(ys)
    ensures SortedByScore(Insert(x, ys))
    ensures Insert(x, ys)[0] == x || (ys != [] && Insert(x, ys)[0] == ys[0])
    decreases |ys|
  {
    if ys != [] && x.score < ys[0].score {
      SortedTail(ys);
      InsertSorted(x, ys[1..]);
      var tail := Insert(x, ys[1..]);
      assert tail[0] == x || tail[0] == ys[1];
      SortedCons(ys[0], tail);
    } else {
      SortedCons(x, ys);
    }
  }

  /** A record scoring at least the head of a sorted sequence can go in front of it. */
  lemma SortedCons(h: Source, t: seq<Source>)
    requires SortedByScore(t) && (t == [] || h.score >= t[0].score)
    ensures SortedByScore([h] + t)
  {
    var r := [h] + t;
    forall i, j | 0 <= i < j < |r|
      ensures r[i].score >= r[j].score
    {
      if i == 0 {
        assert r[j] == t[j - 1];
      } else {
        assert r[i] == t[i - 1] && r[j] == t[j - 1];
      }
    }
  }

  lemma {:induction false} InsertPermutes(x: Source, ys: seq<Source>)
    ensures multiset(Insert(x, ys)) == multiset([x] + ys)
    decreases |ys|
  {
    if ys != [] && x.score < ys[0].score {
      InsertPermutes(x, ys[1..]);
      assert ys == [ys[0]] + ys[1..];
      assert multiset([x] + ys) == multiset([ys[0]]) + multiset([x] + ys[1..]);
    }
  }

  /** Inserting keeps, for every score, the order of the records with that score, the inserted one first. */
  lemma {:induction false} InsertStable(x: Source, ys: seq<Source>, s: int)
    ensures WithScore(Insert(x, ys), s) == WithScore([x] + ys, s)
    decreases |ys|
  {
    if ys != [] && x.score < ys[0].score {
      InsertStable(x, ys[1..], s);
      assert ([ys[0]] + Insert(x, ys[1..]))[1..] == Insert(x, ys[1..]);
      assert ([x] + ys)[1..] == ys;
      assert ([x] + ys[1..])[1..] == ys[1..];
    }
  }

  /** The sort is sorted, a permutation, and stable: each score's records keep their input order. */
  lemma {:induction false} SortByScoreSorted(xs: seq<Source>)
    ensures SortedByScore(SortByScore(xs))
    decreases |xs|
  {
    if xs != [] {
      SortByScoreSorted(xs[1..]);
      InsertSorted(xs[0], SortByScore(xs[1..]));
    }
  }

  lemma {:induction false} SortByScorePermutes(xs: seq<Source>)
    ensures multiset(SortByScore(xs)) == multiset(xs)
    decreases |xs|
  {
    if xs != [] {
      SortByScorePermutes(xs[1..]);
      InsertPermutes(xs[0], SortByScore(xs[1..]));
      assert xs == [xs[0]] + xs[1..];
    }
  }

  lemma {:induction false} SortByScoreStable(xs: seq<Source>, s: int)
    ensures WithScore(SortByScore(xs), s) == WithScore(xs, s)
    decreases |xs|
  {
    if xs != [] {
      var rest := SortByScore(xs[1..]);
      SortByScoreStable(xs[1..], s);
      InsertStable(xs[0], rest, s);
      assert ([xs[0]] + rest)[1..] == rest;
    }
  }

  /** The sort is sorted, a permutation, and stable: each score's records keep their input order. */
  lemma SortByScoreSpec(xs: seq<Source>)
    ensures SortedByScore(SortByScore(xs))
    ensures multiset(SortByScore(xs)) == multiset(xs)
    ensures forall s :: WithScore(SortByScore(xs), s) == WithScore(xs, s)
  {
    SortByScoreSorted(xs);
    SortByScorePermutes(xs);
    forall s
      ensures WithScore(SortByScore(xs), s) == WithScore(xs, s)
    {
      SortByScoreStable(xs, s);
    }
  }

  /**
   * Sortedness and stability pin the order down: any sequence sorted by
   * score whose records of each score are those of `xs`, in order, is the sort of `xs`.
   */
  lemma {:induction false} SortIsUnique(xs: seq<Source>, ys: seq<Source>)
    requires SortedByScore(ys) && forall s :: WithScore(ys, s) == WithScore(xs, s)
    ensures ys == SortByScore(xs)
  {
    SortByScoreSpec(xs);
    SortedAgree(ys, SortByScore(xs));
  }

  /** Two score-sorted sequences with the same records of every score, in the same order, are equal. */
  lemma {:induction false} SortedAgree(a: seq<Source>, b: seq<Source>)
    requires SortedByScore(a) && SortedByScore(b)
    requires forall s :: WithScore(a, s) == WithScore(b, s)
    ensures a == b
    decreases |a|
  {
    if a == [] {
      if b != [] {
        WithScoreHead(b);
        assert false;
      }
    } else if b == [] {
      WithScoreHead(a);
      assert false;
    } else {
      WithScoreHead(a);
      WithScoreHead(b);
      var s := a[0].score;
      if b[0].score > s {
        WithScoreBelow(a, b[0].score);
        assert false;
      }
      if s > b[0].score {
        WithScoreBelow(b, s);
        assert false;
      }
      assert a[0] == WithScore(a, s)[0] == WithScore(b, s)[0] == b[0];
      forall t
        ensures WithScore(a[1..], t) == WithScore(b[1..], t)
      {
        WithScoreTail(a, t);
        WithScoreTail(b, t);
      }
      SortedTail(a);
      SortedTail(b);
      SortedAgree(a[1..], b[1..]);
    }
  }

  lemma WithScoreTail(xs: seq<Source>, t: int)
    requires xs != []
    ensures WithScore(xs[1..], t) == if xs[0].score == t then WithScore(xs, t)[1..] else WithScore(xs, t)
  {
    var rest := WithScore(xs[1..], t);
    if xs[0].score == t {
      assert ([xs[0]] + rest)[1..] == rest;
    } else {
      assert [] + rest == rest;
    }
  }

  lemma SortedTail(xs: seq<Source>)
    requires xs != [] && SortedByScore(xs)
    ensures SortedByScore(xs[1..])
  {
    assert forall i, j :: 0 <= i < j < |xs| - 1 ==> xs[1..][i] == xs[i + 1] && xs[1..][j] == xs[j + 1];
  }

  /** A sequence's first record heads its own score class. */
  lemma WithScoreHead(xs: seq<Source>)
    requires xs != []
    ensures WithScore(xs, xs[0].score) != [] && WithScore(xs, xs[0].score)[0] == xs[0]
  {
  }

  /** In a score-sorted sequence nothing scores above its first record. */
  lemma {:induction false} WithScoreBelow(xs: seq<Source>, s: int)
    requires xs != [] && SortedByScore(xs) && s > xs[0].score
    ensures WithScore(xs, s) == []
    decreases |xs|
  {
    if |xs| > 1 {
      SortedTail(xs);
      assert xs[1].score <= xs[0].score;
      WithScoreBelow(xs[1..], s);
    }
  }

  // ---------------------------------------------------------------------------
  // `_extract_sources`

  /** `_extract_sources`: collect one record per new non-empty URL, then sort by score, highest first. */
  method ExtractSources(news: seq<Passage>) returns (sources: seq<Source>)
    ensures sources == SortByScore(Collected(news))
  {
    sources := [];
    var seen: set<string> := {};
    for i := 0 to |news|
      invariant sources == Collected(news[..i])
      invariant seen == UrlsOf(sources)
    {
      var url := UrlOf(news[i].metadata);
      assert news[..i + 1][..i] == news[..i];
      if url in seen || url == "" {
        continue;
      }
      var record := ToSource(news[i]);
      assert (sources + [record])[..|sources|] == sources;
      sources := sources + [record];
      seen := seen + {url};
    }
    assert news[..|news|] == news;
    sources := SortByScore(sources);
  }

  /** `_extract_sources` ranks by score, highest first, equal scores in passage order, and keeps just the collected records. */
  lemma ExtractedSorted(news: seq<Passage>)
    ensures var r := SortByScore(Collected(news));
      && SortedByScore(r)
      && (forall s :: WithScore(r, s) == WithScore(Collected(news), s))
      && multiset(r) == multiset(Collected(news))
      && |r| <= |news|
  {
    SortByScoreSpec(Collected(news));
    CollectedLength(news);
  }

  /** `_extract_sources` reports no empty URL and no URL twice, each record that of the first passage with its URL. */
  lemma ExtractedDistinct(news: seq<Passage>)
    ensures var r := SortByScore(Collected(news));
      && DistinctUrls(r)
      && forall i :: 0 <= i < |r| ==> r[i].url != "" && exists j :: FirstWithUrl(news, r[i].url, j) && r[i] == ToSource(news[j])
  {
    var c := Collected(news);
    var r := SortByScore(c);
    SortByScorePermutes(c);
    CollectedDistinct(news);
    CollectedFirstSeen(news);
    DistinctUnderPermutation(c, r);
    forall i | 0 <= i < |r|
      ensures r[i].url != "" && exists j :: FirstWithUrl(news, r[i].url, j) && r[i] == ToSource(news[j])
    {
      assert r[i] in multiset(c);
      var k :| 0 <= k < |c| && c[k] == r[i];
    }
  }

  /** Every non-empty URL of the passages is reported. */
  lemma ExtractedComplete(news: seq<Passage>, j: nat)
    requires j < |news| && UrlOf(news[j].metadata) != ""
    ensures var r := SortByScore(Collected(news));
      exists i :: 0 <= i < |r| && r[i].url == UrlOf(news[j].metadata)
  {
    var c := Collected(news);
    var k := CollectedIndex(news, j);
    SortByScorePermutes(c);
    PermutedRecord(c, SortByScore(c), k);
  }

  /** The position among the collected records of the URL of passage `j`. */
  lemma CollectedIndex(news: seq<Passage>, j: nat) returns (k: nat)
    requires j < |news| && UrlOf(news[j].metadata) != ""
    ensures k < |Collected(news)| && Collected(news)[k].url == UrlOf(news[j].metadata)
  {
    CollectedComplete(news);
    UrlsOfMembers(Collected(news), UrlOf(news[j].metadata));
    k :| 0 <= k < |Collected(news)| && Collected(news)[k].url == UrlOf(news[j].metadata);
  }

  /** A record of a sequence has a place in any reordering of it. */
  lemma PermutedRecord(c: seq<Source>, r: seq<Source>, k: nat)
    requires k < |c| && multiset(c) == multiset(r)
    ensures exists i :: 0 <= i < |r| && r[i].url == c[k].url
  {
    assert c[k] in multiset(c);
    assert c[k] in r;
    var i :| 0 <= i < |r| && r[i] == c[k];
  }

  /** Reordering a sequence of records with distinct URLs keeps them distinct. */
  lemma {:induction false} DistinctUnderPermutation(a: seq<Source>, b: seq<Source>)
    requires DistinctUrls(a) && multiset(a) == multiset(b)
    ensures DistinctUrls(b)
    decreases |a|
  {
    if b != [] {
      var x := b[|b| - 1];
      var b' := b[..|b| - 1];
      assert b == b' + [x];
      assert x in multiset(a);
      var k :| 0 <= k < |a| && a[k] == x;
      var a' := RemoveAt(a, k);
      assert multiset(b') == multiset(b) - multiset{x};
      DistinctUnderPermutation(a', b');
      forall i | 0 <= i < |b'|
        ensures b'[i].url != x.url
      {
        assert b'[i] in multiset(a');
      }
      AppendDistinct(b', x);
    }
  }

  /** Taking out one record of a sequence with distinct URLs leaves the others, none with its URL. */
  lemma RemoveAt(a: seq<Source>, k: nat) returns (a': seq<Source>)
    requires k < |a| && DistinctUrls(a)
    ensures multiset(a') == multiset(a) - multiset{a[k]} && |a'| == |a| - 1
    ensures DistinctUrls(a') && forall y :: y in a' ==> y.url != a[k].url
  {
    a' := a[..k] + a[k + 1..];
    assert a == a[..k] + [a[k]] + a[k + 1..];
    RemoveAtDistinct(a, k);
    RemoveAtUrl(a, k);
  }

  lemma RemoveAtDistinct(a: seq<Source>, k: nat)
    requires k < |a| && DistinctUrls(a)
    ensures DistinctUrls(a[..k] + a[k + 1..])
  {
    var a' := a[..k] + a[k + 1..];
    forall i, j | 0 <= i < j < |a'|
      ensures a'[i].url != a'[j].url
    {
      var i0 := if i < k then i else i + 1;
      var j0 := if j < k then j else j + 1;
      assert a'[i] == a[i0] && a'[j] == a[j0];
    }
  }

  lemma RemoveAtUrl(a: seq<Source>, k: nat)
    requires k < |a| && DistinctUrls(a)
    ensures forall y :: y in a[..k] + a[k + 1..] ==> y.url != a[k].url
  {
    var a' := a[..k] + a[k + 1..];
    forall y | y in a'
      ensures y.url != a[k].url
    {
      var m :| 0 <= m < |a'| && a'[m] == y;
      var m0 := if m < k then m else m + 1;
      assert a[m0] == y && m0 != k;
    }
  }
}
