/**
 * A passage returned by the vector index: its own id, a similarity score and
 * the metadata stored with it. Every metadata key may be absent, so each is
 * optional; the accessors give the fallback chains the service code uses
 * (`metadata.get('article_title', metadata.get('title', default))` and so on).
 */
module Passages {
  import opened Wrappers

  datatype Metadata = Metadata(
    newsId: Option<string>,
    articleTitle: Option<string>,
    title: Option<string>,
    text: Option<string>,
    content: Option<string>,
    articlePublishedTime: Option<string>,
    publishedAt: Option<string>,
    source: Option<string>,
    articleUrl: Option<string>,
    url: Option<string>)

  /** `score` is the similarity in millionths; `None` when the match has no score key. */
  datatype Passage = Passage(id: Option<string>, score: Option<int>, metadata: Metadata)

  function NewsIdOr(m: Metadata, default: string): string {
    m.newsId.GetOr(default)
  }

  function TitleOr(m: Metadata, default: string): string {
    m.articleTitle.OrElse(m.title).GetOr(default)
  }

  function ContentOr(m: Metadata, default: string): string {
    m.text.OrElse(m.content).GetOr(default)
  }

  function PublishedOr(m: Metadata, default: string): string {
    m.articlePublishedTime.OrElse(m.publishedAt).GetOr(default)
  }

  function SourceOr(m: Metadata, default: string): string {
    m.source.GetOr(default)
  }

  /** `metadata.get('article_url', metadata.get('url', ''))`. */
  function UrlOf(m: Metadata): string {
    m.articleUrl.OrElse(m.url).GetOr("")
  }
}
