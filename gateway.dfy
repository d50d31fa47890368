/**
 * The page-content handler: fetch the page's child blocks from the document
 * service, extract the paragraph texts, and answer with the page id and the texts,
 * or with one fixed failure when anything in between throws.
 */
module PageGateway {
  import opened Js
  import opened BlockExtract

  /** What the document service's child-block listing gave: the blocks, or a rejection. */
  datatype FetchOutcome = FetchFailed | Fetched(results: seq<Block>)

  /** The JSON answer of the handler. */
  datatype PageResponse =
    | PageContent(pageId: string, content: seq<string>)
    | FetchError(message: string)

  const FETCH_ERROR_MESSAGE: string := "Failed to fetch from Notion."

  /** The page handler: the fetch and extraction inside one try, every throw mapped to the one failure. */
  function GetPage(pageId: string, fetched: FetchOutcome): (r: PageResponse)
    ensures r.PageContent? <==> fetched.Fetched? && NoneThrows(fetched.results)
    ensures r.PageContent? ==> r.pageId == pageId && |r.content| <= |fetched.results|
    ensures r.FetchError? ==> r == FetchError(FETCH_ERROR_MESSAGE)
  {
    match fetched
    case FetchFailed => FetchError(FETCH_ERROR_MESSAGE)
    case Fetched(results) =>
      match Extract(results)
      case Error => FetchError(FETCH_ERROR_MESSAGE)
      case Ok(content) => PageContent(pageId, content)
  }

  /** On success the content is exactly the extraction of the fetched blocks. */
  lemma GetPageContent(pageId: string, results: seq<Block>)
    requires NoneThrows(results)
    ensures GetPage(pageId, Fetched(results)) == PageContent(pageId, Extract(results).value)
  {
  }

  /**
   * No partial content: one paragraph block without a paragraph object fails the
   * whole page, whatever the blocks around it hold.
   */
  lemma NoPartialContent(pageId: string, before: seq<Block>, bad: Block, after: seq<Block>)
    requires Throws(bad)
    ensures GetPage(pageId, Fetched(before + [bad] + after)) == FetchError(FETCH_ERROR_MESSAGE)
  {
    assert (before + [bad] + after)[|before|] == bad;
  }

  /** A failed fetch and a throwing extraction give the same answer, for any page id. */
  lemma UniformFailure(p1: string, p2: string, results: seq<Block>)
    requires !NoneThrows(results)
    ensures GetPage(p1, FetchFailed) == GetPage(p2, Fetched(results))
  {
  }
}
