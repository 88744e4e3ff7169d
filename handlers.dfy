/** The two route handlers and the port setting of the word-table server.
    The upstream fetch (HTTP request plus JSON decoding) is an input: the
    handlers only see its outcome. */
module Handlers {
  import opened Words
  import opened WordTable
  import opened PageText

  /** The body `/new-words` answers with when the word list cannot be had. */
  const DataFetchFailed: string := "Failed to fetch data from the server."

  /** The body `/` answers with when the remote page cannot be had. */
  const HtmlFetchFailed: string := "Failed to fetch HTML from the server."

  /** The port used when the PORT variable is not available. */
  const DefaultPort: string := "8000"

  /** Why reading an environment variable failed. */
  datatype VarError = NotPresent | NotUnicode

  /** A rendered page begins with '<', so it is never the error text. */
  lemma RenderedPageIsNotError(words: seq<Word>)
    ensures Render(Page, words) != DataFetchFailed
  {
    PagePrefixShape();
    RenderIsNot(Page, words, DataFetchFailed);
  }

  /** GET /new-words: on a fetched word list, builds the page in a buffer, a
      row per word in list order, then the closing tag and the footer; on a
      failed fetch, answers with the fixed error text. Both outcomes are
      returned as Ok, and the error text is returned exactly when the fetch
      failed. */
  method NewWords(fetched: Result<WordList, FetchError>) returns (response: Result<RawHtml, RawHtml>)
    ensures response.Ok?
    ensures fetched.Ok? ==> response.value.content == Render(Page, fetched.value.words)
    ensures fetched.Err? ==> response.value.content == DataFetchFailed
    ensures response.value.content == DataFetchFailed <==> fetched.Err?
  {
    match fetched {
      case Ok(wordList) =>
        var table := BuildTable(Page, wordList.words);
        RenderedPageIsNotError(wordList.words);
        response := Ok(RawHtml(table));
      case Err(_) =>
        response := Ok(RawHtml(DataFetchFailed));
    }
  }

  /** GET /: passes the fetched page through unchanged, or answers with the
      fixed error text; both outcomes are returned as Ok. */
  function Home(fetched: Result<string, FetchError>): (response: Result<RawHtml, RawHtml>)
    ensures response.Ok?
    ensures fetched.Ok? ==> response.value.content == fetched.value
    ensures fetched.Err? ==> response.value.content == HtmlFetchFailed
  {
    match fetched
    case Ok(html) => Ok(RawHtml(html))
    case Err(_) => Ok(RawHtml(HtmlFetchFailed))
  }

  /** Home forwards the remote page verbatim, so a failure can be told apart
      from a success only when the remote page differs from the error text,
      and distinct remote pages give distinct responses. */
  lemma HomeOutcomes(page: string, other: string, e: FetchError)
    ensures Home(Ok(page)) == Home(Err(e)) <==> page == HtmlFetchFailed
    ensures Home(Ok(page)) == Home(Ok(other)) <==> page == other
  {
  }

  /** The PORT setting read at launch, before it is parsed as a number. */
  function PortSetting(env: Result<string, VarError>): (port: string)
    ensures env.Ok? ==> port == env.value
    ensures env.Err? ==> port == DefaultPort
  {
    match env
    case Ok(value) => value
    case Err(_) => DefaultPort
  }
}
