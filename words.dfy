/** The records the word-table server works on: the entries of the remote
    JSON word list, the outcome of an upstream fetch, and the HTML response
    that a route handler hands back to the web framework. */
module Words {

  /** One vocabulary entry: the same word in three varieties of English. */
  datatype Word = Word(american: string, british: string, indian: string)

  /** The decoded JSON document `{ "words": [ ... ] }`; entries keep the
      order they have in the document. */
  datatype WordList = WordList(words: seq<Word>)

  /** Why an upstream fetch failed. The server never inspects it, so the
      description is carried but never read. */
  datatype FetchError = FetchError(description: string)

  /** The success-or-error value that the handlers match on and return. */
  datatype Result<T, E> = Ok(value: T) | Err(error: E)

  /** An HTML body handed to the framework verbatim. */
  datatype RawHtml = RawHtml(content: string)
}
