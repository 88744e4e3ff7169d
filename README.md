# Word-table server, modelled in Dafny

The server has two routes. `GET /` fetches a remote HTML page and forwards
its body unchanged. `GET /new-words` fetches a remote JSON word list. Each
entry gives one word in American, British and Indian English. The handler
renders the list as an HTML page: a table with a header row, one data row
per word in list order, and a footer with a "Download as PDF" button and its
jsPDF scripts. If either fetch fails, the route answers with a fixed error
text. Both handlers return that text inside `Ok`, never `Err`. At launch the
port is read from the `PORT` environment variable. It defaults to `"8000"`.

The project has four modules:

- `Words` (`words.dfy`): the records. `Word`, `WordList`, the fetch outcome
  `Result<T, E>` with `FetchError`, and the `RawHtml` response body.
- `WordTable` (`table.dfy`): the renderer over an abstract `Template` (a
  prefix, the three pieces a row's fields go between, the closing
  `</table>` and the footer).
  - `Row`, `Rows` and `Render` give the document as a function.
  - `BuildTable` is the handler's buffer loop, proved equal to `Render`.
  - `ParseDocument` is an independent reader of the document. Rendering is
    proved to round-trip through it when no field contains `<`.
  - A concrete collision shows why that condition is needed: fields are
    not escaped.
- `PageText` (`page.dfy`): the handler's template text as string constants,
  character for character. Lemmas say that this template meets the
  reader's conditions and that its prefix starts with `<!DOCTYPE html>`
  and ends with the header row.
- `Handlers` (`handlers.dfy`): the `new_words` and `home` handlers and the
  PORT default.

The template text is in separate constants because the proofs use only a
few facts about it. Keeping it out of the generic proofs keeps them cheap.

A non-success HTTP status is not a failure. `reqwest::get` returns `Ok`
for it, and the code never calls `error_for_status` (`src/main.rs:23`,
`src/main.rs:31`). So for `/` an error page's body is forwarded as the page.
For `/new-words` such a body reaches the `Err` arm only by failing JSON
decoding. The model takes the fetch outcome as an input, so it covers
this. The HTTP status itself is not part of it.

## Model

| member | source | states |
|---|---|---|
| `WordTable.BuildTable` | src/main.rs:42-139 | The buffer starts as the prefix, gets one row per word in input order, then `</table>` and the footer. At the end it equals `Render` of the word list. The loop invariant is: after k words, prefix plus the rows of the first k words. |
| `WordTable.Row` | src/main.rs:108-115 | The row for one word is exactly the row markup plus the three fields' lengths long: the fields are inserted verbatim, with nothing escaped or added. |
| `WordTable.Rows` | src/main.rs:107-116 | The rows of a word list are exactly one row's markup per word plus the characters of all fields. |
| `WordTable.Render` | src/main.rs:42-139 | The whole page is exactly the fixed prefix and suffix text, plus one row's markup per word, plus the fields' characters. |
| `WordTable.RowsAppend` | src/main.rs:107-116 | The rows of `xs + ys` are the rows of `xs` followed by the rows of `ys`. |
| `WordTable.RenderFraming` | src/main.rs:42-139 | Every rendered document begins with the template's prefix and ends with its footer. |
| `WordTable.RenderIsNot` | src/main.rs:42-43 | A rendered document is never a text whose first character differs from the prefix's first character. |
| `WordTable.RenderRoundTrip` | src/main.rs:107-116 | If no field contains `<`, reading a rendered document back gives exactly the input words: one row per word, same order, fields american/british/indian verbatim, empty fields as empty cells. |
| `WordTable.RenderInjective` | src/main.rs:107-116 | On markup-free words, two word lists render the same document if and only if they are equal. |
| `WordTable.EmptyListRendersNoRows` | src/main.rs:99-118 | An empty list renders the prefix, which ends in the header row, directly followed by `</table>` and the footer. The document reads back as the empty list. |
| `WordTable.UnescapedFieldsCollide` | src/main.rs:108-115 | Fields go into the cells without escaping. A field holding the cell separator renders exactly like a different word. |
| `PageText.PageWellFormed` | src/main.rs:109-118 | In the handler's template, every field is followed by a tag. The closing `</table>` cannot be read as the start of a row. |
| `PageText.PagePrefixShape` | src/main.rs:42-103 | The handler's prefix starts with `<!DOCTYPE html>`, opens with `<`, and ends with the header row (American, British, Indian English). |
| `PageText.PageRoundTrip` | src/main.rs:107-139 | On the handler's own template, markup-free words read back from the page exactly, one data row per word in order. |
| `PageText.PageStartsWithDoctype` | src/main.rs:42-43 | Every successful `/new-words` page begins with `<!DOCTYPE html>`. |
| `Handlers.RenderedPageIsNotError` | src/main.rs:142-146 | A rendered page never equals `"Failed to fetch data from the server."`. |
| `Handlers.NewWords` | src/main.rs:38-148 | Always returns `Ok`. On a fetched list the body is the rendered page. On a failed fetch or decode the body is exactly `"Failed to fetch data from the server."`. The body is that text if and only if the fetch failed. |
| `Handlers.Home` | src/main.rs:153-157 | Always returns `Ok`. On success the body is the fetched page unchanged. On failure it is exactly `"Failed to fetch HTML from the server."`. |
| `Handlers.HomeOutcomes` | src/main.rs:155-156 | A forwarded page equals the failure response if and only if the page is the error text. Distinct pages give distinct responses. |
| `Handlers.PortSetting` | src/main.rs:164-165 | The PORT value when the variable is available, otherwise `"8000"`. |

## Left out

- `fetch_words` and `fetch_raw_html` (`src/main.rs:21-34`): outbound HTTP through reqwest is network I/O. Each handler takes the fetch outcome as a `Result` input.
- JSON decoding of `WordList` by serde (`src/main.rs:24`): a foreign library call. It is represented by that same input being either a `WordList` or a `FetchError`.
- Rocket routing, async execution, response content type and status, and server launch (`src/main.rs:1-3`, `src/main.rs:37`, `src/main.rs:152`, `src/main.rs:161-175`): framework plumbing and concurrency.
- `Handlers.PortSetting`: stops before `parse::<u16>()` and `.expect` (`src/main.rs:166-167`), which are standard-library parsing and a panic. Only the default selection is modelled.
- The CSS and the client-side jsPDF script (`src/main.rs:48-95`, `src/main.rs:121-139`): they are copied into constants as text. What they do in a browser, including the scripts loaded from a CDN, is not modelled.
- `format!` and `push_str` are string concatenation in the model. Rust's UTF-8 byte representation is not modelled: strings are sequences of characters.
