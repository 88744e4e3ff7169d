/** The literal template text of the `/new-words` page, character for
    character as the handler writes it, and the facts about it that the
    generic lemmas of WordTable need. */
module PageText {
  import opened Words
  import opened WordTable

  const Doctype: string := @"<!DOCTYPE html>"

  /** The head with its stylesheet, the body's opening and the table's
      opening tag, up to the header row. */
  const Head: string := @"
                <html lang='en'>
                <head>
                    <meta charset='UTF-8'>
                    <meta name='viewport' content='width=device-width, initial-scale=1.0'>
                    <style>
                        body {
                            font-family: Arial, sans-serif;
                            background: linear-gradient(135deg, #f0f0f0, #e0e0e0);
                            margin: 0;
                            padding: 20px;
                        }
                        table {
                            width: 100%;
                            border-collapse: collapse;
                            box-shadow: 0 4px 8px rgba(0, 0, 0, 0.1); 
                            background: white;
                        }
                        th, td {
                            border: 1px solid #ddd;
                            padding: 32px;
                            text-align: left;
                            transition: background 0.3s, transform 0.3s;
                        }
                        th {
                            background: linear-gradient(135deg, #4CAF50, #2E8B57);
                            color: white;
                        }
                        tr:nth-child(even) {
                            background: #f9f9f9;
                        }
                        tr:hover td {
                            background: #f1c40f;
                            color: #00000;
                            transform: scale(1.05);
                        }
                        .button-container {
                            margin-top: 20px;
                        }
                        .download-btn {
                            padding: 10px 20px;
                            font-size: 16px;
                            color: white;
                            background: #3498db;
                            border: none;
                            border-radius: 5px;
                            cursor: pointer;
                            text-decoration: none;
                        }
                        .download-btn:hover {
                            background: #2980b9;
                        }
                    </style>
                </head>
                <body>
                    <table id='wordTable'>
                        "

  /** The table's header row: American, British and Indian English. */
  const HeaderRow: string := @"<tr>
                            <th>American English</th>
                            <th>British English</th>
                            <th>Indian English</th>
                        </tr>"

  // The pieces of the per-word row format; each field goes between two of
  // them, verbatim.
  const RowOpen: string := @"<tr>
                        <td>"
  const CellSep: string := @"</td>
                        <td>"
  const RowClose: string := @"</td>
                    </tr>"

  /** The text after the table: the download button and the jsPDF scripts. */
  const Footer: string := @"<div class='button-container'>
                    <button class='download-btn' onclick='downloadPDF()'>Download as PDF</button>
                </div>
                <script src='https://unpkg.com/jspdf@latest/dist/jspdf.umd.min.js'></script>
                <script src='https://unpkg.com/jspdf-autotable@latest/dist/jspdf.plugin.autotable.min.js'></script>
                <script>
                    window.onload = () => {
                        const { jsPDF } = window.jspdf;
                        document.querySelector('.download-btn').addEventListener('click', () => {
                            const doc = new jsPDF();
                            doc.autoTable({ html: '#wordTable' });
                            doc.save('table.pdf');
                        });
                    };
                </script>
                </body>
                </html>"

  const TableClose: string := "</table>"

  /** The buffer's initial contents: it ends in the header row. */
  const Prefix: string := Doctype + Head + HeaderRow

  /** The template the handler fills in. */
  const Page: Template := Template(Prefix, RowOpen, CellSep, RowClose, TableClose, Footer)

  /** The page meets what ParseDocument needs: each field is followed by a
      tag, and the closing `</table>` cannot be mistaken for a new row. */
  lemma PageWellFormed()
    ensures WellFormed(Page)
  {
    assert TableClose[1] == '/' && RowOpen[1] == 't';
    assert Suffix(Page)[1] == TableClose[1];
  }

  /** The page's prefix opens with the doctype and ends with the header row. */
  lemma PagePrefixShape()
    ensures StartsWith(Page.prefix, Doctype)
    ensures EndsWith(Page.prefix, HeaderRow)
    ensures Page.prefix != [] && Page.prefix[0] == '<'
  {
    ConcatShape(Doctype, Head + HeaderRow);
    ConcatShape(Doctype + Head, HeaderRow);
    assert Page.prefix[0] == Page.prefix[..|Doctype|][0];
  }

  /** On the handler's own page, a word list without markup in its fields
      can be read back from the document: one data row per word, in input
      order, with the three fields verbatim. */
  lemma PageRoundTrip(words: seq<Word>)
    requires forall i :: 0 <= i < |words| ==> Plain(words[i])
    ensures WellFormed(Page)
    ensures ParseDocument(Page, Render(Page, words)) == Some(words)
  {
    PageWellFormed();
    RenderRoundTrip(Page, words);
  }

  /** Every successful `/new-words` page opens with `<!DOCTYPE html>`. */
  lemma PageStartsWithDoctype(words: seq<Word>)
    ensures StartsWith(Render(Page, words), Doctype)
  {
    PagePrefixShape();
    RenderFraming(Page, words);
    StartsWithTrans(Render(Page, words), Page.prefix, Doctype);
  }
}
