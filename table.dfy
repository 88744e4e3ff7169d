/** The HTML document that the `/new-words` route builds, over an abstract
    template: a fixed prefix ending in the table's header row, one row per
    word in input order, the closing table tag, and a fixed footer. The
    handler's own template text is in module PageText; here the pieces are
    parameters, so that every property is stated over the pieces and never
    over the whitespace inside them. */
module WordTable {
  import opened Words

  datatype Option<T> = None | Some(value: T)

  /** The fixed text of the document: what comes before the first data row,
      the three pieces a row's fields are placed between, and what comes
      after the last data row. */
  datatype Template = Template(
    prefix: string,
    rowOpen: string,
    cellSep: string,
    rowClose: string,
    tableClose: string,
    footer: string)

  /** The markup a row adds around its three fields. */
  function RowMarkup(t: Template): (n: nat)
  {
    |t.rowOpen| + 2 * |t.cellSep| + |t.rowClose|
  }

  /** The row for one word: american, british and indian, each in its own
      cell, inserted verbatim without escaping, so the row's length is
      exactly its markup plus the three fields'. */
  function Row(t: Template, w: Word): (row: string)
    ensures |row| == RowMarkup(t) + |w.american| + |w.british| + |w.indian|
  {
    t.rowOpen + w.american + t.cellSep + w.british + t.cellSep + w.indian + t.rowClose
  }

  /** The number of characters in the fields of `words`. */
  function FieldChars(words: seq<Word>): (n: nat)
  {
    if words == [] then 0
    else |words[0].american| + |words[0].british| + |words[0].indian| + FieldChars(words[1..])
  }

  /** The rows of a sequence of words, one after another in input order.
      Nothing is escaped or dropped: the rows are exactly a row's markup per
      word plus the characters of the fields. */
  function Rows(t: Template, words: seq<Word>): (rows: string)
    ensures |rows| == |words| * RowMarkup(t) + FieldChars(words)
  {
    if words == [] then ""
    else
      assert |words| * RowMarkup(t) == RowMarkup(t) + |words[1..]| * RowMarkup(t);
      Row(t, words[0]) + Rows(t, words[1..])
  }

  /** The text after the last data row. */
  function Suffix(t: Template): (suffix: string)
  {
    t.tableClose + t.footer
  }

  /** The whole document for a successfully fetched word list: the fixed
      text, a row's markup per word, and the fields' characters, nothing
      more. */
  function Render(t: Template, words: seq<Word>): (doc: string)
    ensures |doc| == |t.prefix| + |words| * RowMarkup(t) + FieldChars(words) + |Suffix(t)|
  {
    t.prefix + Rows(t, words) + t.tableClose + t.footer
  }

  /** Every rendered document begins with the template's prefix and ends
      with its footer. */
  lemma RenderFraming(t: Template, words: seq<Word>)
    ensures StartsWith(Render(t, words), t.prefix)
    ensures EndsWith(Render(t, words), t.footer)
  {
    var rows := Rows(t, words);
    ConcatShape(t.prefix, rows + t.tableClose + t.footer);
    ConcatShape(t.prefix + rows + t.tableClose, t.footer);
    assert Render(t, words) == t.prefix + (rows + t.tableClose + t.footer);
  }

  /** Rendering distributes over concatenation of the input: the rows of
      `xs + ys` are the rows of `xs` followed by the rows of `ys`. */
  lemma {:induction false} RowsAppend(t: Template, xs: seq<Word>, ys: seq<Word>)
    ensures Rows(t, xs + ys) == Rows(t, xs) + Rows(t, ys)
  {
    if xs == [] {
      assert xs + ys == ys;
    } else {
      assert (xs + ys)[0] == xs[0];
      assert (xs + ys)[1..] == xs[1..] + ys;
      RowsAppend(t, xs[1..], ys);
    }
  }

  /** Builds the document the way the handler does: a buffer that starts
      as the prefix, gets one row appended per word in order, then the
      closing table tag and the footer. */
  method BuildTable(t: Template, words: seq<Word>) returns (table: string)
    ensures table == Render(t, words)
  {
    table := t.prefix;
    for k := 0 to |words|
      invariant table == t.prefix + Rows(t, words[..k])
    {
      RowsSnoc(t, words, k);
      table := table + Row(t, words[k]);
    }
    assert words[..|words|] == words;
    table := table + t.tableClose;
    table := table + t.footer;
    RenderFromBuffer(t, words, table);
  }

  /** One more word adds its row at the end. */
  lemma RowsSnoc(t: Template, words: seq<Word>, k: nat)
    requires k < |words|
    ensures Rows(t, words[..k + 1]) == Rows(t, words[..k]) + Row(t, words[k])
  {
    RowsAppend(t, words[..k], [words[k]]);
    assert words[..k + 1] == words[..k] + [words[k]];
    assert Rows(t, [words[k]]) == Row(t, words[k]) + Rows(t, []);
  }

  lemma RenderFromBuffer(t: Template, words: seq<Word>, table: string)
    requires table == t.prefix + Rows(t, words) + t.tableClose + t.footer
    ensures table == Render(t, words)
  {
  }

  /** A document whose prefix opens differently from `text` is not `text`. */
  lemma RenderIsNot(t: Template, words: seq<Word>, text: string)
    requires t.prefix != [] && text != [] && text[0] != t.prefix[0]
    ensures Render(t, words) != text
  {
    RenderFraming(t, words);
    assert Render(t, words)[0] == Render(t, words)[..|t.prefix|][0];
  }

  // ---------------------------------------------------------------------
  // Reading a rendered document back. The renderer does not escape the
  // fields, so the words can be recovered only when no field contains '<'.

  predicate StartsWith(s: string, p: string)
  {
    |p| <= |s| && s[..|p|] == p
  }

  predicate EndsWith(s: string, p: string)
  {
    |p| <= |s| && s[|s| - |p|..] == p
  }

  /** A concatenation starts with its left part and ends with its right part. */
  lemma ConcatShape(p: string, q: string)
    ensures StartsWith(p + q, p) && EndsWith(p + q, q)
  {
    assert (p + q)[..|p|] == p;
    assert (p + q)[|p|..] == q;
  }

  lemma StartsWithTrans(s: string, p: string, q: string)
    requires StartsWith(s, p) && StartsWith(p, q)
    ensures StartsWith(s, q)
  {
    assert s[..|q|] == s[..|p|][..|q|];
  }

  /** No character of `s` opens a tag. */
  predicate NoMarkup(s: string)
  {
    forall i :: 0 <= i < |s| ==> s[i] != '<'
  }

  /** A word whose three fields are free of markup. */
  predicate Plain(w: Word)
  {
    NoMarkup(w.american) && NoMarkup(w.british) && NoMarkup(w.indian)
  }

  /** What the parser needs of a template: the piece after each field opens
      a tag, and the text after the last row does not look like a new row. */
  predicate WellFormed(t: Template)
  {
    && t.cellSep != [] && t.cellSep[0] == '<'
    && t.rowClose != [] && t.rowClose[0] == '<'
    && !StartsWith(Suffix(t), t.rowOpen)
  }

  /** The length of the longest prefix of `s` without a '<'. */
  function CellEnd(s: string): (n: nat)
    ensures n <= |s|
    ensures forall i :: 0 <= i < n ==> s[i] != '<'
    ensures n < |s| ==> s[n] == '<'
  {
    if s == [] || s[0] == '<' then 0 else 1 + CellEnd(s[1..])
  }

  /** Reads a cell's text up to the first '<', which must begin `close`;
      gives the text and what follows `close`. */
  function ParseCell(s: string, close: string): (r: Option<(string, string)>)
    requires close != []
    ensures r.Some? ==> |r.value.1| < |s| && NoMarkup(r.value.0)
    ensures r.Some? ==> s == r.value.0 + close + r.value.1
  {
    var n := CellEnd(s);
    if StartsWith(s[n..], close) then
      assert s == s[..n] + close + s[n + |close|..] by {
        assert s[n..] == close + s[n + |close|..];
        assert s == s[..n] + s[n..];
      }
      Some((s[..n], s[n + |close|..]))
    else
      None
  }

  /** Reads one data row from the front of `s`. */
  function ParseRow(t: Template, s: string): (r: Option<(Word, string)>)
    requires WellFormed(t)
    ensures r.Some? ==> |r.value.1| < |s| && Plain(r.value.0)
    ensures r.Some? ==> s == Row(t, r.value.0) + r.value.1
  {
    if !StartsWith(s, t.rowOpen) then None
    else
      assert s == t.rowOpen + s[|t.rowOpen|..];
      match ParseCell(s[|t.rowOpen|..], t.cellSep)
      case None => None
      case Some((american, s1)) =>
        match ParseCell(s1, t.cellSep)
        case None => None
        case Some((british, s2)) =>
          match ParseCell(s2, t.rowClose)
          case None => None
          case Some((indian, rest)) =>
            RowFromCells(t, s, american, s1, british, s2, indian, rest);
            Some((Word(american, british, indian), rest))
  }

  /** Reassembles a row from the pieces that ParseRow splits it into. */
  lemma RowFromCells(t: Template, s: string, american: string, s1: string,
                     british: string, s2: string, indian: string, rest: string)
    requires s == t.rowOpen + (american + t.cellSep + s1)
    requires s1 == british + t.cellSep + s2
    requires s2 == indian + t.rowClose + rest
    ensures s == Row(t, Word(american, british, indian)) + rest
  {
    calc {
      s;
      t.rowOpen + (american + t.cellSep + (british + t.cellSep + (indian + t.rowClose + rest)));
      { assert american + t.cellSep + (british + t.cellSep + (indian + t.rowClose + rest))
          == american + t.cellSep + british + t.cellSep + indian + t.rowClose + rest; }
      t.rowOpen + (american + t.cellSep + british + t.cellSep + indian + t.rowClose + rest);
      Row(t, Word(american, british, indian)) + rest;
    }
  }

  /** Reads data rows from the front of `s` for as long as one begins there. */
  function ParseRows(t: Template, s: string): (r: Option<(seq<Word>, string)>)
    requires WellFormed(t)
    ensures r.Some? ==> (forall i :: 0 <= i < |r.value.0| ==> Plain(r.value.0[i]))
    ensures r.Some? ==> s == Rows(t, r.value.0) + r.value.1
    decreases |s|
  {
    if StartsWith(s, t.rowOpen) then
      match ParseRow(t, s)
      case None => None
      case Some((w, rest)) =>
        match ParseRows(t, rest)
        case None => None
        case Some((ws, tail)) =>
          var words := [w] + ws;
          assert words[0] == w && words[1..] == ws;
          assert forall i :: 0 <= i < |words| ==> Plain(words[i]) by {
            forall i | 0 <= i < |words| ensures Plain(words[i]) {
              if i > 0 { assert words[i] == ws[i - 1]; }
            }
          }
          RowsCons(t, s, w, rest, ws, tail);
          Some((words, tail))
    else
      Some(([], s))
  }

  /** Reassembles the rows that ParseRows reads one at a time. */
  lemma RowsCons(t: Template, s: string, w: Word, rest: string, ws: seq<Word>, tail: string)
    requires s == Row(t, w) + rest
    requires rest == Rows(t, ws) + tail
    ensures s == Rows(t, [w] + ws) + tail
  {
    var row := Row(t, w);
    assert ([w] + ws)[0] == w && ([w] + ws)[1..] == ws;
    assert Rows(t, [w] + ws) == row + Rows(t, ws);
    assert s == row + (Rows(t, ws) + tail);
  }

  /** Recovers the word list from a document, if it is one. */
  function ParseDocument(t: Template, doc: string): (r: Option<seq<Word>>)
    requires WellFormed(t)
    ensures r.Some? ==> doc == Render(t, r.value)
  {
    if !StartsWith(doc, t.prefix) then None
    else
      assert doc == t.prefix + doc[|t.prefix|..];
      match ParseRows(t, doc[|t.prefix|..])
      case Some((words, tail)) =>
        if tail == Suffix(t) then
          RenderFromParts(t, doc, doc[|t.prefix|..], words);
          Some(words)
        else None
      case None => None
  }

  /** Reassembles a document from its prefix, its rows and its suffix. */
  lemma RenderFromParts(t: Template, doc: string, rest: string, words: seq<Word>)
    requires doc == t.prefix + rest
    requires rest == Rows(t, words) + Suffix(t)
    ensures doc == Render(t, words)
  {
    assert doc == t.prefix + (Rows(t, words) + (t.tableClose + t.footer));
  }

  lemma {:induction false} CellEndOf(a: string, s: string)
    requires NoMarkup(a)
    requires s == [] || s[0] == '<'
    ensures CellEnd(a + s) == |a|
    decreases |a|
  {
    if a == [] {
      assert a + s == s;
    } else {
      assert (a + s)[0] == a[0];
      assert (a + s)[1..] == a[1..] + s;
      CellEndOf(a[1..], s);
    }
  }

  lemma ParseCellOf(a: string, close: string, s: string)
    requires NoMarkup(a)
    requires close != [] && close[0] == '<'
    ensures ParseCell(a + close + s, close) == Some((a, s))
  {
    var whole := a + close + s;
    assert whole == a + (close + s);
    CellEndOf(a, close + s);
    assert whole[|a|..] == close + s;
    assert whole[..|a|] == a;
    assert (close + s)[..|close|] == close;
    assert whole[|a| + |close|..] == s;
  }

  lemma ParseRowOf(t: Template, w: Word, s: string)
    requires WellFormed(t) && Plain(w)
    ensures ParseRow(t, Row(t, w) + s) == Some((w, s))
  {
    var whole := Row(t, w) + s;
    var s2 := w.indian + t.rowClose + s;
    var s1 := w.british + t.cellSep + s2;
    assert whole == t.rowOpen + (w.american + t.cellSep + s1);
    assert whole[..|t.rowOpen|] == t.rowOpen;
    assert whole[|t.rowOpen|..] == w.american + t.cellSep + s1;
    ParseCellOf(w.american, t.cellSep, s1);
    ParseCellOf(w.british, t.cellSep, s2);
    ParseCellOf(w.indian, t.rowClose, s);
  }

  lemma RowStartsWithOpen(t: Template, w: Word, rest: string)
    ensures StartsWith(Row(t, w) + rest, t.rowOpen)
  {
    var tail := w.american + t.cellSep + w.british + t.cellSep + w.indian + t.rowClose + rest;
    assert Row(t, w) + rest == t.rowOpen + tail;
    assert (t.rowOpen + tail)[..|t.rowOpen|] == t.rowOpen;
  }

  /** Parsing the rows that `Rows` produced gives back the same words, in
      the same order, as long as the text after them does not begin a row. */
  lemma {:induction false} ParseRowsOf(t: Template, words: seq<Word>, s: string)
    requires WellFormed(t)
    requires forall i :: 0 <= i < |words| ==> Plain(words[i])
    requires !StartsWith(s, t.rowOpen)
    ensures ParseRows(t, Rows(t, words) + s) == Some((words, s))
  {
    if words == [] {
      assert Rows(t, words) + s == s;
    } else {
      var w := words[0];
      var rest := Rows(t, words[1..]) + s;
      assert Rows(t, words) + s == Row(t, w) + rest;
      RowStartsWithOpen(t, w, rest);
      ParseRowOf(t, w, rest);
      ParseRowsOf(t, words[1..], s);
      assert [w] + words[1..] == words;
    }
  }

  /** Round trip: a document rendered from markup-free words reads back as
      exactly those words. So it holds exactly |words| data rows, in input
      order, each carrying american, british and indian verbatim (and an
      empty field reads back as an empty cell). */
  lemma RenderRoundTrip(t: Template, words: seq<Word>)
    requires WellFormed(t)
    requires forall i :: 0 <= i < |words| ==> Plain(words[i])
    ensures ParseDocument(t, Render(t, words)) == Some(words)
  {
    var doc := Render(t, words);
    assert doc == t.prefix + (Rows(t, words) + Suffix(t));
    assert doc[..|t.prefix|] == t.prefix;
    assert doc[|t.prefix|..] == Rows(t, words) + Suffix(t);
    ParseRowsOf(t, words, Suffix(t));
  }

  /** An empty word list gives the prefix, which ends in the header row,
      directly followed by the suffix: a table with no data row. */
  lemma EmptyListRendersNoRows(t: Template)
    requires WellFormed(t)
    ensures Render(t, []) == t.prefix + Suffix(t)
    ensures ParseDocument(t, Render(t, [])) == Some([])
  {
    assert Rows(t, []) == "";
    RenderRoundTrip(t, []);
  }

  /** On markup-free input, distinct word lists render distinct documents. */
  lemma RenderInjective(t: Template, xs: seq<Word>, ys: seq<Word>)
    requires WellFormed(t)
    requires forall i :: 0 <= i < |xs| ==> Plain(xs[i])
    requires forall i :: 0 <= i < |ys| ==> Plain(ys[i])
    ensures Render(t, xs) == Render(t, ys) <==> xs == ys
  {
    RenderRoundTrip(t, xs);
    RenderRoundTrip(t, ys);
  }

  /** Fields are inserted without escaping: a field that contains the cell
      separator renders exactly like a different word, so without the
      markup-free condition the document no longer determines the words. */
  lemma UnescapedFieldsCollide(t: Template, a: string, b: string, c: string)
    requires t.cellSep != []
    ensures Word(a + t.cellSep + b, c, "") != Word(a, b, c + t.cellSep)
    ensures Render(t, [Word(a + t.cellSep + b, c, "")]) == Render(t, [Word(a, b, c + t.cellSep)])
  {
    var w1 := Word(a + t.cellSep + b, c, "");
    var w2 := Word(a, b, c + t.cellSep);
    assert |w1.american| != |w2.american|;
    assert Row(t, w1) == Row(t, w2);
    assert Rows(t, [w1]) == Row(t, w1) + Rows(t, []);
    assert Rows(t, [w2]) == Row(t, w2) + Rows(t, []);
  }
}
