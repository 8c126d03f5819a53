/**
 * What generate_toc_from_ipynb promises about its output, stated over the
 * specification functions of GenerateToc: the shape of each entry, which
 * lines produce one, the order of the entries, that non-markdown cells are
 * ignored, and that the joined text splits back into the entries.
 */
module TocProperties {
  import opened Wrappers
  import opened PyStr
  import opened HeadingMatch
  import opened Collect
  import opened GenerateToc

  // ------------------------------------------------------------ one line

  /** A line yields an entry exactly when the heading pattern matches it
      with at most five `#`; the entry is the stripped title behind
      4 * (level - 1) spaces and `* [`, then `](#`, the anchor and `)`. */
  lemma LineTocEntry(line: string)
    ensures LineToc(line).Some? <==>
              MatchHeading(line).Some? && |MatchHeading(line).value.hashes| <= 5
    ensures LineToc(line).Some? ==>
              var m := MatchHeading(line).value;
              var title := Strip(m.text);
              LineToc(line).value ==
                Spaces(4 * (|m.hashes| - 1)) + "* [" + title + "](#" + Anchor(title) + ")"
  {
  }

  /** The title of an entry: no whitespace at either end and no newline. */
  lemma TitleShape(line: string)
    requires MatchHeading(line).Some?
    ensures var title := Strip(MatchHeading(line).value.text);
            && (title == [] || (!IsSpace(title[0]) && !IsSpace(title[|title| - 1])))
            && '\n' !in title
  {
    var text := MatchHeading(line).value.text;
    if '\n' in Strip(text) {
      StripKeepsCharacters(text, '\n');
    }
  }

  /** No entry contains a newline, so each stays one line of the output. */
  lemma EntryHasNoNewline(line: string)
    requires LineToc(line).Some?
    ensures '\n' !in LineToc(line).value
  {
    LineTocEntry(line);
    TitleShape(line);
    var m := MatchHeading(line).value;
    var title := Strip(m.text);
    var pad := Spaces(4 * (|m.hashes| - 1));
    var anchor := Anchor(title);
    AnchorHasNoNewline(title);
    assert '\n' !in pad;
    NoNewlineInBullet(pad, title, anchor);
  }

  lemma NoNewlineInBullet(pad: string, title: string, anchor: string)
    requires '\n' !in pad && '\n' !in title && '\n' !in anchor
    ensures '\n' !in pad + "* [" + title + "](#" + anchor + ")"
  {
  }

  /** The anchor keeps a newline out if the title has none: lowering never
      produces one. */
  lemma AnchorHasNoNewline(title: string)
    requires '\n' !in title
    ensures '\n' !in Anchor(title)
  {
    var a := Anchor(title);
    forall i | 0 <= i < |a| ensures a[i] != '\n' {
      assert title[i] != '\n';
    }
  }

  // ---------------------------------------------------------- cells

  /** The entries of a notebook are those of its first cells followed by
      those of the rest. */
  lemma TocLinesAppend(a: seq<Cell>, b: seq<Cell>)
    ensures TocLines(a + b) == TocLines(a) + TocLines(b)
  {
    assert Entries(a + b) == Entries(a) + Entries(b);
    ConcatAppend(Entries(a), Entries(b));
  }

  /** A cell that is not a markdown cell contributes nothing: inserting it
      anywhere leaves the entries unchanged. */
  lemma NonMarkdownCellIgnored(a: seq<Cell>, c: Cell, b: seq<Cell>)
    requires !IsMarkdown(c)
    ensures TocLines(a + [c] + b) == TocLines(a + b)
  {
    TocLinesAppend(a + [c], b);
    TocLinesAppend(a, [c]);
    TocLinesAppend(a, b);
    NonMarkdownCellNoEntries(c);
  }

  /** A cell that is not a markdown cell yields no entries on its own. */
  lemma NonMarkdownCellNoEntries(c: Cell)
    requires !IsMarkdown(c)
    ensures TocLines([c]) == []
  {
    assert Entries([c]) == [[]];
    assert Entries([c])[1..] == [];
    assert TocLines([c]) == Flatten([]) + Concat([]);
  }

  /** The markdown cells of a notebook, in order: each cell is kept exactly
      as often as it occurs when it is a markdown cell, and dropped
      otherwise; a single cell is kept or dropped on its own
      (`MarkdownCellsAppend` adds that order is kept). */
  function MarkdownCells(cells: seq<Cell>): (r: seq<Cell>)
    ensures |r| <= |cells|
    ensures forall k :: 0 <= k < |r| ==> IsMarkdown(r[k]) && r[k] in cells
    ensures forall c :: multiset(r)[c] == (if IsMarkdown(c) then multiset(cells)[c] else 0)
    ensures |cells| == 1 ==> r == (if IsMarkdown(cells[0]) then cells else [])
  {
    if cells == [] then []
    else
      var init, last := cells[..|cells| - 1], cells[|cells| - 1];
      assert cells == init + [last];
      if IsMarkdown(last) then MarkdownCells(init) + [last]
      else MarkdownCells(init)
  }

  /** Filtering a notebook filters its two halves and keeps them in order. */
  lemma {:induction false} MarkdownCellsAppend(a: seq<Cell>, b: seq<Cell>)
    ensures MarkdownCells(a + b) == MarkdownCells(a) + MarkdownCells(b)
    decreases |b|
  {
    if b == [] {
      assert a + b == a;
    } else {
      var init, last := b[..|b| - 1], b[|b| - 1];
      assert (a + b)[..|a + b| - 1] == a + init;
      MarkdownCellsAppend(a, init);
    }
  }

  /** Dropping every non-markdown cell leaves the entries unchanged. */
  lemma {:induction false} OnlyMarkdownCellsCount(cells: seq<Cell>)
    ensures TocLines(MarkdownCells(cells)) == TocLines(cells)
    decreases |cells|
  {
    if cells != [] {
      var init, last := cells[..|cells| - 1], cells[|cells| - 1];
      assert cells == init + [last];
      OnlyMarkdownCellsCount(init);
      TocLinesAppend(init, [last]);
      if IsMarkdown(last) {
        assert MarkdownCells(cells) == MarkdownCells(init) + [last];
        TocLinesAppend(MarkdownCells(init), [last]);
      } else {
        assert MarkdownCells(cells) == MarkdownCells(init);
        assert Entries([last]) == [[]];
        assert Entries([last])[1..] == [];
        assert TocLines([last]) == Flatten([]) + Concat([]);
      }
    }
  }

  // ------------------------------------------------ order and completeness

  /** Line `j` of cell `i` yields an entry. */
  ghost predicate Qualifies(cells: seq<Cell>, i: int, j: int) {
    && 0 <= i < |cells| && IsMarkdown(cells[i])
    && 0 <= j < |cells[i].source| && LineToc(cells[i].source[j]).Some?
  }

  /** The (cell, line) position each entry of the table of contents comes
      from. */
  function TocPositions(cells: seq<Cell>): seq<(nat, nat)> {
    GridPicks(Entries(cells))
  }

  /** Entry `k` of the table of contents is the entry of the line at
      `TocPositions(cells)[k]`; the positions are exactly the lines that
      qualify, each listed once, in reading order (by cell, then by line). */
  lemma TocOrder(cells: seq<Cell>)
    ensures |TocPositions(cells)| == |TocLines(cells)|
    ensures forall k :: 0 <= k < |TocPositions(cells)| ==>
              var p := TocPositions(cells)[k];
              Qualifies(cells, p.0, p.1) && LineToc(cells[p.0].source[p.1]) == Some(TocLines(cells)[k])
    ensures forall k, l :: 0 <= k < l < |TocPositions(cells)| ==>
              Before(TocPositions(cells)[k], TocPositions(cells)[l])
    ensures forall i, j :: Qualifies(cells, i, j) ==> (i, j) in TocPositions(cells)
  {
    var g := Entries(cells);
    GridPicksMatch(g);
    GridPicksOrdered(g);
    GridPicksComplete(g);
    forall k | 0 <= k < |TocPositions(cells)|
      ensures var p := TocPositions(cells)[k];
              Qualifies(cells, p.0, p.1) && LineToc(cells[p.0].source[p.1]) == Some(TocLines(cells)[k])
    {
      var p := TocPositions(cells)[k];
      assert g[p.0] == CellEntries(cells[p.0]);
      if IsMarkdown(cells[p.0]) {
        LineTocsAt(cells[p.0].source, p.1);
      }
    }
    forall i, j | Qualifies(cells, i, j)
      ensures (i, j) in TocPositions(cells)
    {
      LineTocsAt(cells[i].source, j);
      assert g[i][j] == LineToc(cells[i].source[j]);
    }
  }

  /** The lines that qualify are the positions of the present entries. */
  lemma QualifyingArePresent(cells: seq<Cell>)
    ensures (set i, j | 0 <= i < |cells| && 0 <= j < |cells[i].source| && Qualifies(cells, i, j) :: (i, j))
         == (set i, j | 0 <= i < |Entries(cells)| && 0 <= j < |Entries(cells)[i]| && Entries(cells)[i][j].Some? :: (i, j))
  {
    var g: seq<seq<Option<string>>> := Entries(cells);
    var qualifying: set<(int, int)> := set i, j | 0 <= i < |cells| && 0 <= j < |cells[i].source| && Qualifies(cells, i, j) :: (i, j);
    var present: set<(int, int)> := set i, j | 0 <= i < |g| && 0 <= j < |g[i]| && g[i][j].Some? :: (i, j);
    forall i, j | 0 <= i < |g| && 0 <= j < |g[i]|
      ensures j < |cells[i].source| && (g[i][j].Some? <==> Qualifies(cells, i, j))
    {
      assert g[i] == CellEntries(cells[i]);
      if IsMarkdown(cells[i]) {
        LineTocsAt(cells[i].source, j);
      }
    }
    forall i, j | Qualifies(cells, i, j)
      ensures i < |g| && j < |g[i]| && g[i][j].Some?
    {
      assert g[i] == CellEntries(cells[i]);
      LineTocsAt(cells[i].source, j);
    }
    assert qualifying == present;
  }

  /** The number of entries is the number of lines that qualify. */
  lemma EntryCount(cells: seq<Cell>)
    ensures |TocLines(cells)| ==
              |set i, j | 0 <= i < |cells| && 0 <= j < |cells[i].source| && Qualifies(cells, i, j) :: (i, j)|
  {
    ConcatCount(Entries(cells));
    QualifyingArePresent(cells);
  }

  // ---------------------------------------------------------- the text

  /** No entry of the table of contents contains a newline. */
  lemma TocLinesHaveNoNewline(cells: seq<Cell>)
    ensures forall k :: 0 <= k < |TocLines(cells)| ==> '\n' !in TocLines(cells)[k]
  {
    TocOrder(cells);
    var ps := TocPositions(cells);
    forall k | 0 <= k < |TocLines(cells)|
      ensures '\n' !in TocLines(cells)[k]
    {
      EntryHasNoNewline(cells[ps[k].0].source[ps[k].1]);
    }
  }

  /** The text is empty when no line qualifies; otherwise splitting it at
      the newlines gives back exactly the entries. */
  lemma TocRoundTrip(cells: seq<Cell>)
    ensures TocLines(cells) == [] ==> Join(TocLines(cells), "\n") == ""
    ensures TocLines(cells) != [] ==> Split(Join(TocLines(cells), "\n"), '\n') == TocLines(cells)
  {
    if TocLines(cells) != [] {
      TocLinesHaveNoNewline(cells);
      SplitJoin(TocLines(cells), '\n');
    }
  }
}
