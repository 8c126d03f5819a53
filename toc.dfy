/**
 * generate_toc_from_ipynb: turns the markdown headings of a Jupyter
 * notebook into a nested bullet list of links, one line per heading of
 * level 1 to 5, in the order the headings appear.
 *
 * The notebook is given already parsed, as its sequence of cells; each cell
 * has its `cell_type` and its `source`, a list of lines.
 */
module GenerateToc {
  import opened PyStr
  import opened Wrappers
  import opened HeadingMatch
  import opened Collect

  datatype Cell = Cell(cellType: string, source: seq<string>)

  predicate IsMarkdown(c: Cell) {
    c.cellType == "markdown"
  }

  /** `title.lower().replace(" ", "-")`: the title, character for character,
      with ASCII capitals lowered and every space turned into a hyphen. */
  function Anchor(title: string): (a: string)
    ensures |a| == |title|
    ensures forall i :: 0 <= i < |title| ==> a[i] == (if title[i] == ' ' then '-' else LowerChar(title[i]))
    ensures ' ' !in a
    ensures forall i :: 0 <= i < |a| ==> !('A' <= a[i] <= 'Z')
  {
    Replace(Lower(title), ' ', '-')
  }

  function Spaces(n: nat): string {
    seq(n, _ => ' ')
  }

  /** The if/elif chain on the heading level: for levels 1 to 5 a bullet of
      4 * (level - 1) spaces of indentation, then a markdown link from the
      title to its anchor; nothing for any other level. */
  function TocLine(level: nat, title: string, formattedTitle: string): (r: Option<string>)
    ensures 1 <= level <= 5 ==>
      r == Some(Spaces(4 * (level - 1)) + "* [" + title + "](#" + formattedTitle + ")")
    ensures !(1 <= level <= 5) ==> r.None?
  {
    if level == 1 then
      assert Spaces(0) + "* [" == "* [";
      Some("* [" + title + "](#" + formattedTitle + ")")
    else if level == 2 then
      assert Spaces(4) + "* [" == "    * [";
      Some("    * [" + title + "](#" + formattedTitle + ")")
    else if level == 3 then
      assert Spaces(8) + "* [" == "        * [";
      Some("        * [" + title + "](#" + formattedTitle + ")")
    else if level == 4 then
      assert Spaces(12) + "* [" == "            * [";
      Some("            * [" + title + "](#" + formattedTitle + ")")
    else if level == 5 then
      assert Spaces(16) + "* [" == "                * [";
      Some("                * [" + title + "](#" + formattedTitle + ")")
    else None
  }

  /** What one source line contributes: nothing unless it matches the
      heading pattern with a level of at most 5. */
  function LineToc(line: string): Option<string> {
    match MatchHeading(line)
    case None => None
    case Some(m) =>
      var level := |m.hashes|;
      var title := Strip(m.text);
      var formattedTitle := Anchor(title);
      TocLine(level, title, formattedTitle)
  }

  /** The optional entry of every line of a cell, in line order. */
  function LineTocs(source: seq<string>): (r: seq<Option<string>>)
    ensures |r| == |source|
  {
    if source == [] then []
    else LineTocs(source[..|source| - 1]) + [LineToc(source[|source| - 1])]
  }

  /** Entry `j` of a cell is the entry of its line `j`. */
  lemma {:induction false} LineTocsAt(source: seq<string>, j: nat)
    requires j < |source|
    ensures LineTocs(source)[j] == LineToc(source[j])
    decreases |source|
  {
    if j < |source| - 1 {
      LineTocsAt(source[..|source| - 1], j);
    }
  }

  /** The optional entries of a cell: one per line for a markdown cell,
      none for any other cell, whose lines are never looked at. */
  function CellEntries(c: Cell): seq<Option<string>> {
    if IsMarkdown(c) then LineTocs(c.source) else []
  }

  /** The optional entries of every cell, in cell order. */
  function Entries(cells: seq<Cell>): seq<seq<Option<string>>> {
    seq(|cells|, i requires 0 <= i < |cells| => CellEntries(cells[i]))
  }

  /** The final contents of `toc_lines`: the entries of the lines of the
      markdown cells, cell after cell and line after line. */
  function TocLines(cells: seq<Cell>): seq<string> {
    Concat(Entries(cells))
  }

  /** generate_toc_from_ipynb on the parsed notebook: visits the cells in
      order, collects the headings of every markdown cell into `tocLines`,
      and joins the collected bullets with newlines. */
  method GenerateTocFromIpynb(cells: seq<Cell>) returns (toc: string)
    ensures toc == Join(TocLines(cells), "\n")
  {
    var tocLines: seq<string> := [];
    for i := 0 to |cells|
      invariant tocLines == Concat(Entries(cells)[..i])
    {
      ConcatSnoc(Entries(cells), i);
      tocLines := AppendCellContribution(tocLines, cells[i]);
    }
    assert Entries(cells)[..|cells|] == Entries(cells);
    toc := Join(tocLines, "\n");
  }

  /** One turn of the loop over the cells: the cell's headings are appended
      when it is a markdown cell, and nothing happens otherwise. */
  method AppendCellContribution(tocLines: seq<string>, cell: Cell) returns (result: seq<string>)
    ensures result == tocLines + Flatten(CellEntries(cell))
  {
    if cell.cellType == "markdown" {
      result := AppendCellHeadings(tocLines, cell.source);
    } else {
      result := tocLines;
    }
  }

  /** The inner loop over the source lines of one markdown cell. */
  method AppendCellHeadings(tocLines: seq<string>, source: seq<string>) returns (result: seq<string>)
    ensures result == tocLines + Flatten(LineTocs(source))
  {
    result := tocLines;
    for j := 0 to |source|
      invariant result == tocLines + Flatten(LineTocs(source)[..j])
    {
      FlattenSnoc(LineTocs(source), j);
      result := AppendLineHeading(result, source, j);
    }
    assert LineTocs(source)[..|source|] == LineTocs(source);
  }

  /** One turn of the loop over the lines: match the line against the
      heading pattern and append its bullet when it has one. */
  method AppendLineHeading(tocLines: seq<string>, source: seq<string>, j: nat) returns (result: seq<string>)
    requires j < |source|
    ensures result == tocLines + Present(LineTocs(source)[j])
  {
    LineTocsAt(source, j);
    result := tocLines;
    var tocLine := LineToc(source[j]);
    if tocLine.Some? {
      result := result + [tocLine.value];
    }
  }
}
