# Table of contents from a Jupyter notebook

A Dafny model of `generate_toc_from_ipynb`, the helper that turns a
notebook's markdown headings into a nested bullet list of links.

The model follows the function step by step:

- It walks the cells in order and skips every cell whose `cell_type` is
  not `"markdown"`.
- It matches each line of a markdown cell against `^(#+)\s*(.+)`.
- On a match, the heading level is the number of `#` taken by group 1.
  The title is group 2 with surrounding whitespace stripped. The anchor is
  the title lowered, with every space turned into `-`.
- Levels 1 to 5 give one bullet, indented by 4 * (level - 1) spaces:
  `* [title](#anchor)`. A higher level gives nothing.
- The bullets are joined with `"\n"`.

The project has six modules.

- `PyStr` (`py_str.dfy`) models the Python string operations involved:
  `isspace`, `strip`, `lower`, `replace`, `join` and `split`.
- `HeadingMatch` (`heading_match.dfy`) models `re.match`. The code is the
  backtracking search the regex engine performs. Its specification is an
  independent one: the match takes the greatest candidate split of the line
  in the order (length of group 1, start of group 2). Some consequences:
  - `###` matches as group 1 `##`, group 2 `#`;
  - `#\n` does not match;
  - `#\nabc` matches with title `abc`.
- `GenerateToc` (`toc.dfy`) holds the main loop as an imperative method.
  The method is proved against the specification function `TocLines`.
  The inner loop and each of the two loop bodies is a small method of its
  own, proved against one step of the specification.
- `Collect` (`collect.dfy`) is the list-building shape on its own: present
  entries appended line after line and cell after cell. It also proves
  where each collected entry comes from, and how many there are.
- `TocProperties` (`toc_properties.dfy`) proves what the function
  promises:
  - the exact shape of each bullet, and exactly which lines produce one;
  - the entries follow the headings' reading order, one per qualifying
    line, with none missing;
  - non-markdown cells have no effect;
  - no bullet contains a newline;
  - so the returned text splits back into exactly the bullets.

`Wrappers` (`wrappers.dfy`) holds the shared `Option` type.

## Model

| member | source | states |
|---|---|---|
| PyStr.IsSpaceTable | src/generate_toc_from_ipynb.py:22-25 | `IsSpace`, the class `\s` matches at line 22 and the whitespace `strip()` removes at line 25, accepts exactly the 29 code points Python's `str.isspace()` accepts |
| PyStr.LStrip | src/generate_toc_from_ipynb.py:25 | the leading-whitespace half of `strip()`: the result is a suffix of the input, what was cut is all whitespace, and the result does not start with whitespace |
| PyStr.RStrip | src/generate_toc_from_ipynb.py:25 | the trailing half of `strip()`: a prefix of the input, the cut part is all whitespace, and the result does not end with whitespace |
| PyStr.Strip | src/generate_toc_from_ipynb.py:25 | `title.strip()` neither starts nor ends with whitespace |
| PyStr.StripIsSlice | src/generate_toc_from_ipynb.py:25 | the stripped title is a contiguous slice of group 2, and only whitespace was removed on either side |
| PyStr.StripKeepsCharacters | src/generate_toc_from_ipynb.py:25 | every character of the stripped title occurs in the unstripped text |
| PyStr.LowerChar | src/generate_toc_from_ipynb.py:26 | `lower()` on one character, for ASCII only: `A`-`Z` move down by 32 and no ASCII capital is left; every other character is kept as it is, which differs from Python for non-ASCII capitals such as `À` |
| PyStr.Lower | src/generate_toc_from_ipynb.py:26 | `lower()`, ASCII only: keeps the length and lowers each character in place with `LowerChar` |
| PyStr.Replace | src/generate_toc_from_ipynb.py:26-28 | `replace(" ", "-")` keeps the length, swaps exactly the spaces for hyphens, and leaves no space behind |
| PyStr.Join | src/generate_toc_from_ipynb.py:46 | `"\n".join` of no lines is the empty string, and of one line is that line |
| PyStr.FirstIndex | src/generate_toc_from_ipynb.py:46 | the first occurrence of the separator, or the length when it is absent |
| PyStr.Split | src/generate_toc_from_ipynb.py:46 | `split` (the inverse used to read the output back) gives at least one piece, and no piece contains the separator |
| PyStr.SplitJoin | src/generate_toc_from_ipynb.py:46 | splitting a join of a nonempty list of separator-free lines gives back the lines |
| PyStr.FirstIndexOfPrefix | src/generate_toc_from_ipynb.py:46 | in `x + sep + rest` with no separator in `x`, the first separator is at `|x|` |
| PyStr.JoinSplit | src/generate_toc_from_ipynb.py:46 | joining a split gives back the string |
| HeadingMatch.Candidate | src/generate_toc_from_ipynb.py:22 | the independent definition of a way `^(#+)\s*(.+)` can match: group 1 is `k >= 1` leading `#`, only whitespace follows up to `p`, and `.` accepts the character at `p`; `HeadingMatch.Backtrack`, `HeadingMatch.MatchHeading` and `HeadingMatch.MatchHeadingGroups` are proved against it |
| HeadingMatch.HashRun | src/generate_toc_from_ipynb.py:22 | greedy `#+`: the length of the leading run of `#` |
| HeadingMatch.SpaceRun | src/generate_toc_from_ipynb.py:22 | greedy `\s*`: the length of the whitespace run at a position |
| HeadingMatch.DotRun | src/generate_toc_from_ipynb.py:22 | greedy `.+`: the text runs up to the first newline or the end of the line |
| HeadingMatch.TryDot | src/generate_toc_from_ipynb.py:22 | giving back whitespace one character at a time finds the last position where `.` can start, or shows there is none |
| HeadingMatch.Backtrack | src/generate_toc_from_ipynb.py:22 | backtracking over the number of `#` finds the greatest candidate split, or proves there is none |
| HeadingMatch.MatchHeading | src/generate_toc_from_ipynb.py:22-23 | `re.match` fails exactly when no candidate split exists; on success group 1 is a nonempty run of `#`, and group 2 is nonempty with no newline |
| HeadingMatch.CandidateWithinHashRun | src/generate_toc_from_ipynb.py:22 | group 1 never takes more `#` than the line starts with |
| HeadingMatch.MatchHeadingGroups | src/generate_toc_from_ipynb.py:22-25 | group 1 is a prefix of the line; group 2 is the maximal newline-free text at the start the engine prefers over every other candidate |
| HeadingMatch.NoMatchWithoutHashAndText | src/generate_toc_from_ipynb.py:22-23 | a line that is shorter than two characters, or does not start with `#`, does not match |
| HeadingMatch.MatchWhenTextFollows | src/generate_toc_from_ipynb.py:22-23 | a `#` followed by any character but a newline always matches |
| HeadingMatch.OnlyHashesLine | src/generate_toc_from_ipynb.py:22-24 | `###` matches with group 1 `##` and group 2 `#`, so it is read as a level-2 heading |
| HeadingMatch.HashNewlineLine | src/generate_toc_from_ipynb.py:22-23 | `#\n` does not match |
| HeadingMatch.NewlineSwallowedLine | src/generate_toc_from_ipynb.py:22-25 | in `#\nabc`, `\s*` swallows the newline and the title is `abc` |
| GenerateToc.Anchor | src/generate_toc_from_ipynb.py:26-28 | the anchor has the title's length; each character is lowered (ASCII only) or, if a space, turned into `-`; no space and no ASCII capital remains |
| GenerateToc.IsMarkdown | src/generate_toc_from_ipynb.py:20 | a cell takes part exactly when its `cell_type` is `"markdown"`; `TocProperties.NonMarkdownCellIgnored` and `TocProperties.OnlyMarkdownCellsCount` state what that means for the output |
| GenerateToc.TocLine | src/generate_toc_from_ipynb.py:30-44 | the five literals of the if/elif chain are `* [title](#anchor)` behind 4 * (level - 1) spaces; every other level gives no line |
| GenerateToc.LineToc | src/generate_toc_from_ipynb.py:22-44 | the body of the line loop as a value: the bullet of one line, or nothing; `TocProperties.LineTocEntry` states when it is present and what it is |
| GenerateToc.LineTocsAt | src/generate_toc_from_ipynb.py:21-22 | the entries of a cell line up with its lines: entry `j` is what line `j` yields |
| GenerateToc.LineTocs | src/generate_toc_from_ipynb.py:21-22 | the line loop over a cell's `source` as a value: one optional bullet per line, in line order; `GenerateToc.LineTocsAt` states entry `j` |
| GenerateToc.CellEntries | src/generate_toc_from_ipynb.py:20-21 | the markdown test and the line loop: a markdown cell gives the optional bullets of its lines, any other cell gives nothing; `GenerateToc.AppendCellContribution` and `TocProperties.NonMarkdownCellIgnored` state it |
| GenerateToc.TocLines | src/generate_toc_from_ipynb.py:18-44 | the final `toc_lines`: the entries of the lines of the markdown cells, in order; `TocProperties.TocOrder` and `TocProperties.EntryCount` state where each entry comes from and how many there are |
| GenerateToc.GenerateTocFromIpynb | src/generate_toc_from_ipynb.py:18-46 | the returned text is the newline-join of the entries of every qualifying line, cell after cell and line after line |
| GenerateToc.AppendCellContribution | src/generate_toc_from_ipynb.py:19-21 | one pass of the cell loop appends the entries of a markdown cell, and nothing for any other cell |
| GenerateToc.AppendCellHeadings | src/generate_toc_from_ipynb.py:21-44 | the line loop appends the entries of the cell's lines in order |
| GenerateToc.AppendLineHeading | src/generate_toc_from_ipynb.py:22-44 | one pass of the line loop appends the line's bullet when it has one, and nothing otherwise |
| Collect.Present | src/generate_toc_from_ipynb.py:23-44 | what one line adds to `toc_lines`: nothing, or its one bullet; `GenerateToc.AppendLineHeading` and `Collect.FlattenSnoc` state it as the step of the line loop |
| Collect.Flatten | src/generate_toc_from_ipynb.py:21-44 | the bullets the line loop appends for one cell, in line order; `Collect.FlattenSnoc`, `Collect.FlattenAppend` and `Collect.PicksMatch` state its meaning |
| Collect.Concat | src/generate_toc_from_ipynb.py:19-44 | the bullets the cell loop appends, cell after cell; `Collect.ConcatSnoc`, `Collect.ConcatAppend`, `Collect.GridPicksMatch` and `Collect.ConcatCount` state its meaning |
| Collect.FlattenAppend | src/generate_toc_from_ipynb.py:21-44 | the entries of two runs of lines are those of the first followed by those of the second |
| Collect.ConcatAppend | src/generate_toc_from_ipynb.py:19-44 | the entries of two runs of cells are those of the first followed by those of the second |
| Collect.FlattenSnoc | src/generate_toc_from_ipynb.py:21-44 | taking one more line appends that line's entry, if any |
| Collect.ConcatSnoc | src/generate_toc_from_ipynb.py:19-44 | taking one more cell appends that cell's entries |
| Collect.FlattenLast | src/generate_toc_from_ipynb.py:21-44 | a cell's entries are those of all but its last line, then that line's entry |
| Collect.ConcatLast | src/generate_toc_from_ipynb.py:19-44 | the entries are those of all but the last cell, then that cell's |
| Collect.Picks | src/generate_toc_from_ipynb.py:21-23 | the lines of a cell that yield an entry, as valid line indices |
| Collect.PicksMatch | src/generate_toc_from_ipynb.py:21-44 | one picked line per entry of a cell, and entry `m` is the entry of picked line `m` |
| Collect.PicksIncrease | src/generate_toc_from_ipynb.py:21 | picked lines are in strictly increasing line order |
| Collect.PicksComplete | src/generate_toc_from_ipynb.py:21-23 | every line that yields an entry is picked |
| Collect.GridPicks | src/generate_toc_from_ipynb.py:19-23 | the (cell, line) positions of the entries, each a valid position |
| Collect.GridPicksMatch | src/generate_toc_from_ipynb.py:19-44 | one position per entry, and entry `m` is the entry of the line at position `m` |
| Collect.GridPicksOrdered | src/generate_toc_from_ipynb.py:19-21 | positions are in strictly increasing reading order, by cell and then by line |
| Collect.GridPicksComplete | src/generate_toc_from_ipynb.py:19-23 | every line that yields an entry has its position listed |
| Collect.DistinctCount | src/generate_toc_from_ipynb.py:19-21 | positions in strictly increasing order are all distinct |
| Collect.ConcatCount | src/generate_toc_from_ipynb.py:19-44 | the number of entries is the number of lines that yield one |
| TocProperties.LineTocEntry | src/generate_toc_from_ipynb.py:22-44 | what `LineToc` computes: a line yields a bullet if and only if it matches with at most five `#`; the bullet is the stripped title behind 4 * (level - 1) spaces, linked to its anchor |
| TocProperties.TitleShape | src/generate_toc_from_ipynb.py:22-25 | a title has no whitespace at either end and no newline |
| TocProperties.EntryHasNoNewline | src/generate_toc_from_ipynb.py:22-44 | no bullet contains a newline |
| TocProperties.AnchorHasNoNewline | src/generate_toc_from_ipynb.py:26-28 | an anchor made from a newline-free title is newline-free |
| TocProperties.TocLinesAppend | src/generate_toc_from_ipynb.py:18-44 | the entries of two runs of cells are those of the first followed by those of the second |
| TocProperties.NonMarkdownCellIgnored | src/generate_toc_from_ipynb.py:19-20 | inserting a non-markdown cell anywhere leaves the entries unchanged |
| TocProperties.NonMarkdownCellNoEntries | src/generate_toc_from_ipynb.py:19-20 | a notebook made of one non-markdown cell has no entries |
| TocProperties.MarkdownCells | src/generate_toc_from_ipynb.py:19-20 | the cells the loop works on: every markdown cell kept exactly as often as it occurs, every other cell dropped, a single cell kept exactly when it is a markdown cell |
| TocProperties.MarkdownCellsAppend | src/generate_toc_from_ipynb.py:19-20 | the filter keeps the notebook's order: filtering two runs of cells gives the filtered first run followed by the filtered second |
| TocProperties.OnlyMarkdownCellsCount | src/generate_toc_from_ipynb.py:19-20 | dropping every non-markdown cell leaves the entries unchanged |
| TocProperties.QualifyingArePresent | src/generate_toc_from_ipynb.py:19-44 | the lines that qualify are exactly the lines whose entry is present |
| TocProperties.TocOrder | src/generate_toc_from_ipynb.py:18-44 | entry `k` is the bullet of a qualifying line; the lines appear in reading order; every qualifying line appears |
| TocProperties.EntryCount | src/generate_toc_from_ipynb.py:18-44 | the number of entries equals the number of qualifying (cell, line) positions |
| TocProperties.TocLinesHaveNoNewline | src/generate_toc_from_ipynb.py:22-46 | no entry of the table of contents contains a newline |
| TocProperties.TocRoundTrip | src/generate_toc_from_ipynb.py:46 | the text is empty when there are no entries; otherwise splitting it at newlines gives back exactly the entries |

## Left out

- Reading the notebook (lines 15-16): opening the file and `json.load` are I/O. The model takes the parsed cells as its input.
- The script at the bottom of the file (lines 49-57): the hard-coded path, `pyperclip.copy` and `print` are I/O.
- A missing `cells`, `cell_type` or `source` key raises `KeyError` in Python. The model's `Cell` always has both fields, so that error path is not modelled.
- A `source` given as one string instead of a list of lines: Python would then iterate over its characters. The model takes a list of lines.
- PyStr.LowerChar: only ASCII `A`-`Z` are lowered; every other character is kept, while Python's `lower()` also lowers non-ASCII capitals (`À` to `à`, the Kelvin sign to `k`).
- PyStr.Lower: only ASCII `A`-`Z` are lowered. Python's full Unicode `lower()`, which may also change the length of a string (`İ`), is not modelled.
- GenerateToc.Anchor: inherits the ASCII-only lowering, so the anchor of a title with non-ASCII capitals keeps them.
- The regex is modelled for a `str` pattern without flags. `\s` is the set of characters for which `str.isspace()` is true, and that set is written out as a list of code points.
- The loops of `generate_toc_from_ipynb` are spread over four methods. Each iteration does what the source does in the same order; only the proof is split into smaller steps.
  - `GenerateTocFromIpynb` holds the cell loop (line 19).
  - `AppendCellContribution` holds the body of the cell loop: the markdown test (line 20).
  - `AppendCellHeadings` holds the line loop `for line in cell["source"]` (line 21).
  - `AppendLineHeading` holds the body of the line loop (lines 22-44).
- `exercises/data/test_simulation.py` and `exercises/data/test_simulation_cawi.py` are not part of this model. They are forward Fresnel-propagation simulators of X-ray holograms, built on floating point, torch FFT and skimage rasterisation, and unrelated to the table of contents.
