# API test comparison core, modelled in Dafny

`test.py` compiles each test project with two backends and compares the `.ini`
files the backends write. This project models the part of `test.py` that does
the comparing and the reporting:

- **`Table`** (module `TextTable`, file `table.dfy`). This is the text-table
  builder. Its state is the rows (cells plus an alignment), the pending
  `(row index, glyph)` separators, a running column count and per-column
  maximum widths.
  - `add_sep`, `add_row`, `add_header` and `extend` update that state in
    place. `get_row_str` pads every cell according to its alignment and the
    margin.
  - `output` prints the rows in order. It pops each pending separator as it
    prints it before its row.
  - The model is a `class` with `seq` fields. Its methods carry `modifies`
    clauses. `GetRowStr` is proved against the function `RowString`, and
    `Output` against the function `Rendered`. `AddRow` keeps the invariant
    `Valid`, which ties the running count and widths to the rows.
- **`comapre_ini`** (module `IniDiff`, file `ini_diff.dfy`). This is the
  N-source INI diff:
  - each source is labelled by the first path segment after the longest
    common prefix;
  - the sections of all sources are merged into one structure, and each
    section's options are merged likewise;
  - one `+`/`-` presence row is produced per section, and one value row per
    option;
  - every row passes the retention test "more than two distinct cells, the
    label included";
  - the rows go into a `Table` headed by the labels.

  The method `CompareIni` returns the printed lines. `DiffOf` is the
  specification it is proved against, and holds for some order of visiting
  the sections and options.
- **`check`** (module `PortCheck`, file `check.dfy`):
  - it folds the port-folder names of all output directories into the
    "common" set;
  - it folds the `.ini` names of each common port's folders the same way;
  - it compares every common file across all output directories.

  The fold replaces an empty running set and intersects a non-empty one. The
  model proves what that fold computes. It also proves the consequence:
  `check` can stop at a port folder that some output directory lacks.
- **Unordered iteration** (module `Iteration`, file `iteration.dfy`). Python
  visits set and dictionary elements in an unspecified order. `Enumerate`
  yields every element exactly once in some order. Every property that
  depends on an order is stated for all orders.

Python 2 strings are byte strings, so `len` counts bytes. A Dafny `string`
here stands for such a byte string, one `char` per byte, so `|s|` is `len(s)`.
A UTF-8 character of two bytes is therefore two `char`s wide in the model, as
in the program.

The file system is a value: a map from listable directories to their
listings, and a map from readable files to their parsed contents. An INI
document is a `map<string, map<string, string>>`. The two regular expressions
(`PORT_RX` and the `.ini` pattern) are the predicate parameters `isPort` and
`isIni`. Printing becomes returned line sequences. `check`'s result is a
`Finished` or `Stopped` outcome holding one report per port.

Facts about the code that a reader might not expect, each of which the model
keeps:

- `add_header` adds its row with the default LEFT alignment.
- Every row `comapre_ini` adds uses that default too.
- A table with at most one row prints nothing at all.
- A separator line is `2*margin*(1+columns) + sum(widths)` glyphs long. That
  differs from the rendered row width by `2*margin - columns`, so with the
  margin of 1 the two agree only for two columns (`SeparatorVersusRowWidth`).
- Rendering twice is not the same as rendering once, because `output` pops
  the separators it prints (`SecondOutputPrintsRowsOnly`).
- Only the front pending separator is ever looked at. So once it names a row
  already printed, for instance because two separators share an index, no
  separator is printed any more (`StalePendingStays`,
  `RepeatedIndexBlocksLaterSeparators`).
- The fold in `check` is not an intersection in general (`FoldRestarts`,
  `RestartedFoldStops`).
- `check` lists the output directories in order and stops at the first missing
  folder (`GapStopsAtFirstMissing`).

## Model

| member | source | states |
|---|---|---|
| TextTable.Table.constructor | test.py:203-208 | A new table has no rows, no separators, column count 0, no widths and margin 1. |
| TextTable.Table.AddSep | test.py:210-211 | Appends a separator carrying the current row count and the glyph, `-` by default. The rows are untouched and the table stays valid. |
| TextTable.Table.AddRow | test.py:213-224 | Appends the row with its alignment, LEFT by default. The column count becomes the maximum of the old count and the row length, and there is one width per column. No width decreases, and every cell of the new row fits its column. The count and widths stay equal to the maxima over all rows (`Valid`). |
| TextTable.Table.AddHeader | test.py:226-229 | The row count grows by one and the header row is appended LEFT-aligned. Two `=` separators are appended, at the old row count and at the old count plus one. |
| TextTable.Table.Extend | test.py:231-233 | Appends every given row, in order, LEFT-aligned. The separators are unchanged and the table stays valid. |
| TextTable.ColumnCountIsMax | test.py:218 | The column count is at least every row's length and equals some row's length when there are rows. |
| TextTable.ColumnWidthIsMax | test.py:220-224 | The width of column `n` is at least the length of every row's cell `n`. It is 0 or equal to the length of some row's cell `n`. |
| TextTable.WidthBeyondColumnCount | test.py:219-221 | Columns at or beyond the column count have width 0. |
| TextTable.Spaces | test.py:255 | A run of `k` blanks, empty when `k` is not positive, as string repetition behaves. |
| TextTable.PadsSplitSlack | test.py:244-252 | For every alignment, the left and right paddings are non-negative and add up to the slack. |
| TextTable.CellLayout | test.py:240-255 | A cell that fits its column renders as `width + 2*margin + 1` characters. Its text appears unchanged, all other characters are blanks, and it ends in `|`. The text starts after the margin for LEFT, after margin plus slack for RIGHT, and after margin plus half the slack rounded down for CENTER. |
| TextTable.Table.GetRowStr | test.py:235-256 | The loop builds exactly `RowString`: one padded cell per column, in column order. It requires at least as many cells as columns, since a shorter row raises an index error. |
| TextTable.RowStringLength | test.py:239-256 | A row whose cells fit renders as `sum(widths) + columns*(2*margin+1)` characters. |
| TextTable.RowStringCell | test.py:239-256 | Column `n`'s cell appears unchanged in the rendered row, between the offsets of columns `n` and `n+1`. |
| TextTable.RowStringPrefix | test.py:239-255 | Rendering the first `m` columns gives a prefix of the rendered row. |
| TextTable.Repeat | test.py:262-263 | The separator string repeated `k` times is `k` times as long. |
| TextTable.SeparatorVersusRowWidth | test.py:263 | A separator line consists only of its glyph. It is `2*margin - columns` characters longer than a rendered row of the same table. |
| TextTable.Table.Output | test.py:258-266 | Prints nothing for at most one row. Otherwise the lines and the remaining separators are exactly `Rendered`: every row in order, each preceded by a separator line when the front pending separator carries its index, which is then dropped. The table stays valid. |
| TextTable.DropFrontInOrder | test.py:265 | Popping the front separator keeps the remaining ones in row order. |
| TextTable.RenderPrefixShape | test.py:258-266 | After any number of rows, the pending separators are a suffix of the original ones. One line was printed per row and one per dropped separator. |
| TextTable.RenderPrefixPendingAhead | test.py:261-265 | With strictly increasing indices, no pending separator carries the index of a row already printed. |
| TextTable.RenderWithoutDueSeparators | test.py:259-266 | When no pending separator carries the index of a row, only the rows are printed, in order, and the separators stay pending. |
| TextTable.SecondOutputPrintsRowsOnly | test.py:258-266 | With strictly increasing separator indices, a second `output` prints exactly the rows and no separator line. |
| TextTable.StalePendingStays | test.py:260-265 | Once the front pending separator names a row already printed, every later row prints alone and the pending separators stay as they are. |
| TextTable.RepeatedIndexBlocksLaterSeparators | test.py:260-265 | Suppose the two front pending separators both carry the index of the next row. The first is printed before that row. From then on only rows are printed, and every later separator stays pending. |
| TextTable.RepeatedIndexExample | test.py:260-265 | Three rows with separators at indices 0, 1, 1 and 2: the separator due before the third row is not printed and stays pending. |
| TextTable.HeaderFramedRendering | test.py:258-266 | A header added to an empty table prints as: separator line, header row, separator line, then the other rows. No separator is left pending. |
| TextTable.HeaderTableLines | test.py:258-266 | A fresh table given a header and uniform rows prints nothing when only the header exists. Otherwise it prints `rows + 2` lines: the `=` line, the header, the `=` line, and then each other row. |
| IniDiff.CommonPrefix2 | test.py:271 | The common prefix of two strings is a prefix of both. It stops at the end of one of them or at the first differing character. |
| IniDiff.CommonPrefix | test.py:271 | The common prefix of all paths is a prefix of every path. |
| IniDiff.CommonPrefixIsLongest | test.py:271 | Every string that is a prefix of all paths is a prefix of the computed common prefix. |
| IniDiff.FirstSegment | test.py:274 | The first path segment is a prefix without separator. It ends at the end of the string or at a separator. |
| IniDiff.Labels | test.py:271-274 | One label per path. The common prefix followed by the label is a prefix of the path, the label holds no separator, and it ends where the path ends or at a separator. |
| IniDiff.LabelsCutInsideFolderNames | test.py:271-274 | The prefix is cut by character, not by folder: `r/py/a.ini` and `r/pz/a.ini` are labelled `y` and `z`. |
| IniDiff.ReadSources | test.py:270-276 | The loop yields the labels and the parsed documents of the paths, in path order. |
| IniDiff.AllSectionsMembers | test.py:286-289 | A section is in the union exactly when some source has it. |
| IniDiff.AllOptionsMembers | test.py:286-289 | An option is in a section's union exactly when some source having that section has the option. |
| IniDiff.MergeOne | test.py:287-289 | Merging one section adds it with the source's options when new. When known, it unites the option sets. |
| IniDiff.MergeSections | test.py:286-289 | The inner loop merges every section of one source into the structure. |
| IniDiff.StructureStep | test.py:283-289 | Merging the next source into the structure of the sources before it gives the structure of all of them. |
| IniDiff.MergeSources | test.py:279-289 | The header is the empty corner cell followed by the labels in source order. The structure maps every section of any source to the union of its options over the sources that have it. |
| IniDiff.SectionRow | test.py:294-301 | A section row is the section name followed by one presence cell per source. |
| IniDiff.OptionRow | test.py:303-312 | An option row is the indented option name followed by one value per source, `-` where the section or option is missing. |
| IniDiff.ShortRowNotKept | test.py:313 | A row of at most two cells is never kept. |
| IniDiff.KeptIffCellsDiffer | test.py:313-316 | When the label differs from every cell, a row is kept exactly when two of its source cells differ. |
| IniDiff.SectionRowKeptIff | test.py:316 | For an ordinary section name, its row is kept exactly when some source has the section and some source lacks it. |
| IniDiff.SectionNamedPlusHidden | test.py:316 | A section named `+`, present in one of two sources, is not kept, because its label equals a presence cell. |
| IniDiff.OptionRowKeptIff | test.py:313 | When no value equals the label, an option row is kept exactly when two sources' values differ. |
| IniDiff.KeptOptionRowsMembers | test.py:302-314 | The kept option rows of a section are exactly the kept rows of its options. |
| IniDiff.SectionValues | test.py:294-301 | The loop builds the section row. |
| IniDiff.OptionValues | test.py:303-312 | The loop builds the option row. |
| IniDiff.KeptOptionValues | test.py:302-314 | The loop keeps exactly the kept option rows, in option order. |
| IniDiff.SectionBlockShown | test.py:315-319 | A section contributes rows exactly when its presence row or one of its option rows is kept. Its section row then comes first. |
| IniDiff.DiffBodyWidth | test.py:293-319 | Every body row has a label cell and one cell per source. |
| IniDiff.DiffRows | test.py:291-319 | The stored rows are non-empty and uniform, each `1 + sources` cells wide. |
| IniDiff.DiffBodyRows | test.py:293-319 | A row is in the body exactly when it is in the block of one of the sections. |
| IniDiff.DisagreementShown | test.py:293-319 | Suppose two sources disagree on an option, and no value equals the indented option name. Then the option's row and its section's row are in the table body, for every visiting order. |
| IniDiff.PresenceDifferenceShown | test.py:293-319 | For a section not named `+` or `-`: when some source has it and another lacks it, the section row is in the table body, for every visiting order. |
| IniDiff.BodyRowsJustified | test.py:293-319 | Every printed body row is either a section row that is kept or has a kept option, or a kept option row of a merged option. |
| IniDiff.OneSourceKeepsNoOption | test.py:302-314 | With a single source no option row is kept. |
| IniDiff.OneSourceBodyEmpty | test.py:293-319 | With a single source the body is empty. |
| IniDiff.SingleSourcePrintsNothing | test.py:269-320 | Comparing a single file prints nothing. |
| IniDiff.DiffLinesLayout | test.py:291-320 | The output is empty when no row is kept. Otherwise it is the kept rows plus the header and two `=` lines. |
| IniDiff.AddSection | test.py:315-319 | Adding one section appends its block: the section row and then its kept option rows, LEFT-aligned. |
| IniDiff.AddSections | test.py:293-319 | Visiting every merged section once, each with every one of its options once, appends exactly the diff body. |
| IniDiff.CompareIni | test.py:269-320 | The printed lines are the diff table of the parsed documents for some order of visiting sections and options: the header between `=` lines, then the kept rows. |
| Iteration.Enumerate | test.py:345 | Visits every element of a set exactly once, in an unspecified order. |
| PortCheck.Filter | test.py:332-334 | Keeps exactly the names the pattern matches. |
| PortCheck.FoldKeepsCommon | test.py:329-338 | Every name in every set survives the fold. |
| PortCheck.FoldIsCommon | test.py:329-338 | When the sets share some name, the fold is exactly their intersection. |
| PortCheck.FoldIsCommonSuffix | test.py:329-338 | The fold is always the intersection of some final run of the sets: the fold restarts whenever the running set is empty. |
| PortCheck.FoldOfTwo | test.py:335-338 | With two sets of which the first is non-empty, the fold is their intersection. |
| PortCheck.FoldRestarts | test.py:335-338 | For `{p1}`, `{p2}`, `{p2}` the fold gives `{p2}` although no name is common to all three. |
| PortCheck.CommonNames | test.py:329-338 | The loop returns the fold of the matching names when every directory can be listed. Otherwise it returns the first directory that cannot be listed. |
| PortCheck.IniPathsMembers | test.py:363-366 | The compared paths are exactly `join(join(dir, port), ini)` for the output directories. |
| PortCheck.CompareFile | test.py:361-367 | The comparison visits every path of the file once and its lines are the diff table of the files read there. |
| PortCheck.CompareFiles | test.py:361-367 | Every common `.ini` name is compared exactly once, each against all output directories. |
| PortCheck.ComparePort | test.py:346-367 | The port's `.ini` names are folded and each common one is compared once. If a port folder cannot be listed, the folder returned is the one under the first output directory that lacks it. The folders under the earlier output directories can all be listed. |
| PortCheck.Check | test.py:327-367 | The result is one of three (`CheckOutcome`). Either a report for each common port, each exactly once, or a stop at an output directory that cannot be listed, before any report. Or a stop at the folder of a common port not yet reported. That folder is the one under the first output directory, in order, whose port folder cannot be listed. |
| PortCheck.CommonPortFoldersListed | test.py:345-351 | In a consistent tree whose port sets share a name, every common port's folder exists under every output directory. |
| PortCheck.ConsistentTreeFinishes | test.py:327-367 | In that case, and with every file parsing (the model's assumption), `check` always finishes. |
| PortCheck.GapStopsAtFirstMissing | test.py:343-351 | For directories `a`, `b`, `c` that all list port `p`, whose folder exists only under `b`, `check` stops at `a/p` and prints no report. It does not stop at `c/p`. |
| PortCheck.RestartedFoldStops | test.py:329-351 | For directories `a`, `b`, `c` holding ports `p1`, `p2`, `p2`, the fold yields `p2`, and `check` stops at `a/p2`, which does not exist. |

## Left out

- `convert`, `generate`, `compile`, `find_ldxcmd`, `dig_tests`, `is_project`, `get_files`, `copyDirectory` and `main` are not part of this model. They launch processes, read the Windows registry, call the `swifttest` API, and walk, copy and rename directories.
- `ConfigParser` parsing is not modelled: reading an `.ini` file, option-name lowercasing, `DEFAULT` handling. Each file's parsed document is an input. A file that cannot be read parses as a document without sections.
- A readable file that does not parse is not modelled. For example, an option line before any `[section]` makes `ConfigParser` raise `MissingSectionHeaderError`, and a malformed line raises `ParsingError`. The exception leaves `comapre_ini` and stops `check`. The model assumes that every readable file parses, so `CheckOutcome` has no outcome for this stop.
- Regular-expression matching for `PORT_RX` and `[\w\.]+\.ini$` is left to the predicate parameters `isPort` and `isIni`.
- Printing to stdout and stderr is not modelled:
  - The table lines are returned.
  - The `Comparing port:` and file-name headings are carried by the reports' structure.
  - The "no common ports" and "no common ini files" diagnostics are carried by the empty sets in the reports.
- Only POSIX paths are modelled: `os.sep` and `os.path.join` use `/`.
- A missing directory stops `check`, which the model records as the `Stopped` outcome. That outcome carries the reports made before the stop. For an output directory, `os.walk` swallows the listing error and yields nothing, so `next(os.walk(d))` raises `StopIteration`. For a port folder, `os.listdir` raises its own error. The model does not tell the two exceptions apart.
- TextTable.Table.AddRow: it stores the row by value. In the code the table keeps a reference to the caller's list, so later mutations would show through. No caller mutates a row after adding it.
- TextTable.Alignment: it has only CENTER, LEFT and RIGHT. An integer alignment other than these three gets no padding in `get_row_str`, and no caller passes one.
- The class attribute `_margin_width = 2` is not modelled. It is always shadowed by the instance value 1 set in `__init__`.
- TextTable.Table.GetRowStr and TextTable.Table.Output require every row to have a cell per column. `get_row_str` raises an index error on a shorter row, and that crash is not modelled.
- IniDiff.CompareIni: its contract says the printed lines come from SOME order of visiting sections and options, since Python leaves that order unspecified. It does not fix which order.
