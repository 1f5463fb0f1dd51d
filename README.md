# Discord bot data manager: the account sheet and its four commands

The bot keeps a table of game accounts in one worksheet of an Excel
workbook. Row 1 is a header and every later row is one account. There are
eight columns: name, tag, rank, username, password, v?, email and sellable.
Discord users reach the table through four commands:

- `search_rank <rank>` lists every account whose rank matches;
- `show_rank <name>` reports the rank of the first account with that name;
- `update_name <name> <column> <value>` overwrites one cell of the first account with that name;
- `update_cell <row> <column> <value>` overwrites one cell of a given row.

When the bot comes online it loads the workbook. If the file does not exist,
the bot creates it with only the header row. Every successful update saves
the whole workbook back to the file.

This project models that core in Dafny and proves what the handlers do.

- `options.dfy`: the `Option` type.
- `text.dfy` (`Text`): Python's `str.lower()` and `str.strip()`, and the comparison key
  `Normalize(s)`, which is `s.lower().strip()`.
- `schema.dfy` (`Schema`): `COLUMN_MAP`, the bootstrap header row, and `Resolve`, the
  case-insensitive column-name lookup.
- `locator.dfy` (`Locator`): the worksheet as a grid of optional strings, the single-cell
  write, and two scan specifications. `FirstMatch` is the first matching data row.
  `RankHits` is every data row whose rank matches, in row order.
- `store.dfy` (`Store`): the class `Sheet`. It stands for the module-level
  `wb`/`sheet` globals. `loaded` is false while `sheet` is `None`, `rows` is the
  worksheet, and `file` is the workbook file on disk. The four handlers are methods
  with the source's loops and loop invariants. Each method is proved equal to a
  specification function, and the properties are proved about those functions.

Handlers return a `Reply` value instead of a formatted Discord message.
A ghost counter `saves` records how many times the workbook was written.
It shows that each successful update saves exactly once and that a rejected
command never saves.

The two name scans differ. `show_rank` skips empty name cells and compares
lower-cased and stripped text. `update_name` skips only missing cells and compares
lower-cased text without stripping. So `update_name` can find a row whose name is
`""`, and it cannot find `" Bob "` from the query `"bob"`. `show_rank` does the
opposite in both cases. The model keeps both behaviours as the code has them and
proves both. The code is also followed on two more points. `update_cell` checks
the column before the row range. Neither update handler takes a lock, because no
`await` separates the lookup, the write and the save, so each command runs as one
step.

## Model

| member | source | states |
|---|---|---|
| Text.IsSpace | code/main.py:97 | the whitespace set of Python's `str.isspace()`, which `strip()` removes |
| Text.Lower | code/main.py:88 | `str.lower()`: keeps the length and lower-cases each ASCII letter |
| Text.TrimStart | code/main.py:97 | the leading half of `strip()`: drops whitespace from the front until a non-space or the end |
| Text.TrimEnd | code/main.py:97 | the trailing half of `strip()`: drops whitespace from the back until a non-space or the start |
| Text.Strip | code/main.py:97 | `str.strip()`: both halves, never longer than the input |
| Text.Normalize | code/main.py:133 | the comparison key `x.lower().strip()` of the two stripping scans, lower-casing first |
| Text.LowerAt | code/main.py:88 | lower-casing maps each character to its lower-case form and keeps the length |
| Text.TrimStartSpec | code/main.py:97 | the leading-whitespace part of strip removes exactly the leading whitespace and keeps the rest as a suffix |
| Text.TrimEndSpec | code/main.py:97 | the trailing-whitespace part of strip removes exactly the trailing whitespace and keeps the rest as a prefix |
| Text.StripSpec | code/main.py:97 | a stripped string has no whitespace at either edge, and it is empty exactly when the input is all whitespace |
| Text.LowerIdempotent | code/main.py:162 | lower-casing twice is the same as lower-casing once |
| Text.StripIdempotent | code/main.py:97 | stripping twice is the same as stripping once |
| Text.NormalizeIdempotent | code/main.py:88 | the comparison key `lower().strip()` is a fixed point of itself |
| Text.PaddingIgnored | code/main.py:97 | one blank on each side of a trimmed word does not change its comparison key, which is the word lower-cased |
| Schema.ColumnMapInKeyOrder | code/main.py:17-26 | `COLUMN_MAP` has exactly the eight keys, numbered 1..8 in listing order; name is 1, rank is 3, and the header has eight titles |
| Schema.Resolve | code/main.py:162-165 | a column name is accepted exactly when its lower-cased form is a key, and it then resolves to that key's ordinal in 1..8 |
| Schema.ResolveIgnoresCase | code/main.py:209-210 | a column name resolves the same way as its lower-cased form |
| Schema.ResolveRank | code/main.py:209-210 | "RANK" and "rank" both resolve to column 3 |
| Locator.Cell | code/main.py:93 | `sheet.cell(row=r, column=c).value`: worksheet row r, column c, 1-based, `None` when empty |
| Locator.Matches | code/main.py:175-179 | the two cell comparisons: the stripping rule skips missing and "" cells and compares `lower().strip()` keys (lines 94-97 and 130-133); the update_name rule skips only missing cells and compares `lower()` forms |
| Locator.SetCell | code/main.py:222 | a cell write changes that one cell to the new value and keeps every other cell, the row count and the row widths |
| Locator.PaddedCellMatches | code/main.py:97 | a stored value with one blank on each side matches a query that differs from the trimmed value only in case |
| Locator.FirstFrom | code/main.py:128-140 | the scan returns a matching row with no match between its start and that row, and it returns none exactly when no row from its start matches |
| Locator.FirstMatch | code/main.py:128-140 | the first matching data row from row 2 on, or none |
| Locator.FirstMatchAt | code/main.py:173-181 | a matching row with no match above it is the row the scan stops at |
| Locator.FirstMatchIsLowest | code/main.py:128-140 | when names repeat, the scan stops at or above every matching row |
| Locator.Record | code/main.py:100-102 | a listed row carries the row's eight cells in `COLUMN_MAP` order |
| Locator.RankHitsBelow | code/main.py:89-105 | the `matches` list after the loop has visited rows 2..n-1: the previous list, plus row n-1 with its cells when its rank matches |
| Locator.RankHits | code/main.py:89-105 | the `matches` list after the whole loop, rows 2..max_row |
| Locator.RankHitsBelowSound | code/main.py:92-105 | every listed row is a data row whose rank cell is non-empty and equals the query after lower-casing and stripping, and it is listed with its own cells |
| Locator.RankHitsBelowComplete | code/main.py:92-105 | every data row whose rank matches is listed |
| Locator.RankHitsBelowAscending | code/main.py:92-105 | the listing is in strictly ascending row order |
| Locator.EmptyRankNeverListed | code/main.py:93-95 | a row whose rank cell is missing or "" is never listed, whatever the query, "" included |
| Locator.RankHitsIgnoreQueryCase | code/main.py:88 | a query and its own lower-cased, stripped form list the same rows |
| Store.ShowRankReply | code/main.py:128-143 | show_rank gives one of three replies: "not found" for the query as given, exactly when no name matches; otherwise the first matching row's stored name, with that row's rank exactly when the rank cell is non-empty and "no rank listed" otherwise |
| Store.ShowRankReplyAt | code/main.py:133-140 | when the scan stops at row r, the reply is r's rank, or "no rank listed" when r's rank cell is empty |
| Store.ShowRankReplyNone | code/main.py:142-143 | when no row matches, the reply is "not found" for the query as given |
| Store.NameTarget | code/main.py:161-185 | update_name rejects an unknown column first, with the key list in map order; then it rejects a name that no non-missing cell equals after lower-casing; otherwise it targets the first such row at the resolved column; it targets a cell exactly when the column is known and some name matches |
| Store.NameTargetAt | code/main.py:173-181 | with a valid column, update_name targets the first row whose name matches |
| Store.CellTarget | code/main.py:209-218 | update_cell targets a cell exactly when the column is known and 2 <= row <= max_row; an unknown column is reported before a bad row, and a bad row is reported with max_row |
| Store.Sheet.Valid | code/main.py:46-71 | the sheet invariant: once loaded, the rows are well formed and equal to what the file holds, since loading reads the file and every write is followed by a save |
| Store.Sheet.constructor | code/main.py:32-33 | before loading, nothing is loaded and the file on disk is as given |
| Store.Sheet.Load | code/main.py:46-65 | the sheet becomes the file's contents, or exactly the header row when there is no file; only the bootstrap saves |
| Store.Sheet.Save | code/main.py:68-71 | a loaded sheet is written to the file, replacing its contents; nothing happens before loading |
| Store.Sheet.SearchRank | code/main.py:77-111 | the reply lists exactly the rank matches in ascending row order, or says the data is not loaded; the sheet is not changed |
| Store.Sheet.ShowRank | code/main.py:114-143 | the reply is the show_rank reply for the current sheet, or "not loaded" |
| Store.Sheet.UpdateName | code/main.py:145-194 | a rejection changes nothing and does not save; on success, exactly the target cell gets the value and one save makes the file equal to the updated sheet; before loading, it only replies "not loaded" |
| Store.Sheet.UpdateCell | code/main.py:196-225 | the same outcomes as UpdateName, with update_cell's column-then-range validation |
| Store.UpdateCellAfterBootstrap | code/main.py:216-218 | after creating a fresh workbook, update_cell reaches no row: "invalid column" for an unknown column, otherwise "out of range (2 - 1)" |
| Store.ReloadAfterUpdateCell | code/main.py:68-71 | reloading after an update_cell yields exactly the updated sheet |
| Store.UpdateNameFindsAdi | code/main.py:151-154 | `update_name adi4386 rank ...` finds the row named "Adi4386" in row 2 and targets column 3 |
| Store.UpdateNameWritesRank | code/main.py:188-190 | writing "ascendant 3" there changes only that account's rank |
| Store.UpdateNameFindsEmptyName | code/main.py:175-179 | update_name with an empty name finds a row whose name cell is "" |
| Store.ShowRankSkipsEmptyName | code/main.py:130-131 | show_rank with an empty name does not find that row |
| Store.ShowRankStripsNames | code/main.py:133 | show_rank finds a name stored with a blank on each side from the bare, differently cased query |
| Store.UpdateNameKeepsPadding | code/main.py:179 | update_name does not find that padded name from the same query |

## Left out

- Discord transport is not modelled: the client, `on_ready`, command dispatch, argument splitting, `ctx.send` and the message wording. Replies are `Reply` values.
- The `int` conversion of update_cell's row argument is not modelled. The library does it before the handler runs, so the model takes an `int`.
- openpyxl loading and `wb.save` are foreign file I/O. The file is a `file: Option<Grid>` field, and `None` means the file does not exist.
- The choice between the sheet named "Sheet1" and the active sheet is not modelled. The model has one worksheet.
- A failing save (a locked or read-only file) is not modelled.
- `keep_alive`, `nest_asyncio` and `bot.run` are hosting code and are not modelled.
- Concurrency is not modelled. There is no `await` between an update's lookup, write and save, so each command is one atomic method call.
- Non-string cells are not modelled. On a number, `.lower()` raises. Cells are `Option<string>`.
- Text.Lower: lower-cases ASCII letters only. Python's full Unicode case mapping is not modelled, including mappings that change a string's length.
- Locator.WellFormed: every row must hold at least eight cells. openpyxl reads any missing cell as `None`, so this loses nothing. Cells beyond column H are kept but never read.
