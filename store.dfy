/**
 * The workbook holder and the four command handlers. `Sheet` stands for the
 * module-level `wb`/`sheet` pair: `loaded` is false while `sheet` is still
 * `None`, `rows` is the worksheet, and `file` is the workbook file on disk.
 */
module Store {
  import opened Options
  import opened Text
  import opened Schema
  import opened Locator

  /** What a handler replies (the message text itself is left to the transport). */
  datatype Reply =
    | NotLoaded                                       // "Excel data not loaded."
    | RankListing(query: string, hits: seq<Hit>)      // hits == [] is the "No rows found" reply
    | RankOf(name: string, rank: string)
    | NoRankListed(name: string)
    | NameNotFound(query: string)
    | InvalidColumn(column: string, valid: seq<string>)
    | RowOutOfRange(row: int, maxRow: nat)
    | UpdatedByName(row: int, query: string, column: string, value: string)
    | UpdatedCell(row: int, column: string, value: string)

  /** The outcome of an update handler's validation: the cell to write, or the rejection. */
  datatype Resolved = Target(row: nat, col: nat) | Rejected(reply: Reply)

  /** What show_rank replies for a loaded sheet. */
  function ShowRankReply(g: Grid, query: string): (reply: Reply)
    requires WellFormed(g)
    ensures reply.NameNotFound? || reply.RankOf? || reply.NoRankListed?
    ensures reply.NameNotFound? <==> forall k :: 2 <= k <= |g| ==> !Matches(Stripped, Cell(g, k, NameColumn), query)
    ensures reply.NameNotFound? ==> reply.query == query
    ensures reply.RankOf? || reply.NoRankListed? ==>
      var r := FirstMatch(g, NameColumn, Stripped, query).value;
      Cell(g, r, NameColumn) == Some(reply.name) &&
      (reply.RankOf? <==> Cell(g, r, RankColumn).Some? && Cell(g, r, RankColumn).value != "") &&
      (reply.RankOf? ==> Cell(g, r, RankColumn) == Some(reply.rank))
  {
    match FirstMatch(g, NameColumn, Stripped, query)
    case None => NameNotFound(query)
    case Some(r) =>
      var name := Cell(g, r, NameColumn).value;
      var rank := Cell(g, r, RankColumn);
      if rank.Some? && rank.value != "" then RankOf(name, rank.value) else NoRankListed(name)
  }

  /** show_rank's reply once its scan stops at row `r`, the first match. */
  lemma ShowRankReplyAt(g: Grid, query: string, r: nat)
    requires WellFormed(g) && 2 <= r <= |g|
    requires Matches(Stripped, Cell(g, r, NameColumn), query)
    requires forall k :: 2 <= k < r ==> !Matches(Stripped, Cell(g, k, NameColumn), query)
    ensures ShowRankReply(g, query) ==
      var rank := Cell(g, r, RankColumn);
      if rank.Some? && rank.value != "" then RankOf(Cell(g, r, NameColumn).value, rank.value)
      else NoRankListed(Cell(g, r, NameColumn).value)
  {
    FirstMatchAt(g, NameColumn, Stripped, query, r);
  }

  /** show_rank's reply when its scan finds no row. */
  lemma ShowRankReplyNone(g: Grid, query: string)
    requires WellFormed(g)
    requires forall k :: 2 <= k <= |g| ==> !Matches(Stripped, Cell(g, k, NameColumn), query)
    ensures ShowRankReply(g, query) == NameNotFound(query)
  {
  }

  /** update_name's validation: the column first, then the first row whose name equals the query, ignoring case. */
  function NameTarget(g: Grid, query: string, column: string): (t: Resolved)
    requires WellFormed(g)
    ensures Resolve(column).None? ==> t == Rejected(InvalidColumn(column, ColumnKeys))
    ensures Resolve(column).Some? && (forall k :: 2 <= k <= |g| ==> !Matches(CaseOnly, Cell(g, k, NameColumn), query))
      ==> t == Rejected(NameNotFound(query))
    ensures t.Target? ==>
      2 <= t.row <= |g| && Some(t.col) == Resolve(column) &&
      Matches(CaseOnly, Cell(g, t.row, NameColumn), query) &&
      forall k :: 2 <= k < t.row ==> !Matches(CaseOnly, Cell(g, k, NameColumn), query)
    ensures t.Rejected? ==> t.reply.InvalidColumn? || t.reply.NameNotFound?
    ensures t.Target? <==>
      Resolve(column).Some? && exists k :: 2 <= k <= |g| && Matches(CaseOnly, Cell(g, k, NameColumn), query)
  {
    match Resolve(column)
    case None => Rejected(InvalidColumn(column, ColumnKeys))
    case Some(c) =>
      match FirstMatch(g, NameColumn, CaseOnly, query)
      case None => Rejected(NameNotFound(query))
      case Some(r) => Target(r, c)
  }

  /** update_name's target once its scan stops at row `r`, the first match. */
  lemma NameTargetAt(g: Grid, query: string, column: string, r: nat)
    requires WellFormed(g) && Resolve(column).Some? && 2 <= r <= |g|
    requires Matches(CaseOnly, Cell(g, r, NameColumn), query)
    requires forall k :: 2 <= k < r ==> !Matches(CaseOnly, Cell(g, k, NameColumn), query)
    ensures NameTarget(g, query, column) == Target(r, Resolve(column).value)
  {
    FirstMatchAt(g, NameColumn, CaseOnly, query, r);
  }

  /** update_cell's validation: the column first, then the row range `[2, max_row]`. */
  function CellTarget(g: Grid, rowNumber: int, column: string): (t: Resolved)
    requires WellFormed(g)
    ensures t.Target? <==> Resolve(column).Some? && 2 <= rowNumber <= |g|
    ensures t.Target? ==> t.row == rowNumber && Some(t.col) == Resolve(column)
    ensures Resolve(column).None? ==> t == Rejected(InvalidColumn(column, ColumnKeys))
    ensures Resolve(column).Some? && (rowNumber < 2 || rowNumber > |g|) ==> t == Rejected(RowOutOfRange(rowNumber, |g|))
  {
    match Resolve(column)
    case None => Rejected(InvalidColumn(column, ColumnKeys))
    case Some(c) =>
      if rowNumber < 2 || rowNumber > |g| then Rejected(RowOutOfRange(rowNumber, |g|))
      else Target(rowNumber, c)
  }

  class Sheet {
    var loaded: bool
    var rows: Grid
    var file: Option<Grid>
    /** How many times the workbook has been written to disk. */
    ghost var saves: nat

    /** A loaded sheet is well formed and is exactly what the file on disk holds. */
    ghost predicate Valid()
      reads this
    {
      (file.Some? ==> WellFormed(file.value)) &&
      (loaded ==> WellFormed(rows) && file == Some(rows))
    }

    /** Process start: nothing loaded yet; `disk` is the workbook file, `None` if it does not exist. */
    constructor (disk: Option<Grid>)
      requires disk.Some? ==> WellFormed(disk.value)
      ensures Valid() && !loaded && rows == [] && file == disk && saves == 0
    {
      loaded := false;
      rows := [];
      file := disk;
      saves := 0;
    }

    /** `load_excel_data`: read the file, or create it with only the header row. */
    method Load()
      requires Valid()
      modifies this
      ensures Valid() && loaded
      ensures rows == (if old(file).Some? then old(file).value else [Header])
      ensures saves == old(saves) + (if old(file).Some? then 0 else 1)
    {
      if file.Some? {
        rows := file.value;
        loaded := true;
      } else {
        rows := [Header];
        loaded := true;
        Save();
      }
    }

    /** `save_excel_data`: overwrite the file with the whole sheet, if there is one. */
    method Save()
      modifies this
      ensures loaded == old(loaded) && rows == old(rows)
      ensures file == (if loaded then Some(rows) else old(file))
      ensures saves == old(saves) + (if loaded then 1 else 0)
    {
      if loaded {
        file := Some(rows);
        saves := saves + 1;
      }
    }

    /** search_rank: every data row whose rank matches, in row order; reads only. */
    method SearchRank(query: string) returns (reply: Reply)
      requires Valid()
      ensures reply == if loaded then RankListing(query, RankHits(rows, query)) else NotLoaded
    {
      if !loaded {
        return NotLoaded;
      }
      var needle := Normalize(query);
      var matches: seq<Hit> := [];
      for r := 2 to |rows| + 1
        invariant matches == RankHitsBelow(rows, query, r)
      {
        var rankCell := rows[r - 1][RankColumn - 1];
        if rankCell.None? || rankCell.value == "" {
          continue;
        }
        if Normalize(rankCell.value) == needle {
          matches := matches + [Hit(r, rows[r - 1][..Width])];
        }
      }
      reply := RankListing(query, matches);
    }

    /** show_rank: the rank of the first row whose name matches; reads only. */
    method ShowRank(query: string) returns (reply: Reply)
      requires Valid()
      ensures reply == if loaded then ShowRankReply(rows, query) else NotLoaded
    {
      if !loaded {
        return NotLoaded;
      }
      var needle := Normalize(query);
      for r := 2 to |rows| + 1
        invariant forall k :: 2 <= k < r ==> !Matches(Stripped, Cell(rows, k, NameColumn), query)
      {
        var nameCell := rows[r - 1][NameColumn - 1];
        if nameCell.None? || nameCell.value == "" {
          continue;
        }
        if Normalize(nameCell.value) == needle {
          ShowRankReplyAt(rows, query, r);
          var rankCell := rows[r - 1][RankColumn - 1];
          if rankCell.Some? && rankCell.value != "" {
            return RankOf(nameCell.value, rankCell.value);
          }
          return NoRankListed(nameCell.value);
        }
      }
      ShowRankReplyNone(rows, query);
      reply := NameNotFound(query);
    }

    /** update_name: write `value` into the first row whose name equals the query, then save. */
    method UpdateName(query: string, column: string, value: string) returns (reply: Reply)
      requires Valid()
      modifies this
      ensures Valid() && loaded == old(loaded)
      ensures !old(loaded) ==> reply == NotLoaded && rows == old(rows) && file == old(file) && saves == old(saves)
      ensures old(loaded) ==>
        var t := NameTarget(old(rows), query, column);
        (t.Rejected? ==> reply == t.reply && rows == old(rows) && file == old(file) && saves == old(saves)) &&
        (t.Target? ==>
          reply == UpdatedByName(t.row, query, column, value) &&
          rows == SetCell(old(rows), t.row, t.col, value) &&
          file == Some(rows) && saves == old(saves) + 1)
    {
      if !loaded {
        return NotLoaded;
      }
      var needle := Lower(query);
      var key := Lower(column);
      if key !in ColumnMap {
        return InvalidColumn(column, ColumnKeys);
      }
      var foundRow: Option<nat> := None;
      for r := 2 to |rows| + 1
        invariant foundRow.None?
        invariant forall k :: 2 <= k < r ==> !Matches(CaseOnly, Cell(rows, k, NameColumn), query)
      {
        var nameCell := rows[r - 1][NameColumn - 1];
        if nameCell.None? {
          continue;
        }
        if Lower(nameCell.value) == needle {
          FirstMatchAt(rows, NameColumn, CaseOnly, query, r);
          foundRow := Some(r);
          break;
        }
      }
      if foundRow.None? {
        return NameNotFound(query);
      }
      var col := ColumnMap[key];
      rows := SetCell(rows, foundRow.value, col, value);
      Save();
      reply := UpdatedByName(foundRow.value, query, column, value);
    }

    /** update_cell: write `value` into row `rowNumber` of the named column, then save. */
    method UpdateCell(rowNumber: int, column: string, value: string) returns (reply: Reply)
      requires Valid()
      modifies this
      ensures Valid() && loaded == old(loaded)
      ensures !old(loaded) ==> reply == NotLoaded && rows == old(rows) && file == old(file) && saves == old(saves)
      ensures old(loaded) ==>
        var t := CellTarget(old(rows), rowNumber, column);
        (t.Rejected? ==> reply == t.reply && rows == old(rows) && file == old(file) && saves == old(saves)) &&
        (t.Target? ==>
          reply == UpdatedCell(rowNumber, column, value) &&
          rows == SetCell(old(rows), t.row, t.col, value) &&
          file == Some(rows) && saves == old(saves) + 1)
    {
      if !loaded {
        return NotLoaded;
      }
      var key := Lower(column);
      if key !in ColumnMap {
        return InvalidColumn(column, ColumnKeys);
      }
      if rowNumber < 2 || rowNumber > |rows| {
        return RowOutOfRange(rowNumber, |rows|);
      }
      var col := ColumnMap[key];
      rows := SetCell(rows, rowNumber, col, value);
      Save();
      reply := UpdatedCell(rowNumber, column, value);
    }
  }

  /**
   * A fresh start with no workbook file: the bootstrap sheet has only its
   * header, so update_cell addresses no row at all.
   */
  method UpdateCellAfterBootstrap(rowNumber: int, column: string, value: string) returns (reply: Reply)
    ensures Resolve(column).None? ==> reply == InvalidColumn(column, ColumnKeys)
    ensures Resolve(column).Some? ==> reply == RowOutOfRange(rowNumber, 1)
  {
    var sheet := new Sheet(None);
    sheet.Load();
    assert sheet.rows == [Header];
    reply := sheet.UpdateCell(rowNumber, column, value);
  }

  /**
   * `load_excel_data` runs again whenever the client reconnects; because every
   * successful update is saved, the reloaded sheet is the one last written.
   */
  method ReloadAfterUpdateCell(disk: Option<Grid>, rowNumber: int, column: string, value: string)
    returns (updated: Grid, reloaded: Grid)
    requires disk.Some? ==> WellFormed(disk.value)
    ensures reloaded == updated
    ensures updated == (
      var g := if disk.Some? then disk.value else [Header];
      var t := CellTarget(g, rowNumber, column);
      if t.Target? then SetCell(g, t.row, t.col, value) else g)
  {
    var sheet := new Sheet(disk);
    sheet.Load();
    var _ := sheet.UpdateCell(rowNumber, column, value);
    updated := sheet.rows;
    sheet.Load();
    reloaded := sheet.rows;
  }

  /** A row whose name is "Adi4386" and whose rank is `rank`. */
  function AdiRow(rank: string): Row {
    [Some("Adi4386"), Some("1234"), Some(rank), Some("adi"), Some("pw"), Some("yes"), None, Some("no")]
  }

  /** A sheet holding the header and Adi's row. */
  function AdiSheet(rank: string): (g: Grid)
    ensures WellFormed(g)
  {
    [Header, AdiRow(rank)]
  }

  /** The name cell "Adi4386" matches the query "adi4386" once both are lower-cased. */
  lemma AdiMatches()
    ensures Matches(CaseOnly, Some("Adi4386"), "adi4386")
  {
    assert Lower("Adi4386") == "adi4386";
  }

  /** update_name adi4386 rank ...: the name is found ignoring case, in row 2, column C. */
  lemma UpdateNameFindsAdi()
    ensures NameTarget(AdiSheet("plat 1"), "adi4386", "rank") == Target(2, RankColumn)
  {
    AdiMatches();
    ResolveRank();
    NameTargetAt(AdiSheet("plat 1"), "adi4386", "rank", 2);
  }

  /** ...and writing "ascendant 3" there changes Adi's rank and nothing else. */
  lemma UpdateNameWritesRank()
    ensures SetCell(AdiSheet("plat 1"), 2, RankColumn, "ascendant 3") == AdiSheet("ascendant 3")
  {
    assert AdiRow("plat 1")[RankColumn - 1 := Some("ascendant 3")] == AdiRow("ascendant 3");
  }

  /** A sheet whose only data row has the name "". */
  function EmptyNamed(): (g: Grid)
    ensures WellFormed(g)
  {
    [Header, [Some(""), None, None, None, None, None, None, None]]
  }

  /**
   * The two name comparisons differ on empty names: update_name "" finds a
   * row whose name cell is ""...
   */
  lemma UpdateNameFindsEmptyName()
    ensures NameTarget(EmptyNamed(), "", "tag") == Target(2, 2)
  {
    assert Lower("tag") == "tag";
    FirstMatchAt(EmptyNamed(), NameColumn, CaseOnly, "", 2);
  }

  /** ...which show_rank "" never reports. */
  lemma ShowRankSkipsEmptyName()
    ensures ShowRankReply(EmptyNamed(), "") == NameNotFound("")
  {
  }

  /**
   * show_rank strips the stored name: a query equal to a name cell up to case
   * and surrounding blanks finds a row...
   */
  lemma ShowRankStripsNames(g: Grid, word: string, query: string, r: nat)
    requires WellFormed(g) && 2 <= r <= |g|
    requires word != [] && !IsSpace(word[0]) && !IsSpace(word[|word| - 1])
    requires Cell(g, r, NameColumn) == Some(" " + word + " ") && Lower(query) == Lower(word)
    ensures ShowRankReply(g, query).RankOf? || ShowRankReply(g, query).NoRankListed?
  {
    PaddedCellMatches(word, query);
  }

  /**
   * ...but update_name compares without stripping, so on a sheet whose only
   * names are that padded one, the same query finds nothing.
   */
  lemma UpdateNameKeepsPadding(g: Grid, word: string, query: string, column: string)
    requires WellFormed(g) && Resolve(column).Some? && Lower(query) == Lower(word)
    requires forall k :: 2 <= k <= |g| ==> Cell(g, k, NameColumn) in {None, Some(" " + word + " ")}
    ensures NameTarget(g, query, column) == Rejected(NameNotFound(query))
  {
    forall k | 2 <= k <= |g|
      ensures !Matches(CaseOnly, Cell(g, k, NameColumn), query)
    {
      assert |Lower(" " + word + " ")| == |word| + 2;
    }
  }
}
