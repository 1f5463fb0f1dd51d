/**
 * The worksheet as a grid of optional text cells, its single-cell update, and
 * the two linear scans the handlers perform over the data rows 2..max_row:
 * all rows whose rank matches (search_rank) and the first row whose name
 * matches (show_rank, update_name).
 */
module Locator {
  import opened Options
  import opened Text
  import opened Schema

  /** One worksheet row; `None` is an empty cell. */
  type Row = seq<Option<string>>

  /** The worksheet: `g[r - 1]` is worksheet row `r`, so `|g|` is `max_row`. */
  type Grid = seq<Row>

  /** openpyxl reports `max_row >= 1`, and every row reaches at least column H. */
  predicate WellFormed(g: Grid) {
    |g| >= 1 && forall i :: 0 <= i < |g| ==> |g[i]| >= Width
  }

  /** `sheet.cell(row=r, column=c).value`. */
  function Cell(g: Grid, r: int, c: int): Option<string>
    requires WellFormed(g) && 1 <= r <= |g| && 1 <= c <= Width
  {
    g[r - 1][c - 1]
  }

  /** `sheet.cell(row=r, column=c).value = v`: exactly one cell changes, and the shape does not. */
  function SetCell(g: Grid, r: int, c: int, v: string): (g': Grid)
    requires WellFormed(g) && 1 <= r <= |g| && 1 <= c <= Width
    ensures WellFormed(g') && |g'| == |g|
    ensures forall i :: 0 <= i < |g| ==> |g'[i]| == |g[i]|
    ensures Cell(g', r, c) == Some(v)
    ensures forall i, j :: 0 <= i < |g| && 0 <= j < |g[i]| && (i != r - 1 || j != c - 1) ==> g'[i][j] == g[i][j]
  {
    g[r - 1 := g[r - 1][c - 1 := Some(v)]]
  }

  /** The two cell comparisons of the handlers. */
  datatype Rule =
    | Stripped   // search_rank, show_rank: skip empty cells, compare `x.lower().strip()`
    | CaseOnly   // update_name: skip only `None` cells, compare `x.lower()`

  predicate Matches(rule: Rule, cell: Option<string>, query: string) {
    match rule
    case Stripped => cell.Some? && cell.value != "" && Normalize(cell.value) == Normalize(query)
    case CaseOnly => cell.Some? && Lower(cell.value) == Lower(query)
  }

  /** Blanks around a stored value and the case of either side never prevent a match. */
  lemma PaddedCellMatches(word: string, query: string)
    requires word != [] && !IsSpace(word[0]) && !IsSpace(word[|word| - 1])
    requires Lower(query) == Lower(word)
    ensures Matches(Stripped, Some(" " + word + " "), query)
  {
    PaddingIgnored(word);
  }

  /**
   * The first data row at or after `r` whose cell in column `col` matches the
   * query under `rule`, or `None` when no such row exists.
   */
  function FirstFrom(g: Grid, col: nat, rule: Rule, query: string, r: nat): (found: Option<nat>)
    requires WellFormed(g) && 1 <= col <= Width && 2 <= r
    ensures found.Some? ==> r <= found.value <= |g| && Matches(rule, Cell(g, found.value, col), query)
    ensures found.Some? ==> forall k :: r <= k < found.value ==> !Matches(rule, Cell(g, k, col), query)
    ensures found.None? <==> forall k :: r <= k <= |g| ==> !Matches(rule, Cell(g, k, col), query)
    decreases |g| + 1 - r
  {
    if r > |g| then None
    else if Matches(rule, Cell(g, r, col), query) then Some(r)
    else FirstFrom(g, col, rule, query, r + 1)
  }

  /** The first matching data row of the whole sheet. */
  function FirstMatch(g: Grid, col: nat, rule: Rule, query: string): Option<nat>
    requires WellFormed(g) && 1 <= col <= Width
  {
    FirstFrom(g, col, rule, query, 2)
  }

  /** A matching row with no matching row above it is the first match. */
  lemma FirstMatchAt(g: Grid, col: nat, rule: Rule, query: string, r: nat)
    requires WellFormed(g) && 1 <= col <= Width && 2 <= r <= |g|
    requires Matches(rule, Cell(g, r, col), query)
    requires forall k :: 2 <= k < r ==> !Matches(rule, Cell(g, k, col), query)
    ensures FirstMatch(g, col, rule, query) == Some(r)
  {
  }

  /** Duplicates are allowed; the lowest matching row always wins. */
  lemma FirstMatchIsLowest(g: Grid, col: nat, rule: Rule, query: string, r: nat)
    requires WellFormed(g) && 1 <= col <= Width && 2 <= r <= |g|
    requires Matches(rule, Cell(g, r, col), query)
    ensures FirstMatch(g, col, rule, query).Some?
    ensures FirstMatch(g, col, rule, query).value <= r
  {
  }

  /** One line of the search_rank listing: a row number and its cells in `COLUMN_MAP` order. */
  datatype Hit = Hit(row: nat, record: Row)

  function Record(g: Grid, r: int): (rec: Row)
    requires WellFormed(g) && 1 <= r <= |g|
    ensures |rec| == Width
    ensures forall c :: 1 <= c <= Width ==> rec[c - 1] == Cell(g, r, c)
  {
    g[r - 1][..Width]
  }

  /**
   * The rank matches among data rows `2..n-1`, in ascending row order:
   * exactly the rows whose rank cell is non-empty and equal to the query once
   * both are lower-cased and stripped.
   */
  function RankHitsBelow(g: Grid, query: string, n: nat): (hits: seq<Hit>)
    requires WellFormed(g) && n <= |g| + 1
    decreases n
  {
    if n <= 2 then []
    else
      var earlier := RankHitsBelow(g, query, n - 1);
      if Matches(Stripped, Cell(g, n - 1, RankColumn), query)
      then earlier + [Hit(n - 1, Record(g, n - 1))]
      else earlier
  }

  /** Every listed row is a data row below `n` whose rank matches, listed with its own cells. */
  lemma {:induction false} RankHitsBelowSound(g: Grid, query: string, n: nat, k: nat)
    requires WellFormed(g) && n <= |g| + 1 && k < |RankHitsBelow(g, query, n)|
    ensures var hit := RankHitsBelow(g, query, n)[k];
      2 <= hit.row < n && Matches(Stripped, Cell(g, hit.row, RankColumn), query) &&
      hit.record == Record(g, hit.row)
    decreases n
  {
    var earlier := RankHitsBelow(g, query, n - 1);
    if k < |earlier| {
      RankHitsBelowSound(g, query, n - 1, k);
    }
  }

  /** The listing is in strictly ascending row order. */
  lemma {:induction false} RankHitsBelowAscending(g: Grid, query: string, n: nat, j: nat, k: nat)
    requires WellFormed(g) && n <= |g| + 1 && j < k < |RankHitsBelow(g, query, n)|
    ensures RankHitsBelow(g, query, n)[j].row < RankHitsBelow(g, query, n)[k].row
    decreases n
  {
    var hits, earlier := RankHitsBelow(g, query, n), RankHitsBelow(g, query, n - 1);
    assert hits[..|earlier|] == earlier;
    if k < |earlier| {
      RankHitsBelowAscending(g, query, n - 1, j, k);
    } else {
      assert hits[k].row == n - 1;
      RankHitsBelowSound(g, query, n - 1, j);
    }
  }

  /** The row numbers a listing names. */
  function RowsOf(hits: seq<Hit>): seq<nat> {
    seq(|hits|, k requires 0 <= k < |hits| => hits[k].row)
  }

  lemma RowsOfAppend(hits: seq<Hit>, h: Hit)
    ensures RowsOf(hits + [h]) == RowsOf(hits) + [h.row]
  {
    var more := hits + [h];
    assert forall k :: 0 <= k < |hits| ==> more[k] == hits[k];
    assert more[|hits|] == h;
  }

  /** The listing is complete: every matching data row below `n` is in it. */
  lemma {:induction false} RankHitsBelowComplete(g: Grid, query: string, n: nat, r: nat)
    requires WellFormed(g) && 2 <= r < n <= |g| + 1
    requires Matches(Stripped, Cell(g, r, RankColumn), query)
    ensures r in RowsOf(RankHitsBelow(g, query, n))
    decreases n
  {
    var earlier := RankHitsBelow(g, query, n - 1);
    if r < n - 1 {
      RankHitsBelowComplete(g, query, n - 1, r);
    }
    if Matches(Stripped, Cell(g, n - 1, RankColumn), query) {
      RowsOfAppend(earlier, Hit(n - 1, Record(g, n - 1)));
    }
  }

  /** All rank matches of the sheet. */
  function RankHits(g: Grid, query: string): seq<Hit>
    requires WellFormed(g)
  {
    RankHitsBelow(g, query, |g| + 1)
  }

  /** A row whose rank cell is `None` or "" is never listed, whatever the query, "" included. */
  lemma EmptyRankNeverListed(g: Grid, query: string, r: nat)
    requires WellFormed(g) && 2 <= r <= |g|
    requires Cell(g, r, RankColumn) == None || Cell(g, r, RankColumn) == Some("")
    ensures forall k :: 0 <= k < |RankHits(g, query)| ==> RankHits(g, query)[k].row != r
  {
    forall k | 0 <= k < |RankHits(g, query)|
      ensures RankHits(g, query)[k].row != r
    {
      RankHitsBelowSound(g, query, |g| + 1, k);
    }
  }

  /** The handler normalizes the query itself: a pre-normalized query lists the same rows. */
  lemma {:induction false} RankHitsIgnoreQueryCase(g: Grid, query: string, n: nat)
    requires WellFormed(g) && n <= |g| + 1
    ensures RankHitsBelow(g, Normalize(query), n) == RankHitsBelow(g, query, n)
    decreases n
  {
    if n > 2 {
      RankHitsIgnoreQueryCase(g, query, n - 1);
      NormalizeIdempotent(query);
    }
  }
}
