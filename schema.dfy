/**
 * The fixed column schema of the account worksheet: `COLUMN_MAP`, which binds
 * eight lower-case column keys to the 1-based worksheet columns A..H, and the
 * header row written when a fresh workbook is created.
 */
module Schema {
  import opened Options
  import opened Text

  /** The keys of `COLUMN_MAP` in their insertion order (the order in which they are listed to callers). */
  const ColumnKeys: seq<string> := ["name", "tag", "rank", "username", "password", "v?", "email", "sellable"]

  /** `COLUMN_MAP` itself. */
  const ColumnMap: map<string, nat> := map[
    "name" := 1, "tag" := 2, "rank" := 3, "username" := 4,
    "password" := 5, "v?" := 6, "email" := 7, "sellable" := 8]

  /** Number of schema columns; every worksheet row holds at least this many cells. */
  const Width: nat := 8

  /** Ordinals of the two columns the scans read: `COLUMN_MAP["name"]` and `COLUMN_MAP["rank"]`. */
  const NameColumn: nat := 1
  const RankColumn: nat := 3

  /** Row 1 of a freshly created workbook (the last title differs from its key, "sellable"). */
  const Header: seq<Option<string>> :=
    [Some("name"), Some("tag"), Some("rank"), Some("username"),
     Some("password"), Some("v?"), Some("email"), Some("SELLABLE?")]

  /** The schema invariant: the ordinals are 1..Width, contiguous, unique, in key order. */
  lemma ColumnMapInKeyOrder()
    ensures |ColumnKeys| == Width == |Header|
    ensures forall i :: 0 <= i < Width ==> ColumnKeys[i] in ColumnMap && ColumnMap[ColumnKeys[i]] == i + 1
    ensures forall key :: key in ColumnMap <==> key in ColumnKeys
    ensures ColumnMap["name"] == NameColumn && ColumnMap["rank"] == RankColumn
  {
  }

  /**
   * The column-name check of both update handlers: the caller's column name is
   * lower-cased and looked up in `COLUMN_MAP`.
   */
  function Resolve(column: string): (r: Option<nat>)
    ensures r.Some? <==> Lower(column) in ColumnKeys
    ensures r.Some? ==> 1 <= r.value <= Width && ColumnKeys[r.value - 1] == Lower(column)
  {
    var key := Lower(column);
    if key in ColumnMap then Some(ColumnMap[key]) else None
  }

  /** Column names are case-insensitive. */
  lemma ResolveIgnoresCase(column: string)
    ensures Resolve(column) == Resolve(Lower(column))
  {
    LowerIdempotent(column);
  }

  /** "RANK" and "rank" both resolve to column C. */
  lemma ResolveRank()
    ensures Resolve("RANK") == Resolve("rank") == Some(RankColumn) == Some(3)
  {
    assert Lower("rank") == "rank";
    assert Lower("RANK") == "rank" by {
      forall k | 0 <= k < 4 ensures Lower("RANK")[k] == "rank"[k] {
      }
    }
  }
}
