/** Header location and flattening (tools/emit_json.py): `find_header_start`,
    `build_column_names`, `normalize_columns`. A worksheet is the grid pandas
    reads with `header=None`: a sequence of rows of one common width. */
module Header {
  import opened Wrappers
  import opened Text
  import opened Cells
  import opened Errors

  /** Every row has `width` cells, as in a pandas frame. */
  predicate IsTable(rows: seq<seq<Cell>>, width: nat) {
    forall i :: 0 <= i < |rows| ==> |rows[i]| == width
  }

  /** Rows scanned for the header anchor (`preview_rows`). */
  const PreviewRows: nat := 15

  /** Rows stacked into one column name (`header_depth`). */
  const HeaderDepth: nat := 3

  function Min(a: nat, b: nat): nat {
    if a < b then a else b
  }

  /** The number of rows `head(15)` keeps. */
  function PreviewLen(rows: seq<seq<Cell>>): (n: nat)
    ensures n <= |rows| && n <= PreviewRows
  {
    Min(PreviewRows, |rows|)
  }

  /** Some cell of the row, read as text and lower-cased, contains `anchor`. */
  predicate RowMentions(row: seq<Cell>, anchor: string) {
    exists j :: 0 <= j < |row| && Contains(Lower(CellText(row[j])), anchor)
  }

  /** Row `i` is the first of the preview that mentions `anchor`. */
  predicate IsFirstMention(rows: seq<seq<Cell>>, anchor: string, i: nat) {
    i < PreviewLen(rows) && RowMentions(rows[i], anchor) &&
    forall k :: 0 <= k < i ==> !RowMentions(rows[k], anchor)
  }

  /** No row of the preview mentions `anchor`. */
  predicate NoMention(rows: seq<seq<Cell>>, anchor: string) {
    forall k :: 0 <= k < PreviewLen(rows) ==> !RowMentions(rows[k], anchor)
  }

  /** The first row in `[from, limit)` that mentions `anchor`. */
  function FirstMention(rows: seq<seq<Cell>>, anchor: string, from: nat, limit: nat): (r: Option<nat>)
    requires limit <= |rows|
    ensures r.Some? ==> from <= r.value < limit && RowMentions(rows[r.value], anchor)
    ensures r.Some? ==> forall k :: from <= k < r.value ==> !RowMentions(rows[k], anchor)
    ensures r.None? ==> forall k :: from <= k < limit ==> !RowMentions(rows[k], anchor)
    decreases limit - from
  {
    if from >= limit then None
    else if RowMentions(rows[from], anchor) then Some(from)
    else FirstMention(rows, anchor, from + 1, limit)
  }

  /** The header row `find_header_start` settles on: the first preview row
      mentioning "bank name"; only when there is none, the first mentioning
      "name of the bank"; otherwise an error. */
  function HeaderStart(rows: seq<seq<Cell>>): (r: Result<nat, ExtractError>)
    ensures r.Ok? ==> r.value < PreviewLen(rows)
    ensures r.Ok? ==>
      IsFirstMention(rows, "bank name", r.value) ||
      (NoMention(rows, "bank name") && IsFirstMention(rows, "name of the bank", r.value))
    ensures r.Err? <==> NoMention(rows, "bank name") && NoMention(rows, "name of the bank")
    ensures r.Err? ==> r.error == HeaderNotFound
  {
    match FirstMention(rows, "bank name", 0, PreviewLen(rows))
    case Some(i) => Ok(i)
    case None =>
      match FirstMention(rows, "name of the bank", 0, PreviewLen(rows))
      case Some(i) => Ok(i)
      case None => Err(HeaderNotFound)
  }

  /** `find_header_start`: two passes over the first 15 rows, returning at
      the first row that mentions the anchor. */
  method FindHeaderStart(rows: seq<seq<Cell>>) returns (r: Result<nat, ExtractError>)
    ensures r == HeaderStart(rows)
  {
    var n := PreviewLen(rows);
    var i := 0;
    while i < n
      invariant 0 <= i <= n
      invariant forall k :: 0 <= k < i ==> !RowMentions(rows[k], "bank name")
    {
      if RowMentions(rows[i], "bank name") {
        return Ok(i);
      }
      i := i + 1;
    }
    i := 0;
    while i < n
      invariant 0 <= i <= n
      invariant forall k :: 0 <= k < i ==> !RowMentions(rows[k], "name of the bank")
    {
      if RowMentions(rows[i], "name of the bank") {
        return Ok(i);
      }
      i := i + 1;
    }
    return Err(HeaderNotFound);
  }

  // ---------------------------------------------------------------------
  // build_column_names
  // ---------------------------------------------------------------------

  /** `ffill(axis=1)` on one row, carrying `last` in from the left. */
  function FillFrom(row: seq<Cell>, last: Cell): (r: seq<Cell>)
    ensures |r| == |row|
  {
    if row == [] then []
    else
      var v := if row[0].Some? then row[0] else last;
      [v] + FillFrom(row[1..], v)
  }

  /** `ffill(axis=1)`: a missing cell takes the nearest present value to its
      left; one with nothing to its left stays missing. */
  function FillRight(row: seq<Cell>): (r: seq<Cell>)
    ensures |r| == |row|
  {
    FillFrom(row, None)
  }

  /** The index of the nearest present cell at or left of `j`. */
  function NearestPresent(row: seq<Cell>, j: nat): (k: Option<nat>)
    requires j < |row|
    ensures k.Some? ==> k.value <= j && row[k.value].Some?
    ensures k.Some? ==> forall m :: k.value < m <= j ==> row[m].None?
    ensures k.None? ==> forall m :: 0 <= m <= j ==> row[m].None?
  {
    if row[j].Some? then Some(j)
    else if j == 0 then None
    else NearestPresent(row, j - 1)
  }

  lemma {:induction false} FillFromNearest(row: seq<Cell>, last: Cell, j: nat)
    requires j < |row|
    ensures FillFrom(row, last)[j] ==
      match NearestPresent(row, j)
      case None => last
      case Some(k) => row[k]
    decreases |row|
  {
    if j > 0 {
      var v := if row[0].Some? then row[0] else last;
      FillFromNearest(row[1..], v, j - 1);
      var a := NearestPresent(row[1..], j - 1);
      var b := NearestPresent(row, j);
      match a
      case Some(k) =>
        assert row[k + 1] == row[1..][k];
        assert b == Some(k + 1);
      case None =>
        assert forall m :: 1 <= m <= j ==> row[m] == row[1..][m - 1];
        assert b == (if row[0].Some? then Some(0) else None);
    }
  }

  /** A missing header cell takes the nearest present value to its left in
      the same row, and stays missing when there is none. */
  lemma FillRightNearest(row: seq<Cell>, j: nat)
    requires j < |row|
    ensures FillRight(row)[j] ==
      match NearestPresent(row, j)
      case None => None
      case Some(k) => row[k]
  {
    FillFromNearest(row, None, j);
  }

  /** A missing header cell with nothing present to its left reads as "nan"
      once the block is turned to text. */
  lemma MissingWithNothingLeftIsNan(row: seq<Cell>, j: nat)
    requires j < |row|
    requires forall m :: 0 <= m <= j ==> row[m].None?
    ensures CellText(FillRight(row)[j]) == "nan"
  {
    FillRightNearest(row, j);
  }

  /** The stripped texts that are not empty, in order. */
  function NonBlankParts(parts: seq<string>): (r: seq<string>)
    ensures forall i :: 0 <= i < |r| ==> IsTrimmed(r[i]) && r[i] != ""
  {
    if parts == [] then []
    else
      var rest := NonBlankParts(parts[1..]);
      var s := Strip(parts[0]);
      StripTrimmed(parts[0]);
      if s == "" then rest else ConsTrimmed(s, rest); [s] + rest
  }

  lemma ConsTrimmed(s: string, rest: seq<string>)
    requires s != "" && IsTrimmed(s)
    requires forall i :: 0 <= i < |rest| ==> IsTrimmed(rest[i]) && rest[i] != ""
    ensures forall i :: 0 <= i < |[s] + rest| ==> IsTrimmed(([s] + rest)[i]) && ([s] + rest)[i] != ""
  {
    forall i | 0 <= i < |[s] + rest| ensures IsTrimmed(([s] + rest)[i]) && ([s] + rest)[i] != "" {
      if i > 0 { assert ([s] + rest)[i] == rest[i - 1]; }
    }
  }

  /** `" ".join(xs)` */
  function JoinWithSpace(xs: seq<string>): string {
    if xs == [] then ""
    else if |xs| == 1 then xs[0]
    else xs[0] + " " + JoinWithSpace(xs[1..])
  }

  /** The header block: up to `HeaderDepth` rows from the header row on. */
  function HeaderBlock(rows: seq<seq<Cell>>, h: nat): (b: seq<seq<Cell>>)
    requires h < |rows|
    ensures 1 <= |b| <= HeaderDepth
  {
    rows[h..Min(h + HeaderDepth, |rows|)]
  }

  /** The texts stacked in column `j` of the forward-filled block, top to
      bottom. */
  function ColumnParts(block: seq<seq<Cell>>, width: nat, j: nat): seq<string>
    requires IsTable(block, width) && j < width
  {
    seq(|block|, i requires 0 <= i < |block| => CellText(FillRight(block[i])[j]))
  }

  lemma LowerTrimmed(s: string)
    requires IsTrimmed(s)
    ensures IsTrimmed(Lower(s)) && HasNoUpper(Lower(s))
  {
  }

  /** One column name: the non-blank stripped parts joined by spaces, then
      stripped and lower-cased. */
  function ColumnName(block: seq<seq<Cell>>, width: nat, j: nat): (name: string)
    requires IsTable(block, width) && j < width
    ensures IsTrimmed(name) && HasNoUpper(name)
  {
    var joined := JoinWithSpace(NonBlankParts(ColumnParts(block, width, j)));
    StripTrimmed(joined);
    LowerTrimmed(Strip(joined));
    Lower(Strip(joined))
  }

  /** `build_column_names`: one name per column of the worksheet, each
      lower-case and without surrounding whitespace. */
  function BuildColumnNames(rows: seq<seq<Cell>>, width: nat, h: nat): (names: seq<string>)
    requires IsTable(rows, width) && h < |rows|
    ensures |names| == width
    ensures forall j :: 0 <= j < width ==> IsTrimmed(names[j]) && HasNoUpper(names[j])
  {
    var block := HeaderBlock(rows, h);
    seq(width, j requires 0 <= j < width => ColumnName(block, width, j))
  }

  // ---------------------------------------------------------------------
  // normalize_columns
  // ---------------------------------------------------------------------

  /** The label of padding column `i`. */
  function ExtraLabel(i: nat): string {
    "extra_col_" + NatToString(i)
  }

  /** The names `normalize_columns` gives a frame of `n` columns. */
  function NormalizedNames(cols: seq<string>, n: nat): (r: seq<string>)
    ensures |r| == n
    ensures |cols| >= n ==> r == cols[..n]
    ensures |cols| < n ==> r[..|cols|] == cols
    ensures |cols| < n ==> forall i :: |cols| <= i < n ==> r[i] == ExtraLabel(i - |cols|)
  {
    if |cols| > n then cols[..n]
    else if |cols| < n then cols + seq(n - |cols|, i requires 0 <= i < n - |cols| => ExtraLabel(i))
    else cols
  }

  /** The padding labels differ from one another. */
  lemma ExtraLabelsDistinct(i: nat, j: nat)
    requires i != j
    ensures ExtraLabel(i) != ExtraLabel(j)
  {
    if ExtraLabel(i) == ExtraLabel(j) {
      assert NatToString(i) == ExtraLabel(i)[10..];
      assert NatToString(j) == ExtraLabel(j)[10..];
      NatToStringInjective(i, j);
    }
  }

  /** Normalising names that already fit changes nothing, so normalising is
      idempotent. */
  lemma NormalizedNamesIdempotent(cols: seq<string>, n: nat)
    ensures NormalizedNames(NormalizedNames(cols, n), n) == NormalizedNames(cols, n)
  {
  }

  /** A pandas frame: column labels and rows of `width` cells. */
  class Frame {
    var columns: seq<string>
    var rows: seq<seq<Cell>>
    const width: nat

    ghost predicate Valid()
      reads this
    {
      |columns| == width && IsTable(rows, width)
    }

    constructor (columns: seq<string>, rows: seq<seq<Cell>>, width: nat)
      requires |columns| == width && IsTable(rows, width)
      ensures Valid()
      ensures this.columns == columns && this.rows == rows && this.width == width
    {
      this.columns := columns;
      this.rows := rows;
      this.width := width;
    }
  }

  /** `normalize_columns`: relabels the frame in place with exactly as many
      names as it has columns. */
  method NormalizeColumns(df: Frame, cols: seq<string>)
    requires df.Valid()
    modifies df
    ensures df.Valid()
    ensures df.columns == NormalizedNames(cols, df.width)
    ensures df.rows == old(df.rows)
  {
    df.columns := NormalizedNames(cols, df.width);
  }
}
