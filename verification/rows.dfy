/** From a worksheet grid to the rows of one month (tools/emit_json.py):
    `extract_month_table`, `select_core` and `emit_month`. */
module Rows {
  import opened Wrappers
  import opened Text
  import opened Cells
  import opened Errors
  import opened Header
  import opened Pickers
  import opened MonthFiles

  // ---------------------------------------------------------------------
  // extract_month_table
  // ---------------------------------------------------------------------

  /** A row with at least one present cell. */
  predicate AnyPresent(row: seq<Cell>) {
    exists j :: 0 <= j < |row| && row[j].Some?
  }

  /** `dropna(how="all")`: the rows with some present cell, in order. */
  function DropEmptyRows(rows: seq<seq<Cell>>): (r: seq<seq<Cell>>)
    ensures |r| <= |rows|
    ensures forall i :: 0 <= i < |r| ==> AnyPresent(r[i])
    ensures forall x :: x in r <==> x in rows && AnyPresent(x)
  {
    if rows == [] then []
    else (if AnyPresent(rows[0]) then [rows[0]] else []) + DropEmptyRows(rows[1..])
  }

  /** Dropping empty rows keeps the order: it works piece by piece. */
  lemma {:induction false} DropEmptyRowsAppend(a: seq<seq<Cell>>, b: seq<seq<Cell>>)
    ensures DropEmptyRows(a + b) == DropEmptyRows(a) + DropEmptyRows(b)
  {
    if a == [] {
      assert a + b == b;
    } else {
      assert (a + b)[1..] == a[1..] + b;
      DropEmptyRowsAppend(a[1..], b);
    }
  }

  /** Column labels and data rows of a frame. */
  datatype Table = Table(columns: seq<string>, rows: seq<seq<Cell>>)

  /** The month table `extract_month_table` builds from a worksheet: the
      flattened header as labels, the rows after the three header rows as
      data, rows without any value removed. */
  function MonthTable(raw: seq<seq<Cell>>, width: nat): (r: Result<Table, ExtractError>)
    requires IsTable(raw, width)
    ensures r.Err? <==> HeaderStart(raw).Err?
    ensures r.Err? ==> r.error == HeaderNotFound
    ensures r.Ok? ==> |r.value.columns| == width && IsTable(r.value.rows, width)
  {
    match HeaderStart(raw)
    case Err(e) => Err(e)
    case Ok(h) =>
      var cols := BuildColumnNames(raw, width, h);
      Ok(Table(NormalizedNames(cols, width), DropEmptyRows(raw[Min(h + 3, |raw|)..])))
  }

  /** The labels of the month table are the flattened header names, each
      lower-case and trimmed: padding and truncation never apply. */
  lemma MonthTableColumns(raw: seq<seq<Cell>>, width: nat)
    requires IsTable(raw, width) && MonthTable(raw, width).Ok?
    ensures var h := HeaderStart(raw).value;
      MonthTable(raw, width).value.columns == BuildColumnNames(raw, width, h)
    ensures forall j :: 0 <= j < width ==>
      IsTrimmed(MonthTable(raw, width).value.columns[j]) && HasNoUpper(MonthTable(raw, width).value.columns[j])
  {
  }

  lemma SuffixMembers<T>(s: seq<T>, start: nat)
    requires start <= |s|
    ensures forall x :: x in s[start..] <==> exists i :: start <= i < |s| && s[i] == x
  {
    forall x ensures x in s[start..] <==> exists i :: start <= i < |s| && s[i] == x {
      if x in s[start..] {
        var k :| 0 <= k < |s| - start && s[start..][k] == x;
        assert s[start + k] == x;
      }
      if exists i :: start <= i < |s| && s[i] == x {
        var i :| start <= i < |s| && s[i] == x;
        assert s[start..][i - start] == x;
      }
    }
  }

  /** The data rows are exactly the rows from three past the header row on
      that hold some value; none of the header rows is among them. */
  lemma MonthTableRows(raw: seq<seq<Cell>>, width: nat)
    requires IsTable(raw, width) && MonthTable(raw, width).Ok?
    ensures var h := HeaderStart(raw).value;
      forall x :: x in MonthTable(raw, width).value.rows <==>
        (exists i :: h + 3 <= i < |raw| && raw[i] == x) && AnyPresent(x)
  {
    var h := HeaderStart(raw).value;
    var start := Min(h + 3, |raw|);
    assert MonthTable(raw, width).value.rows == DropEmptyRows(raw[start..]);
    SuffixMembers(raw, start);
  }

  /** The default labels of a frame read without a header: 0, 1, 2, ... */
  function DefaultLabels(width: nat): (r: seq<string>)
    ensures |r| == width
  {
    seq(width, i requires 0 <= i < width => NatToString(i))
  }

  /** `extract_month_table`: locates the header, slices off the data rows,
      relabels them in place and drops the rows without any value. */
  method ExtractMonthTable(raw: seq<seq<Cell>>, width: nat) returns (r: Result<Frame, ExtractError>)
    requires IsTable(raw, width)
    ensures r.Err? ==> MonthTable(raw, width) == Err(r.error)
    ensures r.Ok? ==> MonthTable(raw, width).Ok? && fresh(r.value) && r.value.Valid()
    ensures r.Ok? ==> r.value.width == width
    ensures r.Ok? ==> Table(r.value.columns, r.value.rows) == MonthTable(raw, width).value
  {
    var h := FindHeaderStart(raw);
    if h.Err? {
      return Err(h.error);
    }
    var cols := BuildColumnNames(raw, width, h.value);
    var df := new Frame(DefaultLabels(width), raw[Min(h.value + 3, |raw|)..], width);
    NormalizeColumns(df, cols);
    var kept := new Frame(df.columns, DropEmptyRows(df.rows), width);
    return Ok(kept);
  }

  // ---------------------------------------------------------------------
  // select_core
  // ---------------------------------------------------------------------

  /** The three cells `df[keep]` keeps of one row. */
  datatype Picked = Picked(bank: Cell, credit: Cell, debit: Cell)

  /** One row of the cleaned core: the bank name and the two measures. */
  datatype CoreRow = CoreRow(bank: string, credit: Option<Number>, debit: Option<Number>)

  /** The result of `select_core`: the cleaned rows and the labels picked. */
  datatype Selection = Selection(rows: seq<CoreRow>, bankCol: string, creditCol: string, debitCol: string)

  /** `\b` at position `p` of `t`: a word character on exactly one side. */
  predicate WordBoundary(t: string, p: nat)
    requires p <= |t|
  {
    (p > 0 && IsWordChar(t[p - 1])) != (p < |t| && IsWordChar(t[p]))
  }

  /** `w` occurs at `k` in `t` with a word boundary on both sides. */
  predicate WordAt(t: string, w: string, k: nat) {
    MatchAt(t, w, k) && WordBoundary(t, k) && WordBoundary(t, k + |w|)
  }

  /** `str.contains(r"\b(total|grand total)\b", case=False)` on a bank cell. */
  predicate HasTotalMarker(s: string) {
    exists k: nat :: k <= |s| && (WordAt(Lower(s), "total", k) || WordAt(Lower(s), "grand total", k))
  }

  /** "grand total" as a word ends in the word "total". */
  lemma GrandTotalEndsInTotal(t: string, k: nat)
    requires WordAt(t, "grand total", k)
    ensures WordAt(t, "total", k + 6)
  {
    assert t[k..k + 11] == "grand total";
    assert t[k + 5] == t[k..k + 11][5];
    assert t[k + 6] == t[k..k + 11][6];
    assert t[k + 6..k + 11] == t[k..k + 11][6..];
  }

  /** The "grand total" alternative adds nothing: a row is dropped exactly
      when its bank cell holds the word "total". */
  lemma TotalMarkerIsWordTotal(s: string)
    ensures HasTotalMarker(s) <==> exists k: nat :: k <= |s| && WordAt(Lower(s), "total", k)
  {
    var t := Lower(s);
    if HasTotalMarker(s) {
      var k: nat :| k <= |s| && (WordAt(t, "total", k) || WordAt(t, "grand total", k));
      if !WordAt(t, "total", k) {
        GrandTotalEndsInTotal(t, k);
      }
    }
  }

  /** A bank cell of whitespace only is no total. */
  lemma BlankIsNoTotal(s: string)
    requires AllSpace(s)
    ensures !HasTotalMarker(s)
  {
    var t := Lower(s);
    forall k: nat | k <= |s|
      ensures !MatchAt(t, "total", k) && !MatchAt(t, "grand total", k)
    {
      if k < |s| {
        assert IsSpace(t[k]);
        if k + 5 <= |s| { assert t[k..k + 5][0] == t[k]; }
        if k + 11 <= |s| { assert t[k..k + 11][0] == t[k]; }
      }
    }
  }

  /** `df[keep]`: the bank, credit and debit cells of each row. */
  function Project(rows: seq<seq<Cell>>, width: nat, b: nat, c: nat, d: nat): (r: seq<Picked>)
    requires IsTable(rows, width) && b < width && c < width && d < width
    ensures |r| == |rows|
    ensures forall i :: 0 <= i < |rows| ==> r[i] == Picked(rows[i][b], rows[i][c], rows[i][d])
  {
    seq(|rows|, i requires 0 <= i < |rows| => Picked(rows[i][b], rows[i][c], rows[i][d]))
  }

  lemma ProjectAppend(a: seq<seq<Cell>>, b: seq<seq<Cell>>, width: nat, bi: nat, ci: nat, di: nat)
    requires IsTable(a, width) && IsTable(b, width) && bi < width && ci < width && di < width
    ensures IsTable(a + b, width)
    ensures Project(a + b, width, bi, ci, di) == Project(a, width, bi, ci, di) + Project(b, width, bi, ci, di)
  {
    assert forall i :: 0 <= i < |a| ==> (a + b)[i] == a[i];
    assert forall i :: |a| <= i < |a| + |b| ==> (a + b)[i] == b[i - |a|];
  }

  /** `dropna(subset=[bank_col])` */
  function DropMissingBank(core: seq<Picked>): seq<Picked> {
    if core == [] then []
    else (if core[0].bank.Some? then [core[0]] else []) + DropMissingBank(core[1..])
  }

  /** `core[~mask_total]` on rows whose bank cell is present. */
  function DropTotals(core: seq<Picked>): seq<Picked> {
    if core == [] then []
    else (if !HasTotalMarker(CellText(core[0].bank)) then [core[0]] else []) + DropTotals(core[1..])
  }

  /** The three `map` calls: `clean_bank_name` on the bank text,
      `to_number` on both measures. */
  function CleanValues(core: seq<Picked>): (r: seq<CoreRow>)
    ensures |r| == |core|
  {
    if core == [] then []
    else
      var p := core[0];
      [CoreRow(CleanBankName(Some(CellText(p.bank))), ToNumber(p.credit), ToNumber(p.debit))] + CleanValues(core[1..])
  }

  /** `core[~both_nan]` */
  function DropNoMeasure(core: seq<CoreRow>): seq<CoreRow> {
    if core == [] then []
    else (if core[0].credit.Some? || core[0].debit.Some? then [core[0]] else []) + DropNoMeasure(core[1..])
  }

  /** What becomes of one picked row: dropped, or kept as a cleaned row. */
  function RowFate(p: Picked): Option<CoreRow> {
    if p.bank.None? || HasTotalMarker(p.bank.value) then None
    else
      var row := CoreRow(CleanBankName(p.bank), ToNumber(p.credit), ToNumber(p.debit));
      if row.credit.None? && row.debit.None? then None else Some(row)
  }

  /** A row is kept exactly when its bank cell is present and holds no word
      "total" and one of its measures is a number; it is kept with the
      cleaned name and both converted measures. */
  lemma RowFateJudges(p: Picked)
    ensures RowFate(p).Some? <==> (p.bank.Some? && !HasTotalMarker(p.bank.value) &&
      (ToNumber(p.credit).Some? || ToNumber(p.debit).Some?))
    ensures RowFate(p).Some? ==>
      RowFate(p).value == CoreRow(CleanBankName(p.bank), ToNumber(p.credit), ToNumber(p.debit))
  {
  }

  /** `f` applied to every element. */
  function MapSeq<A, B>(f: A -> B, xs: seq<A>): (r: seq<B>)
    ensures |r| == |xs| && forall i :: 0 <= i < |xs| ==> r[i] == f(xs[i])
  {
    seq(|xs|, i requires 0 <= i < |xs| => f(xs[i]))
  }

  lemma MapSeqAppend<A, B>(f: A -> B, a: seq<A>, b: seq<A>)
    ensures MapSeq(f, a + b) == MapSeq(f, a) + MapSeq(f, b)
  {
    assert forall i :: 0 <= i < |a| ==> (a + b)[i] == a[i];
    assert forall i :: |a| <= i < |a| + |b| ==> (a + b)[i] == b[i - |a|];
  }

  /** The fate of every row. */
  function Fates(core: seq<Picked>): (r: seq<Option<CoreRow>>)
    ensures |r| == |core| && forall i :: 0 <= i < |core| ==> r[i] == RowFate(core[i])
  {
    MapSeq(RowFate, core)
  }

  /** The present values, in order. */
  function Kept<T>(xs: seq<Option<T>>): seq<T> {
    if xs == [] then []
    else (match xs[0] case None => [] case Some(v) => [v]) + Kept(xs[1..])
  }

  lemma {:induction false} KeptAppend<T>(a: seq<Option<T>>, b: seq<Option<T>>)
    ensures Kept(a + b) == Kept(a) + Kept(b)
  {
    if a == [] {
      assert a + b == b;
    } else {
      assert (a + b)[1..] == a[1..] + b;
      KeptAppend(a[1..], b);
    }
  }

  lemma {:induction false} KeptOrigin<T>(xs: seq<Option<T>>, j: nat)
    requires j < |Kept(xs)|
    ensures exists i :: 0 <= i < |xs| && xs[i] == Some(Kept(xs)[j])
  {
    var head := match xs[0] case None => [] case Some(v) => [v];
    if j < |head| {
      assert xs[0] == Some(Kept(xs)[j]);
    } else {
      KeptOrigin(xs[1..], j - |head|);
      var i :| 0 <= i < |xs| - 1 && xs[1..][i] == Some(Kept(xs[1..])[j - |head|]);
      assert xs[i + 1] == Some(Kept(xs)[j]);
    }
  }

  lemma {:induction false} KeptComplete<T>(xs: seq<Option<T>>, i: nat)
    requires i < |xs| && xs[i].Some?
    ensures xs[i].value in Kept(xs)
  {
    if i > 0 {
      KeptComplete(xs[1..], i - 1);
      assert xs[1..][i - 1] == xs[i];
    }
  }

  /** The rows that survive, judged one row at a time, in order. */
  function Survivors(core: seq<Picked>): seq<CoreRow> {
    Kept(Fates(core))
  }

  /** The successive filters of `select_core` drop and clean exactly the
      rows the row-by-row judgement does. */
  lemma {:induction false} FiltersAreRowwise(core: seq<Picked>)
    ensures DropNoMeasure(CleanValues(DropTotals(DropMissingBank(core)))) == Survivors(core)
  {
    if core != [] {
      FiltersAreRowwise(core[1..]);
      var p := core[0];
      assert Fates(core) == [RowFate(p)] + Fates(core[1..]);
      assert ([RowFate(p)] + Fates(core[1..]))[1..] == Fates(core[1..]);
      var rest := DropMissingBank(core[1..]);
      var rest2 := DropTotals(rest);
      if p.bank.None? {
        assert DropMissingBank(core) == rest;
      } else {
        assert DropMissingBank(core) == [p] + rest;
        assert ([p] + rest)[1..] == rest;
        if HasTotalMarker(p.bank.value) {
          assert DropTotals([p] + rest) == rest2;
        } else {
          assert DropTotals([p] + rest) == [p] + rest2;
          assert ([p] + rest2)[1..] == rest2;
          var cleaned := CleanValues([p] + rest2);
          assert cleaned[1..] == CleanValues(rest2);
        }
      }
    }
  }

  /** Survival keeps the order: it works piece by piece. */
  lemma SurvivorsAppend(a: seq<Picked>, b: seq<Picked>)
    ensures Survivors(a + b) == Survivors(a) + Survivors(b)
  {
    MapSeqAppend(RowFate, a, b);
    KeptAppend(Fates(a), Fates(b));
  }

  /** Every surviving row comes from a row whose bank cell is present and
      names no total, and at least one of whose measures is a number. */
  lemma SurvivorsOrigin(core: seq<Picked>, j: nat)
    requires j < |Survivors(core)|
    ensures exists i :: 0 <= i < |core| && RowFate(core[i]) == Some(Survivors(core)[j])
  {
    KeptOrigin(Fates(core), j);
  }

  /** Every row that passes the judgement survives. */
  lemma SurvivorsComplete(core: seq<Picked>, i: nat)
    requires i < |core| && RowFate(core[i]).Some?
    ensures RowFate(core[i]).value in Survivors(core)
  {
    KeptComplete(Fates(core), i);
  }

  /** A bank cell that is present but blank is kept, as an empty name. */
  lemma BlankBankSurvives(p: Picked)
    requires p.bank.Some? && AllSpace(p.bank.value)
    requires ToNumber(p.credit).Some? || ToNumber(p.debit).Some?
    ensures RowFate(p).Some? && RowFate(p).value.bank == ""
  {
    BlankIsNoTotal(p.bank.value);
    RowFateJudges(p);
    var l := LStrip(p.bank.value);
    assert l == [];
  }

  /** The three picked labels are distinct and each occurs once, so `df[keep]`
      is a frame of three columns. */
  predicate PicksUnique(cols: seq<string>) {
    var b := Best(BankPicker, cols);
    var c := Best(CreditPicker, cols);
    var d := Best(DebitPicker, cols);
    b.Some? && c.Some? && d.Some? ==>
      b.value != c.value && b.value != d.value && c.value != d.value &&
      forall k :: 0 <= k < |cols| ==>
        (cols[k] == cols[b.value] ==> k == b.value) &&
        (cols[k] == cols[c.value] ==> k == c.value) &&
        (cols[k] == cols[d.value] ==> k == d.value)
  }

  /** What `select_core` returns for a frame. */
  function CoreSelection(cols: seq<string>, rows: seq<seq<Cell>>, width: nat): (r: Result<Selection, ExtractError>)
    requires |cols| == width && IsTable(rows, width)
    ensures r.Err? ==> r.error in {BankColumnNotFound, CreditColumnNotFound, DebitColumnNotFound}
    ensures r.Ok? ==> Pick(BankPicker, cols) == Ok(r.value.bankCol)
    ensures r.Ok? ==> Pick(CreditPicker, cols) == Ok(r.value.creditCol)
    ensures r.Ok? ==> Pick(DebitPicker, cols) == Ok(r.value.debitCol)
  {
    match (Best(BankPicker, cols), Best(CreditPicker, cols), Best(DebitPicker, cols))
    case (None, _, _) => Err(BankColumnNotFound)
    case (Some(_), None, _) => Err(CreditColumnNotFound)
    case (Some(_), Some(_), None) => Err(DebitColumnNotFound)
    case (Some(b), Some(c), Some(d)) =>
      Ok(Selection(Survivors(Project(rows, width, b, c, d)), cols[b], cols[c], cols[d]))
  }

  /** The bank picker is consulted first, then credit, then debit: the first
      one that finds nothing decides the error. */
  lemma CoreSelectionErrors(cols: seq<string>, rows: seq<seq<Cell>>, width: nat)
    requires |cols| == width && IsTable(rows, width)
    ensures Pick(BankPicker, cols).Err? ==> CoreSelection(cols, rows, width) == Err(BankColumnNotFound)
    ensures Pick(BankPicker, cols).Ok? && Pick(CreditPicker, cols).Err? ==>
      CoreSelection(cols, rows, width) == Err(CreditColumnNotFound)
    ensures Pick(BankPicker, cols).Ok? && Pick(CreditPicker, cols).Ok? && Pick(DebitPicker, cols).Err? ==>
      CoreSelection(cols, rows, width) == Err(DebitColumnNotFound)
    ensures Pick(BankPicker, cols).Ok? && Pick(CreditPicker, cols).Ok? && Pick(DebitPicker, cols).Ok? ==>
      CoreSelection(cols, rows, width).Ok?
  {
  }

  /** Frame row `row` is kept by `select_core` as `out`: its bank cell is
      present and holds no word "total", one of its measures is a number,
      and `out` holds the cleaned name and the converted measures. */
  predicate Yields(row: seq<Cell>, b: nat, c: nat, d: nat, out: CoreRow)
    requires b < |row| && c < |row| && d < |row|
  {
    row[b].Some? && !HasTotalMarker(row[b].value) &&
    (ToNumber(row[c]).Some? || ToNumber(row[d]).Some?) &&
    out == CoreRow(CleanBankName(row[b]), ToNumber(row[c]), ToNumber(row[d]))
  }

  /** Every selected row is what `select_core` makes of some frame row. */
  lemma CoreSelectionRows(cols: seq<string>, rows: seq<seq<Cell>>, width: nat, j: nat)
    requires |cols| == width && IsTable(rows, width)
    requires CoreSelection(cols, rows, width).Ok? && j < |CoreSelection(cols, rows, width).value.rows|
    ensures var b := Best(BankPicker, cols).value;
      var c := Best(CreditPicker, cols).value;
      var d := Best(DebitPicker, cols).value;
      exists i :: 0 <= i < |rows| && Yields(rows[i], b, c, d, CoreSelection(cols, rows, width).value.rows[j])
  {
    var b := Best(BankPicker, cols).value;
    var c := Best(CreditPicker, cols).value;
    var d := Best(DebitPicker, cols).value;
    var core := Project(rows, width, b, c, d);
    assert CoreSelection(cols, rows, width).value.rows == Survivors(core);
    SurvivorsOrigin(core, j);
    var i :| 0 <= i < |core| && RowFate(core[i]) == Some(Survivors(core)[j]);
    RowFateJudges(core[i]);
    assert core[i] == Picked(rows[i][b], rows[i][c], rows[i][d]);
    assert Yields(rows[i], b, c, d, Survivors(core)[j]);
  }

  /** Every frame row that `select_core` would keep is among the selected
      rows. */
  lemma CoreSelectionComplete(cols: seq<string>, rows: seq<seq<Cell>>, width: nat, i: nat, out: CoreRow)
    requires |cols| == width && IsTable(rows, width)
    requires CoreSelection(cols, rows, width).Ok? && i < |rows|
    requires Yields(rows[i], Best(BankPicker, cols).value, Best(CreditPicker, cols).value,
      Best(DebitPicker, cols).value, out)
    ensures out in CoreSelection(cols, rows, width).value.rows
  {
    var b := Best(BankPicker, cols).value;
    var c := Best(CreditPicker, cols).value;
    var d := Best(DebitPicker, cols).value;
    var core := Project(rows, width, b, c, d);
    assert CoreSelection(cols, rows, width).value.rows == Survivors(core);
    RowFateJudges(core[i]);
    SurvivorsComplete(core, i);
  }

  /** The selected rows keep the frame's order: the selection of a frame
      whose rows are split in two is the selection of the first part
      followed by that of the second. */
  lemma CoreSelectionOrder(cols: seq<string>, a: seq<seq<Cell>>, b: seq<seq<Cell>>, width: nat)
    requires |cols| == width && IsTable(a, width) && IsTable(b, width)
    requires CoreSelection(cols, a, width).Ok?
    ensures IsTable(a + b, width)
    ensures CoreSelection(cols, a + b, width).Ok?
    ensures CoreSelection(cols, a + b, width).value.rows ==
      CoreSelection(cols, a, width).value.rows + CoreSelection(cols, b, width).value.rows
  {
    assert IsTable(a + b, width);
    var bi := Best(BankPicker, cols).value;
    var ci := Best(CreditPicker, cols).value;
    var di := Best(DebitPicker, cols).value;
    ProjectAppend(a, b, width, bi, ci, di);
    var pa := Project(a, width, bi, ci, di);
    var pb := Project(b, width, bi, ci, di);
    assert CoreSelection(cols, a, width).value.rows == Survivors(pa);
    assert CoreSelection(cols, b, width).value.rows == Survivors(pb);
    assert CoreSelection(cols, a + b, width).value.rows == Survivors(pa + pb);
    SurvivorsAppend(pa, pb);
  }

  /** `select_core`: picks the three labels, keeps those columns, and drops
      rows without a bank, total rows and rows without any measure, cleaning
      the values on the way. */
  method SelectCore(df: Frame) returns (r: Result<Selection, ExtractError>)
    requires df.Valid() && PicksUnique(df.columns)
    ensures r == CoreSelection(df.columns, df.rows, df.width)
  {
    var columns := df.columns;
    var bankIdx := Best(BankPicker, columns);
    if bankIdx.None? {
      return Err(BankColumnNotFound);
    }
    var creditIdx := Best(CreditPicker, columns);
    if creditIdx.None? {
      return Err(CreditColumnNotFound);
    }
    var debitIdx := Best(DebitPicker, columns);
    if debitIdx.None? {
      return Err(DebitColumnNotFound);
    }
    var core := Project(df.rows, df.width, bankIdx.value, creditIdx.value, debitIdx.value);
    FiltersAreRowwise(core);
    core := DropMissingBank(core);
    core := DropTotals(core);
    var cleaned := CleanValues(core);
    cleaned := DropNoMeasure(cleaned);
    return Ok(Selection(cleaned, columns[bankIdx.value], columns[creditIdx.value], columns[debitIdx.value]));
  }

  // ---------------------------------------------------------------------
  // emit_month
  // ---------------------------------------------------------------------

  /** `os.path.basename`: the part after the last '/'. */
  function BaseName(path: string): (r: string)
    ensures |r| <= |path| && r == path[|path| - |r|..]
    ensures forall i :: 0 <= i < |r| ==> r[i] != '/'
  {
    if path == [] || path[|path| - 1] == '/' then []
    else BaseName(path[..|path| - 1]) + [path[|path| - 1]]
  }

  /** The payload `emit_month` writes for a month: its year, month, source
      file name, the three columns used and the rows. The payload's constant
      "schema" member is the same for every month and is omitted. */
  datatype MonthJson = MonthJson(
    year: int, month: int, fileName: string,
    bankCol: string, creditCol: string, debitCol: string,
    rows: seq<CoreRow>)

  /** What `emit_month` produces for a worksheet: the file it writes under
      `docs/data` and its payload. */
  function MonthDocument(path: string, raw: seq<seq<Cell>>, width: nat, year: int, month: int)
    : (r: Result<(string, MonthJson), ExtractError>)
    requires IsTable(raw, width)
  {
    match MonthTable(raw, width)
    case Err(e) => Err(e)
    case Ok(t) =>
      match CoreSelection(t.columns, t.rows, width)
      case Err(e) => Err(e)
      case Ok(sel) =>
        Ok((DataDir + MonthFileName(year, month),
            MonthJson(year, month, BaseName(path), sel.bankCol, sel.creditCol, sel.debitCol, sel.rows)))
  }

  /** Every emitted row has a clean bank name and at least one measure. */
  lemma MonthDocumentRows(path: string, raw: seq<seq<Cell>>, width: nat, year: int, month: int, j: nat)
    requires IsTable(raw, width) && MonthDocument(path, raw, width, year, month).Ok?
    requires j < |MonthDocument(path, raw, width, year, month).value.1.rows|
    ensures var row := MonthDocument(path, raw, width, year, month).value.1.rows[j];
      (row.credit.Some? || row.debit.Some?) &&
      IsTrimmed(row.bank) && NoDoubleSpace(row.bank) &&
      CleanBankName(Some(row.bank)) == row.bank
  {
    var t := MonthTable(raw, width).value;
    var cols := t.columns;
    var b := Best(BankPicker, cols).value;
    var c := Best(CreditPicker, cols).value;
    var d := Best(DebitPicker, cols).value;
    var core := Project(t.rows, width, b, c, d);
    SurvivorsOrigin(core, j);
    var i :| 0 <= i < |core| && RowFate(core[i]) == Some(Survivors(core)[j]);
    RowFateJudges(core[i]);
    CleanBankNameShape(core[i].bank);
    CleanBankNameIdempotent(core[i].bank);
  }

  /** How `MonthDocument` unfolds once the table and the selection are known. */
  lemma MonthDocumentSteps(path: string, raw: seq<seq<Cell>>, width: nat, year: int, month: int)
    requires IsTable(raw, width)
    ensures MonthTable(raw, width).Err? ==>
      MonthDocument(path, raw, width, year, month) == Err(MonthTable(raw, width).error)
    ensures MonthTable(raw, width).Ok? ==>
      var t := MonthTable(raw, width).value;
      var sel := CoreSelection(t.columns, t.rows, width);
      MonthDocument(path, raw, width, year, month) ==
        match sel
        case Err(e) => Err(e)
        case Ok(v) => Ok((DataDir + MonthFileName(year, month),
          MonthJson(year, month, BaseName(path), v.bankCol, v.creditCol, v.debitCol, v.rows)))
  {
  }

  /** The `iterrows` loop of `emit_month`: one output row per core row, in
      the same order and with the same values. */
  method CopyRows(core: seq<CoreRow>) returns (outRows: seq<CoreRow>)
    ensures outRows == core
  {
    outRows := [];
    var i := 0;
    while i < |core|
      invariant 0 <= i <= |core|
      invariant outRows == core[..i]
    {
      outRows := outRows + [core[i]];
      i := i + 1;
    }
    assert core[..|core|] == core;
  }

  /** `emit_month`: extracts the table, selects the core and copies its rows
      into the payload one by one. */
  method EmitMonth(path: string, raw: seq<seq<Cell>>, width: nat, year: int, month: int)
    returns (r: Result<(string, MonthJson), ExtractError>)
    requires IsTable(raw, width)
    requires MonthTable(raw, width).Ok? ==> PicksUnique(MonthTable(raw, width).value.columns)
    ensures r == MonthDocument(path, raw, width, year, month)
  {
    MonthDocumentSteps(path, raw, width, year, month);
    var df := ExtractMonthTable(raw, width);
    if df.Err? {
      return Err(df.error);
    }
    ghost var t := MonthTable(raw, width).value;
    assert df.value.columns == t.columns && df.value.rows == t.rows;
    var sel := SelectCore(df.value);
    assert sel == CoreSelection(t.columns, t.rows, width);
    if sel.Err? {
      return Err(sel.error);
    }
    var outRows := CopyRows(sel.value.rows);
    var payload := MonthJson(year, month, BaseName(path),
      sel.value.bankCol, sel.value.creditCol, sel.value.debitCol, outRows);
    return Ok((DataDir + MonthFileName(year, month), payload));
  }
}
