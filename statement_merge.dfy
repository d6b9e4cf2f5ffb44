/** The merge of an annual and a quarterly financial statement into one figure per
    line item (`merge_and_fill` in utility/backend.py).

    A statement is a table whose rows are line items and whose columns are reporting
    periods. The source concatenates the two tables side by side (an outer join on the
    row labels, annual columns first, then quarterly ones, by position and not by
    date), back-fills every row along the columns and keeps the first column. */
module StatementMerge {
  import opened Wrappers

  type LineItem = string

  /** `width` reporting-period columns; for each line item its cells by position,
      `None` where the provider has no figure (NaN). */
  datatype Statement<V> = Statement(width: nat, rows: map<LineItem, seq<Option<V>>>)

  /** Every row has one cell per column. */
  predicate WellFormed<V>(t: Statement<V>) {
    forall k :: k in t.rows ==> |t.rows[k]| == t.width
  }

  /** The row of `t` labelled `k` after the outer join: a row the table does not
      have contributes one missing cell per column of the table. */
  function Row<V>(t: Statement<V>, k: LineItem): (r: seq<Option<V>>)
    requires WellFormed(t)
    ensures |r| == t.width
    ensures k in t.rows ==> r == t.rows[k]
    ensures k !in t.rows ==> forall i :: 0 <= i < |r| ==> r[i].None?
  {
    if k in t.rows then t.rows[k] else seq(t.width, _ => None)
  }

  /** `pd.concat([annual, quarterly], axis=1)`. */
  function Concat<V>(annual: Statement<V>, quarterly: Statement<V>): (r: Statement<V>)
    requires WellFormed(annual) && WellFormed(quarterly)
    ensures WellFormed(r)
    ensures r.width == annual.width + quarterly.width
    ensures r.rows.Keys == annual.rows.Keys + quarterly.rows.Keys
    ensures forall k, i :: k in r.rows && 0 <= i < annual.width ==> r.rows[k][i] == Row(annual, k)[i]
    ensures forall k, i :: k in r.rows && 0 <= i < quarterly.width ==>
              r.rows[k][annual.width + i] == Row(quarterly, k)[i]
  {
    Statement(annual.width + quarterly.width,
              map k | k in annual.rows.Keys + quarterly.rows.Keys :: Row(annual, k) + Row(quarterly, k))
  }

  /** `bfill(axis=1)` on one row: every cell takes the first present value at or
      to its right, and stays missing when there is none. */
  function BackFill<V>(cells: seq<Option<V>>): (r: seq<Option<V>>)
    ensures |r| == |cells|
    ensures forall i :: 0 <= i < |cells| && cells[i].Some? ==> r[i] == cells[i]
    ensures forall i :: 0 <= i < |cells| - 1 && cells[i].None? ==> r[i] == r[i + 1]
    ensures |cells| > 0 && cells[|cells| - 1].None? ==> r[|cells| - 1].None?
  {
    if cells == [] then []
    else
      var rest := BackFill(cells[1..]);
      [if cells[0].Some? || rest == [] then cells[0] else rest[0]] + rest
  }

  /** The value a reader of the row expects: the first present cell scanning left to
      right, or `None` when every cell is missing. */
  function FirstPresent<V>(cells: seq<Option<V>>): Option<V> {
    if cells == [] then None
    else if cells[0].Some? then cells[0]
    else FirstPresent(cells[1..])
  }

  datatype MergeError =
    /** `iloc[:, 0]` on a combined table without columns raises IndexError. */
    | NoColumns

  /** `merge_and_fill(annual, quarterly)`. */
  function MergeAndFill<V>(annual: Statement<V>, quarterly: Statement<V>): (r: Result<map<LineItem, Option<V>>, MergeError>)
    requires WellFormed(annual) && WellFormed(quarterly)
    ensures r.Err? <==> annual.width + quarterly.width == 0
    ensures r.Ok? ==> r.value.Keys == annual.rows.Keys + quarterly.rows.Keys
  {
    var combined := Concat(annual, quarterly);
    if combined.width == 0 then Err(NoColumns)
    else Ok(map k | k in combined.rows :: BackFill(combined.rows[k])[0])
  }

  /** Every back-filled cell is the first present value from that column on. */
  lemma {:induction false} BackFillAt<V>(cells: seq<Option<V>>, i: nat)
    requires i < |cells|
    ensures BackFill(cells)[i] == FirstPresent(cells[i..])
  {
    if i == 0 {
      if !cells[0].Some? && |cells| > 1 {
        BackFillAt(cells[1..], 0);
        assert cells[1..][0..] == cells[1..];
      }
      assert cells[0..] == cells;
      if |cells| == 1 {
        assert cells[1..] == [];
      }
    } else {
      BackFillAt(cells[1..], i - 1);
      assert cells[1..][i - 1..] == cells[i..];
    }
  }

  /** A missing-only row has no first present value, and a row with a present cell has one. */
  lemma {:induction false} FirstPresentNone<V>(cells: seq<Option<V>>)
    ensures FirstPresent(cells).None? <==> forall i :: 0 <= i < |cells| ==> cells[i].None?
  {
    if cells != [] {
      FirstPresentNone(cells[1..]);
      assert forall i :: 1 <= i < |cells| ==> cells[i] == cells[1..][i - 1];
    }
  }

  /** The first present value is the cell at the first present position. */
  lemma {:induction false} FirstPresentAt<V>(cells: seq<Option<V>>, i: nat)
    requires i < |cells| && cells[i].Some?
    requires forall j :: 0 <= j < i ==> cells[j].None?
    ensures FirstPresent(cells) == cells[i]
  {
    if i > 0 {
      FirstPresentAt(cells[1..], i - 1);
    }
  }

  /** Scanning two rows laid side by side: the second row matters only when the
      first has no present cell. */
  lemma {:induction false} FirstPresentAppend<V>(a: seq<Option<V>>, b: seq<Option<V>>)
    ensures FirstPresent(a + b) == if FirstPresent(a).Some? then FirstPresent(a) else FirstPresent(b)
  {
    if a == [] {
      assert a + b == b;
    } else {
      assert (a + b)[1..] == a[1..] + b;
      FirstPresentAppend(a[1..], b);
    }
  }

  /** The merged value of every line item is the first present cell of its combined
      row: the annual columns left to right, then the quarterly ones. */
  lemma MergePicksFirstPresent<V>(annual: Statement<V>, quarterly: Statement<V>, k: LineItem)
    requires WellFormed(annual) && WellFormed(quarterly)
    requires MergeAndFill(annual, quarterly).Ok?
    requires k in annual.rows || k in quarterly.rows
    ensures k in MergeAndFill(annual, quarterly).value
    ensures MergeAndFill(annual, quarterly).value[k] == FirstPresent(Row(annual, k) + Row(quarterly, k))
  {
    var combined := Concat(annual, quarterly);
    BackFillAt(combined.rows[k], 0);
    assert combined.rows[k][0..] == combined.rows[k];
  }

  /** A line item with some annual figure takes the first annual figure, whatever
      the quarterly table holds for it, even for a period date both tables share. */
  lemma MergeAnnualWins<V>(annual: Statement<V>, quarterly: Statement<V>, k: LineItem, i: nat)
    requires WellFormed(annual) && WellFormed(quarterly)
    requires k in annual.rows && i < annual.width && annual.rows[k][i].Some?
    requires forall j :: 0 <= j < i ==> annual.rows[k][j].None?
    ensures MergeAndFill(annual, quarterly).Ok?
    ensures k in MergeAndFill(annual, quarterly).value
    ensures MergeAndFill(annual, quarterly).value[k] == annual.rows[k][i]
  {
    MergePicksFirstPresent(annual, quarterly, k);
    FirstPresentAppend(Row(annual, k), Row(quarterly, k));
    FirstPresentAt(annual.rows[k], i);
  }

  /** Quarterly figures are used only for a line item that the annual table lacks or
      holds only missing cells for; then the merged value is the first quarterly one. */
  lemma MergeQuarterlyFills<V>(annual: Statement<V>, quarterly: Statement<V>, k: LineItem)
    requires WellFormed(annual) && WellFormed(quarterly)
    requires annual.width + quarterly.width > 0
    requires k in quarterly.rows
    requires k in annual.rows ==> forall j :: 0 <= j < annual.width ==> annual.rows[k][j].None?
    ensures MergeAndFill(annual, quarterly).Ok?
    ensures k in MergeAndFill(annual, quarterly).value
    ensures MergeAndFill(annual, quarterly).value[k] == FirstPresent(quarterly.rows[k])
  {
    MergePicksFirstPresent(annual, quarterly, k);
    FirstPresentAppend(Row(annual, k), Row(quarterly, k));
    FirstPresentNone(Row(annual, k));
  }

  /** The merged value is missing exactly when every cell of the line item, in both
      tables, is missing. */
  lemma MergeMissingIffAllMissing<V>(annual: Statement<V>, quarterly: Statement<V>, k: LineItem)
    requires WellFormed(annual) && WellFormed(quarterly)
    requires annual.width + quarterly.width > 0
    requires k in annual.rows || k in quarterly.rows
    ensures MergeAndFill(annual, quarterly).Ok?
    ensures k in MergeAndFill(annual, quarterly).value
    ensures MergeAndFill(annual, quarterly).value[k].None? <==>
              (forall j :: 0 <= j < annual.width ==> Row(annual, k)[j].None?) &&
              (forall j :: 0 <= j < quarterly.width ==> Row(quarterly, k)[j].None?)
  {
    MergePicksFirstPresent(annual, quarterly, k);
    FirstPresentAppend(Row(annual, k), Row(quarterly, k));
    FirstPresentNone(Row(annual, k));
    FirstPresentNone(Row(quarterly, k));
  }
}
