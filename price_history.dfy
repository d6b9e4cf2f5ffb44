/** The gap filling StockDash.py applies to a price history fetched at a daily or
    coarser interval: the table is reindexed onto every calendar day between its first
    and last row, and the four price columns are forward-filled. Days are whole
    numbers here; the table's real index is a series of timestamps. */
module PriceHistory {
  import opened Wrappers

  /** The intervals after which the history is reindexed by day. */
  const DAILY_INTERVALS: seq<string> := ["1d", "5d", "1wk", "1mo", "3mo"]

  /** The columns forward-filled after reindexing. */
  const PRICE_COLUMNS: seq<string> := ["Open", "High", "Low", "Close"]

  predicate StrictlyIncreasing(days: seq<int>) {
    forall i, j :: 0 <= i < j < |days| ==> days[i] < days[j]
  }

  /** Where day `d` sits in the index, if it is there. */
  function Position(days: seq<int>, d: int): (p: Option<nat>)
    ensures p.Some? ==> p.value < |days| && days[p.value] == d
    ensures p.None? <==> d !in days
  {
    if days == [] then None
    else if days[0] == d then Some(0)
    else
      match Position(days[1..], d)
      case None => None
      case Some(q) => Some(q + 1)
  }

  /** `pd.date_range(start=index.min(), end=index.max(), freq='D')`. */
  function DayRange(days: seq<int>): (r: seq<int>)
    requires |days| > 0 && StrictlyIncreasing(days)
    ensures |r| == days[|days| - 1] - days[0] + 1
    ensures forall i :: 0 <= i < |r| ==> r[i] == days[0] + i
  {
    assert |days| > 1 ==> days[0] < days[|days| - 1];
    seq(days[|days| - 1] - days[0] + 1, i => days[0] + i)
  }

  /** `column.reindex(date_range)`: one cell per day of the range, the original cell
      on a day the index has and a missing one on every other day. */
  function Reindex<V>(days: seq<int>, column: seq<Option<V>>): (r: seq<Option<V>>)
    requires |days| > 0 && StrictlyIncreasing(days) && |column| == |days|
    ensures |r| == |DayRange(days)|
  {
    var n := |DayRange(days)|;
    seq(n, i requires 0 <= i < n =>
      match Position(days, days[0] + i)
      case Some(p) => column[p]
      case None => None)
  }

  /** Reindexing keeps every original cell on its own day and leaves the added days missing. */
  lemma ReindexCells<V>(days: seq<int>, column: seq<Option<V>>)
    requires |days| > 0 && StrictlyIncreasing(days) && |column| == |days|
    ensures forall p :: 0 <= p < |days| ==> 0 <= days[p] - days[0] < |Reindex(days, column)|
    ensures forall p :: 0 <= p < |days| ==> Reindex(days, column)[days[p] - days[0]] == column[p]
    ensures forall i :: 0 <= i < |Reindex(days, column)| && days[0] + i !in days ==> Reindex(days, column)[i].None?
  {
    var r := Reindex(days, column);
    forall p | 0 <= p < |days|
      ensures 0 <= days[p] - days[0] < |r| && r[days[p] - days[0]] == column[p]
    {
      assert p > 0 ==> days[0] < days[p];
      assert p < |days| - 1 ==> days[p] < days[|days| - 1];
      var q := Position(days, days[p]);
      assert q.value == p;
    }
    forall i | 0 <= i < |r| && days[0] + i !in days
      ensures r[i].None?
    {
      assert Position(days, days[0] + i).None?;
    }
  }

  /** `fillna(method='ffill')` on one column, carrying `last`, the most recent present value. */
  function FillFrom<V>(cells: seq<Option<V>>, last: Option<V>): (r: seq<Option<V>>)
    ensures |r| == |cells|
    ensures forall i :: 0 <= i < |cells| && cells[i].Some? ==> r[i] == cells[i]
    ensures forall i :: 0 < i < |cells| && cells[i].None? ==> r[i] == r[i - 1]
    ensures |cells| > 0 && cells[0].None? ==> r[0] == last
  {
    if cells == [] then []
    else
      var v := if cells[0].Some? then cells[0] else last;
      [v] + FillFrom(cells[1..], v)
  }

  /** `fillna(method='ffill')` from the top of the column: present cells stay, a
      missing cell repeats the cell above it, and a missing first cell stays missing. */
  function ForwardFill<V>(cells: seq<Option<V>>): (r: seq<Option<V>>)
    ensures |r| == |cells|
    ensures forall i :: 0 <= i < |cells| && cells[i].Some? ==> r[i] == cells[i]
    ensures forall i :: 0 < i < |cells| && cells[i].None? ==> r[i] == r[i - 1]
    ensures |cells| > 0 && cells[0].None? ==> r[0].None?
  {
    FillFrom(cells, None)
  }

  /** The last present cell of a sequence, or `None` when every cell is missing. */
  function LastPresent<V>(cells: seq<Option<V>>): Option<V> {
    if cells == [] then None
    else if cells[|cells| - 1].Some? then cells[|cells| - 1]
    else LastPresent(cells[..|cells| - 1])
  }

  lemma {:induction false} LastPresentAppend<V>(a: seq<Option<V>>, b: seq<Option<V>>)
    ensures LastPresent(a + b) == if LastPresent(b).Some? then LastPresent(b) else LastPresent(a)
    decreases |b|
  {
    if b == [] {
      assert a + b == a;
    } else {
      assert (a + b)[..|a + b| - 1] == a + b[..|b| - 1];
      LastPresentAppend(a, b[..|b| - 1]);
    }
  }

  lemma {:induction false} LastPresentAt<V>(cells: seq<Option<V>>, j: nat)
    requires j < |cells| && cells[j].Some?
    requires forall k :: j < k < |cells| ==> cells[k].None?
    ensures LastPresent(cells) == cells[j]
    decreases |cells|
  {
    if j < |cells| - 1 {
      LastPresentAt(cells[..|cells| - 1], j);
    }
  }

  lemma {:induction false} LastPresentNone<V>(cells: seq<Option<V>>)
    ensures LastPresent(cells).None? <==> forall k :: 0 <= k < |cells| ==> cells[k].None?
    decreases |cells|
  {
    if cells != [] {
      LastPresentNone(cells[..|cells| - 1]);
    }
  }

  lemma {:induction false} FillFromAt<V>(cells: seq<Option<V>>, last: Option<V>, i: nat)
    requires i < |cells|
    ensures FillFrom(cells, last)[i] ==
              if LastPresent(cells[..i + 1]).Some? then LastPresent(cells[..i + 1]) else last
  {
    var v := if cells[0].Some? then cells[0] else last;
    if i == 0 {
      assert cells[..1] == [] + [cells[0]];
    } else {
      FillFromAt(cells[1..], v, i - 1);
      assert cells[..i + 1] == [cells[0]] + cells[1..][..i];
      LastPresentAppend([cells[0]], cells[1..][..i]);
      assert [cells[0]][..0] == [];
    }
  }

  /** Forward-fill keeps the length, keeps every present cell, fills a missing cell
      with the nearest present cell before it, and leaves a missing cell missing
      exactly when no cell before it is present. */
  lemma ForwardFillCells<V>(cells: seq<Option<V>>, i: nat)
    requires i < |cells|
    ensures |ForwardFill(cells)| == |cells|
    ensures cells[i].Some? ==> ForwardFill(cells)[i] == cells[i]
    ensures ForwardFill(cells)[i].None? <==> forall k :: 0 <= k <= i ==> cells[k].None?
  {
    FillFromAt(cells, None, i);
    LastPresentNone(cells[..i + 1]);
    if cells[i].Some? {
      LastPresentAt(cells[..i + 1], i);
    }
  }

  lemma ForwardFillNearest<V>(cells: seq<Option<V>>, i: nat, j: nat)
    requires j <= i < |cells| && cells[j].Some?
    requires forall k :: j < k <= i ==> cells[k].None?
    ensures ForwardFill(cells)[i] == cells[j]
  {
    FillFromAt(cells, None, i);
    LastPresentAt(cells[..i + 1], j);
  }

  predicate HasPriceColumns(columns: map<string, seq<Option<real>>>) {
    forall c :: c in PRICE_COLUMNS ==> c in columns
  }

  datatype FillError =
    /** `hist[['Open', 'High', 'Low', 'Close']]` raises KeyError when a column is absent. */
    | MissingPriceColumn

  /** The price history `hist`: its day index and its columns, each aligned with the index. */
  class History {
    var days: seq<int>
    var columns: map<string, seq<Option<real>>>

    /** A non-empty history (the script only reaches the fill when `hist.empty` is false). */
    ghost predicate Valid()
      reads this
    {
      && |days| > 0
      && StrictlyIncreasing(days)
      && forall c :: c in columns ==> |columns[c]| == |days|
    }

    /** StockDash.py lines 186-189. */
    method FillDailyGaps(interval: string) returns (result: Result<(), FillError>)
      requires Valid()
      modifies this
      ensures Valid()
      ensures interval !in DAILY_INTERVALS ==> days == old(days) && columns == old(columns) && result.Ok?
      ensures interval in DAILY_INTERVALS ==>
                && days == DayRange(old(days))
                && columns.Keys == old(columns).Keys
                && (result.Ok? <==> HasPriceColumns(old(columns)))
                && forall c :: c in columns ==>
                     var reindexed := Reindex(old(days), old(columns)[c]);
                     columns[c] == if result.Ok? && c in PRICE_COLUMNS then ForwardFill(reindexed) else reindexed
    {
      if interval !in DAILY_INTERVALS {
        return Ok(());
      }
      var oldDays := days;
      days := DayRange(oldDays);
      var reindexed := map c | c in columns :: Reindex(oldDays, columns[c]);
      assert forall c :: c in reindexed ==> |reindexed[c]| == |days|;
      columns := reindexed;
      if !HasPriceColumns(columns) {
        return Err(MissingPriceColumn);
      }
      var filled := map c | c in reindexed :: if c in PRICE_COLUMNS then ForwardFill(reindexed[c]) else reindexed[c];
      assert forall c :: c in filled ==> |filled[c]| == |days|;
      columns := filled;
      result := Ok(());
    }
  }
}
