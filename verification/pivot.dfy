/** The reshaping at the start of the estimator: the long resampled frame
    (one row per channel and bucket start) becomes a wide frame with one row
    per bucket start and one column per channel
    (`pd.pivot(resampled, columns=source, values=retox)`). */
module Pivoting {
  import opened Wrappers
  import opened Ordering

  /** One row of the resampled frame as the estimator reads it back: channel,
      bucket start in whole seconds, estimate (missing for NaN). */
  datatype Row = Row(source: string, time: int, retox: Option<real>)

  /** A wide frame: the sorted row labels (bucket starts), the sorted column
      labels (channels), and `cells[r][c]` for row `r` and column `c`. */
  datatype Frame = Frame(index: seq<int>, columns: seq<string>, cells: seq<seq<Option<real>>>)

  /** One cell per row label and column label. */
  ghost predicate WellShaped(f: Frame) {
    && |f.cells| == |f.index|
    && forall r :: 0 <= r < |f.cells| ==> |f.cells[r]| == |f.columns|
  }

  /** No (bucket start, channel) pair occurs in two rows. */
  ghost predicate UniqueKeys(rows: seq<Row>) {
    forall i, j :: 0 <= i < j < |rows| ==>
      rows[i].time != rows[j].time || rows[i].source != rows[j].source
  }

  /** Some row has bucket start `t` and channel `c`. */
  function HasKey(rows: seq<Row>, t: int, c: string): bool {
    if |rows| == 0 then false
    else (rows[0].time == t && rows[0].source == c) || HasKey(rows[1..], t, c)
  }

  lemma {:induction false} HasKeyIff(rows: seq<Row>, t: int, c: string)
    ensures HasKey(rows, t, c) <==>
      exists k :: 0 <= k < |rows| && rows[k].time == t && rows[k].source == c
  {
    if |rows| > 0 {
      HasKeyIff(rows[1..], t, c);
      if HasKey(rows[1..], t, c) {
        var k :| 0 <= k < |rows[1..]| && rows[1..][k].time == t && rows[1..][k].source == c;
        assert rows[k + 1] == rows[1..][k];
      }
      if exists k :: 0 <= k < |rows| && rows[k].time == t && rows[k].source == c {
        var k :| 0 <= k < |rows| && rows[k].time == t && rows[k].source == c;
        if k > 0 {
          assert rows[1..][k - 1] == rows[k];
        }
      }
    }
  }

  /** Some (bucket start, channel) pair repeats: the case in which pandas
      refuses to reshape. */
  function HasDuplicate(rows: seq<Row>): bool {
    if |rows| == 0 then false
    else HasKey(rows[1..], rows[0].time, rows[0].source) || HasDuplicate(rows[1..])
  }

  lemma {:induction false} HasDuplicateIff(rows: seq<Row>)
    ensures HasDuplicate(rows) <==> !UniqueKeys(rows)
  {
    if |rows| > 0 {
      var rest := rows[1..];
      HasDuplicateIff(rest);
      HasKeyIff(rest, rows[0].time, rows[0].source);
      if !UniqueKeys(rows) {
        var i, j :| 0 <= i < j < |rows| &&
          rows[i].time == rows[j].time && rows[i].source == rows[j].source;
        if i == 0 {
          assert rest[j - 1] == rows[j];
        } else {
          assert rest[i - 1] == rows[i] && rest[j - 1] == rows[j];
        }
      }
      if HasKey(rest, rows[0].time, rows[0].source) {
        var k :| 0 <= k < |rest| && rest[k].time == rows[0].time && rest[k].source == rows[0].source;
        assert rows[k + 1] == rest[k];
      }
      if !UniqueKeys(rest) {
        var i, j :| 0 <= i < j < |rest| &&
          rest[i].time == rest[j].time && rest[i].source == rest[j].source;
        assert rows[i + 1] == rest[i] && rows[j + 1] == rest[j];
      }
    }
  }

  /** The estimate of the first row with bucket start `t` and channel `c`;
      missing when there is none. */
  function Lookup(rows: seq<Row>, t: int, c: string): Option<real> {
    if |rows| == 0 then None
    else if rows[0].time == t && rows[0].source == c then rows[0].retox
    else Lookup(rows[1..], t, c)
  }

  /** A cell with no row behind it is missing. */
  lemma {:induction false} LookupMissing(rows: seq<Row>, t: int, c: string)
    requires !HasKey(rows, t, c)
    ensures Lookup(rows, t, c) == None
  {
    if |rows| > 0 {
      LookupMissing(rows[1..], t, c);
    }
  }

  /** With unique keys, every row is found under its own key. */
  lemma {:induction false} LookupFinds(rows: seq<Row>, k: nat)
    requires UniqueKeys(rows)
    requires k < |rows|
    ensures Lookup(rows, rows[k].time, rows[k].source) == rows[k].retox
  {
    if k > 0 {
      assert rows[0].time != rows[k].time || rows[0].source != rows[k].source;
      assert UniqueKeys(rows[1..]) by {
        assert forall i :: 0 <= i < |rows[1..]| ==> rows[1..][i] == rows[i + 1];
      }
      assert rows[1..][k - 1] == rows[k];
      LookupFinds(rows[1..], k - 1);
    }
  }

  /** The bucket start of every row, position by position. */
  function RowTimes(rows: seq<Row>): (r: seq<int>)
    ensures |r| == |rows|
    ensures forall i :: 0 <= i < |rows| ==> r[i] == rows[i].time
  {
    seq(|rows|, i requires 0 <= i < |rows| => rows[i].time)
  }

  /** The channel of every row, position by position. */
  function RowChannels(rows: seq<Row>): (r: seq<string>)
    ensures |r| == |rows|
    ensures forall i :: 0 <= i < |rows| ==> r[i] == rows[i].source
  {
    seq(|rows|, i requires 0 <= i < |rows| => rows[i].source)
  }

  /** The row labels of the pivot: the distinct bucket starts, increasing. */
  function PivotIndex(rows: seq<Row>): (r: seq<int>)
    ensures StrictlySorted(IntLt, r)
    ensures forall t :: t in r <==> t in RowTimes(rows)
  {
    IntLtIsOrder();
    SortedDistinct(IntLt, RowTimes(rows))
  }

  /** The column labels of the pivot: the distinct channels in Python's
      string order. */
  function PivotColumns(rows: seq<Row>): (r: seq<string>)
    ensures StrictlySorted(StrLt, r)
    ensures forall c :: c in r <==> c in RowChannels(rows)
  {
    StrLtIsOrder();
    SortedDistinct(StrLt, RowChannels(rows))
  }

  /** `pd.pivot(..., columns=source, values=retox)`: missing when some
      (bucket start, channel) pair repeats (pandas raises `ValueError`);
      otherwise the wide frame whose cell at (`t`, `c`) holds the estimate of
      the row with that key, missing when there is no such row. */
  function Pivot(rows: seq<Row>): (r: Option<Frame>)
    ensures r.None? <==> !UniqueKeys(rows)
    ensures r.Some? ==> WellShaped(r.value)
    ensures r.Some? ==> r.value.index == PivotIndex(rows) && r.value.columns == PivotColumns(rows)
  {
    HasDuplicateIff(rows);
    if HasDuplicate(rows) then None
    else
      var index := PivotIndex(rows);
      var columns := PivotColumns(rows);
      Some(Frame(index, columns,
        seq(|index|, i requires 0 <= i < |index| =>
          seq(|columns|, j requires 0 <= j < |columns| => Lookup(rows, index[i], columns[j])))))
  }

  /** Every row of the long frame lands in the cell of its bucket start and
      its channel. */
  lemma PivotPlaces(rows: seq<Row>, k: nat)
    requires UniqueKeys(rows)
    requires k < |rows|
    ensures var f := Pivot(rows).value;
      exists i, j :: 0 <= i < |f.index| && 0 <= j < |f.columns| &&
        f.index[i] == rows[k].time && f.columns[j] == rows[k].source &&
        f.cells[i][j] == rows[k].retox
  {
    var f := Pivot(rows).value;
    assert RowTimes(rows)[k] == rows[k].time;
    assert RowChannels(rows)[k] == rows[k].source;
    assert rows[k].time in f.index && rows[k].source in f.columns;
    var i :| 0 <= i < |f.index| && f.index[i] == rows[k].time;
    var j :| 0 <= j < |f.columns| && f.columns[j] == rows[k].source;
    LookupFinds(rows, k);
    assert f.cells[i][j] == Lookup(rows, rows[k].time, rows[k].source);
  }

  /** A cell of the wide frame holds the estimate of the row with its key,
      and is missing when no row has that key. */
  lemma PivotCell(rows: seq<Row>, i: nat, j: nat)
    requires UniqueKeys(rows)
    requires i < |Pivot(rows).value.index| && j < |Pivot(rows).value.columns|
    ensures var f := Pivot(rows).value;
      && (forall k :: 0 <= k < |rows| && rows[k].time == f.index[i] && rows[k].source == f.columns[j] ==>
            f.cells[i][j] == rows[k].retox)
      && (!HasKey(rows, f.index[i], f.columns[j]) ==> f.cells[i][j] == None)
  {
    var f := Pivot(rows).value;
    assert f.cells[i][j] == Lookup(rows, f.index[i], f.columns[j]);
    forall k | 0 <= k < |rows| && rows[k].time == f.index[i] && rows[k].source == f.columns[j]
      ensures f.cells[i][j] == rows[k].retox
    {
      LookupFinds(rows, k);
    }
    if !HasKey(rows, f.index[i], f.columns[j]) {
      LookupMissing(rows, f.index[i], f.columns[j]);
    }
  }
}
