/** The hand-over between the two stages: the resampler's buckets, read back
    by the estimator as (channel, bucket start, estimate) rows, always
    pivot, and the pivot's channel columns are distinct, which is what the
    ID maps of the estimation loop rely on. */
module Pipeline {
  import opened Wrappers
  import opened Ordering
  import opened Buckets
  import opened Resample
  import opened Pivoting

  /** The rows the estimator reads back for a list of buckets: the channel,
      the bucket start as the time index and the estimate. */
  function ToRows(r: seq<Bucket>): (rows: seq<Row>)
    ensures |rows| == |r|
    ensures forall i :: 0 <= i < |r| ==>
      rows[i].source == r[i].source && rows[i].time == r[i].start && rows[i].retox == r[i].retox
  {
    seq(|r|, i requires 0 <= i < |r| => Row(r[i].source, r[i].start, r[i].retox))
  }

  /** Buckets in strictly increasing (channel, start) order give rows with
      no repeated (bucket start, channel) pair. */
  lemma OrderedRowsUnique(r: seq<Bucket>)
    requires KeyOrdered(r)
    ensures UniqueKeys(ToRows(r))
  {
    var rows := ToRows(r);
    forall i, j | 0 <= i < j < |rows|
      ensures rows[i].time != rows[j].time || rows[i].source != rows[j].source
    {
      assert KeyLt(r[i].source, r[i].start, r[j].source, r[j].start);
      StrLtIrreflexive(r[i].source);
    }
  }

  /** The resampled frame always pivots (the estimator never meets pandas'
      duplicate-entry error), and the pivot's channels are distinct. */
  lemma ResampledPivots(data: seq<Obs>)
    ensures Pivot(ToRows(Resampled(data))).Some?
    ensures Distinct(Pivot(ToRows(Resampled(data))).value.columns)
  {
    ResampledOrdered(data);
    OrderedRowsUnique(Resampled(data));
    StrLtIsOrder();
    SortedIsDistinct(StrLt, Pivot(ToRows(Resampled(data))).value.columns);
  }

  /** Every channel of the data is a column of the pivot. */
  lemma PivotHasEveryChannel(data: seq<Obs>, k: nat)
    requires k < |data|
    ensures Pivot(ToRows(Resampled(data))).Some?
    ensures data[k].source in Pivot(ToRows(Resampled(data))).value.columns
  {
    ResampledOrdered(data);
    ResampledCovers(data, k);
    ChannelInPivot(Resampled(data), data[k].source);
  }

  /** The channel of any bucket of an ordered list is a column of the
      pivot of its rows. */
  lemma ChannelInPivot(r: seq<Bucket>, c: string)
    requires KeyOrdered(r)
    requires exists b :: b in r && b.source == c
    ensures Pivot(ToRows(r)).Some?
    ensures c in Pivot(ToRows(r)).value.columns
  {
    OrderedRowsUnique(r);
    var rows := ToRows(r);
    var b :| b in r && b.source == c;
    var j :| 0 <= j < |r| && r[j] == b;
    assert RowChannels(rows)[j] == c;
  }
}
