/** The resampler as a whole: every channel's buckets (in the sorted order of
    `groupby`) with their estimate filled in by `re_tox`, and the guarantees
    that tie the gate, the two tiers and the buckets together. */
module Resample {
  import opened Wrappers
  import opened Ordering
  import opened Stats
  import opened Buckets
  import opened Averaging

  /** The estimate `re_tox` gives a bucket of channel `ch` starting at `t`
      with count `n`. */
  function Estimate(data: seq<Obs>, ch: string, t: int, n: nat): Option<real> {
    if n >= MinShort then MavTrueAt(data, ch, t) else MavFalseAt(data, ch, t)
  }

  /** The gate of `re_tox` never selects an undefined Tier 1: a bucket
      holding at least five observations in `[t, t + 5min)` has at least five
      in the closed window `[t, t + 5min]`. */
  lemma Tier1DefinedWhenGated(data: seq<Obs>, ch: string, i: nat)
    requires i < |Presample(data, ch)|
    requires Presample(data, ch)[i].count >= MinShort
    ensures MavTrueAt(data, ch, Presample(data, ch)[i].start).Some?
  {
    var b := Presample(data, ch)[i];
    var obs := OfChannel(data, ch);
    assert b.count == CountIn(obs, b.start, b.start + BucketLen);
    HalfOpenWithinClosed(obs, b.start, b.start + BucketLen);
    assert |ShortWindow(data, ch, b.start)| >= MinShort;
  }

  /** `re_tox` on one channel's buckets: each keeps its channel, start and
      count and receives the estimate of its own tier; no bucket's estimate
      depends on another bucket. */
  function ReToxChannel(data: seq<Obs>, ch: string): (r: seq<Bucket>)
    ensures |r| == |Presample(data, ch)|
    ensures forall i :: 0 <= i < |r| ==>
      var b := Presample(data, ch)[i];
      r[i] == b.(retox := Estimate(data, ch, b.start, b.count))
  {
    var p := Presample(data, ch);
    if |p| == 0 then [] else ReTox(p, data)
  }

  /** A resampled bucket is missing exactly when it failed the gate and the
      trailing day holds no observation of its channel; a bucket that passed
      the gate carries the mean of its closed 5-minute window. */
  lemma MissingExactlyWhenNoEvidence(data: seq<Obs>, ch: string, i: nat)
    requires i < |ReToxChannel(data, ch)|
    ensures var b := ReToxChannel(data, ch)[i];
      b.retox.None? <==> b.count < MinShort && |LongWindow(data, ch, b.start)| == 0
    ensures var b := ReToxChannel(data, ch)[i];
      b.count >= MinShort ==> b.retox == Some(Mean(Scores(ShortWindow(data, ch, b.start))))
  {
    var b := ReToxChannel(data, ch)[i];
    if b.count >= MinShort {
      Tier1DefinedWhenGated(data, ch, i);
    }
  }

  /** The channel of every observation, position by position. */
  function Sources(data: seq<Obs>): (r: seq<string>)
    ensures |r| == |data|
    ensures forall i :: 0 <= i < |data| ==> r[i] == data[i].source
  {
    seq(|data|, i requires 0 <= i < |data| => data[i].source)
  }

  /** The distinct channels of the data, in `groupby`'s sorted key order. */
  function Channels(data: seq<Obs>): (chs: seq<string>)
    ensures StrictlySorted(StrLt, chs)
    ensures forall c :: c in chs <==> c in Sources(data)
  {
    StrLtIsOrder();
    SortedDistinct(StrLt, Sources(data))
  }

  /** Every channel that occurs in the data is a group of the resampler. */
  lemma ChannelsComplete(data: seq<Obs>, i: nat)
    requires i < |data|
    ensures data[i].source in Channels(data)
  {
    assert Sources(data)[i] == data[i].source;
  }

  /** `(a, at)` comes strictly before `(b, bt)` in (channel, start) order. */
  predicate KeyLt(a: string, at: int, b: string, bt: int) {
    StrLt(a, b) || (a == b && at < bt)
  }

  /** Buckets in strictly increasing (channel, start) order. */
  ghost predicate KeyOrdered(r: seq<Bucket>) {
    forall i, j :: 0 <= i < j < |r| ==> KeyLt(r[i].source, r[i].start, r[j].source, r[j].start)
  }

  /** The buckets `re_tox` returns for a channel belong to that channel and
      start 5 minutes apart. */
  lemma ReToxChannelShape(data: seq<Obs>, ch: string)
    ensures var r := ReToxChannel(data, ch);
      forall i :: 0 <= i < |r| ==>
        r[i].source == ch && r[i].start == r[0].start + i * BucketLen
  {
    PresampleShape(data, ch);
  }

  /** The blocks of a sequence laid end to end. */
  function Flatten<T>(bs: seq<seq<T>>): seq<T> {
    if |bs| == 0 then [] else bs[0] + Flatten(bs[1..])
  }

  /** Every element of every block appears in the flattening. */
  lemma {:induction false} FlattenContains<T>(bs: seq<seq<T>>, k: nat, i: nat)
    requires k < |bs| && i < |bs[k]|
    ensures bs[k][i] in Flatten(bs)
  {
    if k > 0 {
      assert bs[1..][k - 1] == bs[k];
      FlattenContains(bs[1..], k - 1, i);
    }
  }

  /** Where the `j`-th element of the flattening comes from: block `k`,
      position `i`. */
  function Locate<T>(bs: seq<seq<T>>, j: nat): (ki: (nat, nat))
    requires j < |Flatten(bs)|
    ensures ki.0 < |bs| && ki.1 < |bs[ki.0]|
    ensures Flatten(bs)[j] == bs[ki.0][ki.1]
  {
    if j < |bs[0]| then (0, j)
    else
      var ki := Locate(bs[1..], j - |bs[0]|);
      (ki.0 + 1, ki.1)
  }

  /** Blocks of strictly increasing channels, each running 5 minutes apart
      within its channel, flatten into strictly increasing (channel, start)
      order. */
  lemma {:induction false} FlattenOrdered(bs: seq<seq<Bucket>>, chs: seq<string>)
    requires |bs| == |chs|
    requires StrictlySorted(StrLt, chs)
    requires forall k, i :: 0 <= k < |bs| && 0 <= i < |bs[k]| ==>
      bs[k][i].source == chs[k] && bs[k][i].start == bs[k][0].start + i * BucketLen
    ensures KeyOrdered(Flatten(bs))
  {
    if |bs| > 0 {
      var rest := Flatten(bs[1..]);
      assert forall k :: 0 <= k < |bs[1..]| ==> bs[1..][k] == bs[k + 1] && chs[1..][k] == chs[k + 1];
      FlattenOrdered(bs[1..], chs[1..]);
      forall i | 0 <= i < |rest| ensures StrLt(chs[0], rest[i].source) {
        var ki := Locate(bs[1..], i);
        assert rest[i] == bs[ki.0 + 1][ki.1];
      }
      BlocksOrdered(bs[0], rest, chs[0]);
    }
  }

  /** One channel's block followed by a block of later channels stays in
      (channel, start) order. */
  lemma BlocksOrdered(head: seq<Bucket>, rest: seq<Bucket>, c: string)
    requires forall i :: 0 <= i < |head| ==>
      head[i].source == c && head[i].start == head[0].start + i * BucketLen
    requires KeyOrdered(rest)
    requires forall i :: 0 <= i < |rest| ==> StrLt(c, rest[i].source)
    ensures KeyOrdered(head + rest)
  {
    var r := head + rest;
    forall i, j | 0 <= i < j < |r|
      ensures KeyLt(r[i].source, r[i].start, r[j].source, r[j].start)
    {
      if j < |head| {
        assert r[i] == head[i] && r[j] == head[j];
      } else if i < |head| {
        assert r[i] == head[i] && r[j] == rest[j - |head|];
      } else {
        assert r[i] == rest[i - |head|] && r[j] == rest[j - |head|];
      }
    }
  }

  /** The resampled block of each listed channel, in the listed order. */
  function Blocks(data: seq<Obs>, chs: seq<string>): (bs: seq<seq<Bucket>>)
    ensures |bs| == |chs|
    ensures forall k :: 0 <= k < |chs| ==> bs[k] == ReToxChannel(data, chs[k])
  {
    seq(|chs|, k requires 0 <= k < |chs| => ReToxChannel(data, chs[k]))
  }

  /** A resampled bucket of channel `ch` counts the channel's observations in
      `[start, start + 5min)` and carries the estimate of its tier. */
  ghost predicate Faithful(data: seq<Obs>, b: Bucket) {
    && b.count == CountIn(OfChannel(data, b.source), b.start, b.start + BucketLen)
    && b.retox == Estimate(data, b.source, b.start, b.count)
  }

  /** A bucket of the channel's run, given the estimate of its tier, is
      faithful. */
  lemma FaithfulOf(data: seq<Obs>, ch: string, b: Bucket, x: Bucket)
    requires b.source == ch
    requires b.count == CountIn(OfChannel(data, ch), b.start, b.start + BucketLen)
    requires x == b.(retox := Estimate(data, ch, b.start, b.count))
    ensures x.source == ch
    ensures Faithful(data, x)
  {
  }

  /** One bucket `re_tox` returns for a channel is faithful to the data. */
  lemma ReToxBucketFaithful(data: seq<Obs>, ch: string, i: nat)
    requires i < |ReToxChannel(data, ch)|
    ensures ReToxChannel(data, ch)[i].source == ch
    ensures Faithful(data, ReToxChannel(data, ch)[i])
  {
    var b := Presample(data, ch)[i];
    PresampleBucket(data, ch, i);
    FaithfulOf(data, ch, b, ReToxChannel(data, ch)[i]);
  }

  /** The buckets `re_tox` returns for a channel are faithful to the data. */
  lemma ReToxChannelFaithful(data: seq<Obs>, ch: string)
    ensures var r := ReToxChannel(data, ch);
      forall i :: 0 <= i < |r| ==> r[i].source == ch && Faithful(data, r[i])
  {
    forall i | 0 <= i < |ReToxChannel(data, ch)|
      ensures ReToxChannel(data, ch)[i].source == ch && Faithful(data, ReToxChannel(data, ch)[i])
    {
      ReToxBucketFaithful(data, ch, i);
    }
  }

  /** The resampled frame (`groupby(level=0).apply(re_tox)`): the blocks of
      all channels, one channel after another in sorted order. */
  function Resampled(data: seq<Obs>): seq<Bucket> {
    Flatten(Blocks(data, Channels(data)))
  }

  /** The resampled frame is in strictly increasing (channel, start) order,
      so no (channel, start) pair repeats. */
  lemma ResampledOrdered(data: seq<Obs>)
    ensures KeyOrdered(Resampled(data))
  {
    var chs := Channels(data);
    var bs: seq<seq<Bucket>> := Blocks(data, chs);
    forall k | 0 <= k < |bs|
      ensures forall i :: 0 <= i < |bs[k]| ==>
        bs[k][i].source == chs[k] && bs[k][i].start == bs[k][0].start + i * BucketLen
    {
      ReToxChannelShape(data, chs[k]);
    }
    FlattenOrdered(bs, chs);
  }

  /** Every bucket of the resampled frame belongs to a channel of the data,
      counts its channel's observations in `[start, start + 5min)` and
      carries the estimate of its tier. */
  lemma ResampledBuckets(data: seq<Obs>)
    ensures forall j :: 0 <= j < |Resampled(data)| ==> Resampled(data)[j].source in Sources(data)
    ensures forall j :: 0 <= j < |Resampled(data)| ==>
      Resampled(data)[j].count ==
        CountIn(OfChannel(data, Resampled(data)[j].source), Resampled(data)[j].start, Resampled(data)[j].start + BucketLen)
    ensures forall j :: 0 <= j < |Resampled(data)| ==>
      Resampled(data)[j].retox ==
        Estimate(data, Resampled(data)[j].source, Resampled(data)[j].start, Resampled(data)[j].count)
  {
    var chs := Channels(data);
    var bs: seq<seq<Bucket>> := Blocks(data, chs);
    forall j | 0 <= j < |Resampled(data)|
      ensures Faithful(data, Resampled(data)[j]) && Resampled(data)[j].source in Sources(data)
    {
      var ki := Locate(bs, j);
      ReToxChannelFaithful(data, chs[ki.0]);
      assert Resampled(data)[j] == ReToxChannel(data, chs[ki.0])[ki.1];
    }
  }

  /** Every observation falls in a bucket of the resampled frame of its own
      channel. */
  lemma ResampledCovers(data: seq<Obs>, k: nat)
    requires k < |data|
    ensures exists b :: b in Resampled(data) && b.source == data[k].source && InBucket(b, data[k].time)
  {
    var o := data[k];
    var chs := Channels(data);
    ChannelsComplete(data, k);
    var c :| 0 <= c < |chs| && chs[c] == o.source;
    PresampleCovers(data, o.source, o);
    var p := Presample(data, o.source);
    var i :| 0 <= i < |p| && InBucket(p[i], o.time) && OnlyBucket(p, o.time, i);
    var bs: seq<seq<Bucket>> := Blocks(data, chs);
    FlattenContains(bs, c, i);
    var b := ReToxChannel(data, o.source)[i];
    assert b.source == o.source && b.start == p[i].start;
  }

  /** Every bucket `re_tox` returns for the channel of observation `k`, the
      empty ones included, is a bucket of the resampled frame. */
  lemma ResampledHasChannelBuckets(data: seq<Obs>, k: nat, i: nat)
    requires k < |data|
    requires i < |Presample(data, data[k].source)|
    ensures ReToxChannel(data, data[k].source)[i] in Resampled(data)
  {
    var chs := Channels(data);
    ChannelsComplete(data, k);
    var c :| 0 <= c < |chs| && chs[c] == data[k].source;
    FlattenContains(Blocks(data, chs), c, i);
  }

  /** The resampled frame holds only buckets of its channels' runs: bucket
      `j` is bucket `i` of the run `re_tox` returns for its own channel, so
      its start is 5-minute aligned and inside the channel's range. */
  lemma ResampledOnlyChannelBuckets(data: seq<Obs>, j: nat)
    requires j < |Resampled(data)|
    ensures var b := Resampled(data)[j];
      exists i :: 0 <= i < |Presample(data, b.source)| && b == ReToxChannel(data, b.source)[i]
  {
    var chs := Channels(data);
    var bs := Blocks(data, chs);
    var ki := Locate(bs, j);
    ReToxChannelShape(data, chs[ki.0]);
    assert Resampled(data)[j] == ReToxChannel(data, chs[ki.0])[ki.1];
  }
}
