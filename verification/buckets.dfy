/** The bucketing step of the resampler: a channel's observations are counted
    per 5-minute bucket (`groupby(source).resample('5T').count()`), and every
    bucket starts with a missing `retox`. */
module Buckets {
  import opened Wrappers

  /** Length of a bucket in seconds (pandas' '5T' rule). */
  const BucketLen: int := 300

  /** One scored message: its channel, its time in whole seconds, and its
      toxicity score. */
  datatype Obs = Obs(source: string, time: int, score: real)

  /** One row of the presampled frame: channel, bucket start, number of the
      channel's observations in the bucket, and the resampled estimate. */
  datatype Bucket = Bucket(source: string, start: int, count: nat, retox: Option<real>)

  /** Observations in non-decreasing time order (the frame after
      `set_index(...).sort_index()`). */
  ghost predicate SortedByTime(data: seq<Obs>) {
    forall i, j :: 0 <= i < j < |data| ==> data[i].time <= data[j].time
  }

  /** The observations of one channel, in their original order
      (`data[data[source] == channel]`). */
  function OfChannel(data: seq<Obs>, ch: string): (r: seq<Obs>)
    ensures |r| <= |data|
    ensures forall i :: 0 <= i < |r| ==> r[i].source == ch
  {
    if |data| == 0 then []
    else
      var rest := OfChannel(data[1..], ch);
      if data[0].source == ch then
        assert forall i :: 0 < i <= |rest| ==> ([data[0]] + rest)[i] == rest[i - 1];
        [data[0]] + rest
      else rest
  }

  /** Only observations of `data` are selected. */
  lemma {:induction false} OfChannelSound(data: seq<Obs>, ch: string)
    ensures forall i :: 0 <= i < |OfChannel(data, ch)| ==> OfChannel(data, ch)[i] in data
  {
    if |data| > 0 {
      OfChannelSound(data[1..], ch);
      var rest := OfChannel(data[1..], ch);
      assert forall i :: 0 <= i < |rest| ==> rest[i] in data[1..] ==> rest[i] in data;
    }
  }

  /** Selecting a channel keeps every observation of the channel as often
      as it occurs in the data, and drops every other one. */
  lemma {:induction false} OfChannelMultiset(data: seq<Obs>, ch: string, o: Obs)
    ensures multiset(OfChannel(data, ch))[o] == if o.source == ch then multiset(data)[o] else 0
  {
    if |data| > 0 {
      OfChannelMultiset(data[1..], ch, o);
      assert data == [data[0]] + data[1..];
      if data[0].source == ch {
        assert multiset(OfChannel(data, ch)) == multiset([data[0]]) + multiset(OfChannel(data[1..], ch));
      }
    }
  }

  /** A lower bound on every time of `data` bounds the selected times. */
  lemma {:induction false} OfChannelAfter(data: seq<Obs>, ch: string, t: int)
    requires forall i :: 0 <= i < |data| ==> t <= data[i].time
    ensures forall i :: 0 <= i < |OfChannel(data, ch)| ==> t <= OfChannel(data, ch)[i].time
  {
    if |data| > 0 {
      assert forall i :: 0 <= i < |data[1..]| ==> data[1..][i] == data[i + 1];
      OfChannelAfter(data[1..], ch, t);
    }
  }

  /** Every observation of the channel is selected. */
  lemma {:induction false} OfChannelComplete(data: seq<Obs>, ch: string, o: Obs)
    requires o in data && o.source == ch
    ensures o in OfChannel(data, ch)
  {
    if data[0] != o {
      assert o in data[1..];
      OfChannelComplete(data[1..], ch, o);
    }
  }

  /** Selecting a channel keeps time order. */
  lemma {:induction false} OfChannelSorted(data: seq<Obs>, ch: string)
    requires SortedByTime(data)
    ensures SortedByTime(OfChannel(data, ch))
  {
    if |data| > 0 {
      var rest := OfChannel(data[1..], ch);
      assert SortedByTime(data[1..]) by {
        assert forall i :: 0 <= i < |data[1..]| ==> data[1..][i] == data[i + 1];
      }
      OfChannelSorted(data[1..], ch);
      if data[0].source == ch {
        assert forall i :: 0 <= i < |data[1..]| ==> data[0].time <= data[1..][i].time;
        OfChannelAfter(data[1..], ch, data[0].time);
        var r := [data[0]] + rest;
        forall i, j | 0 <= i < j < |r| ensures r[i].time <= r[j].time {
          assert r[j] == rest[j - 1];
          if i > 0 {
            assert r[i] == rest[i - 1];
          }
        }
      }
    }
  }

  /** A channel selects nothing exactly when no observation belongs to it. */
  lemma {:induction false} OfChannelEmpty(data: seq<Obs>, ch: string)
    ensures |OfChannel(data, ch)| == 0 <==> forall i :: 0 <= i < |data| ==> data[i].source != ch
  {
    if |data| > 0 {
      OfChannelEmpty(data[1..], ch);
      assert forall i :: 1 <= i < |data| ==> data[i] == data[1..][i - 1];
    }
  }

  /** Selecting a channel distributes over concatenation. */
  lemma {:induction false} OfChannelAppend(a: seq<Obs>, b: seq<Obs>, ch: string)
    ensures OfChannel(a + b, ch) == OfChannel(a, ch) + OfChannel(b, ch)
  {
    if |a| > 0 {
      assert (a + b)[1..] == a[1..] + b;
      OfChannelAppend(a[1..], b, ch);
    } else {
      assert a + b == b;
    }
  }

  /** Number of observations with time in the half-open interval `[lo, hi)`. */
  function CountIn(obs: seq<Obs>, lo: int, hi: int): (n: nat)
    ensures n <= |obs|
  {
    if |obs| == 0 then 0
    else
      (if lo <= obs[0].time < hi then 1 else 0) + CountIn(obs[1..], lo, hi)
  }

  /** An observation inside the interval makes the count positive. */
  lemma {:induction false} CountPositive(obs: seq<Obs>, lo: int, hi: int, k: nat)
    requires k < |obs| && lo <= obs[k].time < hi
    ensures CountIn(obs, lo, hi) > 0
  {
    if k > 0 {
      assert obs[1..][k - 1] == obs[k];
      CountPositive(obs[1..], lo, hi, k - 1);
    }
  }

  /** An empty interval counts nothing. */
  lemma {:induction false} CountEmpty(obs: seq<Obs>, lo: int)
    ensures CountIn(obs, lo, lo) == 0
  {
    if |obs| > 0 {
      CountEmpty(obs[1..], lo);
    }
  }

  /** Adjacent half-open intervals split a count. */
  lemma {:induction false} CountSplit(obs: seq<Obs>, a: int, b: int, c: int)
    requires a <= b <= c
    ensures CountIn(obs, a, b) + CountIn(obs, b, c) == CountIn(obs, a, c)
  {
    if |obs| > 0 {
      CountSplit(obs[1..], a, b, c);
    }
  }

  /** An interval holding every observation counts all of them. */
  lemma {:induction false} CountAll(obs: seq<Obs>, lo: int, hi: int)
    requires forall i :: 0 <= i < |obs| ==> lo <= obs[i].time < hi
    ensures CountIn(obs, lo, hi) == |obs|
  {
    if |obs| > 0 {
      assert forall i :: 0 <= i < |obs[1..]| ==> obs[1..][i] == obs[i + 1];
      CountAll(obs[1..], lo, hi);
    }
  }

  /** Index of the bucket holding time `t`: the floor of `t / BucketLen`
      (Dafny's division rounds down for a positive divisor). */
  function BucketIndex(t: int): (q: int)
    ensures q * BucketLen <= t < (q + 1) * BucketLen
  {
    t / BucketLen
  }

  lemma BucketIndexMonotone(s: int, t: int)
    requires s <= t
    ensures BucketIndex(s) <= BucketIndex(t)
  {
  }

  /** Earliest time of a non-empty sequence of observations. */
  function Earliest(obs: seq<Obs>): (t: int)
    requires |obs| > 0
    ensures forall i :: 0 <= i < |obs| ==> t <= obs[i].time
  {
    if |obs| == 1 then obs[0].time
    else
      var rest := Earliest(obs[1..]);
      assert forall i :: 1 <= i < |obs| ==> obs[i] == obs[1..][i - 1];
      if obs[0].time <= rest then obs[0].time else rest
  }

  /** Latest time of a non-empty sequence of observations. */
  function Latest(obs: seq<Obs>): (t: int)
    requires |obs| > 0
    ensures forall i :: 0 <= i < |obs| ==> obs[i].time <= t
  {
    if |obs| == 1 then obs[0].time
    else
      var rest := Latest(obs[1..]);
      assert forall i :: 1 <= i < |obs| ==> obs[i] == obs[1..][i - 1];
      if obs[0].time >= rest then obs[0].time else rest
  }

  /** The earliest and the latest time are times of observations. */
  lemma {:induction false} ExtremesAttained(obs: seq<Obs>)
    requires |obs| > 0
    ensures exists i :: 0 <= i < |obs| && obs[i].time == Earliest(obs)
    ensures exists i :: 0 <= i < |obs| && obs[i].time == Latest(obs)
  {
    if |obs| == 1 {
      assert obs[0].time == Earliest(obs) && obs[0].time == Latest(obs);
    } else {
      ExtremesAttained(obs[1..]);
      var i :| 0 <= i < |obs[1..]| && obs[1..][i].time == Earliest(obs[1..]);
      var j :| 0 <= j < |obs[1..]| && obs[1..][j].time == Latest(obs[1..]);
      assert obs[i + 1].time == Earliest(obs[1..]) && obs[j + 1].time == Latest(obs[1..]);
      assert Earliest(obs) == obs[0].time || Earliest(obs) == obs[i + 1].time;
      assert Latest(obs) == obs[0].time || Latest(obs) == obs[j + 1].time;
    }
  }

  /** `n` consecutive buckets of channel `ch`, the first starting at `lo`,
      each counting the observations of `obs` it holds. */
  function BucketRun(obs: seq<Obs>, ch: string, lo: int, n: nat): (r: seq<Bucket>)
    ensures |r| == n
    ensures forall i :: 0 <= i < n ==>
      && r[i].source == ch
      && r[i].retox == None
      && r[i].start == lo + i * BucketLen
      && r[i].count == CountIn(obs, r[i].start, r[i].start + BucketLen)
  {
    seq(n, i requires 0 <= i < n =>
      Bucket(ch, lo + i * BucketLen,
             CountIn(obs, lo + i * BucketLen, lo + i * BucketLen + BucketLen), None))
  }

  /** Start of the bucket holding the earliest observation. */
  function FirstStart(obs: seq<Obs>): int
    requires |obs| > 0
  {
    BucketIndex(Earliest(obs)) * BucketLen
  }

  /** Number of buckets from the one holding the earliest observation to the
      one holding the latest. */
  function SpanLen(obs: seq<Obs>): (n: nat)
    requires |obs| > 0
    ensures n >= 1
  {
    BucketIndexMonotone(Earliest(obs), Latest(obs));
    BucketIndex(Latest(obs)) - BucketIndex(Earliest(obs)) + 1
  }

  /** The last bucket of the span holds the latest observation. */
  lemma SpanEnd(obs: seq<Obs>)
    requires |obs| > 0
    ensures FirstStart(obs) + (SpanLen(obs) - 1) * BucketLen == BucketIndex(Latest(obs)) * BucketLen
  {
    var first := BucketIndex(Earliest(obs));
    var last := BucketIndex(Latest(obs));
    assert SpanLen(obs) - 1 == last - first;
    assert first * BucketLen + (last - first) * BucketLen == last * BucketLen;
  }

  /** Every observation lies in the span of the buckets. */
  lemma SpanHolds(obs: seq<Obs>)
    requires |obs| > 0
    ensures forall i :: 0 <= i < |obs| ==>
      FirstStart(obs) <= obs[i].time < FirstStart(obs) + SpanLen(obs) * BucketLen
  {
    var first := BucketIndex(Earliest(obs));
    var last := BucketIndex(Latest(obs));
    assert FirstStart(obs) + SpanLen(obs) * BucketLen == (last + 1) * BucketLen;
    forall i | 0 <= i < |obs|
      ensures FirstStart(obs) <= obs[i].time < (last + 1) * BucketLen
    {
      assert Earliest(obs) <= obs[i].time <= Latest(obs);
    }
  }

  /** The buckets of channel `ch` (`groupby(source).resample('5T').count()`
      with `retox` set to missing): one per 5-minute interval from the bucket
      of its earliest observation to the bucket of its latest, empty ones
      included. */
  function Presample(data: seq<Obs>, ch: string): seq<Bucket> {
    var obs := OfChannel(data, ch);
    if |obs| == 0 then [] else BucketRun(obs, ch, FirstStart(obs), SpanLen(obs))
  }

  /** A channel has no buckets exactly when it has no observations. */
  lemma PresampleEmpty(data: seq<Obs>, ch: string)
    ensures |Presample(data, ch)| == 0 <==> forall i :: 0 <= i < |data| ==> data[i].source != ch
  {
    OfChannelEmpty(data, ch);
  }

  lemma FirstStartAligned(obs: seq<Obs>)
    requires |obs| > 0
    ensures FirstStart(obs) % BucketLen == 0
  {
  }

  /** The buckets of a run follow each other at 5-minute steps. */
  lemma RunShape(obs: seq<Obs>, ch: string, lo: int, n: nat)
    ensures var r := BucketRun(obs, ch, lo, n);
      forall i :: 0 <= i < n ==>
        && r[i].source == ch
        && r[i].retox == None
        && r[i].start == r[0].start + i * BucketLen
        && r[i].count == CountIn(obs, r[i].start, r[i].start + BucketLen)
  {
  }

  /** One bucket of a channel: of that channel, counting the channel's
      observations in `[start, start + 5min)`, with a missing estimate. */
  lemma PresampleBucket(data: seq<Obs>, ch: string, i: nat)
    requires i < |Presample(data, ch)|
    ensures var b := Presample(data, ch)[i];
      && b.source == ch
      && b.count == CountIn(OfChannel(data, ch), b.start, b.start + BucketLen)
      && b.retox == None
  {
  }

  /** The buckets spanning a non-empty sequence of observations are aligned
      to 5 minutes and follow each other at 5-minute steps. */
  lemma SpanShape(obs: seq<Obs>, ch: string)
    requires |obs| > 0
    ensures var r := BucketRun(obs, ch, FirstStart(obs), SpanLen(obs));
      && r[0].start % BucketLen == 0
      && forall i :: 0 <= i < |r| ==>
        && r[i].source == ch
        && r[i].retox == None
        && r[i].start == r[0].start + i * BucketLen
        && r[i].count == CountIn(obs, r[i].start, r[i].start + BucketLen)
  {
    FirstStartAligned(obs);
    RunShape(obs, ch, FirstStart(obs), SpanLen(obs));
  }

  /** A channel has buckets exactly when it has observations; its buckets
      are aligned to 5 minutes, consecutive, start with a missing estimate,
      and count the channel's observations in `[start, start + 5min)`. */
  lemma PresampleShape(data: seq<Obs>, ch: string)
    ensures |Presample(data, ch)| == 0 <==> forall i :: 0 <= i < |data| ==> data[i].source != ch
    ensures |Presample(data, ch)| > 0 ==> Presample(data, ch)[0].start % BucketLen == 0
    ensures forall i :: 0 <= i < |Presample(data, ch)| ==>
      && Presample(data, ch)[i].source == ch
      && Presample(data, ch)[i].retox == None
      && Presample(data, ch)[i].start == Presample(data, ch)[0].start + i * BucketLen
      && Presample(data, ch)[i].count ==
           CountIn(OfChannel(data, ch), Presample(data, ch)[i].start, Presample(data, ch)[i].start + BucketLen)
  {
    PresampleEmpty(data, ch);
    var obs := OfChannel(data, ch);
    if |obs| > 0 {
      SpanShape(obs, ch);
    }
  }

  /** Sum of the counts of a sequence of buckets. */
  function TotalCount(bs: seq<Bucket>): nat {
    if |bs| == 0 then 0 else bs[0].count + TotalCount(bs[1..])
  }

  /** Time `t` falls in bucket `b`. */
  predicate InBucket(b: Bucket, t: int) {
    b.start <= t < b.start + BucketLen
  }

  /** No bucket of `r` other than the `i`-th holds time `t`. */
  predicate OnlyBucket(r: seq<Bucket>, t: int, i: int) {
    forall j :: 0 <= j < |r| && InBucket(r[j], t) ==> j == i
  }

  /** In buckets laid end to end from `lo`, a time within their span lies in
      exactly one bucket. */
  lemma RunCovers(r: seq<Bucket>, lo: int, t: int)
    requires forall i :: 0 <= i < |r| ==> r[i].start == lo + i * BucketLen
    requires lo <= t < lo + |r| * BucketLen
    ensures exists i :: 0 <= i < |r| && InBucket(r[i], t) && OnlyBucket(r, t, i)
  {
    var i := (t - lo) / BucketLen;
    assert r[i].start == lo + i * BucketLen;
    forall j | 0 <= j < |r| && InBucket(r[j], t)
      ensures j == i
    {
      assert r[j].start == lo + j * BucketLen;
    }
  }

  /** Every observation of the channel lies in exactly one of its buckets. */
  lemma PresampleCovers(data: seq<Obs>, ch: string, o: Obs)
    requires o in data && o.source == ch
    ensures var r := Presample(data, ch);
      exists i :: 0 <= i < |r| && InBucket(r[i], o.time) && OnlyBucket(r, o.time, i)
  {
    var obs := OfChannel(data, ch);
    OfChannelComplete(data, ch, o);
    var k :| 0 <= k < |obs| && obs[k] == o;
    SpanHolds(obs);
    assert FirstStart(obs) <= obs[k].time < FirstStart(obs) + SpanLen(obs) * BucketLen;
    RunCovers(Presample(data, ch), FirstStart(obs), o.time);
  }

  /** A run whose first and last buckets each hold an observation. */
  lemma RunEndsOccupied(obs: seq<Obs>, ch: string, lo: int, n: nat, e: nat, l: nat)
    requires n > 0 && e < |obs| && l < |obs|
    requires lo <= obs[e].time < lo + BucketLen
    requires lo + (n - 1) * BucketLen <= obs[l].time < lo + n * BucketLen
    ensures var r := BucketRun(obs, ch, lo, n);
      r[0].count > 0 && r[n - 1].count > 0
  {
    CountPositive(obs, lo, lo + BucketLen, e);
    CountPositive(obs, lo + (n - 1) * BucketLen, lo + (n - 1) * BucketLen + BucketLen, l);
  }

  /** The buckets spanning a non-empty sequence of observations have an
      occupied first and last bucket. */
  lemma SpanEndsOccupied(obs: seq<Obs>, ch: string)
    requires |obs| > 0
    ensures var r := BucketRun(obs, ch, FirstStart(obs), SpanLen(obs));
      r[0].count > 0 && r[|r| - 1].count > 0
  {
    ExtremesAttained(obs);
    var e :| 0 <= e < |obs| && obs[e].time == Earliest(obs);
    var l :| 0 <= l < |obs| && obs[l].time == Latest(obs);
    SpanEnd(obs);
    RunEndsOccupied(obs, ch, FirstStart(obs), SpanLen(obs), e, l);
  }

  /** The first and the last bucket of a channel are never empty: the bucket
      range is exactly the span of the channel's observations. */
  lemma PresampleEndsOccupied(data: seq<Obs>, ch: string)
    requires |Presample(data, ch)| > 0
    ensures var r := Presample(data, ch);
      r[0].count > 0 && r[|r| - 1].count > 0
  {
    SpanEndsOccupied(OfChannel(data, ch), ch);
  }

  /** Buckets laid end to end count the interval they span together. */
  lemma {:induction false} SpanTotal(r: seq<Bucket>, obs: seq<Obs>, lo: int)
    requires forall i :: 0 <= i < |r| ==>
      r[i].start == lo + i * BucketLen &&
      r[i].count == CountIn(obs, r[i].start, r[i].start + BucketLen)
    ensures TotalCount(r) == CountIn(obs, lo, lo + |r| * BucketLen)
  {
    if |r| > 0 {
      var mid := lo + BucketLen;
      forall i | 0 <= i < |r[1..]|
        ensures r[1..][i].start == mid + i * BucketLen
      {
        assert r[1..][i] == r[i + 1];
      }
      SpanTotal(r[1..], obs, mid);
      assert mid + |r[1..]| * BucketLen == lo + |r| * BucketLen;
      CountSplit(obs, lo, mid, lo + |r| * BucketLen);
    } else {
      CountEmpty(obs, lo);
    }
  }

  /** The buckets spanning a non-empty sequence of observations count each
      of them once. */
  lemma SpanPartitions(obs: seq<Obs>, ch: string)
    requires |obs| > 0
    ensures TotalCount(BucketRun(obs, ch, FirstStart(obs), SpanLen(obs))) == |obs|
  {
    var lo := FirstStart(obs);
    SpanHolds(obs);
    CountAll(obs, lo, lo + SpanLen(obs) * BucketLen);
    SpanTotal(BucketRun(obs, ch, lo, SpanLen(obs)), obs, lo);
  }

  /** The buckets of a channel partition its observations: their counts add
      up to the number of observations of the channel. */
  lemma PresamplePartitions(data: seq<Obs>, ch: string)
    ensures TotalCount(Presample(data, ch)) == |OfChannel(data, ch)|
  {
    var obs := OfChannel(data, ch);
    if |obs| > 0 {
      SpanPartitions(obs, ch);
    }
  }
}
