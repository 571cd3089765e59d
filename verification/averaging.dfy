/** The two averaging tiers of the resampler (`mav_true`, `mav_false`) and the
    count-gated choice between them (`re_tox`), over observations already
    parsed into whole-second timestamps. */
module Averaging {
  import opened Wrappers
  import opened Stats
  import opened Buckets

  /** Length of the long window in seconds (`pd.Timedelta(1, unit='d')`). */
  const DayLen: int := 86400

  /** Both the gate of `re_tox` and the re-check of `mav_true` ask for at
      least this many values. */
  const MinShort: nat := 5

  /** `mav_false` averages at most this many of the latest values (`tail(5)`). */
  const TailLen: nat := 5

  /** `.loc[lo:hi]` on the time-indexed frame: the observations whose time lies
      in the closed interval `[lo, hi]`, in their original order. */
  function Closed(obs: seq<Obs>, lo: int, hi: int): (r: seq<Obs>)
    ensures |r| <= |obs|
    ensures forall i :: 0 <= i < |r| ==> lo <= r[i].time <= hi
  {
    if |obs| == 0 then []
    else
      var rest := Closed(obs[1..], lo, hi);
      if lo <= obs[0].time <= hi then
        assert forall i :: 0 < i <= |rest| ==> ([obs[0]] + rest)[i] == rest[i - 1];
        [obs[0]] + rest
      else rest
  }

  /** Only observations of `obs` are selected. */
  lemma {:induction false} ClosedSound(obs: seq<Obs>, lo: int, hi: int)
    ensures forall i :: 0 <= i < |Closed(obs, lo, hi)| ==> Closed(obs, lo, hi)[i] in obs
  {
    if |obs| > 0 {
      ClosedSound(obs[1..], lo, hi);
      var rest := Closed(obs[1..], lo, hi);
      assert forall i :: 0 <= i < |rest| ==> rest[i] in obs[1..] ==> rest[i] in obs;
    }
  }

  /** The window keeps every observation inside the interval as often as it
      occurs in `obs`, and drops every other one. */
  lemma {:induction false} ClosedMultiset(obs: seq<Obs>, lo: int, hi: int, o: Obs)
    ensures multiset(Closed(obs, lo, hi))[o] == if lo <= o.time <= hi then multiset(obs)[o] else 0
  {
    if |obs| > 0 {
      ClosedMultiset(obs[1..], lo, hi, o);
      assert obs == [obs[0]] + obs[1..];
      if lo <= obs[0].time <= hi {
        assert multiset(Closed(obs, lo, hi)) == multiset([obs[0]]) + multiset(Closed(obs[1..], lo, hi));
      }
    }
  }

  /** Every observation of `obs` inside the interval is selected. */
  lemma {:induction false} ClosedComplete(obs: seq<Obs>, lo: int, hi: int, o: Obs)
    requires o in obs && lo <= o.time <= hi
    ensures o in Closed(obs, lo, hi)
  {
    if obs[0] != o {
      assert o in obs[1..];
      ClosedComplete(obs[1..], lo, hi, o);
    }
  }

  /** Selecting a window keeps a property shared by every observation: here,
      the channel. */
  lemma {:induction false} ClosedOfChannel(obs: seq<Obs>, lo: int, hi: int, ch: string)
    requires forall i :: 0 <= i < |obs| ==> obs[i].source == ch
    ensures forall i :: 0 <= i < |Closed(obs, lo, hi)| ==> Closed(obs, lo, hi)[i].source == ch
  {
    if |obs| > 0 {
      assert forall i :: 0 <= i < |obs[1..]| ==> obs[1..][i] == obs[i + 1];
      ClosedOfChannel(obs[1..], lo, hi, ch);
    }
  }

  /** A lower bound on every time of `obs` bounds the selected times. */
  lemma {:induction false} ClosedAfter(obs: seq<Obs>, lo: int, hi: int, t: int)
    requires forall i :: 0 <= i < |obs| ==> t <= obs[i].time
    ensures forall i :: 0 <= i < |Closed(obs, lo, hi)| ==> t <= Closed(obs, lo, hi)[i].time
  {
    if |obs| > 0 {
      assert forall i :: 0 <= i < |obs[1..]| ==> obs[1..][i] == obs[i + 1];
      ClosedAfter(obs[1..], lo, hi, t);
    }
  }

  /** A closed window of a time-sorted sequence is time-sorted. */
  lemma {:induction false} ClosedSorted(obs: seq<Obs>, lo: int, hi: int)
    requires SortedByTime(obs)
    ensures SortedByTime(Closed(obs, lo, hi))
  {
    if |obs| > 0 {
      var rest := Closed(obs[1..], lo, hi);
      assert SortedByTime(obs[1..]) by {
        assert forall i :: 0 <= i < |obs[1..]| ==> obs[1..][i] == obs[i + 1];
      }
      ClosedSorted(obs[1..], lo, hi);
      if lo <= obs[0].time <= hi {
        assert forall i :: 0 <= i < |obs[1..]| ==> obs[0].time <= obs[1..][i].time;
        ClosedAfter(obs[1..], lo, hi, obs[0].time);
        var r := [obs[0]] + rest;
        forall i, j | 0 <= i < j < |r| ensures r[i].time <= r[j].time {
          assert r[j] == rest[j - 1];
          if i > 0 {
            assert r[i] == rest[i - 1];
          }
        }
      }
    }
  }

  /** The half-open bucket `[lo, hi)` holds no more observations than the
      closed window `[lo, hi]`. */
  lemma {:induction false} HalfOpenWithinClosed(obs: seq<Obs>, lo: int, hi: int)
    ensures CountIn(obs, lo, hi) <= |Closed(obs, lo, hi)|
  {
    if |obs| > 0 {
      HalfOpenWithinClosed(obs[1..], lo, hi);
    }
  }

  /** Widening a closed window never loses observations. */
  lemma {:induction false} ClosedWiden(obs: seq<Obs>, lo: int, hi: int, lo': int, hi': int)
    requires lo' <= lo && hi <= hi'
    ensures |Closed(obs, lo, hi)| <= |Closed(obs, lo', hi')|
  {
    if |obs| > 0 {
      ClosedWiden(obs[1..], lo, hi, lo', hi');
    }
  }

  /** The scores of a sequence of observations, position by position. */
  function Scores(obs: seq<Obs>): (r: seq<real>)
    ensures |r| == |obs|
    ensures forall i :: 0 <= i < |obs| ==> r[i] == obs[i].score
  {
    seq(|obs|, i requires 0 <= i < |obs| => obs[i].score)
  }

  /** `tail(n)`: the last `n` elements, or all of them when there are fewer. */
  function Tail<T>(s: seq<T>, n: nat): (r: seq<T>)
    ensures |r| == if |s| <= n then |s| else n
    ensures r == s[|s| - |r|..]
  {
    if |s| <= n then s else s[|s| - n..]
  }

  /** The closed 5-minute window `[t, t + 5min]` of channel `ch`. */
  function ShortWindow(data: seq<Obs>, ch: string, t: int): seq<Obs> {
    Closed(OfChannel(data, ch), t, t + BucketLen)
  }

  /** The closed trailing day `[t + 5min - 1day, t + 5min]` of channel `ch`. */
  function LongWindow(data: seq<Obs>, ch: string, t: int): seq<Obs> {
    Closed(OfChannel(data, ch), t + BucketLen - DayLen, t + BucketLen)
  }

  /** An observation is in a channel's closed window `[lo, hi]` exactly when
      it is an observation of that channel with its time in the interval. */
  lemma ChannelWindowMembers(data: seq<Obs>, ch: string, lo: int, hi: int, o: Obs)
    ensures o in Closed(OfChannel(data, ch), lo, hi) <==> o in data && o.source == ch && lo <= o.time <= hi
  {
    var obs := OfChannel(data, ch);
    var w := Closed(obs, lo, hi);
    if o in w {
      var i :| 0 <= i < |w| && w[i] == o;
      ClosedSound(obs, lo, hi);
      var k :| 0 <= k < |obs| && obs[k] == o;
      OfChannelSound(data, ch);
      assert obs[k] in data;
    }
    if o in data && o.source == ch && lo <= o.time <= hi {
      OfChannelComplete(data, ch, o);
      ClosedComplete(obs, lo, hi, o);
    }
  }

  /** A channel's closed window `[lo, hi]` holds each observation of the
      channel inside the interval as often as the data does, and nothing
      else. */
  lemma ChannelWindowMultiset(data: seq<Obs>, ch: string, lo: int, hi: int, o: Obs)
    ensures multiset(Closed(OfChannel(data, ch), lo, hi))[o] ==
      if o.source == ch && lo <= o.time <= hi then multiset(data)[o] else 0
  {
    ClosedMultiset(OfChannel(data, ch), lo, hi, o);
    OfChannelMultiset(data, ch, o);
  }

  /** The number of observations of channel `ch` in `data` whose time lies
      in the closed interval `[lo, hi]`, counted over the whole data. */
  function CountWithin(data: seq<Obs>, ch: string, lo: int, hi: int): nat {
    if |data| == 0 then 0
    else
      (if data[0].source == ch && lo <= data[0].time <= hi then 1 else 0)
      + CountWithin(data[1..], ch, lo, hi)
  }

  /** The sum of the scores of those observations. */
  function SumWithin(data: seq<Obs>, ch: string, lo: int, hi: int): real {
    if |data| == 0 then 0.0
    else
      (if data[0].source == ch && lo <= data[0].time <= hi then data[0].score else 0.0)
      + SumWithin(data[1..], ch, lo, hi)
  }

  /** The scores of an observation followed by more observations. */
  lemma SumScoresCons(o: Obs, w: seq<Obs>)
    ensures Sum(Scores([o] + w)) == o.score + Sum(Scores(w))
  {
    assert Scores([o] + w)[1..] == Scores(w);
  }

  /** A channel's closed window `[lo, hi]` has as many observations, and as
      large a score total, as the data holds for that channel and
      interval. */
  lemma {:induction false} ChannelWindowTotals(data: seq<Obs>, ch: string, lo: int, hi: int)
    ensures |Closed(OfChannel(data, ch), lo, hi)| == CountWithin(data, ch, lo, hi)
    ensures Sum(Scores(Closed(OfChannel(data, ch), lo, hi))) == SumWithin(data, ch, lo, hi)
  {
    if |data| > 0 {
      ChannelWindowTotals(data[1..], ch, lo, hi);
      var d := data[0];
      var rest := OfChannel(data[1..], ch);
      if d.source == ch {
        assert OfChannel(data, ch) == [d] + rest;
        assert ([d] + rest)[1..] == rest;
        if lo <= d.time <= hi {
          assert Closed([d] + rest, lo, hi) == [d] + Closed(rest, lo, hi);
          SumScoresCons(d, Closed(rest, lo, hi));
        }
      }
    }
  }

  /** The Tier 1 window of the bucket starting at `t` holds exactly the
      channel's observations in `[t, t + 5min]`. */
  lemma ShortWindowMembers(data: seq<Obs>, ch: string, t: int, o: Obs)
    ensures o in ShortWindow(data, ch, t) <==> o in data && o.source == ch && t <= o.time <= t + BucketLen
  {
    ChannelWindowMembers(data, ch, t, t + BucketLen, o);
  }

  /** The Tier 2 window of the bucket starting at `t` holds exactly the
      channel's observations in `[t + 5min - 1day, t + 5min]`. */
  lemma LongWindowMembers(data: seq<Obs>, ch: string, t: int, o: Obs)
    ensures o in LongWindow(data, ch, t) <==>
      o in data && o.source == ch && t + BucketLen - DayLen <= o.time <= t + BucketLen
  {
    ChannelWindowMembers(data, ch, t + BucketLen - DayLen, t + BucketLen, o);
  }

  /** Tier 1 for the bucket starting at `t`: the mean of the channel's scores
      in the closed 5-minute window when it holds at least five, else
      missing (what it means over the data is `MavTrueAtMeans`). */
  function MavTrueAt(data: seq<Obs>, ch: string, t: int): Option<real> {
    var values := Scores(ShortWindow(data, ch, t));
    if |values| >= MinShort then Some(Mean(values)) else None
  }

  /** Tier 1 stated over the data: it is defined exactly when at least five
      observations of the channel lie in `[t, t + 5min]`, and then their
      number times the value is the sum of their scores. */
  lemma MavTrueAtMeans(data: seq<Obs>, ch: string, t: int)
    ensures MavTrueAt(data, ch, t).Some? <==> CountWithin(data, ch, t, t + BucketLen) >= MinShort
    ensures MavTrueAt(data, ch, t).Some? ==>
      MavTrueAt(data, ch, t).value * (CountWithin(data, ch, t, t + BucketLen) as real)
        == SumWithin(data, ch, t, t + BucketLen)
  {
    ChannelWindowTotals(data, ch, t, t + BucketLen);
    var values := Scores(ShortWindow(data, ch, t));
    if |values| >= MinShort {
      MeanTimesLength(values);
    }
  }

  /** The observations Tier 2 averages for the bucket starting at `t`: the
      latest (at most five) of the channel's observations in the trailing
      day, a suffix of that window. */
  function Kept(data: seq<Obs>, ch: string, t: int): (k: seq<Obs>)
    ensures var w := LongWindow(data, ch, t);
      && |k| == (if |w| <= TailLen then |w| else TailLen)
      && k == w[|w| - |k|..]
  {
    Tail(LongWindow(data, ch, t), TailLen)
  }

  /** Tier 2 keeps only observations of the channel from the trailing day. */
  lemma KeptWithin(data: seq<Obs>, ch: string, t: int)
    ensures var k := Kept(data, ch, t);
      forall i :: 0 <= i < |k| ==>
        && k[i] in data
        && k[i].source == ch
        && t + BucketLen - DayLen <= k[i].time <= t + BucketLen
  {
    var obs := OfChannel(data, ch);
    var lo := t + BucketLen - DayLen;
    var w := LongWindow(data, ch, t);
    var k := Kept(data, ch, t);
    OfChannelSound(data, ch);
    ClosedSound(obs, lo, t + BucketLen);
    ClosedOfChannel(obs, lo, t + BucketLen, ch);
    forall i | 0 <= i < |k|
      ensures k[i] in data && k[i].source == ch && lo <= k[i].time <= t + BucketLen
    {
      var j := |w| - |k| + i;
      assert k[i] == w[j];
      assert w[j] in obs;
      var m :| 0 <= m < |obs| && obs[m] == w[j];
    }
  }

  /** On time-sorted data, no observation of the trailing day that Tier 2
      leaves out is later than one it keeps. */
  lemma KeptAreLatest(data: seq<Obs>, ch: string, t: int)
    requires SortedByTime(data)
    ensures var w := LongWindow(data, ch, t);
      var k := Kept(data, ch, t);
      forall i, j :: 0 <= i < |w| - |k| && 0 <= j < |k| ==> w[i].time <= k[j].time
  {
    var w := LongWindow(data, ch, t);
    var k := Kept(data, ch, t);
    OfChannelSorted(data, ch);
    ClosedSorted(OfChannel(data, ch), t + BucketLen - DayLen, t + BucketLen);
    forall i, j | 0 <= i < |w| - |k| && 0 <= j < |k| ensures w[i].time <= k[j].time {
      assert k[j] == w[|w| - |k| + j];
    }
  }

  /** Tier 2 for the bucket starting at `t`: the mean of the kept scores when
      the trailing day holds any observation of the channel, else missing. */
  function MavFalseAt(data: seq<Obs>, ch: string, t: int): (r: Option<real>)
    ensures r.Some? <==> |LongWindow(data, ch, t)| > 0
    ensures r.Some? ==> |Kept(data, ch, t)| > 0 && r.value == Mean(Scores(Kept(data, ch, t)))
  {
    var values := Scores(Kept(data, ch, t));
    if |values| >= 1 then Some(Mean(values)) else None
  }

  /** Tier 2 stated over the data: it is defined exactly when some
      observation of the channel lies in the trailing day
      `[t + 5min - 1day, t + 5min]`. */
  lemma MavFalseAtDefined(data: seq<Obs>, ch: string, t: int)
    ensures MavFalseAt(data, ch, t).Some? <==> CountWithin(data, ch, t + BucketLen - DayLen, t + BucketLen) > 0
  {
    ChannelWindowTotals(data, ch, t + BucketLen - DayLen, t + BucketLen);
  }

  /** A defined Tier 1 lies between the smallest and the largest score of
      its closed 5-minute window. */
  lemma MavTrueWithinRange(data: seq<Obs>, ch: string, t: int)
    requires MavTrueAt(data, ch, t).Some?
    ensures var s := Scores(ShortWindow(data, ch, t));
      |s| > 0 && Min(s) <= MavTrueAt(data, ch, t).value <= Max(s)
  {
    MeanWithinRange(Scores(ShortWindow(data, ch, t)));
  }

  /** A defined Tier 2 averages at most five scores and lies between the
      smallest and the largest of the scores it keeps. */
  lemma MavFalseWithinRange(data: seq<Obs>, ch: string, t: int)
    requires MavFalseAt(data, ch, t).Some?
    ensures var s := Scores(Kept(data, ch, t));
      0 < |s| <= TailLen && Min(s) <= MavFalseAt(data, ch, t).value <= Max(s)
  {
    MeanWithinRange(Scores(Kept(data, ch, t)));
  }

  /** `mav_true`: Tier 1 at each bucket timestamp. */
  function MavTrue(data: seq<Obs>, ch: string, ts: seq<int>): (r: seq<Option<real>>)
    ensures |r| == |ts|
    ensures forall i :: 0 <= i < |ts| ==> r[i] == MavTrueAt(data, ch, ts[i])
  {
    if |ts| == 0 then [] else [MavTrueAt(data, ch, ts[0])] + MavTrue(data, ch, ts[1..])
  }

  /** `mav_false`: Tier 2 at each bucket timestamp. */
  function MavFalse(data: seq<Obs>, ch: string, ts: seq<int>): (r: seq<Option<real>>)
    ensures |r| == |ts|
    ensures forall i :: 0 <= i < |ts| ==> r[i] == MavFalseAt(data, ch, ts[i])
  {
    if |ts| == 0 then [] else [MavFalseAt(data, ch, ts[0])] + MavFalse(data, ch, ts[1..])
  }

  /** The bucket start times of a group. */
  function Starts(bs: seq<Bucket>): (ts: seq<int>)
    ensures |ts| == |bs|
    ensures forall i :: 0 <= i < |bs| ==> ts[i] == bs[i].start
  {
    seq(|bs|, i requires 0 <= i < |bs| => bs[i].start)
  }

  /** `re_tox` on one channel's group of buckets: both tiers are computed for
      every bucket of the group, and each bucket takes Tier 1 when its count
      passes the gate and Tier 2 otherwise. The channel is the one of the
      group's first row. */
  function ReTox(bs: seq<Bucket>, data: seq<Obs>): (r: seq<Bucket>)
    requires |bs| > 0
    ensures |r| == |bs|
    ensures forall i :: 0 <= i < |bs| ==>
      && r[i].source == bs[i].source
      && r[i].start == bs[i].start
      && r[i].count == bs[i].count
    ensures forall i :: 0 <= i < |bs| ==>
      r[i].retox == if bs[i].count >= MinShort
                    then MavTrueAt(data, bs[0].source, bs[i].start)
                    else MavFalseAt(data, bs[0].source, bs[i].start)
  {
    var ch := bs[0].source;
    var ts := Starts(bs);
    var short := MavTrue(data, ch, ts);
    var long := MavFalse(data, ch, ts);
    seq(|bs|, i requires 0 <= i < |bs| =>
      bs[i].(retox := if bs[i].count >= MinShort then short[i] else long[i]))
  }

  /** Whenever Tier 1 is defined, so is Tier 2: the closed 5-minute window
      lies inside the trailing day. */
  lemma Tier1ImpliesTier2(data: seq<Obs>, ch: string, t: int)
    requires MavTrueAt(data, ch, t).Some?
    ensures MavFalseAt(data, ch, t).Some?
  {
    ClosedWiden(OfChannel(data, ch), t, t + BucketLen, t + BucketLen - DayLen, t + BucketLen);
  }

  /** Inserting an observation of another channel does not change the
      selection of channel `ch`. */
  lemma OfChannelInsertOther(data: seq<Obs>, k: nat, o: Obs, ch: string)
    requires k <= |data|
    requires o.source != ch
    ensures OfChannel(data[..k] + [o] + data[k..], ch) == OfChannel(data, ch)
  {
    OfChannelAppend(data[..k] + [o], data[k..], ch);
    OfChannelAppend(data[..k], [o], ch);
    OfChannelAppend(data[..k], data[k..], ch);
    assert OfChannel([o], ch) == [];
    assert data[..k] + data[k..] == data;
  }

  /** Observations of other channels contribute to neither tier: inserting
      one anywhere leaves both tiers and the channel's buckets unchanged. */
  lemma ChannelIsolation(data: seq<Obs>, k: nat, o: Obs, ch: string, t: int)
    requires k <= |data|
    requires o.source != ch
    ensures var data' := data[..k] + [o] + data[k..];
      && MavTrueAt(data', ch, t) == MavTrueAt(data, ch, t)
      && MavFalseAt(data', ch, t) == MavFalseAt(data, ch, t)
      && Presample(data', ch) == Presample(data, ch)
  {
    var data' := data[..k] + [o] + data[k..];
    OfChannelInsertOther(data, k, o, ch);
    assert ShortWindow(data', ch, t) == ShortWindow(data, ch, t);
    assert Kept(data', ch, t) == Kept(data, ch, t);
  }
}
