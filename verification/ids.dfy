/** The channel numbering of the estimator: global IDs number the columns of
    the pivot (`dict(zip(columns, range(n)))`), local IDs number the columns
    that survive in one window, and the conversion map sends each local ID
    to the global ID of the same channel. */
module Ids {
  import opened Ordering

  /** `dict(zip(labels, range(len(labels))))`: each label to a position
      holding it (the last one, by `EnumerateLastWins`). */
  function Enumerate(labels: seq<string>): (m: map<string, int>)
    ensures forall c :: c in m <==> c in labels
    ensures forall c :: c in m ==> 0 <= m[c] < |labels| && labels[m[c]] == c
  {
    if |labels| == 0 then map[]
    else
      var init := labels[..|labels| - 1];
      var last := labels[|labels| - 1];
      assert forall c :: c in labels <==> c in init || c == last by {
        assert labels == init + [last];
      }
      Enumerate(init)[last := |labels| - 1]
  }

  /** A label that occurs twice keeps its last position: later pairs
      overwrite earlier ones. */
  lemma {:induction false} EnumerateLastWins(labels: seq<string>, c: string, j: int)
    requires c in Enumerate(labels)
    requires Enumerate(labels)[c] < j < |labels|
    ensures labels[j] != c
  {
    var init := labels[..|labels| - 1];
    var last := labels[|labels| - 1];
    if c != last && j < |labels| - 1 {
      assert Enumerate(labels)[c] == Enumerate(init)[c];
      assert init[j] == labels[j];
      EnumerateLastWins(init, c, j);
    }
  }

  /** Distinct keys have distinct values. */
  ghost predicate Injective(m: map<string, int>) {
    forall a, b :: a in m && b in m && a != b ==> m[a] != m[b]
  }

  /** Positions are never shared, so the numbering is injective. */
  lemma EnumerateInjective(labels: seq<string>)
    ensures Injective(Enumerate(labels))
  {
    var m := Enumerate(labels);
    forall a, b | a in m && b in m && a != b ensures m[a] != m[b] {
      assert labels[m[a]] == a && labels[m[b]] == b;
    }
  }

  /** For distinct labels, each label is numbered by its own position. */
  lemma EnumerateAt(labels: seq<string>, i: int)
    requires Distinct(labels)
    requires 0 <= i < |labels|
    ensures labels[i] in Enumerate(labels) && Enumerate(labels)[labels[i]] == i
  {
    assert labels[i] in Enumerate(labels);
  }

  /** For distinct labels the numbering is a bijection between the labels
      and `0 .. |labels| - 1`. */
  lemma EnumerateDistinct(labels: seq<string>)
    requires Distinct(labels)
    ensures forall i :: 0 <= i < |labels| ==> Enumerate(labels)[labels[i]] == i
    ensures forall v :: v in Enumerate(labels).Values <==> 0 <= v < |labels|
  {
    forall i | 0 <= i < |labels| ensures Enumerate(labels)[labels[i]] == i {
      EnumerateAt(labels, i);
    }
    forall v | 0 <= v < |labels| ensures v in Enumerate(labels).Values {
      EnumerateAt(labels, v);
    }
  }

  /** `{local[c]: global[c] for c in local}`: each local ID to the global ID
      of the same channel. Indexing `global` with a missing channel would
      raise `KeyError`, so every local channel must be global. */
  function Remap(local: map<string, int>, global: map<string, int>): (r: map<int, int>)
    requires Injective(local)
    requires local.Keys <= global.Keys
    ensures r.Keys == local.Values
    ensures forall c :: c in local ==> r[local[c]] == global[c]
  {
    map c | c in local.Keys :: local[c] := global[c]
  }

  /** The labels at the given positions, in the order of the positions. */
  function Select(all: seq<string>, idx: seq<int>): (r: seq<string>)
    requires forall k :: 0 <= k < |idx| ==> 0 <= idx[k] < |all|
    ensures |r| == |idx|
    ensures forall k :: 0 <= k < |idx| ==> r[k] == all[idx[k]]
  {
    seq(|idx|, k requires 0 <= k < |idx| => all[idx[k]])
  }

  /** Positions in strictly increasing order. */
  ghost predicate Increasing(idx: seq<int>) {
    forall a, b :: 0 <= a < b < |idx| ==> idx[a] < idx[b]
  }

  /** Selecting increasing positions of distinct labels gives distinct
      labels. */
  lemma SelectDistinct(all: seq<string>, idx: seq<int>)
    requires Distinct(all)
    requires forall k :: 0 <= k < |idx| ==> 0 <= idx[k] < |all|
    requires Increasing(idx)
    ensures Distinct(Select(all, idx))
  {
  }

  /** The conversion map of a list of kept labels drawn from `all`: the
      local ID of each kept label to its global ID. */
  function LocalToGlobal(kept: seq<string>, all: seq<string>): (r: map<int, int>)
    requires forall k :: 0 <= k < |kept| ==> kept[k] in all
    ensures r.Keys == Enumerate(kept).Values
    ensures forall c :: c in Enumerate(kept) ==> r[Enumerate(kept)[c]] == Enumerate(all)[c]
  {
    EnumerateInjective(kept);
    Remap(Enumerate(kept), Enumerate(all))
  }

  /** When a window keeps the columns at increasing positions `idx` of
      distinct columns, its conversion map sends local ID `k` to `idx[k]`,
      the position of the same label among all of them: it is defined on
      exactly `0 .. |idx| - 1`, strictly increasing, and never sends a
      local ID below itself. */
  lemma RemapSelection(all: seq<string>, idx: seq<int>)
    requires Distinct(all)
    requires forall k :: 0 <= k < |idx| ==> 0 <= idx[k] < |all|
    requires Increasing(idx)
    ensures forall k :: k in LocalToGlobal(Select(all, idx), all) <==> 0 <= k < |idx|
    ensures forall k :: 0 <= k < |idx| ==> LocalToGlobal(Select(all, idx), all)[k] == idx[k]
    ensures forall a, b :: 0 <= a < b < |idx| ==>
      LocalToGlobal(Select(all, idx), all)[a] < LocalToGlobal(Select(all, idx), all)[b]
    ensures forall k :: 0 <= k < |idx| ==> k <= LocalToGlobal(Select(all, idx), all)[k] < |all|
  {
    var kept := Select(all, idx);
    var local := Enumerate(kept);
    var global := Enumerate(all);
    var m := LocalToGlobal(kept, all);
    SelectDistinct(all, idx);
    forall k | 0 <= k < |idx| ensures k in m && m[k] == idx[k] {
      EnumerateAt(kept, k);
      EnumerateAt(all, idx[k]);
      assert m[local[kept[k]]] == global[kept[k]];
    }
    forall k | k in m ensures 0 <= k < |idx| {
      var c :| c in local && local[c] == k;
    }
    IncreasingAbove(idx, |all|);
  }

  /** Strictly increasing positions below `n` start at or above their own
      rank. */
  lemma {:induction false} IncreasingAbove(idx: seq<int>, n: int)
    requires forall k :: 0 <= k < |idx| ==> 0 <= idx[k] < n
    requires Increasing(idx)
    ensures forall k :: 0 <= k < |idx| ==> k <= idx[k]
  {
    if |idx| > 0 {
      var init := idx[..|idx| - 1];
      IncreasingAbove(init, n);
      assert forall k :: 0 <= k < |init| ==> init[k] == idx[k];
      if |idx| > 1 {
        assert idx[|idx| - 2] < idx[|idx| - 1];
      }
    }
  }
}
