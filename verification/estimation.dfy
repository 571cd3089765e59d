/** The estimation loop: the wide frame is cut into consecutive windows of
    `window_size` rows, each window loses the channels with a missing cell,
    its channels are numbered locally, and the estimator's result and the
    local-to-global ID map are stored under the window's first valid
    timestamp. The estimator itself is a parameter. */
module Estimation {
  import opened Wrappers
  import opened Ordering
  import opened Pivoting
  import opened Ids

  /** Python's treatment of a slice bound `b` on a sequence of length `n`:
      a negative bound counts from the end, and the result is clamped to
      `0 .. n`. */
  function SliceBound(b: int, n: nat): (k: nat)
    ensures k <= n
  {
    if b < 0 then (if b + n < 0 then 0 else b + n)
    else if b > n then n
    else b
  }

  /** `iloc[begin:end]`: the rows from the normalised `begin` up to the
      normalised `end` (none when `end` comes first), all columns. */
  function ILoc(f: Frame, begin: int, end: int): (w: Frame)
    requires WellShaped(f)
    ensures WellShaped(w)
    ensures w.columns == f.columns
    ensures var lo := SliceBound(begin, |f.index|);
      var hi := SliceBound(end, |f.index|);
      |w.index| == if hi <= lo then 0 else hi - lo
    ensures var lo := SliceBound(begin, |f.index|);
      && lo + |w.index| <= |f.index|
      && w.index == f.index[lo..lo + |w.index|]
      && w.cells == f.cells[lo..lo + |w.index|]
  {
    var n := |f.index|;
    var lo := SliceBound(begin, n);
    var hi := SliceBound(end, n);
    if hi <= lo then Frame([], f.columns, [])
    else Frame(f.index[lo..hi], f.columns, f.cells[lo..hi])
  }

  /** `begin * size` is monotone in `begin` for a positive size. */
  lemma MulMonotone(a: int, b: int, size: int)
    requires a <= b && size > 0
    ensures a * size <= b * size
  {
  }

  /** The window after window `n` starts where window `n` ends. */
  lemma NextWindow(n: int, size: int)
    ensures (n + 1) * size == n * size + size
  {
  }

  /** Window `i` of a positive size holds the rows `[i * size, (i + 1) * size)`
      of the frame that exist, in order. */
  lemma WindowRows(f: Frame, size: int, i: nat)
    requires WellShaped(f) && size > 0
    ensures var w := ILoc(f, i * size, (i + 1) * size);
      var n := |f.index|;
      && |w.index| == (if (i + 1) * size <= n then size else if i * size <= n then n - i * size else 0)
      && forall r :: 0 <= r < |w.index| ==>
           w.index[r] == f.index[i * size + r] && w.cells[r] == f.cells[i * size + r]
  {
    assert (i + 1) * size == i * size + size;
    MulMonotone(0, i, size);
  }

  /** For a positive size, row `r` lies in window `r / size` and in no other:
      the windows are disjoint and leave no gap. */
  lemma WindowOfRow(size: int, r: nat, i: nat)
    requires size > 0
    ensures i * size <= r < (i + 1) * size <==> i == r / size
  {
    var q := r / size;
    assert q * size <= r < q * size + size;
    if i < q {
      MulMonotone(i + 1, q, size);
    } else if i > q {
      MulMonotone(q + 1, i, size);
    }
  }

  /** Column `c` has no missing cell. */
  predicate ColumnFull(f: Frame, c: nat)
    requires WellShaped(f) && c < |f.columns|
  {
    forall r :: 0 <= r < |f.cells| ==> f.cells[r][c].Some?
  }

  /** The positions below `n` of the columns without a missing cell, in
      increasing order. */
  function FullColumns(f: Frame, n: nat): (idx: seq<int>)
    requires WellShaped(f) && n <= |f.columns|
    ensures forall k :: 0 <= k < |idx| ==> 0 <= idx[k] < n && ColumnFull(f, idx[k])
    ensures Increasing(idx)
  {
    if n == 0 then []
    else
      var init := FullColumns(f, n - 1);
      if ColumnFull(f, n - 1) then init + [n - 1] else init
  }

  /** Every full column below `n` is kept. */
  lemma {:induction false} FullColumnsComplete(f: Frame, n: nat, c: nat)
    requires WellShaped(f) && c < n <= |f.columns|
    requires ColumnFull(f, c)
    ensures c in FullColumns(f, n)
  {
    if c < n - 1 {
      FullColumnsComplete(f, n - 1, c);
    }
  }

  /** `dropna(axis=1, how='any')`: the frame restricted to its full columns,
      in their original order. */
  function DropNA(f: Frame): (g: Frame)
    requires WellShaped(f)
    ensures WellShaped(g)
    ensures g.index == f.index
  {
    var idx := FullColumns(f, |f.columns|);
    Frame(f.index, Select(f.columns, idx),
      seq(|f.cells|, r requires 0 <= r < |f.cells| =>
        seq(|idx|, k requires 0 <= k < |idx| => f.cells[r][idx[k]])))
  }

  /** A column survives `dropna` exactly when none of its cells is missing;
      the survivors keep their order and carry their cells along, so the
      result has no missing cell. */
  lemma DropNAKeeps(f: Frame)
    requires WellShaped(f)
    ensures var idx := FullColumns(f, |f.columns|);
      var g := DropNA(f);
      && g.columns == Select(f.columns, idx)
      && Increasing(idx)
      && (forall c :: 0 <= c < |f.columns| ==> (c in idx <==> ColumnFull(f, c)))
      && (forall r, k :: 0 <= r < |g.cells| && 0 <= k < |idx| ==> g.cells[r][k] == f.cells[r][idx[k]])
      && (forall r, k :: 0 <= r < |g.cells| && 0 <= k < |g.columns| ==> g.cells[r][k].Some?)
  {
    var idx := FullColumns(f, |f.columns|);
    forall c | 0 <= c < |f.columns| ensures c in idx <==> ColumnFull(f, c) {
      if ColumnFull(f, c) {
        FullColumnsComplete(f, |f.columns|, c);
      }
      if c in idx {
        var k :| 0 <= k < |idx| && idx[k] == c;
      }
    }
  }

  /** Row `r` has at least one value. */
  predicate RowHasValue(f: Frame, r: nat)
    requires WellShaped(f) && r < |f.cells|
  {
    exists c :: 0 <= c < |f.columns| && f.cells[r][c].Some?
  }

  /** The label of the first row at or after `r` with a value: that row
      has a value and no row between `r` and it has one. */
  function FirstValidFrom(f: Frame, r: nat): (v: Option<int>)
    requires WellShaped(f) && r <= |f.index|
    ensures v.Some? ==> exists q ::
      && r <= q < |f.index| && f.index[q] == v.value && RowHasValue(f, q)
      && (forall p :: r <= p < q ==> !RowHasValue(f, p))
    ensures v.None? ==> forall q :: r <= q < |f.index| ==> !RowHasValue(f, q)
    decreases |f.index| - r
  {
    if r == |f.index| then None
    else if RowHasValue(f, r) then Some(f.index[r])
    else FirstValidFrom(f, r + 1)
  }

  /** `first_valid_index()`: the label of the first row holding a value;
      missing (printed "None") when there is none. */
  function FirstValidIndex(f: Frame): Option<int>
    requires WellShaped(f)
  {
    FirstValidFrom(f, 0)
  }

  /** After `dropna` the first valid index is the first row's label, unless
      the window has no rows or no surviving column. */
  lemma FirstValidAfterDropNA(f: Frame)
    requires WellShaped(f)
    ensures var g := DropNA(f);
      FirstValidIndex(g) == if |g.index| == 0 || |g.columns| == 0 then None else Some(g.index[0])
  {
    var g := DropNA(f);
    DropNAKeeps(f);
    if |g.index| > 0 && |g.columns| > 0 {
      assert g.cells[0][0].Some?;
      assert RowHasValue(g, 0);
    }
  }

  /** The embedding of window `i`: its rows, without the channels that have
      a missing cell. */
  function Embedding(pv: Frame, size: int, i: int): (e: Frame)
    requires WellShaped(pv)
    ensures WellShaped(e)
  {
    DropNA(ILoc(pv, i * size, (i + 1) * size))
  }

  /** The channels of an embedding are channels of the pivot. */
  lemma EmbeddingChannels(pv: Frame, size: int, i: int)
    requires WellShaped(pv)
    ensures var e := Embedding(pv, size, i);
      forall k :: 0 <= k < |e.columns| ==> e.columns[k] in pv.columns
  {
    var w := ILoc(pv, i * size, (i + 1) * size);
    var idx := FullColumns(w, |w.columns|);
    var e := Embedding(pv, size, i);
    forall k | 0 <= k < |e.columns| ensures e.columns[k] in pv.columns {
      assert e.columns[k] == pv.columns[idx[k]];
    }
  }

  /** The local-to-global ID map of window `i`. */
  function Conversion(pv: Frame, size: int, i: int): (m: map<int, int>)
    requires WellShaped(pv)
    ensures m.Keys == Enumerate(Embedding(pv, size, i).columns).Values
  {
    EmbeddingChannels(pv, size, i);
    LocalToGlobal(Embedding(pv, size, i).columns, pv.columns)
  }

  /** `m` sends local ID `k` of the `k`-th label of `kept` to the position
      of that label in `all`: it is defined on exactly `0 .. |kept| - 1` and
      keeps the order of the labels. */
  ghost predicate SelectsColumns(all: seq<string>, kept: seq<string>, m: map<int, int>) {
    && (forall k :: k in m <==> 0 <= k < |kept|)
    && (forall k :: 0 <= k < |kept| ==> 0 <= m[k] < |all| && all[m[k]] == kept[k])
    && (forall a, b :: 0 <= a < b < |kept| ==> m[a] < m[b])
  }

  /** When the pivot's channels are distinct (as the sorted columns of a
      pivot are), the ID map of window `i` is defined on exactly the local
      IDs `0 .. k - 1` of its `k` surviving channels, sends each to the
      position of the same channel among the pivot's columns, and keeps
      their order. */
  lemma ConversionSelects(pv: Frame, size: int, i: int)
    requires WellShaped(pv)
    requires Distinct(pv.columns)
    ensures SelectsColumns(pv.columns, Embedding(pv, size, i).columns, Conversion(pv, size, i))
  {
    var w := ILoc(pv, i * size, (i + 1) * size);
    var idx := FullColumns(w, |w.columns|);
    var cols := Embedding(pv, size, i).columns;
    assert cols == Select(pv.columns, idx);
    SelectionSelects(pv.columns, idx, cols, Conversion(pv, size, i));
  }

  /** The conversion map of the columns at increasing positions `idx` of
      distinct columns selects them. */
  lemma SelectionSelects(all: seq<string>, idx: seq<int>, kept: seq<string>, m: map<int, int>)
    requires Distinct(all)
    requires forall k :: 0 <= k < |idx| ==> 0 <= idx[k] < |all|
    requires Increasing(idx)
    requires kept == Select(all, idx)
    requires m == LocalToGlobal(kept, all)
    ensures SelectsColumns(all, kept, m)
  {
    RemapSelection(all, idx);
    assert forall k :: k in m <==> 0 <= k < |kept|;
    forall k | 0 <= k < |kept| ensures 0 <= m[k] < |all| && all[m[k]] == kept[k] {
      assert m[k] == idx[k];
    }
    assert forall a, b :: 0 <= a < b < |kept| ==> m[a] < m[b];
  }

  /** When the pivot's channels are distinct, the surviving channels of
      window `i` are distinct, no more than the pivot's, and the local IDs
      number them densely in column order: a bijection onto
      `0 .. k - 1`. */
  lemma LocalIds(pv: Frame, size: int, i: int)
    requires WellShaped(pv)
    requires Distinct(pv.columns)
    ensures |Embedding(pv, size, i).columns| <= |pv.columns|
    ensures Distinct(Embedding(pv, size, i).columns)
    ensures forall k :: 0 <= k < |Embedding(pv, size, i).columns| ==>
      Enumerate(Embedding(pv, size, i).columns)[Embedding(pv, size, i).columns[k]] == k
    ensures forall v :: v in Enumerate(Embedding(pv, size, i).columns).Values <==>
      0 <= v < |Embedding(pv, size, i).columns|
  {
    var w := ILoc(pv, i * size, (i + 1) * size);
    var idx := FullColumns(w, |w.columns|);
    var cols := Embedding(pv, size, i).columns;
    assert cols == Select(pv.columns, idx);
    SelectDistinct(pv.columns, idx);
    EnumerateDistinct(cols);
    IncreasingAbove(idx, |pv.columns|);
    if |idx| > 0 {
      assert |idx| - 1 <= idx[|idx| - 1] < |pv.columns|;
    }
  }

  /** A frame without rows has every column full. */
  lemma {:induction false} FullColumnsNoRows(f: Frame, n: nat)
    requires WellShaped(f) && n <= |f.columns| && |f.cells| == 0
    ensures |FullColumns(f, n)| == n
    ensures forall k :: 0 <= k < n ==> FullColumns(f, n)[k] == k
  {
    if n > 0 {
      FullColumnsNoRows(f, n - 1);
    }
  }

  /** For a positive size, a window that starts past the last row has no
      rows and keeps every channel of the pivot, since `dropna` finds no
      missing cell in it; its key is missing. */
  lemma PastEndWindow(pv: Frame, size: int, i: nat)
    requires WellShaped(pv) && size > 0 && |pv.index| <= i * size
    ensures |Embedding(pv, size, i).index| == 0
    ensures Embedding(pv, size, i).columns == pv.columns
    ensures Key(pv, size, i) == None
  {
    var w := ILoc(pv, i * size, (i + 1) * size);
    WindowRows(pv, size, i);
    FullColumnsNoRows(w, |w.columns|);
    var idx := FullColumns(w, |w.columns|);
    assert Select(pv.columns, idx) == pv.columns;
    FirstValidAfterDropNA(w);
  }

  /** When the pivot's channels are distinct, the ID map of a window past
      the last row is the identity on all `n` global IDs: every channel
      keeps its global ID as its local one. */
  lemma PastEndIdentity(pv: Frame, size: int, i: nat)
    requires WellShaped(pv) && size > 0 && |pv.index| <= i * size
    requires Distinct(pv.columns)
    ensures forall k :: k in Conversion(pv, size, i) <==> 0 <= k < |pv.columns|
    ensures forall k :: 0 <= k < |pv.columns| ==> Conversion(pv, size, i)[k] == k
  {
    PastEndWindow(pv, size, i);
    ConversionSelects(pv, size, i);
    SelectsEverything(pv.columns, Conversion(pv, size, i));
  }

  /** A map that selects all of distinct columns is the identity. */
  lemma SelectsEverything(all: seq<string>, m: map<int, int>)
    requires Distinct(all)
    requires SelectsColumns(all, all, m)
    ensures forall k :: k in m <==> 0 <= k < |all|
    ensures forall k :: 0 <= k < |all| ==> m[k] == k
  {
    forall k | 0 <= k < |all| ensures m[k] == k {
      assert all[m[k]] == all[k];
    }
  }

  /** The dictionary key of window `i`: its first valid timestamp. */
  function Key(pv: Frame, size: int, i: int): Option<int>
    requires WellShaped(pv)
  {
    FirstValidIndex(Embedding(pv, size, i))
  }

  /** For a positive size, the key of window `i` is the timestamp of its
      first row, `pv.index[i * size]`, unless the window has no rows (it
      starts past the end) or keeps no channel; then it is missing, so all
      such windows share one key. */
  lemma WindowKey(pv: Frame, size: int, i: nat)
    requires WellShaped(pv) && size > 0
    ensures var e := Embedding(pv, size, i);
      Key(pv, size, i) == if |e.index| == 0 || |e.columns| == 0 then None else Some(pv.index[i * size])
    ensures |Embedding(pv, size, i).index| == 0 <==> |pv.index| <= i * size
  {
    var w := ILoc(pv, i * size, (i + 1) * size);
    WindowRows(pv, size, i);
    FirstValidAfterDropNA(w);
  }

  /** What window `i` writes: its key, the estimator's result and the ID
      map. */
  datatype Entry<R> = Entry(key: Option<int>, result: R, ids: map<int, int>)

  /** The two dictionaries the loop builds. */
  datatype Outcome<R> = Outcome(results: map<Option<int>, R>, convert: map<Option<int>, map<int, int>>)

  /** `dict.update` with each entry in turn: an entry overwrites what an
      earlier entry with the same key wrote. */
  function Store<R>(es: seq<Entry<R>>): (o: Outcome<R>)
    ensures o.results.Keys == o.convert.Keys
    ensures forall k :: k in o.results <==> exists i :: 0 <= i < |es| && es[i].key == k
  {
    if |es| == 0 then Outcome(map[], map[])
    else
      var init := es[..|es| - 1];
      var e := es[|es| - 1];
      var o := Store(init);
      assert forall i :: 0 <= i < |init| ==> init[i] == es[i];
      Outcome(o.results[e.key := e.result], o.convert[e.key := e.ids])
  }

  /** The last entry with a given key decides what is stored under it. */
  lemma {:induction false} StoreLastWins<R>(es: seq<Entry<R>>, i: nat)
    requires i < |es|
    requires forall j :: i < j < |es| ==> es[j].key != es[i].key
    ensures var o := Store(es);
      && es[i].key in o.results && es[i].key in o.convert
      && o.results[es[i].key] == es[i].result
      && o.convert[es[i].key] == es[i].ids
  {
    var init := es[..|es| - 1];
    if i < |es| - 1 {
      assert init[i] == es[i];
      assert forall j :: i < j < |init| ==> init[j] == es[j];
      StoreLastWins(init, i);
    }
  }

  /** What window `i` writes. */
  function WindowEntry<R>(pv: Frame, size: int, i: int, analyse: Frame -> R): Entry<R>
    requires WellShaped(pv)
  {
    Entry(Key(pv, size, i), analyse(Embedding(pv, size, i)), Conversion(pv, size, i))
  }

  /** The entries of windows `0 .. n - 1` (none when `n <= 0`). */
  function Entries<R>(pv: Frame, size: int, n: int, analyse: Frame -> R): (es: seq<Entry<R>>)
    requires WellShaped(pv)
    ensures |es| == if n < 0 then 0 else n
  {
    seq(if n < 0 then 0 else n, i requires 0 <= i => WindowEntry(pv, size, i, analyse))
  }

  /** Entry `i` of the first `n` windows is what window `i` writes. */
  lemma EntriesAt<R>(pv: Frame, size: int, n: int, analyse: Frame -> R, i: int)
    requires WellShaped(pv)
    requires 0 <= i < n
    ensures Entries(pv, size, n, analyse)[i] == WindowEntry(pv, size, i, analyse)
  {
  }

  /** One more window appends its entry. */
  lemma EntriesSnoc<R>(pv: Frame, size: int, n: nat, analyse: Frame -> R)
    requires WellShaped(pv)
    ensures Entries(pv, size, n + 1, analyse) == Entries(pv, size, n, analyse) + [WindowEntry(pv, size, n, analyse)]
  {
    var a := Entries(pv, size, n + 1, analyse);
    var b := Entries(pv, size, n, analyse);
    forall k | 0 <= k < n ensures a[k] == b[k] {
      EntriesAt(pv, size, n + 1, analyse, k);
      EntriesAt(pv, size, n, analyse, k);
    }
    EntriesAt(pv, size, n + 1, analyse, n);
    Snoc(a, b, WindowEntry(pv, size, n, analyse));
  }

  /** A sequence that agrees with `b` and then ends in `last` is `b + [last]`. */
  lemma Snoc<T>(a: seq<T>, b: seq<T>, last: T)
    requires |a| == |b| + 1 && a[|b|] == last
    requires forall k :: 0 <= k < |b| ==> a[k] == b[k]
    ensures a == b + [last]
  {
  }

  /** Storing one more entry updates both dictionaries under its key. */
  lemma StoreSnoc<R>(es: seq<Entry<R>>, e: Entry<R>)
    ensures Store(es + [e]) == Outcome(Store(es).results[e.key := e.result], Store(es).convert[e.key := e.ids])
  {
    assert (es + [e])[..|es|] == es;
  }

  /** The dictionaries after `n` iterations of the loop. */
  function Run<R>(pv: Frame, size: int, n: int, analyse: Frame -> R): Outcome<R>
    requires WellShaped(pv)
  {
    Store(Entries(pv, size, n, analyse))
  }

  /** A loop that does not run leaves both dictionaries empty. */
  lemma RunNoIterations<R>(pv: Frame, size: int, n: int, analyse: Frame -> R)
    requires WellShaped(pv)
    ensures n <= 0 ==> Run(pv, size, n, analyse) == Outcome(map[], map[])
  {
  }

  /** Iteration `n` writes the entry `e` of window `n` over the
      dictionaries `o` of the earlier iterations, giving those of `n + 1`. */
  lemma RunStep<R>(pv: Frame, size: int, n: nat, analyse: Frame -> R, o: Outcome<R>, e: Entry<R>)
    requires WellShaped(pv)
    requires o == Run(pv, size, n, analyse)
    requires e == WindowEntry(pv, size, n, analyse)
    ensures Outcome(o.results[e.key := e.result], o.convert[e.key := e.ids]) == Run(pv, size, n + 1, analyse)
  {
    EntriesSnoc(pv, size, n, analyse);
    StoreSnoc(Entries(pv, size, n, analyse), e);
  }

  /** After `n` iterations both dictionaries have exactly the keys of the
      windows processed. */
  lemma RunKeys<R>(pv: Frame, size: int, n: int, analyse: Frame -> R)
    requires WellShaped(pv)
    ensures var o := Run(pv, size, n, analyse);
      && o.results.Keys == o.convert.Keys
      && (forall j :: 0 <= j < n ==> Key(pv, size, j) in o.results)
      && (forall k :: k in o.results ==> exists j :: 0 <= j < n && Key(pv, size, j) == k)
  {
    var es := Entries(pv, size, n, analyse);
    forall j | 0 <= j < n ensures Key(pv, size, j) in Run(pv, size, n, analyse).results {
      EntriesAt(pv, size, n, analyse, j);
      assert es[j].key == Key(pv, size, j);
    }
    forall k | k in Run(pv, size, n, analyse).results ensures exists j :: 0 <= j < n && Key(pv, size, j) == k {
      var j :| 0 <= j < |es| && es[j].key == k;
      EntriesAt(pv, size, n, analyse, j);
    }
  }

  /** Under each key sit the result and the ID map of the last window with
      that key: a later window with an equal key overwrites an earlier one. */
  lemma RunLastWins<R>(pv: Frame, size: int, n: int, analyse: Frame -> R, i: int)
    requires WellShaped(pv)
    requires 0 <= i < n
    requires forall j :: i < j < n ==> Key(pv, size, j) != Key(pv, size, i)
    ensures var o := Run(pv, size, n, analyse);
      && Key(pv, size, i) in o.results && Key(pv, size, i) in o.convert
      && o.results[Key(pv, size, i)] == analyse(Embedding(pv, size, i))
      && o.convert[Key(pv, size, i)] == Conversion(pv, size, i)
  {
    var es := Entries(pv, size, n, analyse);
    forall j | i < j < |es| ensures es[j].key != es[i].key {
      EntriesAt(pv, size, n, analyse, j);
    }
    EntriesAt(pv, size, n, analyse, i);
    StoreLastWins(es, i);
  }

  /** One pass of the loop body on the window `[begin, end)`: the embedding,
      its local IDs, its key, the estimate and the ID map. */
  method EstimateWindow<R>(pv: Frame, size: int, i: int, begin: int, end: int, analyse: Frame -> R)
    returns (key: Option<int>, result: R, ids: map<int, int>)
    requires WellShaped(pv)
    requires begin == i * size && end == begin + size
    ensures Entry(key, result, ids) == WindowEntry(pv, size, i, analyse)
  {
    assert end == (i + 1) * size;
    var embedding := DropNA(ILoc(pv, begin, end));
    var localIds := Enumerate(embedding.columns);
    EnumerateInjective(embedding.columns);
    EmbeddingChannels(pv, size, i);
    key := FirstValidIndex(embedding);
    result := analyse(embedding);
    ids := Remap(localIds, Enumerate(pv.columns));
  }

  /** The loop of the estimator, with `begin` and `end` advanced by the
      window size at each step; it produces the dictionaries of `Run`. */
  method EstimateAll<R>(pv: Frame, size: int, iterations: int, analyse: Frame -> R)
    returns (results: map<Option<int>, R>, convert: map<Option<int>, map<int, int>>)
    requires WellShaped(pv)
    ensures Outcome(results, convert) == Run(pv, size, iterations, analyse)
    ensures results.Keys == convert.Keys
  {
    results, convert := map[], map[];
    var begin, end := 0, size;
    var iteration := 0;
    while iteration < iterations
      invariant 0 <= iteration
      invariant iteration == 0 || iteration <= iterations
      invariant begin == iteration * size && end == begin + size
      invariant Outcome(results, convert) == Run(pv, size, iteration, analyse)
      decreases iterations - iteration
    {
      var key, result, ids := EstimateWindow(pv, size, iteration, begin, end, analyse);
      RunStep(pv, size, iteration, analyse, Outcome(results, convert), Entry(key, result, ids));
      NextWindow(iteration, size);
      results := results[key := result];
      convert := convert[key := ids];
      begin := begin + size;
      end := end + size;
      iteration := iteration + 1;
    }
    RunNoIterations(pv, size, iterations, analyse);
    assert iteration == if iterations < 0 then 0 else iterations;
  }
}
