/** What a stream of submits should look like on disk, said without any index file: the
submits fall into groups that each just reach the unit length, and a simple rule drops
groups from the front. */
module Grouping {
  import opened Bytes
  import opened RecordLog
  import opened SlotFile

  /** Whole submits, gathered into the closed records and the open one. */
  datatype Groups = Groups(closed: seq<seq<seq<byte>>>, open: seq<seq<byte>>)

  function Flatten(gs: seq<seq<seq<byte>>>): seq<seq<byte>> {
    if gs == [] then [] else gs[0] + Flatten(gs[1..])
  }

  lemma {:induction false} FlattenSplit(a: seq<seq<seq<byte>>>, b: seq<seq<seq<byte>>>)
    ensures Flatten(a + b) == Flatten(a) + Flatten(b)
  {
    if a == [] {
      assert a + b == b;
    } else {
      assert (a + b)[1..] == a[1..] + b;
      FlattenSplit(a[1..], b);
    }
  }

  /** A record that closed at the first submit that brought it to the unit length. */
  predicate JustFull(group: seq<seq<byte>>) {
    group != [] && |Joined(group[..|group| - 1])| < UNIT_LEN <= |Joined(group)|
  }

  /** The submits in order, none of them cut, every closed group just full. */
  ghost predicate IsGrouping(ds: seq<seq<byte>>, g: Groups) {
    && Flatten(g.closed) + g.open == ds
    && (forall i :: 0 <= i < |g.closed| ==> JustFull(g.closed[i]))
    && |Joined(g.open)| < UNIT_LEN
  }

  function AddSubmit(g: Groups, d: seq<byte>): Groups {
    var group := g.open + [d];
    if |Joined(group)| >= UNIT_LEN then Groups(g.closed + [group], []) else g.(open := group)
  }

  function Grouped(ds: seq<seq<byte>>): Groups {
    if ds == [] then Groups([], []) else AddSubmit(Grouped(ds[..|ds| - 1]), ds[|ds| - 1])
  }

  lemma GroupedSnoc(ds: seq<seq<byte>>, d: seq<byte>)
    ensures Grouped(ds + [d]) == AddSubmit(Grouped(ds), d)
  {
    assert (ds + [d])[..|ds|] == ds;
  }

  lemma AddKeepsGrouping(ds: seq<seq<byte>>, g: Groups, d: seq<byte>)
    requires IsGrouping(ds, g)
    ensures IsGrouping(ds + [d], AddSubmit(g, d))
  {
    hide Joined;
    var group := g.open + [d];
    assert Flatten(g.closed) + group == ds + [d];
    if |Joined(group)| >= UNIT_LEN {
      assert group[..|group| - 1] == g.open;
      FlattenSnoc(g.closed, group);
      NothingOpen();
    }
  }

  lemma NothingOpen()
    ensures |Joined([])| == 0
  {
  }

  lemma FlattenSnoc(gs: seq<seq<seq<byte>>>, group: seq<seq<byte>>)
    ensures Flatten(gs + [group]) == Flatten(gs) + group
  {
    FlattenSplit(gs, [group]);
    assert Flatten([group]) == group + Flatten([]);
  }

  /** A grouping exists. */
  lemma {:induction false} GroupedIsGrouping(ds: seq<seq<byte>>)
    ensures IsGrouping(ds, Grouped(ds))
  {
    if ds != [] {
      var before, d := ds[..|ds| - 1], ds[|ds| - 1];
      assert ds == before + [d];
      GroupedIsGrouping(before);
      AddKeepsGrouping(before, Grouped(before), d);
    }
  }

  /** And there is only one. */
  lemma {:induction false} GroupingUnique(ds: seq<seq<byte>>, g: Groups)
    requires IsGrouping(ds, g)
    ensures g == Grouped(ds)
    decreases |ds|
  {
    if ds == [] {
      NothingToGroup(g);
    } else {
      var g0 := if g.open != [] then UndoOpen(ds, g) else UndoClosed(ds, g);
      GroupingUnique(ds[..|ds| - 1], g0);
    }
  }

  lemma NothingToGroup(g: Groups)
    requires IsGrouping([], g)
    ensures g == Groups([], [])
  {
  }

  /** The grouping before the last submit, which is in the open record. */
  ghost function UndoOpen(ds: seq<seq<byte>>, g: Groups): (g0: Groups)
    requires IsGrouping(ds, g) && g.open != []
    ensures ds != [] && IsGrouping(ds[..|ds| - 1], g0) && g == AddSubmit(g0, ds[|ds| - 1])
  {
    var n := |g.open| - 1;
    var last := g.open[n];
    assert g.open == g.open[..n] + [last];
    assert ds[|ds| - 1] == last && ds[..|ds| - 1] == Flatten(g.closed) + g.open[..n];
    JoinedSplit(g.open[..n], [last]);
    g.(open := g.open[..n])
  }

  /** The grouping before the last submit, which closed a record. */
  ghost function UndoClosed(ds: seq<seq<byte>>, g: Groups): (g0: Groups)
    requires IsGrouping(ds, g) && g.open == [] && ds != []
    ensures IsGrouping(ds[..|ds| - 1], g0) && g == AddSubmit(g0, ds[|ds| - 1])
  {
    LastClosed(g.closed, ds);
    var n := |g.closed| - 1;
    var group := g.closed[n];
    assert JustFull(group);
    Groups(g.closed[..n], group[..|group| - 1])
  }

  lemma LastClosed(gs: seq<seq<seq<byte>>>, ds: seq<seq<byte>>)
    requires Flatten(gs) + [] == ds != []
    requires forall i :: 0 <= i < |gs| ==> gs[i] != []
    ensures gs != []
    ensures var n, group := |gs| - 1, gs[|gs| - 1];
            && ds[|ds| - 1] == group[|group| - 1]
            && ds[..|ds| - 1] == Flatten(gs[..n]) + group[..|group| - 1]
            && group == group[..|group| - 1] + [group[|group| - 1]]
            && gs == gs[..n] + [group]
  {
    var n, group := |gs| - 1, gs[|gs| - 1];
    Snoc(gs);
    Snoc(group);
    FlattenSnoc(gs[..n], group);
    hide Flatten;
    LastOfSum(Flatten(gs[..n]), group, ds);
  }

  lemma Snoc<T>(s: seq<T>)
    requires s != []
    ensures s == s[..|s| - 1] + [s[|s| - 1]]
  {
  }

  lemma LastOfSum<T>(a: seq<T>, b: seq<T>, s: seq<T>)
    requires b != [] && s == a + b
    ensures s[|s| - 1] == b[|b| - 1] && s[..|s| - 1] == a + b[..|b| - 1]
  {
  }

  // ---- sizes and eviction ----

  function Sum(sizes: seq<nat>): nat {
    if sizes == [] then 0 else sizes[0] + Sum(sizes[1..])
  }

  lemma {:induction false} SumSnoc(sizes: seq<nat>, n: nat)
    ensures Sum(sizes + [n]) == Sum(sizes) + n
  {
    if sizes != [] {
      assert (sizes + [n])[1..] == sizes[1..] + [n];
      SumSnoc(sizes[1..], n);
    }
  }

  lemma {:induction false} SumBounds(sizes: seq<nat>, low: nat, high: nat)
    requires forall i :: 0 <= i < |sizes| ==> low <= sizes[i] <= high
    ensures |sizes| * low <= Sum(sizes) <= |sizes| * high
  {
    if sizes != [] {
      SumBounds(sizes[1..], low, high);
      assert |sizes| * low == low + (|sizes| - 1) * low;
      assert |sizes| * high == high + (|sizes| - 1) * high;
    }
  }

  /** How many records are gone once records of these sizes have closed one after another:
  each closing drops one more if what is still there is over capacity. */
  function Evicted(sizes: seq<nat>, capacity: nat): (e: nat)
    ensures e <= |sizes| && (sizes != [] ==> e < |sizes|)
  {
    if sizes == [] then 0
    else
      var before := sizes[..|sizes| - 1];
      var e := Evicted(before, capacity);
      if Sum(before[e..]) > capacity then e + 1 else e
  }

  lemma EvictedSnoc(sizes: seq<nat>, n: nat, capacity: nat)
    ensures Evicted(sizes + [n], capacity)
         == Evicted(sizes, capacity) + if Sum(sizes[Evicted(sizes, capacity)..]) > capacity then 1 else 0
  {
    assert (sizes + [n])[..|sizes|] == sizes;
  }

  /** One eviction for each closing is enough: records of at least the unit length never
  pile up beyond what fits plus one. */
  lemma {:induction false} EvictedKeepsUp(sizes: seq<nat>, capacity: nat)
    requires forall i :: 0 <= i < |sizes| ==> sizes[i] >= UNIT_LEN
    ensures |sizes| - Evicted(sizes, capacity) <= capacity / UNIT_LEN + 1
  {
    if sizes != [] {
      var before := sizes[..|sizes| - 1];
      EvictedKeepsUp(before, capacity);
      var kept := before[Evicted(before, capacity)..];
      if |kept| == capacity / UNIT_LEN + 1 {
        SumBoundBelow(kept);
      }
    }
  }

  lemma {:induction false} SumBoundBelow(sizes: seq<nat>)
    requires forall i :: 0 <= i < |sizes| ==> sizes[i] >= UNIT_LEN
    ensures Sum(sizes) >= |sizes| * UNIT_LEN
  {
    if sizes != [] {
      SumBoundBelow(sizes[1..]);
    }
  }

  /** With records of exactly the unit length the overshoot is one record. */
  lemma {:induction false} EvictedExact(sizes: seq<nat>, capacity: nat)
    requires forall i :: 0 <= i < |sizes| ==> sizes[i] == UNIT_LEN
    ensures Sum(sizes[Evicted(sizes, capacity)..]) <= capacity + UNIT_LEN
  {
    if sizes != [] {
      var before := sizes[..|sizes| - 1];
      EvictedExact(before, capacity);
      var e := Evicted(before, capacity);
      var kept := before[e..];
      assert sizes[e..] == kept + [UNIT_LEN];
      SumSnoc(kept, UNIT_LEN);
      if Sum(kept) > capacity {
        assert sizes[e..][1..] == sizes[e + 1..];
      }
    }
  }

  function Sizes(gs: seq<seq<seq<byte>>>): (sizes: seq<nat>)
    ensures |sizes| == |gs|
  {
    seq(|gs|, i requires 0 <= i < |gs| => |Joined(gs[i])|)
  }

  // ---- sizes of groups ----

  ghost predicate AtMost(ds: seq<seq<byte>>, most: nat) {
    forall i :: 0 <= i < |ds| ==> |ds[i]| <= most
  }

  lemma FlattenAt(gs: seq<seq<seq<byte>>>, i: nat, j: nat) returns (k: nat)
    requires i < |gs| && j < |gs[i]|
    ensures k < |Flatten(gs)| && Flatten(gs)[k] == gs[i][j]
  {
    if i == 0 {
      k := j;
    } else {
      var k0 := FlattenAt(gs[1..], i - 1, j);
      k := |gs[0]| + k0;
    }
  }

  /** A closed record overshoots the unit length by less than one submit. */
  lemma ClosedSizes(ds: seq<seq<byte>>, g: Groups, most: nat)
    requires IsGrouping(ds, g) && AtMost(ds, most)
    ensures forall i :: 0 <= i < |g.closed| ==> UNIT_LEN <= Sizes(g.closed)[i] <= UNIT_LEN + most - 1
  {
    forall i | 0 <= i < |g.closed|
      ensures UNIT_LEN <= Sizes(g.closed)[i] <= UNIT_LEN + most - 1
    {
      var group := g.closed[i];
      var n := |group| - 1;
      assert group == group[..n] + [group[n]];
      JoinedSplit(group[..n], [group[n]]);
      JoinedOne(group[n]);
      var k := FlattenAt(g.closed, i, n);
      assert ds[k] == group[n];
    }
  }

  /** Submits of one size that divides the unit length close records at exactly that length. */
  lemma ClosedSizesExact(ds: seq<seq<byte>>, g: Groups, size: nat)
    requires IsGrouping(ds, g) && 0 < size && UNIT_LEN % size == 0
    requires forall i :: 0 <= i < |ds| ==> |ds[i]| == size
    ensures forall i :: 0 <= i < |g.closed| ==> Sizes(g.closed)[i] == UNIT_LEN
  {
    forall i | 0 <= i < |g.closed|
      ensures Sizes(g.closed)[i] == UNIT_LEN
    {
      var group := g.closed[i];
      var n := |group| - 1;
      forall j | 0 <= j < |group|
        ensures |group[j]| == size
      {
        var k := FlattenAt(g.closed, i, j);
        assert ds[k] == group[j];
      }
      JoinedLength(group, size);
      JoinedLength(group[..n], size);
      FirstMultiple(n, size);
    }
  }

  lemma FirstMultiple(n: nat, size: nat)
    requires 0 < size && UNIT_LEN % size == 0
    requires n * size < UNIT_LEN <= (n + 1) * size
    ensures (n + 1) * size == UNIT_LEN
  {
    var q := UNIT_LEN / size;
    assert (n + 2) * size == (n + 1) * size + size;
    assert UNIT_LEN == q * size;
    assert n < q by {
      if n >= q {
        MulMonotone(q, n, size);
      }
    }
    assert q <= n + 1 by {
      if q > n + 1 {
        MulMonotone(n + 2, q, size);
      }
    }
  }

  lemma MulMonotone(a: nat, b: nat, c: nat)
    requires a <= b
    ensures a * c <= b * c
  {
    assert b * c == a * c + (b - a) * c;
  }
}
