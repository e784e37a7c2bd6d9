/** Whole runs of the record manager: what is on disk after any sequence of submits, and
what survives reopening. */
module Retention {
  import opened Bytes
  import opened Names
  import opened RecordLog
  import opened SlotFile
  import opened Grouping
  import opened History

  // ---- the disk after one phase of a submit ----

  /** The directory shows `contents`, and the recorded lengths of closed records are true. */
  ghost predicate Holds(l0: Log, l: Log, base: nat, contents: seq<seq<byte>>)
    requires Inv(l)
  {
    && l.capacity == l0.capacity
    && Shows(l0, l, base, contents)
    && (forall i :: 0 <= i < |contents| ==>
          l.recs[i].len == if l.open && i == |contents| - 1 then 0 else |contents[i]|)
  }

  lemma HoldsNew(l0: Log, l: Log, base: nat, contents: seq<seq<byte>>)
    requires Inv(l) && !l.open && Room(l) && Holds(l0, l, base, contents)
    requires contents == [] ==> base == 0
    ensures Holds(l0, NewRecord(l), base, contents + [[]])
  {
    hide Name, Room, LiveNames, FirstFree, Ahead;
    ShowsNew(l0, l, base, contents);
  }

  lemma HoldsWritten(l0: Log, l: Log, base: nat, contents: seq<seq<byte>>, data: seq<byte>)
    requires Inv(l) && l.open && Holds(l0, l, base, contents)
    ensures var n := |contents| - 1;
            Holds(l0, Written(l, data), base, contents[..n] + [contents[n] + data])
  {
    hide Name, Room, LiveNames;
    ShowsWritten(l0, l, base, contents, data);
  }

  lemma HoldsPopped(l0: Log, l: Log, base: nat, contents: seq<seq<byte>>)
    requires Inv(l) && l.open && |l.recs| >= 2 && Holds(l0, l, base, contents)
    ensures Holds(l0, PopFront(l), base + 1, contents[1..])
  {
    hide Name, Room, LiveNames;
    ShowsPopped(l0, l, base, contents);
    assert forall i :: 1 <= i < |l.recs| ==> PopFront(l).recs[i - 1] == l.recs[i];
  }

  lemma HoldsClosed(l0: Log, l: Log, base: nat, contents: seq<seq<byte>>)
    requires Inv(l) && l.open && Holds(l0, l, base, contents)
    requires |contents[|contents| - 1]| < 0x1_0000_0000
    ensures Holds(l0, Closed(l), base, contents)
  {
    hide Name, Room, LiveNames, Wrap32;
    var l1 := Closed(l);
    WrapSmall(|contents[|contents| - 1]|);
    ShowsClosed(l0, l, base, contents);
    assert forall i :: 0 <= i < |l.recs| - 1 ==> l1.recs[i] == l.recs[i];
    assert FileOf(l, |l.recs| - 1) == contents[|contents| - 1];
  }

  // ---- the disk after a run ----

  /** How many of the closed records of a stream have been evicted. */
  function Gone(ds: seq<seq<byte>>, capacity: nat): (e: nat)
    ensures e <= |Grouped(ds).closed|
    ensures Grouped(ds).closed != [] ==> e < |Grouped(ds).closed|
  {
    Evicted(Sizes(Grouped(ds).closed), capacity)
  }

  /** The groups of submits that are still on disk, the open one last. */
  function LiveGroups(ds: seq<seq<byte>>, capacity: nat): seq<seq<seq<byte>>> {
    var g := Grouped(ds);
    g.closed[Gone(ds, capacity)..] + if g.open == [] then [] else [g.open]
  }

  /** The disk shows exactly what the stream of submits calls for. */
  ghost predicate Retains(l0: Log, l: Log, ds: seq<seq<byte>>)
    requires Inv(l)
  {
    && l.open == (Grouped(ds).open != [])
    && Holds(l0, l, Gone(ds, l0.capacity), Joineds(LiveGroups(ds, l0.capacity)))
  }

  /** No total that the manager keeps can reach 2^32, if submits are of at most `most` bytes. */
  predicate NoWrap(capacity: nat, most: nat) {
    most >= 1 && (capacity / UNIT_LEN + 1) * (UNIT_LEN + most - 1) < 0x1_0000_0000
  }

  /** The bytes in the closed records that a stream of submits leaves on disk. */
  function Total(ds: seq<seq<byte>>, capacity: nat): nat {
    Sum(Sizes(Grouped(ds).closed)[Gone(ds, capacity)..])
  }

  lemma NoWrapOne(capacity: nat, most: nat)
    requires NoWrap(capacity, most)
    ensures UNIT_LEN + most - 1 < 0x1_0000_0000
  {
    MulMonotone(1, capacity / UNIT_LEN + 1, UNIT_LEN + most - 1);
  }

  /** The total in the header is the sum of the closed live records. */
  lemma {:induction false} TotalOf(recs: seq<Rec>, sizes: seq<nat>)
    requires |sizes| <= |recs| <= |sizes| + 1
    requires forall i :: 0 <= i < |recs| ==> recs[i].len == if i < |sizes| then sizes[i] else 0
    ensures SumLen(recs) == Sum(sizes)
  {
    if sizes != [] {
      TotalOf(recs[1..], sizes[1..]);
    } else if recs != [] {
      assert SumLen(recs) == recs[0].len + SumLen(recs[1..]);
    }
  }

  /** How many closed records a stream of submits leaves on disk, whatever their sizes. */
  lemma KeptCount(ds: seq<seq<byte>>, capacity: nat)
    ensures |Grouped(ds).closed| - Gone(ds, capacity) <= capacity / UNIT_LEN + 1
  {
    hide Joined, Grouped, Sum;
    var g := Grouped(ds);
    GroupedIsGrouping(ds);
    EvictedKeepsUp(Sizes(g.closed), capacity);
  }

  /** Bounds on what a stream of submits leaves on disk. */
  lemma KeptBounds(ds: seq<seq<byte>>, capacity: nat, most: nat)
    requires AtMost(ds, most) && most >= 1
    ensures var kept := Sizes(Grouped(ds).closed)[Gone(ds, capacity)..];
            && |kept| <= capacity / UNIT_LEN + 1
            && Sum(kept) <= (capacity / UNIT_LEN + 1) * (UNIT_LEN + most - 1)
            && forall i :: 0 <= i < |kept| ==> UNIT_LEN <= kept[i] <= UNIT_LEN + most - 1
  {
    hide Joined, Grouped, Sum;
    var g := Grouped(ds);
    GroupedIsGrouping(ds);
    ClosedSizes(ds, g, most);
    EvictedKeepsUp(Sizes(g.closed), capacity);
    var kept := Sizes(g.closed)[Gone(ds, capacity)..];
    SumBounds(kept, UNIT_LEN, UNIT_LEN + most - 1);
    MulMonotone(|kept|, capacity / UNIT_LEN + 1, UNIT_LEN + most - 1);
  }

  lemma TotalIsKept(l0: Log, l: Log, ds: seq<seq<byte>>)
    requires Inv(l) && Retains(l0, l, ds)
    ensures SumLen(l.recs) == Total(ds, l0.capacity)
  {
    hide Name, Room, LiveNames, Joined, Grouped, Gone;
    var e, closed := Gone(ds, l0.capacity), Grouped(ds).closed;
    var kept := Sizes(closed)[e..];
    var contents := Joineds(LiveGroups(ds, l0.capacity));
    assert forall i :: 0 <= i < |kept| ==> |contents[i]| == kept[i];
    TotalOf(l.recs, kept);
  }

  // ---- one submit ----

  lemma OpenedHolds(l0: Log, l: Log, ds: seq<seq<byte>>)
    requires Inv(l) && Room(l) && Retains(l0, l, ds)
    ensures var g, e := Grouped(ds), Gone(ds, l0.capacity);
            Holds(l0, if l.open then l else NewRecord(l), e, Joineds(g.closed[e..] + [g.open]))
  {
    hide Name, Room, LiveNames, Grouped, Gone;
    var g, e := Grouped(ds), Gone(ds, l0.capacity);
    var contents := Joineds(LiveGroups(ds, l0.capacity));
    if !l.open {
      HoldsNew(l0, l, e, contents);
      assert contents + [[]] == Joineds(g.closed[e..] + [g.open]);
    }
  }

  lemma WrittenHolds(l0: Log, l: Log, base: nat, gs: seq<seq<seq<byte>>>, group: seq<seq<byte>>, d: seq<byte>)
    requires Inv(l) && l.open && Holds(l0, l, base, Joineds(gs + [group]))
    ensures Holds(l0, Written(l, d), base, Joineds(gs + [group + [d]]))
  {
    hide Name, Room, LiveNames;
    HoldsWritten(l0, l, base, Joineds(gs + [group]), d);
    JoinedSplit(group, [d]);
    JoinedOne(d);
    assert Joineds(gs + [group])[..|gs|] + [Joined(group) + d] == Joineds(gs + [group + [d]]);
  }

  lemma OverfullIffKept(l0: Log, l: Log, base: nat, gs: seq<seq<seq<byte>>>, group: seq<seq<byte>>)
    requires Inv(l) && l.open && Holds(l0, l, base, Joineds(gs + [group]))
    requires Sum(Sizes(gs)) < 0x1_0000_0000
    ensures Overfull(l) <==> Sum(Sizes(gs)) > l0.capacity
  {
    hide Name, Room, LiveNames, Wrap32, Joined;
    var contents := Joineds(gs + [group]);
    assert forall i :: 0 <= i < |gs| ==> Sizes(gs)[i] == |contents[i]|;
    TotalOf(l.recs, Sizes(gs));
    WrapSmall(SumLen(l.recs));
  }

  /** A record that is full: one eviction if the rest is over capacity, then the close. */
  lemma ReleasedHolds(l0: Log, l: Log, base: nat, gs: seq<seq<seq<byte>>>, group: seq<seq<byte>>)
    requires Inv(l) && l.open && Holds(l0, l, base, Joineds(gs + [group]))
    requires Sum(Sizes(gs)) < 0x1_0000_0000 && |Joined(group)| < 0x1_0000_0000
    ensures var drop := if Sum(Sizes(gs)) > l0.capacity then 1 else 0;
            drop <= |gs| && Holds(l0, Released(l), base + drop, Joineds((gs + [group])[drop..]))
  {
    hide Name, Room, LiveNames, Wrap32, Joined, Sum, Overfull;
    var contents := Joineds(gs + [group]);
    OverfullIffKept(l0, l, base, gs, group);
    if Overfull(l) {
      OverfullHasClosed(l);
      HoldsPopped(l0, l, base, contents);
      HoldsClosed(l0, PopFront(l), base + 1, contents[1..]);
      assert contents[1..] == Joineds((gs + [group])[1..]);
    } else {
      HoldsClosed(l0, l, base, contents);
      assert (gs + [group])[0..] == gs + [group];
    }
  }

  /** Where a submit that fills the record leaves the reference. */
  lemma GoneAfterClose(ds: seq<seq<byte>>, d: seq<byte>, capacity: nat)
    requires |Joined(Grouped(ds).open + [d])| >= UNIT_LEN
    ensures var g, e := Grouped(ds), Gone(ds, capacity);
            var gs, group := g.closed[e..], g.open + [d];
            var drop := if Sum(Sizes(gs)) > capacity then 1 else 0;
            && Gone(ds + [d], capacity) == e + drop
            && drop <= |gs|
            && LiveGroups(ds + [d], capacity) == (gs + [group])[drop..]
            && Grouped(ds + [d]).open == []
  {
    hide Joined, Sum;
    var g, e := Grouped(ds), Gone(ds, capacity);
    var gs, group := g.closed[e..], g.open + [d];
    GroupedSnoc(ds, d);
    assert Sizes(g.closed + [group]) == Sizes(g.closed) + [|Joined(group)|];
    EvictedSnoc(Sizes(g.closed), |Joined(group)|, capacity);
    assert Sizes(g.closed)[e..] == Sizes(gs);
    if gs == [] {
      NothingKept(gs);
    }
    var drop := if Sum(Sizes(gs)) > capacity then 1 else 0;
    assert (g.closed + [group])[e + drop..] == (gs + [group])[drop..];
  }

  lemma NothingKept(gs: seq<seq<seq<byte>>>)
    requires gs == []
    ensures Sum(Sizes(gs)) == 0
  {
  }

  lemma SubmitRetains(l0: Log, l: Log, ds: seq<seq<byte>>, d: seq<byte>)
    requires Inv(l) && Room(l) && Retains(l0, l, ds)
    requires Total(ds, l0.capacity) < 0x1_0000_0000 && UNIT_LEN + |d| - 1 < 0x1_0000_0000
    ensures Retains(l0, Submitted(l, d), ds + [d])
  {
    hide Name, Room, LiveNames, Wrap32, Joined, Grouped, Gone, Holds, Sum, LiveGroups, Released, Written, Inv,
         NewRecord, Total;
    var g, e := Grouped(ds), Gone(ds, l0.capacity);
    var gs, group := g.closed[e..], g.open + [d];
    var l1 := if l.open then l else NewRecord(l);
    OpenedHolds(l0, l, ds);
    WrittenHolds(l0, l1, e, gs, g.open, d);
    var l2 := Written(l1, d);
    OpenLengthOf(l0, l2, e, gs, ds, d);
    if OpenLength(l2) >= UNIT_LEN {
      TotalOfGroups(ds, l0.capacity);
      ReleasedHolds(l0, l2, e, gs, group);
      GoneAfterClose(ds, d, l0.capacity);
    } else {
      GoneWhileOpen(ds, d, l0.capacity);
    }
  }

  lemma GoneWhileOpen(ds: seq<seq<byte>>, d: seq<byte>, capacity: nat)
    requires |Joined(Grouped(ds).open + [d])| < UNIT_LEN
    ensures var g, e := Grouped(ds), Gone(ds, capacity);
            && Gone(ds + [d], capacity) == e
            && LiveGroups(ds + [d], capacity) == g.closed[e..] + [g.open + [d]]
            && Grouped(ds + [d]).open == g.open + [d]
  {
    GroupedSnoc(ds, d);
  }

  lemma TotalOfGroups(ds: seq<seq<byte>>, capacity: nat)
    ensures Total(ds, capacity) == Sum(Sizes(Grouped(ds).closed[Gone(ds, capacity)..]))
  {
    hide Joined, Sum, Grouped, Gone;
    var closed, e := Grouped(ds).closed, Gone(ds, capacity);
    assert Sizes(closed)[e..] == Sizes(closed[e..]);
  }

  lemma OpenLengthOf(l0: Log, l: Log, base: nat, gs: seq<seq<seq<byte>>>, ds: seq<seq<byte>>, d: seq<byte>)
    requires Inv(l) && l.open && Holds(l0, l, base, Joineds(gs + [Grouped(ds).open + [d]]))
    requires UNIT_LEN + |d| - 1 < 0x1_0000_0000
    ensures l.recs != [] && OpenName(l) in l.files
    ensures OpenLength(l) == |Joined(Grouped(ds).open + [d])| < 0x1_0000_0000
  {
    hide Name, Room, LiveNames, Wrap32;
    GroupedIsGrouping(ds);
    JoinedSplit(Grouped(ds).open, [d]);
    JoinedOne(d);
    assert FileOf(l, |gs|) == Joined(Grouped(ds).open + [d]);
    WrapSmall(|Joined(Grouped(ds).open + [d])|);
  }
}
