/** The main results about the record manager, for whole runs. */
module Runs {
  import opened Bytes
  import opened Layout
  import opened Names
  import opened RecordLog
  import opened IndexFile
  import opened SlotFile
  import opened Grouping
  import opened History
  import opened Retention

  /** How many records a stream of submits starts. */
  function Records(ds: seq<seq<byte>>): nat {
    |Grouped(ds).closed| + if Grouped(ds).open == [] then 0 else 1
  }

  /** The highest value the name counter can reach before it creates a record. */
  ghost function Reach(l: Log): nat {
    l.clock + |Ahead(l.files.Keys, l.clock)|
  }

  /** What a caller can check before a run: submits small enough for the 32-bit totals, and
  enough left of the `int` name counter for the records to come. */
  ghost predicate Admissible(l0: Log, ds: seq<seq<byte>>, most: nat) {
    NoWrap(l0.capacity, most) && AtMost(ds, most) && Reach(l0) + Records(ds) <= INT_MAX
  }

  /** The counters after a run: one step of the name counter and one number per record, and
  slots for what fits plus two. */
  ghost predicate Counters(l0: Log, l: Log, ds: seq<seq<byte>>) {
    && Reach(l) <= Reach(l0) + Records(ds)
    && l.stop == Records(ds) - 1
    && l.slots <= l0.capacity / UNIT_LEN + 2
  }

  // ---- the counters ----

  lemma ReachOfNew(l: Log)
    requires Inv(l) && !l.open && Room(l)
    ensures Reach(NewRecord(l)) == Reach(l) + 1
  {
    hide Name, Ahead;
    var l1 := NewRecord(l);
    AheadOfChange(l.files.Keys, l1.clock, l1.clock);
    assert l1.files.Keys == l.files.Keys + {Name(l1.clock)};
  }

  lemma ReachOfWritten(l: Log, data: seq<byte>)
    requires Inv(l) && l.open
    ensures Reach(Written(l, data)) == Reach(l)
  {
    hide Name, Ahead;
    assert Written(l, data).files.Keys == l.files.Keys;
  }

  lemma ReachOfReleased(l: Log)
    requires Inv(l) && l.open
    ensures Reach(Released(l)) <= Reach(l)
  {
    hide Name, Ahead;
    if Overfull(l) {
      OverfullHasClosed(l);
      AheadMonotone(PopFront(l).files.Keys, l.files.Keys, l.clock);
    }
  }

  lemma ReachOfSubmitted(l: Log, data: seq<byte>)
    requires Inv(l) && Room(l)
    ensures Reach(Submitted(l, data)) <= Reach(l) + if l.open then 0 else 1
  {
    hide Name, Ahead, Reach, NewRecord, Released, Room;
    var l1 := if l.open then l else NewRecord(l);
    if !l.open {
      ReachOfNew(l);
    }
    ReachOfWritten(l1, data);
    var l2 := Written(l1, data);
    if OpenLength(l2) >= UNIT_LEN {
      ReachOfReleased(l2);
    }
  }

  lemma RecordsSnoc(ds: seq<seq<byte>>, d: seq<byte>)
    ensures Records(ds + [d]) == Records(ds) + if Grouped(ds).open == [] then 1 else 0
  {
    GroupedSnoc(ds, d);
  }

  lemma LiveCount(l0: Log, l: Log, ds: seq<seq<byte>>)
    requires Inv(l) && Retains(l0, l, ds)
    ensures |l.recs| == Records(ds) - Gone(ds, l0.capacity)
    ensures |l.recs| <= l0.capacity / UNIT_LEN + 1 + if l.open then 1 else 0
    ensures l.recs != [] ==> l.start == Gone(ds, l0.capacity) && l.stop == Records(ds) - 1
  {
    hide Name, Joined, LiveNames;
    KeptCount(ds, l0.capacity);
    assert l.recs != [] ==> l.recs[0].index == l.start + 0;
  }

  lemma RoomFor(l0: Log, l: Log, ds: seq<seq<byte>>, d: seq<byte>)
    requires Inv(l) && Retains(l0, l, ds) && Counters(l0, l, ds)
    requires Reach(l0) + Records(ds + [d]) <= INT_MAX
    ensures Room(l)
  {
    hide Name, Ahead, Joined, Grouped, Retains;
    assert l.open == (Grouped(ds).open != []) by { OpenMatches(l0, l, ds); }
    RecordsSnoc(ds, d);
    LiveCount(l0, l, ds);
  }

  lemma OpenMatches(l0: Log, l: Log, ds: seq<seq<byte>>)
    requires Inv(l) && Retains(l0, l, ds)
    ensures l.open == (Grouped(ds).open != [])
  {
  }

  lemma CountersAfter(l0: Log, l: Log, ds: seq<seq<byte>>, d: seq<byte>)
    requires Inv(l) && Room(l) && Retains(l0, l, ds) && Counters(l0, l, ds)
    requires Retains(l0, Submitted(l, d), ds + [d])
    ensures Counters(l0, Submitted(l, d), ds + [d])
  {
    hide Name, Ahead, Joined, Grouped, Retains, Reach, Inv, Room, Submitted, Gone;
    OpenMatches(l0, l, ds);
    RecordsSnoc(ds, d);
    ReachOfSubmitted(l, d);
    LiveCount(l0, l, ds);
    var l1 := Submitted(l, d);
    SlotsAfter(l, d);
    LiveCount(l0, l1, ds + [d]);
  }

  lemma SlotsAfter(l: Log, d: seq<byte>)
    requires Inv(l) && Room(l)
    ensures Submitted(l, d).recs != []
    ensures Submitted(l, d).slots <= l.slots || (!l.open && Submitted(l, d).slots <= |l.recs| + 1)
  {
    hide Name, Ahead, Wrap32;
  }

  // ---- the main theorem ----

  /** No counter has wrapped before the last submit is closed: no record has reached 2^32
  bytes, and the closed ones never amounted to that before it. */
  ghost predicate Exact(ds: seq<seq<byte>>, capacity: nat) {
    && (forall i :: 0 <= i < |ds| ==> UNIT_LEN + |ds[i]| - 1 < 0x1_0000_0000)
    && (forall j :: 0 <= j < |ds| ==> Total(ds[..j], capacity) < 0x1_0000_0000)
  }

  lemma ExactPrefix(ds: seq<seq<byte>>, capacity: nat)
    requires Exact(ds, capacity) && ds != []
    ensures Exact(ds[..|ds| - 1], capacity) && Total(ds[..|ds| - 1], capacity) < 0x1_0000_0000
  {
    hide Total;
    var before := ds[..|ds| - 1];
    forall j | 0 <= j < |before|
      ensures Total(before[..j], capacity) < 0x1_0000_0000
    {
      assert before[..j] == ds[..j];
    }
  }

  /** A run of submits from a new index file, as long as no counter has wrapped. */
  lemma {:induction false} RunRetainsWhileExact(capacity: u32, files: map<seq<byte>, seq<byte>>, clock: nat,
                                                ds: seq<seq<byte>>)
    requires Exact(ds, capacity) && Reach(Created(capacity, files, clock)) + Records(ds) <= INT_MAX
    ensures var l0 := Created(capacity, files, clock);
            Defined(l0, Submits(ds)) && Retains(l0, Run(l0, Submits(ds)), ds)
            && Counters(l0, Run(l0, Submits(ds)), ds)
    decreases |ds|
  {
    hide Name, Ahead, Joined, Grouped, Retains, Reach, Room, Submitted, Gone, Counters, Run, Total;
    var l0 := Created(capacity, files, clock);
    if ds == [] {
      EmptyRun(capacity, files, clock);
    } else {
      var before, d := ds[..|ds| - 1], ds[|ds| - 1];
      assert ds == before + [d];
      RecordsSnoc(before, d);
      ExactPrefix(ds, capacity);
      RunRetainsWhileExact(capacity, files, clock, before);
      var l := Run(l0, Submits(before));
      RoomFor(l0, l, before, d);
      SubmitRetains(l0, l, before, d);
      CountersAfter(l0, l, before, d);
      RunSnoc(l0, before, d);
    }
  }

  lemma NoWrapMakesExact(ds: seq<seq<byte>>, capacity: nat, most: nat)
    requires NoWrap(capacity, most) && AtMost(ds, most)
    ensures Exact(ds, capacity) && Total(ds, capacity) < 0x1_0000_0000
  {
    hide Joined, Grouped, Gone, Sum, NoWrap;
    NoWrapOne(capacity, most);
    forall j | 0 <= j <= |ds|
      ensures Total(ds[..j], capacity) < 0x1_0000_0000
    {
      TotalBelowWrap(ds[..j], capacity, most);
    }
    assert ds[..|ds|] == ds;
  }

  lemma TotalBelowWrap(ds: seq<seq<byte>>, capacity: nat, most: nat)
    requires NoWrap(capacity, most) && AtMost(ds, most)
    ensures Total(ds, capacity) <= (capacity / UNIT_LEN + 1) * (UNIT_LEN + most - 1) < 0x1_0000_0000
  {
    hide Joined, Grouped, Gone, Sum;
    KeptBounds(ds, capacity, most);
  }

  /** After any admissible run of submits from a new index file, every call along the way
  had a defined outcome, and the index file, the record files and the rest of the directory
  are exactly the ones the grouping of the stream calls for. */
  lemma RunRetains(capacity: u32, files: map<seq<byte>, seq<byte>>, clock: nat, ds: seq<seq<byte>>, most: nat)
    requires Admissible(Created(capacity, files, clock), ds, most)
    ensures var l0 := Created(capacity, files, clock);
            Defined(l0, Submits(ds)) && Retains(l0, Run(l0, Submits(ds)), ds)
            && Counters(l0, Run(l0, Submits(ds)), ds)
  {
    hide Name, Ahead, Joined, Grouped, Retains, Reach, Gone, Counters, Run, Total, NoWrap, Exact;
    NoWrapMakesExact(ds, capacity, most);
    RunRetainsWhileExact(capacity, files, clock, ds);
  }

  lemma EmptyRun(capacity: u32, files: map<seq<byte>, seq<byte>>, clock: nat)
    ensures var l0 := Created(capacity, files, clock);
            Defined(l0, Submits([])) && Run(l0, Submits([])) == l0 && Retains(l0, l0, []) && Counters(l0, l0, [])
  {
    var l0 := Created(capacity, files, clock);
    assert Submits([]) == [];
    assert Joineds(LiveGroups([], capacity)) == [];
    assert LiveNames(l0) == {};
  }

  lemma RunSnoc(l0: Log, ds: seq<seq<byte>>, d: seq<byte>)
    requires Inv(l0) && Defined(l0, Submits(ds)) && Room(Run(l0, Submits(ds)))
    ensures Defined(l0, Submits(ds + [d]))
    ensures Run(l0, Submits(ds + [d])) == Submitted(Run(l0, Submits(ds)), d)
  {
    hide Name, Ahead, Inv, Room, Submitted, Defined, Run;
    assert Submits(ds + [d]) == Submits(ds) + [Submit(d)];
    StepAfter(l0, Submits(ds), Submit(d));
  }

  // ---- consequences ----

  ghost function AfterRun(capacity: u32, files: map<seq<byte>, seq<byte>>, clock: nat,
                          ds: seq<seq<byte>>, most: nat): (l: Log)
    requires Admissible(Created(capacity, files, clock), ds, most)
    ensures Inv(l)
  {
    RunRetains(capacity, files, clock, ds, most);
    Run(Created(capacity, files, clock), Submits(ds))
  }

  /** The contents of the live data files, in the order of their record numbers. */
  function LiveFiles(l: Log): (contents: seq<seq<byte>>)
    requires forall i :: 0 <= i < |l.recs| ==> Name(l.recs[i].stamp) in l.files
    ensures |contents| == |l.recs|
  {
    seq(|l.recs|, i requires 0 <= i < |l.recs| => FileOf(l, i))
  }

  lemma LiveFilesAre(l0: Log, l: Log, ds: seq<seq<byte>>)
    requires Inv(l) && Retains(l0, l, ds)
    ensures LiveFiles(l) == Joineds(LiveGroups(ds, l0.capacity))
  {
    hide Name, Joined, LiveNames, Grouped, Gone;
  }

  lemma {:induction false} JoinedFlatten(gs: seq<seq<seq<byte>>>)
    ensures Joined(Flatten(gs)) == Joined(Joineds(gs))
  {
    if gs != [] {
      JoinedSplit(gs[0], Flatten(gs[1..]));
      assert Joineds(gs)[1..] == Joineds(gs[1..]);
      JoinedFlatten(gs[1..]);
    }
  }

  /** The submits that have been evicted and the ones that are on disk are the whole stream. */
  lemma GroupsPartition(ds: seq<seq<byte>>, capacity: nat)
    ensures ds == Flatten(Grouped(ds).closed[..Gone(ds, capacity)]) + Flatten(LiveGroups(ds, capacity))
  {
    hide Grouped, Gone, Joined, JustFull, Flatten;
    GroupedIsGrouping(ds);
    var closed, e := Grouped(ds).closed, Gone(ds, capacity);
    assert closed == closed[..e] + closed[e..];
    Partition(closed[..e], closed[e..], Grouped(ds).open);
  }

  lemma Partition(gone: seq<seq<seq<byte>>>, kept: seq<seq<seq<byte>>>, open: seq<seq<byte>>)
    ensures Flatten(gone + kept) + open == Flatten(gone) + Flatten(kept + if open == [] then [] else [open])
  {
    var last := if open == [] then [] else [open];
    OneGroup(open);
    hide Flatten;
    FlattenSplit(gone, kept);
    FlattenSplit(kept, last);
  }

  lemma OneGroup(group: seq<seq<byte>>)
    ensures Flatten(if group == [] then [] else [group]) == group
  {
    assert Flatten([group]) == group + Flatten([]);
  }

  /** Which part of the stream is retained, in runs where no counter wraps: exactly the groups
  that the reference has not dropped, joined in the order of their record numbers. */
  lemma RetainedGroups(capacity: u32, files: map<seq<byte>, seq<byte>>, clock: nat, ds: seq<seq<byte>>, most: nat)
    requires Admissible(Created(capacity, files, clock), ds, most)
    ensures var l, e := AfterRun(capacity, files, clock, ds, most), Gone(ds, capacity);
            var dropped := Grouped(ds).closed[..e];
            && Joined(ds) == Joined(Joineds(dropped)) + Joined(LiveFiles(l))
            && ds == Flatten(dropped) + Flatten(LiveGroups(ds, capacity))
            && LiveFiles(l) == Joineds(LiveGroups(ds, capacity))
            && forall i :: 0 <= i < |l.recs| ==> l.recs[i].index == e + i
  {
    hide Name, Joined, LiveNames, Grouped, Gone;
    RunRetains(capacity, files, clock, ds, most);
    var l, e := AfterRun(capacity, files, clock, ds, most), Gone(ds, capacity);
    LiveFilesAre(Created(capacity, files, clock), l, ds);
    GroupsPartition(ds, capacity);
    var dropped, live := Grouped(ds).closed[..e], LiveGroups(ds, capacity);
    JoinedSplit(Flatten(dropped), Flatten(live));
    JoinedFlatten(dropped);
    JoinedFlatten(live);
  }

  function OpenBytes(l: Log): nat
    requires l.open ==> l.recs != [] && OpenName(l) in l.files
  {
    if l.open then |l.files[OpenName(l)]| else 0
  }

  lemma OpenPart(l0: Log, l: Log, ds: seq<seq<byte>>)
    requires Inv(l) && Retains(l0, l, ds)
    ensures OpenBytes(l) == |Joined(Grouped(ds).open)| < UNIT_LEN
    ensures l.open ==> OpenLength(l) == OpenBytes(l)
  {
    hide Name, LiveNames, Wrap32, Gone;
    GroupedIsGrouping(ds);
    if l.open {
      assert FileOf(l, |l.recs| - 1) == Joined(Grouped(ds).open);
      WrapSmall(OpenBytes(l));
    }
  }

  /** The space bound, and with it the proof that the 32-bit total in the header is the true
  one: one eviction per closing is enough to keep the closed records within what fits plus
  one record, though records differ in size. */
  lemma SpaceBound(capacity: u32, files: map<seq<byte>, seq<byte>>, clock: nat, ds: seq<seq<byte>>, most: nat)
    requires Admissible(Created(capacity, files, clock), ds, most)
    ensures var l := AfterRun(capacity, files, clock, ds, most);
            && |l.recs| - (if l.open then 1 else 0) <= capacity / UNIT_LEN + 1
            && SumLen(l.recs) <= (capacity / UNIT_LEN + 1) * (UNIT_LEN + most - 1)
            && HeaderOf(l).currentLength == SumLen(l.recs) == ClosedBytes(l)
            && OpenBytes(l) < UNIT_LEN
            && (l.open ==> OpenLength(l) == OpenBytes(l))
  {
    hide Name, LiveNames, Wrap32, Joined, Grouped, Gone, Retains, OpenBytes, OpenLength, Run, NoWrap;
    RunRetains(capacity, files, clock, ds, most);
    var l0, l := Created(capacity, files, clock), AfterRun(capacity, files, clock, ds, most);
    TotalBelowWrap(ds, capacity, most);
    TotalIsKept(l0, l, ds);
    ClosedBytesAre(l0, l, ds);
    LiveCount(l0, l, ds);
    WrapSmall(SumLen(l.recs));
    OpenPart(l0, l, ds);
  }

  /** The bytes in the files of the closed records. */
  function ClosedBytes(l: Log): nat
    requires forall i :: 0 <= i < |l.recs| ==> Name(l.recs[i].stamp) in l.files
    requires l.open ==> l.recs != []
  {
    Sum(seq(|l.recs| - (if l.open then 1 else 0), i requires 0 <= i < |l.recs| => |FileOf(l, i)|))
  }

  lemma ClosedBytesAre(l0: Log, l: Log, ds: seq<seq<byte>>)
    requires Inv(l) && Retains(l0, l, ds)
    ensures ClosedBytes(l) == Total(ds, l0.capacity)
  {
    hide Name, LiveNames, Joined, Grouped, Gone, Sum, LiveGroups;
    var kept := Sizes(Grouped(ds).closed)[Gone(ds, l0.capacity)..];
    var n := |l.recs| - if l.open then 1 else 0;
    var sizes: seq<nat> := seq(n, i requires 0 <= i < |l.recs| => |FileOf(l, i)|);
    ClosedFilesAre(l0, l, ds);
    assert sizes == kept;
  }

  lemma ClosedFilesAre(l0: Log, l: Log, ds: seq<seq<byte>>)
    requires Inv(l) && Retains(l0, l, ds)
    ensures var kept := Sizes(Grouped(ds).closed)[Gone(ds, l0.capacity)..];
            && |l.recs| == |kept| + (if l.open then 1 else 0)
            && forall i :: 0 <= i < |kept| ==> |FileOf(l, i)| == kept[i]
  {
    hide Name, LiveNames, Joined, Grouped, Gone;
    var contents := Joineds(LiveGroups(ds, l0.capacity));
    assert forall i :: 0 <= i < |l.recs| ==> FileOf(l, i) == contents[i];
  }

  /** Nothing is lost and nothing is counted twice: bytes submitted are bytes evicted, bytes
  accounted for in the header and bytes in the open record. */
  lemma Conservation(capacity: u32, files: map<seq<byte>, seq<byte>>, clock: nat, ds: seq<seq<byte>>, most: nat)
    requires Admissible(Created(capacity, files, clock), ds, most)
    ensures var l := AfterRun(capacity, files, clock, ds, most);
            |Joined(ds)| == |Joined(Joineds(Grouped(ds).closed[..Gone(ds, capacity)]))|
                          + HeaderOf(l).currentLength + OpenBytes(l)
  {
    hide Name, LiveNames, Wrap32, Joined, Grouped, Gone;
    RunRetains(capacity, files, clock, ds, most);
    RetainedGroups(capacity, files, clock, ds, most);
    SpaceBound(capacity, files, clock, ds, most);
    var l := AfterRun(capacity, files, clock, ds, most);
    LengthsAdd(l.recs, LiveFiles(l), if l.open then 1 else 0);
  }

  lemma {:induction false} LengthsAdd(recs: seq<Rec>, contents: seq<seq<byte>>, unclosed: nat)
    requires |recs| == |contents| >= unclosed && unclosed <= 1
    requires forall i :: 0 <= i < |recs| ==> recs[i].len == if i < |recs| - unclosed then |contents[i]| else 0
    ensures |Joined(contents)| == SumLen(recs) + if unclosed == 1 then |contents[|contents| - 1]| else 0
  {
    if recs != [] {
      if |recs| > unclosed {
        LengthsAdd(recs[1..], contents[1..], unclosed);
      } else {
        assert Joined(contents) == contents[0] + Joined(contents[1..]);
        assert SumLen(recs) == recs[0].len + SumLen(recs[1..]);
      }
    }
  }

  /** With submits of one size that divides the unit length, the overshoot is one record. */
  lemma UniformBound(capacity: u32, files: map<seq<byte>, seq<byte>>, clock: nat, ds: seq<seq<byte>>, size: nat)
    requires 0 < size && UNIT_LEN % size == 0
    requires forall i :: 0 <= i < |ds| ==> |ds[i]| == size
    requires Admissible(Created(capacity, files, clock), ds, size)
    ensures var l := AfterRun(capacity, files, clock, ds, size);
            HeaderOf(l).currentLength == SumLen(l.recs) <= capacity + UNIT_LEN
  {
    hide Name, LiveNames, Wrap32, Joined;
    RunRetains(capacity, files, clock, ds, size);
    SpaceBound(capacity, files, clock, ds, size);
    TotalIsKept(Created(capacity, files, clock), AfterRun(capacity, files, clock, ds, size), ds);
    GroupedIsGrouping(ds);
    ClosedSizesExact(ds, Grouped(ds), size);
    EvictedExact(Sizes(Grouped(ds).closed), capacity);
  }

  /** In every run, with submits of any size and any number of restarts: deleting and creating
  data files never touches a file that was there before, and the only files added are those
  of the live records, each under a name of its own. */
  lemma OtherFilesUntouched(capacity: u32, files: map<seq<byte>, seq<byte>>, clock: nat, ops: seq<Op>)
    requires Defined(Created(capacity, files, clock), ops)
    ensures var l := Run(Created(capacity, files, clock), ops);
            && l.files.Keys == files.Keys + LiveNames(l)
            && LiveNames(l) !! files.Keys
            && (forall n :: n in files ==> l.files[n] == files[n])
            && forall i, j :: 0 <= i < j < |l.recs| ==> Name(l.recs[i].stamp) != Name(l.recs[j].stamp)
  {
    hide Name, LiveNames, Run, Defined;
    var dropped, live := RetainedIsSuffix(capacity, files, clock, ops);
    DistinctNames(Run(Created(capacity, files, clock), ops));
  }

  lemma DistinctNames(l: Log)
    requires Inv(l)
    ensures forall i, j :: 0 <= i < j < |l.recs| ==> Name(l.recs[i].stamp) != Name(l.recs[j].stamp)
  {
    hide Name;
    forall i, j | 0 <= i < j < |l.recs|
      ensures Name(l.recs[i].stamp) != Name(l.recs[j].stamp)
    {
      if Name(l.recs[i].stamp) == Name(l.recs[j].stamp) {
        NameInjective(l.recs[i].stamp, l.recs[j].stamp);
      }
    }
  }

  /** When a submit closes the record, for submits of any size: exactly when the bytes of the
  record, counted modulo 2^32, reach the unit length. A record that is full stays open if
  and only if the count has just wrapped to less than a unit. */
  lemma ClosesExactlyWhen(l: Log, data: seq<byte>)
    requires Inv(l) && Room(l)
    ensures Submitted(l, data).open <==> (OpenBytes(l) + |data|) % 0x1_0000_0000 < UNIT_LEN
  {
    hide Name, Ahead, FirstFree;
    var l0 := if l.open then l else NewRecord(l);
    var l1 := Written(l0, data);
    assert l0.files[OpenName(l0)] == if l.open then l.files[OpenName(l)] else [];
    assert l1.files[OpenName(l1)] == l0.files[OpenName(l0)] + data;
  }

  /** Larger submits can wrap the length counter: two of them fill a file with 2^32 bytes,
  thirty-two times the unit length, and the record is still open at counter 0. */
  lemma LargeSubmitsWrap(capacity: u32, files: map<seq<byte>, seq<byte>>, clock: nat, a: seq<byte>, b: seq<byte>)
    requires |a| == UNIT_LEN - 1 && |b| == 0x1_0000_0000 - |a|
    requires Reach(Created(capacity, files, clock)) < INT_MAX
    ensures Room(Created(capacity, files, clock))
    ensures var l := Submitted(Created(capacity, files, clock), a);
            && l.open
            && Submitted(l, b).open
            && OpenLength(Submitted(l, b)) == 0
            && |Submitted(l, b).files[OpenName(Submitted(l, b))]| == 0x1_0000_0000
  {
    hide Name, Ahead;
    var l0 := Created(capacity, files, clock);
    var l1 := Written(NewRecord(l0), a);
    assert l1.files[OpenName(l1)] == [] + a;
    WrapSmall(|a|);
    assert Submitted(l0, a) == l1;
    var l2 := Written(l1, b);
    assert l2.files[OpenName(l2)] == a + b;
    assert Wrap32(0x1_0000_0000) == 0;
  }

  // ---- every run, reopened or not ----

  function SlotLengths(b: seq<byte>, n: nat): (lengths: seq<nat>)
    requires HEADER_LEN + n * NODE_LEN <= |b|
    ensures |lengths| == n
  {
    seq(n, i requires 0 <= i < n => SlotNode(b, i).datalen as nat)
  }

  /** At every point between two operations of every run, with any number of restarts, the
  bytes of the index file agree with themselves and with the directory: the count fits the
  two record numbers, the slots are numbered without a gap, the total is the sum of the
  slots' lengths, the slots name different files that exist, and unused slots are zero. */
  lemma IndexAlwaysConsistent(l0: Log, ops: seq<Op>)
    requires Inv(l0) && Defined(l0, ops)
    ensures var l := Run(l0, ops);
            var b := EncodeIndex(l);
            var h, n := DecodeHeader(b[..HEADER_LEN]), |l.recs|;
            && h.nodenum == n && (n > 0 ==> n == h.nodeindexStop - h.nodeindexStart + 1)
            && h.currentLength == Wrap32(Sum(SlotLengths(b, n)))
            && (forall i :: 0 <= i < n ==> SlotNode(b, i).index == h.nodeindexStart + i)
            && (forall i :: 0 <= i < n ==> CString(SlotNode(b, i).dataFile) in l.files)
            && (forall i, j :: 0 <= i < j < n ==>
                  CString(SlotNode(b, i).dataFile) != CString(SlotNode(b, j).dataFile))
            && b[HEADER_LEN + n * NODE_LEN..] == Zeros((l.slots - n) * NODE_LEN)
  {
    hide Name, Wrap32, LittleEndian, EncodeIndex, DecodeNode, CString, Decimal, Run;
    var l := Run(l0, ops);
    var b := EncodeIndex(l);
    IndexRoundTrip(l);
    forall i | 0 <= i < |l.recs|
      ensures CString(SlotNode(b, i).dataFile) == Name(l.recs[i].stamp)
    {
      NodeStrings(l.recs[i]);
    }
    DistinctNames(l);
    TotalOf(l.recs, SlotLengths(b, |l.recs|));
  }

  /** Reopening finds the header and the live slots that the last operation left, and the
  queue goes on from there with every record in place; only the handle of an unfinished
  record is gone, whose slot keeps length 0. */
  lemma ReopenRoundTrip(l0: Log, ops: seq<Op>, clock: nat)
    requires Inv(l0) && Defined(l0, ops)
    ensures Defined(l0, ops + [Reopen(clock)])
    ensures var l, l1 := Run(l0, ops), Run(l0, ops + [Reopen(clock)]);
            && EncodeIndex(l1) == EncodeIndex(l)
            && DecodeHeader(EncodeIndex(l)[..HEADER_LEN]) == HeaderOf(l) == HeaderOf(l1)
            && (forall i :: 0 <= i < |l.recs| ==> SlotNode(EncodeIndex(l), i) == NodeOf(l1.recs[i]))
            && l1.files == l.files && !l1.open
  {
    hide Name, Wrap32, LittleEndian, EncodeIndex, DecodeNode, CString, Decimal;
    assert (ops + [Reopen(clock)])[..|ops|] == ops;
    var l := Run(l0, ops);
    IndexRoundTrip(l);
    ReopenedFields(l, clock);
  }

  /** In every run, with any number of restarts, an eviction takes a closed record: at the
  moment a submit finds the queue over capacity there is one in front, and the record that
  is about to be closed keeps its place, its number and its file. */
  lemma NeverEvictsTheOpenRecord(l0: Log, ops: seq<Op>, data: seq<byte>)
    requires Inv(l0) && Defined(l0, ops) && Room(Run(l0, ops))
    ensures var l := Run(l0, ops);
            var l1 := Written(if l.open then l else NewRecord(l), data);
            Overfull(l1) ==>
              && |l1.recs| >= 2
              && Last(PopFront(l1)) == Last(l1)
              && OpenName(l1) in PopFront(l1).files && PopFront(l1).files[OpenName(l1)] == l1.files[OpenName(l1)]
              && PopFront(l1).files.Keys == l1.files.Keys - {Name(l1.recs[0].stamp)}
              && Name(l1.recs[0].stamp) != OpenName(l1)
  {
    hide Name, Wrap32, Run, NewRecord, Overfull;
    var l := Run(l0, ops);
    var l1 := Written(if l.open then l else NewRecord(l), data);
    if Overfull(l1) {
      OverfullHasClosed(l1);
      OpenSurvives(l1);
    }
  }
}
