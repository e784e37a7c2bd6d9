/** The space bound when the process is restarted: a restart in the middle of a record leaves
a slot of length 0, and evicting that slot later frees nothing of the total. */
module Restarts {
  import opened Bytes
  import opened Names
  import opened RecordLog
  import opened IndexFile
  import opened Grouping
  import opened History
  import opened Retention
  import opened Runs

  // ---- the lengths on record ----

  /** The lengths in the slots that are not being written, oldest first. */
  function Done(l: Log): (lengths: seq<nat>)
    requires l.open ==> l.recs != []
  {
    seq(|l.recs| - (if l.open then 1 else 0), i requires 0 <= i < |l.recs| => l.recs[i].len as nat)
  }

  lemma SumOfDone(l: Log)
    requires Inv(l)
    ensures Sum(Done(l)) == SumLen(l.recs)
  {
    hide Name;
    TotalOf(l.recs, Done(l));
  }

  /** What closing a record of `n` bytes does to the lengths. */
  function Close(lengths: seq<nat>, capacity: nat, n: nat): seq<nat> {
    (if lengths != [] && Wrap32(Sum(lengths)) > capacity then lengths[1..] else lengths) + [n]
  }

  lemma DoneAfterNew(l: Log)
    requires Inv(l) && !l.open && Room(l)
    ensures var l1 := NewRecord(l);
            Done(l1) == Done(l) && OpenBytes(l1) == 0
  {
    hide Name, Ahead, FirstFree, Room;
  }

  lemma DoneAfterWritten(l: Log, data: seq<byte>)
    requires Inv(l) && l.open
    ensures var l1 := Written(l, data);
            && Done(l1) == Done(l) && OpenBytes(l1) == OpenBytes(l) + |data|
            && OpenLength(l1) == (OpenBytes(l) + |data|) % 0x1_0000_0000
  {
    hide Name;
    assert Written(l, data).files[OpenName(l)] == l.files[OpenName(l)] + data;
  }

  lemma DoneAfterReleased(l: Log)
    requires Inv(l) && l.open
    ensures var l1, evicts := Released(l), Done(l) != [] && Wrap32(Sum(Done(l))) > l.capacity;
            && Done(l1) == Close(Done(l), l.capacity, OpenLength(l))
            && l1.start == (if evicts then l.start + 1 else l.start) && l1.stop == l.stop
            && l1.capacity == l.capacity && l1.recs != []
  {
    hide Name, Wrap32;
    SumOfDone(l);
    if Overfull(l) {
      OverfullHasClosed(l);
      OpenSurvives(l);
      DoneAfterClosed(PopFront(l));
      assert Done(PopFront(l)) == Done(l)[1..];
    } else {
      DoneAfterClosed(l);
    }
  }

  lemma DoneAfterClosed(l: Log)
    requires Inv(l) && l.open
    ensures Done(Closed(l)) == Done(l) + [OpenLength(l) as nat]
  {
    hide Name, Wrap32;
  }

  /** Everything about lengths that a submit does, for a submit of any size. */
  lemma DoneAfterSubmit(l: Log, data: seq<byte>)
    requires Inv(l) && Room(l)
    ensures var l1, n := Submitted(l, data), (OpenBytes(l) + |data|) % 0x1_0000_0000;
            var evicts := n >= UNIT_LEN && Done(l) != [] && Wrap32(Sum(Done(l))) > l.capacity;
            && l1.open == (n < UNIT_LEN) && l1.recs != [] && l1.capacity == l.capacity
            && (l1.open ==> Done(l1) == Done(l) && OpenBytes(l1) == OpenBytes(l) + |data|)
            && (!l1.open ==> Done(l1) == Close(Done(l), l.capacity, n))
            && l1.start == (if l.recs == [] then 0 else if evicts then l.start + 1 else l.start)
            && l1.stop == (if l.open then l.stop else NextIndex(l))
  {
    hide Name, Ahead, FirstFree, Room, Wrap32, Released, OpenBytes, OpenLength, Done, Close, Sum;
    var l0 := if l.open then l else NewRecord(l);
    if !l.open {
      DoneAfterNew(l);
      NothingDone(l);
    }
    DoneAfterWritten(l0, data);
    var l2 := Written(l0, data);
    if OpenLength(l2) >= UNIT_LEN {
      DoneAfterReleased(l2);
    }
  }

  lemma NothingDone(l: Log)
    requires Inv(l) && !l.open
    ensures OpenBytes(l) == 0 && (l.recs == [] <==> Done(l) == [])
  {
  }

  lemma DoneAfterReopen(l: Log, clock: nat)
    requires Inv(l)
    ensures Done(Reopened(l, clock)) == Done(l) + if l.open then [0] else []
  {
    hide Name;
  }

  // ---- closing, as it looks from the lengths ----

  /** Slots without a length: what restarts have left. */
  function Unfinished(lengths: seq<nat>): (n: nat)
    ensures n <= |lengths|
  {
    if lengths == [] then 0 else (if lengths[0] == 0 then 1 else 0) + Unfinished(lengths[1..])
  }

  lemma {:induction false} UnfinishedSnoc(lengths: seq<nat>, n: nat)
    ensures Unfinished(lengths + [n]) == Unfinished(lengths) + if n == 0 then 1 else 0
  {
    if lengths != [] {
      assert (lengths + [n])[1..] == lengths[1..] + [n];
      UnfinishedSnoc(lengths[1..], n);
    }
  }

  /** Records that are closed with their length. */
  function Finished(lengths: seq<nat>): nat {
    |lengths| - Unfinished(lengths)
  }

  ghost predicate Ranged(lengths: seq<nat>, high: nat) {
    forall i :: 0 <= i < |lengths| ==> lengths[i] == 0 || UNIT_LEN <= lengths[i] <= high
  }

  lemma {:induction false} SumRange(lengths: seq<nat>, high: nat)
    requires Ranged(lengths, high)
    ensures Finished(lengths) * UNIT_LEN <= Sum(lengths) <= Finished(lengths) * high
  {
    if lengths != [] {
      SumRange(lengths[1..], high);
      var n := Finished(lengths[1..]);
      assert (n + 1) * high == n * high + high;
    }
  }

  /** Closing loses at most one finished record and adds one. */
  lemma CloseCounts(lengths: seq<nat>, capacity: nat, n: nat)
    requires n > 0
    ensures Unfinished(Close(lengths, capacity, n)) <= Unfinished(lengths)
    ensures Finished(Close(lengths, capacity, n)) >= Finished(lengths)
  {
    hide Wrap32, Sum;
    UnfinishedSnoc(lengths, n);
    if lengths != [] {
      UnfinishedSnoc(lengths[1..], n);
    }
  }

  /** No total can reach 2^32 within so many restarts. */
  predicate NoWrapAfter(capacity: nat, most: nat, restarts: nat) {
    most >= 1 && (capacity / UNIT_LEN + 1 + restarts) * (UNIT_LEN + most - 1) < 0x1_0000_0000
  }

  lemma NoWrapEarlier(capacity: nat, most: nat, fewer: nat, restarts: nat)
    requires fewer <= restarts && NoWrapAfter(capacity, most, restarts)
    ensures NoWrapAfter(capacity, most, fewer) && UNIT_LEN + most - 1 < 0x1_0000_0000
  {
    MulMonotone(capacity / UNIT_LEN + 1 + fewer, capacity / UNIT_LEN + 1 + restarts, UNIT_LEN + most - 1);
    MulMonotone(1, capacity / UNIT_LEN + 1 + restarts, UNIT_LEN + most - 1);
  }

  /** The closed slots are as few as the restarts allow. */
  ghost predicate Few(lengths: seq<nat>, capacity: nat, restarts: nat) {
    Unfinished(lengths) <= restarts && |lengths| <= capacity / UNIT_LEN + 1 + restarts
  }

  lemma SumOfFew(lengths: seq<nat>, capacity: nat, most: nat, restarts: nat)
    requires Ranged(lengths, UNIT_LEN + most - 1) && Few(lengths, capacity, restarts)
    requires NoWrapAfter(capacity, most, restarts)
    ensures Sum(lengths) <= (capacity / UNIT_LEN + 1 + restarts) * (UNIT_LEN + most - 1) < 0x1_0000_0000
    ensures Sum(lengths) <= capacity ==> Finished(lengths) <= capacity / UNIT_LEN
  {
    hide Sum, Unfinished;
    SumRange(lengths, UNIT_LEN + most - 1);
    MulMonotone(Finished(lengths), capacity / UNIT_LEN + 1 + restarts, UNIT_LEN + most - 1);
  }

  lemma CloseFew(lengths: seq<nat>, capacity: nat, n: nat, most: nat, restarts: nat)
    requires n > 0 && Ranged(lengths, UNIT_LEN + most - 1) && Few(lengths, capacity, restarts)
    requires NoWrapAfter(capacity, most, restarts)
    ensures Few(Close(lengths, capacity, n), capacity, restarts)
  {
    hide Sum, Unfinished, Wrap32, NoWrapAfter;
    SumOfFew(lengths, capacity, most, restarts);
    WrapSmall(Sum(lengths));
    CloseCounts(lengths, capacity, n);
  }

  /** An eviction does not take the total far below the capacity, nor does a close without. */
  lemma CloseFloor(lengths: seq<nat>, capacity: nat, n: nat, most: nat)
    requires Ranged(lengths, UNIT_LEN + most - 1) && Sum(lengths) < 0x1_0000_0000 && n >= UNIT_LEN && most >= 1
    ensures var sum := Sum(Close(lengths, capacity, n));
            if Sum(lengths) > capacity then lengths != [] && sum >= capacity + 2 - most
            else sum >= Sum(lengths)
  {
    hide Wrap32;
    WrapSmall(Sum(lengths));
    SumSnoc(lengths, n);
    if Sum(lengths) > capacity {
      SumSnoc(lengths[1..], n);
    }
  }

  // ---- the files behind the lengths ----

  /** One slot and its file: closed with its true length, or cut off or open below a unit. */
  predicate Tallies(len: nat, content: seq<byte>, most: nat) {
    if len == 0 then |content| < UNIT_LEN else UNIT_LEN <= len == |content| <= UNIT_LEN + most - 1
  }

  ghost predicate Tallied(l0: Log, l: Log, base: nat, contents: seq<seq<byte>>, most: nat)
    requires Inv(l)
  {
    && l.capacity == l0.capacity
    && Shows(l0, l, base, contents) && (contents == [] ==> base == 0)
    && (forall i :: 0 <= i < |contents| ==> Tallies(l.recs[i].len, contents[i], most))
  }

  lemma TalliedNew(l0: Log, l: Log, base: nat, contents: seq<seq<byte>>, most: nat)
    requires Inv(l) && !l.open && Room(l) && Tallied(l0, l, base, contents, most)
    ensures Tallied(l0, NewRecord(l), base, contents + [[]], most)
  {
    hide Name, Room, Shows, FirstFree, Ahead;
    ShowsNew(l0, l, base, contents);
    ShowsCount(l0, l, base, contents);
  }

  /** The record is about to be closed: all other slots tally. */
  ghost predicate Brimful(l0: Log, l: Log, base: nat, contents: seq<seq<byte>>, most: nat)
    requires Inv(l)
  {
    && l.open && l.capacity == l0.capacity
    && Shows(l0, l, base, contents) && |contents| == |l.recs|
    && (forall i :: 0 <= i < |contents| - 1 ==> Tallies(l.recs[i].len, contents[i], most))
    && UNIT_LEN <= |contents[|contents| - 1]| <= UNIT_LEN + most - 1 < 0x1_0000_0000
  }

  lemma WrittenTallies(l0: Log, l: Log, base: nat, contents: seq<seq<byte>>, most: nat, d: seq<byte>)
    requires Inv(l) && l.open && Tallied(l0, l, base, contents, most)
    requires |d| <= most && UNIT_LEN + most - 1 < 0x1_0000_0000
    ensures var n := |contents| - 1;
            var l1, contents1 := Written(l, d), contents[..n] + [contents[n] + d];
            if OpenLength(l1) < UNIT_LEN then Tallied(l0, l1, base, contents1, most)
            else Brimful(l0, l1, base, contents1, most)
  {
    hide Name, Room, LiveNames, Wrap32;
    var n := |contents| - 1;
    ShowsWritten(l0, l, base, contents, d);
    assert FileOf(Written(l, d), n) == contents[n] + d;
    WrapSmall(|contents[n] + d|);
  }

  lemma ClosedTallies(l0: Log, l: Log, base: nat, contents: seq<seq<byte>>, most: nat)
    requires Inv(l) && Brimful(l0, l, base, contents, most)
    ensures Tallied(l0, Closed(l), base, contents, most)
  {
    hide Name, Room, LiveNames, Wrap32;
    var n := |l.recs| - 1;
    ShowsClosed(l0, l, base, contents);
    assert FileOf(l, n) == contents[n];
    WrapSmall(|contents[n]|);
  }

  lemma ReleasedTallies(l0: Log, l: Log, base: nat, contents: seq<seq<byte>>, most: nat)
    returns (base1: nat, contents1: seq<seq<byte>>)
    requires Inv(l) && Brimful(l0, l, base, contents, most)
    ensures Tallied(l0, Released(l), base1, contents1, most)
  {
    hide Name, Room, Shows, Wrap32, Overfull;
    if Overfull(l) {
      OverfullHasClosed(l);
      ShowsPopped(l0, l, base, contents);
      base1, contents1 := base + 1, contents[1..];
      assert PopFront(l).recs == l.recs[1..];
      ClosedTallies(l0, PopFront(l), base1, contents1, most);
    } else {
      base1, contents1 := base, contents;
      ClosedTallies(l0, l, base, contents, most);
    }
  }

  lemma SubmitTallies(l0: Log, l: Log, base: nat, contents: seq<seq<byte>>, most: nat, d: seq<byte>)
    returns (base1: nat, contents1: seq<seq<byte>>)
    requires Inv(l) && Room(l) && Tallied(l0, l, base, contents, most)
    requires |d| <= most && UNIT_LEN + most - 1 < 0x1_0000_0000
    ensures Tallied(l0, Submitted(l, d), base1, contents1, most)
  {
    hide Name, Room, Shows, Wrap32, NewRecord, Released, Written;
    base1, contents1 := base, contents;
    var l1 := l;
    if !l.open {
      TalliedNew(l0, l, base, contents, most);
      l1, contents1 := NewRecord(l), contents + [[]];
    }
    WrittenTallies(l0, l1, base, contents1, most, d);
    ShowsCount(l0, l1, base, contents1);
    var n := |contents1| - 1;
    contents1 := contents1[..n] + [contents1[n] + d];
    if OpenLength(Written(l1, d)) >= UNIT_LEN {
      base1, contents1 := ReleasedTallies(l0, Written(l1, d), base, contents1, most);
    }
  }

  /** Every length on record is true, as long as no single record reaches 2^32 bytes, whether
  or not the total does. */
  lemma {:induction false} RunTallies(capacity: u32, files: map<seq<byte>, seq<byte>>, clock: nat,
                                      ops: seq<Op>, most: nat)
    returns (base: nat, contents: seq<seq<byte>>)
    requires Defined(Created(capacity, files, clock), ops) && AtMost(Data(ops), most)
    requires UNIT_LEN + most - 1 < 0x1_0000_0000
    ensures var l0 := Created(capacity, files, clock);
            Tallied(l0, Run(l0, ops), base, contents, most)
    decreases |ops|
  {
    hide Name, Room, Submitted, Shows;
    var l0 := Created(capacity, files, clock);
    if ops == [] {
      base, contents := 0, [];
      NothingStored(capacity, files, clock);
      assert Joineds([]) == [];
    } else {
      var before, op := ops[..|ops| - 1], ops[|ops| - 1];
      MostBefore(ops, most);
      base, contents := RunTallies(capacity, files, clock, before, most);
      match op {
        case Submit(data) =>
          base, contents := SubmitTallies(l0, Run(l0, before), base, contents, most, data);
        case Reopen(c) =>
          ReopenShows(l0, Run(l0, before), c, base, contents);
      }
    }
  }

  lemma MostBefore(ops: seq<Op>, most: nat)
    requires ops != [] && AtMost(Data(ops), most)
    ensures AtMost(Data(ops[..|ops| - 1]), most)
    ensures ops[|ops| - 1].Submit? ==> |ops[|ops| - 1].data| <= most
  {
    var before, op := ops[..|ops| - 1], ops[|ops| - 1];
    assert forall i :: 0 <= i < |Data(before)| ==> Data(before)[i] == Data(ops)[i];
    assert op.Submit? ==> op.data == Data(ops)[|Data(before)|];
  }

  /** The bytes in the files of the records that are closed with a length. */
  function FinishedBytes(l: Log): nat
    requires forall i :: 0 <= i < |l.recs| ==> Name(l.recs[i].stamp) in l.files
  {
    Sum(seq(|l.recs|, i requires 0 <= i < |l.recs| => if l.recs[i].len == 0 then 0 else |FileOf(l, i)|))
  }

  lemma TalliedFacts(l0: Log, l: Log, base: nat, contents: seq<seq<byte>>, most: nat)
    requires Inv(l) && Tallied(l0, l, base, contents, most)
    ensures FinishedBytes(l) == SumLen(l.recs)
    ensures Ranged(Done(l), UNIT_LEN + most - 1) && OpenBytes(l) < UNIT_LEN
    ensures forall i :: 0 <= i < |l.recs| ==> Tallies(l.recs[i].len, FileOf(l, i), most)
  {
    hide Name, LiveNames;
    assert forall i :: 0 <= i < |l.recs| ==> FileOf(l, i) == contents[i];
    var sizes: seq<nat> :=
      seq(|l.recs|, i requires 0 <= i < |l.recs| => if l.recs[i].len == 0 then 0 else |FileOf(l, i)|);
    TotalOf(l.recs, sizes);
    if l.open {
      assert FileOf(l, |l.recs| - 1) == contents[|l.recs| - 1];
    }
  }

  // ---- whole runs ----

  /** The restarts of a run that come in the middle of a record. */
  ghost function CutOff(l: Log, ops: seq<Op>): nat
    requires Inv(l) && Defined(l, ops)
    decreases |ops|
  {
    if ops == [] then 0
    else
      var before := ops[..|ops| - 1];
      CutOff(l, before) + if ops[|ops| - 1].Reopen? && Run(l, before).open then 1 else 0
  }

  /** For submits of any size: a submit never lowers the number of finished records. */
  lemma SubmitKeepsFinished(l: Log, data: seq<byte>)
    requires Inv(l) && Room(l)
    ensures Finished(Done(Submitted(l, data))) >= Finished(Done(l))
    ensures Unfinished(Done(Submitted(l, data))) <= Unfinished(Done(l))
  {
    hide Name, Room, Submitted, Done, Close, OpenBytes, Wrap32, Sum;
    DoneAfterSubmit(l, data);
    var n := (OpenBytes(l) + |data|) % 0x1_0000_0000;
    if n >= UNIT_LEN {
      CloseCounts(Done(l), l.capacity, n);
    }
  }

  lemma ReopenKeepsFinished(l: Log, clock: nat)
    requires Inv(l)
    ensures Finished(Done(Reopened(l, clock))) == Finished(Done(l))
    ensures Unfinished(Done(Reopened(l, clock))) == Unfinished(Done(l)) + if l.open then 1 else 0
  {
    hide Name, Done;
    DoneAfterReopen(l, clock);
    assert Done(l) + [] == Done(l);
    UnfinishedSnoc(Done(l), 0);
  }

  /** What a restart has added to the number of finished records is there for good: in every
  run, with submits of any size and any restarts, the number never goes down. */
  lemma {:induction false} FinishedNeverDrops(l: Log, ops: seq<Op>, more: seq<Op>)
    requires Inv(l) && Defined(l, ops + more)
    ensures Defined(l, ops)
    ensures Finished(Done(Run(l, ops + more))) >= Finished(Done(Run(l, ops)))
    decreases |more|
  {
    hide Name, Inv, Room, Submitted, Reopened, Done, Finished;
    if more == [] {
      assert ops + more == ops;
    } else {
      var op := more[|more| - 1];
      var before := ops + more[..|more| - 1];
      assert (ops + more)[..|ops + more| - 1] == before && (ops + more)[|ops + more| - 1] == op;
      FinishedNeverDrops(l, ops, more[..|more| - 1]);
      match op {
        case Submit(data) => SubmitKeepsFinished(Run(l, before), data);
        case Reopen(clock) => ReopenKeepsFinished(Run(l, before), clock);
      }
    }
  }

  /** Few closed slots, and once a record has been evicted, not too few bytes. */
  ghost predicate Bounded(l: Log, most: nat, restarts: nat)
    requires Inv(l)
  {
    && Few(Done(l), l.capacity, restarts)
    && (l.recs != [] && l.start > 0 ==> Sum(Done(l)) >= l.capacity + 2 - most)
    && (l.recs == [] ==> l.start <= 0)
  }

  lemma SubmitBounded(l: Log, d: seq<byte>, most: nat, restarts: nat)
    requires Inv(l) && Room(l) && Bounded(l, most, restarts)
    requires Ranged(Done(l), UNIT_LEN + most - 1) && NoWrapAfter(l.capacity, most, restarts)
    ensures Bounded(Submitted(l, d), most, restarts)
  {
    hide Name, Room, Submitted, Done, OpenBytes, Wrap32, Sum, Ranged, Few, NoWrapAfter;
    DoneAfterSubmit(l, d);
    var lengths, n := Done(l), (OpenBytes(l) + |d|) % 0x1_0000_0000;
    if n >= UNIT_LEN {
      NoWrapEarlier(l.capacity, most, restarts, restarts);
      SumOfFew(lengths, l.capacity, most, restarts);
      WrapSmall(Sum(lengths));
      CloseFew(lengths, l.capacity, n, most, restarts);
      CloseFloor(lengths, l.capacity, n, most);
    }
  }

  lemma ReopenBounded(l: Log, clock: nat, most: nat, restarts: nat)
    requires Inv(l) && Bounded(l, most, restarts)
    ensures Bounded(Reopened(l, clock), most, restarts + if l.open then 1 else 0)
  {
    hide Name, Done, Sum, Wrap32;
    DoneAfterReopen(l, clock);
    assert Done(l) + [] == Done(l);
    UnfinishedSnoc(Done(l), 0);
    SumSnoc(Done(l), 0);
  }

  lemma {:induction false} RunBounded(capacity: u32, files: map<seq<byte>, seq<byte>>, clock: nat,
                                      ops: seq<Op>, most: nat)
    requires Defined(Created(capacity, files, clock), ops) && AtMost(Data(ops), most)
    requires NoWrapAfter(capacity, most, CutOff(Created(capacity, files, clock), ops))
    ensures var l0 := Created(capacity, files, clock);
            Bounded(Run(l0, ops), most, CutOff(l0, ops)) && Run(l0, ops).capacity == capacity
    decreases |ops|
  {
    hide Name, Room, Submitted, NoWrapAfter, Tallied, Bounded, AtMost, Ranged;
    var l0 := Created(capacity, files, clock);
    if ops == [] {
      NothingBounded(capacity, files, clock, most);
    } else {
      var before, op := ops[..|ops| - 1], ops[|ops| - 1];
      NoWrapEarlier(capacity, most, CutOff(l0, before), CutOff(l0, ops));
      MostBefore(ops, most);
      RunBounded(capacity, files, clock, before, most);
      var l := Run(l0, before);
      match op {
        case Submit(data) =>
          var base, contents := RunTallies(capacity, files, clock, before, most);
          TalliedFacts(l0, l, base, contents, most);
          SubmitBounded(l, data, most, CutOff(l0, before));
          DoneAfterSubmit(l, data);
        case Reopen(c) =>
          ReopenBounded(l, c, most, CutOff(l0, before));
      }
    }
  }

  lemma NothingBounded(capacity: u32, files: map<seq<byte>, seq<byte>>, clock: nat, most: nat)
    ensures Bounded(Created(capacity, files, clock), most, 0)
  {
  }

  /** The bytes in the files of all live records. */
  function DiskBytes(l: Log): nat
    requires forall i :: 0 <= i < |l.recs| ==> Name(l.recs[i].stamp) in l.files
  {
    Sum(seq(|l.recs|, i requires 0 <= i < |l.recs| => |FileOf(l, i)|))
  }

  /** What the disk holds after any run with restarts. Each restart in the middle of a record
  may raise the bound by one record. */
  lemma SpaceBoundAcrossRestarts(capacity: u32, files: map<seq<byte>, seq<byte>>, clock: nat,
                                 ops: seq<Op>, most: nat)
    requires Defined(Created(capacity, files, clock), ops) && AtMost(Data(ops), most)
    requires NoWrapAfter(capacity, most, CutOff(Created(capacity, files, clock), ops))
    ensures var l, r := Run(Created(capacity, files, clock), ops), CutOff(Created(capacity, files, clock), ops);
            var open := if l.open then 1 else 0;
            && |l.recs| - open == |Done(l)| <= capacity / UNIT_LEN + 1 + r
            && Unfinished(Done(l)) <= r
            && HeaderOf(l).currentLength == SumLen(l.recs) == FinishedBytes(l)
            && FinishedBytes(l) <= (capacity / UNIT_LEN + 1 + r) * (UNIT_LEN + most - 1)
            && DiskBytes(l) <= (capacity / UNIT_LEN + 1 + r + open) * (UNIT_LEN + most - 1)
            && forall i :: 0 <= i < |l.recs| ==> Tallies(l.recs[i].len, FileOf(l, i), most)
  {
    hide Name, Run, Defined, CutOff, Wrap32, Tallied, NoWrapAfter, Sum, FinishedBytes, Ranged, Unfinished;
    var l0 := Created(capacity, files, clock);
    var l, r := Run(l0, ops), CutOff(l0, ops);
    NoWrapEarlier(capacity, most, r, r);
    var base, contents := RunTallies(capacity, files, clock, ops, most);
    TalliedFacts(l0, l, base, contents, most);
    RunBounded(capacity, files, clock, ops, most);
    SumOfFew(Done(l), capacity, most, r);
    SumOfDone(l);
    WrapSmall(SumLen(l.recs));
    FilesAtMost(l, most, capacity / UNIT_LEN + 1 + r + if l.open then 1 else 0);
  }

  lemma FilesAtMost(l: Log, most: nat, count: nat)
    requires Inv(l) && most >= 1 && |l.recs| <= count
    requires forall i :: 0 <= i < |l.recs| ==> Tallies(l.recs[i].len, FileOf(l, i), most)
    ensures DiskBytes(l) <= count * (UNIT_LEN + most - 1)
  {
    hide Name, FileOf, Sum;
    var sizes: seq<nat> := seq(|l.recs|, i requires 0 <= i < |l.recs| => |FileOf(l, i)|);
    SumBounds(sizes, 0, UNIT_LEN + most - 1);
    MulMonotone(|l.recs|, count, UNIT_LEN + most - 1);
  }

  /** The other side of the bound, with any number of restarts: as soon as a record has been
  evicted, the finished records hold at least the capacity less the largest submit. */
  lemma RetentionFloor(capacity: u32, files: map<seq<byte>, seq<byte>>, clock: nat, ops: seq<Op>, most: nat)
    requires Defined(Created(capacity, files, clock), ops) && AtMost(Data(ops), most)
    requires NoWrapAfter(capacity, most, CutOff(Created(capacity, files, clock), ops))
    ensures var l := Run(Created(capacity, files, clock), ops);
            l.recs != [] && l.start > 0 ==> FinishedBytes(l) >= capacity + 2 - most
  {
    hide Name, Run, Defined, CutOff, Wrap32, NoWrapAfter, Sum, FinishedBytes, Unfinished, DiskBytes;
    RunBounded(capacity, files, clock, ops, most);
    SpaceBoundAcrossRestarts(capacity, files, clock, ops, most);
    SumOfDone(Run(Created(capacity, files, clock), ops));
  }
}
