/** Runs of the record manager, and what holds of the data files after every one of them:
submits of any size, any capacity and any number of restarts. */
module History {
  import opened Bytes
  import opened Names
  import opened RecordLog
  import opened SlotFile
  import opened Grouping

  // ---- runs ----

  /** One call of submit, or a restart of the process with its own name counter. */
  datatype Op = Submit(data: seq<byte>) | Reopen(clock: nat)

  ghost predicate Possible(l: Log, op: Op) {
    op.Submit? ==> Room(l)
  }

  ghost function Step(l: Log, op: Op): (r: Log)
    requires Inv(l) && Possible(l, op)
    ensures Inv(r)
  {
    match op
    case Submit(data) => Submitted(l, data)
    case Reopen(clock) => Reopened(l, clock)
  }

  /** The run has a defined outcome: no signed counter overflows on the way. */
  ghost predicate Defined(l: Log, ops: seq<Op>)
    requires Inv(l)
    decreases |ops|, 0
  {
    ops != [] ==>
      var before := ops[..|ops| - 1];
      Defined(l, before) && Possible(Run(l, before), ops[|ops| - 1])
  }

  /** Every invariant of the queue holds at the end of every run, reopened or not. */
  ghost function Run(l: Log, ops: seq<Op>): (r: Log)
    requires Inv(l) && Defined(l, ops)
    ensures Inv(r)
    decreases |ops|, 1
  {
    if ops == [] then l else Step(Run(l, ops[..|ops| - 1]), ops[|ops| - 1])
  }

  lemma StepAfter(l: Log, ops: seq<Op>, op: Op)
    requires Inv(l) && Defined(l, ops) && Possible(Run(l, ops), op)
    ensures Defined(l, ops + [op]) && Run(l, ops + [op]) == Step(Run(l, ops), op)
  {
    hide Name, Ahead, Inv, Step, Possible;
    assert (ops + [op])[..|ops|] == ops;
  }

  function Submits(ds: seq<seq<byte>>): (ops: seq<Op>)
    ensures |ops| == |ds|
  {
    seq(|ds|, i requires 0 <= i < |ds| => Submit(ds[i]))
  }

  /** The submits of a run, in order. */
  function Data(ops: seq<Op>): seq<seq<byte>> {
    if ops == [] then []
    else Data(ops[..|ops| - 1]) + match ops[|ops| - 1] case Submit(data) => [data] case Reopen(_) => []
  }

  /** Submits in a row are what they are, restarts add nothing, and runs add up. */
  lemma {:induction false} DataOfRuns(ops: seq<Op>, more: seq<Op>)
    ensures Data(ops + more) == Data(ops) + Data(more)
    decreases |more|
  {
    if more == [] {
      assert ops + more == ops;
    } else {
      var n := |more| - 1;
      assert (ops + more)[..|ops| + n] == ops + more[..n];
      DataOfRuns(ops, more[..n]);
    }
  }

  lemma {:induction false} DataOfSubmits(ds: seq<seq<byte>>)
    ensures Data(Submits(ds)) == ds
  {
    if ds != [] {
      var n := |ds| - 1;
      assert Submits(ds)[..n] == Submits(ds[..n]);
      DataOfSubmits(ds[..n]);
    }
  }

  // ---- the directory after one phase of a submit ----

  function FileOf(l: Log, i: nat): seq<byte>
    requires i < |l.recs| && Name(l.recs[i].stamp) in l.files
  {
    l.files[Name(l.recs[i].stamp)]
  }

  ghost function LiveNames(l: Log): set<seq<byte>> {
    set i | 0 <= i < |l.recs| :: Name(l.recs[i].stamp)
  }

  /** The live records are numbered from `base` and their files hold `contents`; beside them
  the directory is as it was at first. */
  ghost predicate Shows(l0: Log, l: Log, base: nat, contents: seq<seq<byte>>)
    requires Inv(l)
  {
    && |l.recs| == |contents|
    && (forall i :: 0 <= i < |contents| ==> l.recs[i].index == base + i && FileOf(l, i) == contents[i])
    && LiveNames(l) !! l0.files.Keys
    && l.files.Keys == l0.files.Keys + LiveNames(l)
    && (forall n :: n in l0.files ==> l.files[n] == l0.files[n])
  }

  lemma NewNames(l: Log)
    requires Inv(l) && !l.open && Room(l)
    ensures LiveNames(NewRecord(l)) == LiveNames(l) + {OpenName(NewRecord(l))}
    ensures OpenName(NewRecord(l)) !in l.files
  {
    hide Name;
    var l1 := NewRecord(l);
    assert forall i :: 0 <= i < |l.recs| ==> l1.recs[i] == l.recs[i];
    assert l1.recs[|l.recs|] == Last(l1);
  }

  lemma ShowsNew(l0: Log, l: Log, base: nat, contents: seq<seq<byte>>)
    requires Inv(l) && !l.open && Room(l) && Shows(l0, l, base, contents)
    requires contents == [] ==> base == 0
    ensures Shows(l0, NewRecord(l), base, contents + [[]])
  {
    hide Name, Room, LiveNames, FirstFree, Ahead;
    NewNames(l);
    var l1 := NewRecord(l);
    assert l.recs != [] ==> l.recs[0].index == l.start + 0 == base;
    assert Last(l1).index == base + |contents|;
    forall i | 0 <= i < |l.recs|
      ensures l1.recs[i] == l.recs[i] && FileOf(l1, i) == FileOf(l, i)
    {
    }
  }

  lemma SameNames(l: Log, l1: Log)
    requires |l1.recs| == |l.recs|
    requires forall i :: 0 <= i < |l.recs| ==> l1.recs[i].stamp == l.recs[i].stamp
    ensures LiveNames(l1) == LiveNames(l)
  {
    hide Name;
    assert forall n :: n in LiveNames(l1) <==> n in LiveNames(l);
  }

  lemma OpenIsLive(l: Log)
    requires l.recs != []
    ensures OpenName(l) in LiveNames(l)
  {
  }

  lemma ShowsWritten(l0: Log, l: Log, base: nat, contents: seq<seq<byte>>, data: seq<byte>)
    requires Inv(l) && l.open && Shows(l0, l, base, contents)
    ensures var n := |contents| - 1;
            Shows(l0, Written(l, data), base, contents[..n] + [contents[n] + data])
  {
    hide Name, Room, LiveNames;
    var l1 := Written(l, data);
    SameNames(l, l1);
    OpenIsLive(l);
    forall i | 0 <= i < |l.recs| - 1
      ensures FileOf(l1, i) == FileOf(l, i)
    {
      if Name(l.recs[i].stamp) == OpenName(l) {
        NameInjective(l.recs[i].stamp, Last(l).stamp);
      }
    }
  }

  lemma PoppedNames(l: Log)
    requires Inv(l) && l.open && |l.recs| >= 2
    ensures LiveNames(PopFront(l)) == LiveNames(l) - {Name(l.recs[0].stamp)}
    ensures Name(l.recs[0].stamp) in LiveNames(l)
    ensures forall i :: 1 <= i < |l.recs| ==> Name(l.recs[i].stamp) != Name(l.recs[0].stamp)
  {
    hide Name, Room;
    var l1, gone := PopFront(l), Name(l.recs[0].stamp);
    forall i | 1 <= i < |l.recs|
      ensures Name(l.recs[i].stamp) != gone && l1.recs[i - 1] == l.recs[i]
    {
      if Name(l.recs[i].stamp) == gone {
        NameInjective(l.recs[i].stamp, l.recs[0].stamp);
      }
    }
    forall n | n in LiveNames(l) - {gone}
      ensures n in LiveNames(l1)
    {
      var i :| 0 <= i < |l.recs| && n == Name(l.recs[i].stamp);
      assert l1.recs[i - 1] == l.recs[i];
    }
    forall n | n in LiveNames(l1)
      ensures n in LiveNames(l) - {gone}
    {
      var i :| 0 <= i < |l1.recs| && n == Name(l1.recs[i].stamp);
      assert l1.recs[i] == l.recs[i + 1];
    }
  }

  lemma ShowsPopped(l0: Log, l: Log, base: nat, contents: seq<seq<byte>>)
    requires Inv(l) && l.open && |l.recs| >= 2 && Shows(l0, l, base, contents)
    ensures Shows(l0, PopFront(l), base + 1, contents[1..])
  {
    hide Name, Room, LiveNames;
    PoppedNames(l);
    var l1 := PopFront(l);
    forall i | 0 <= i < |l1.recs|
      ensures l1.recs[i] == l.recs[i + 1] && FileOf(l1, i) == FileOf(l, i + 1)
    {
    }
  }

  lemma ShowsClosed(l0: Log, l: Log, base: nat, contents: seq<seq<byte>>)
    requires Inv(l) && l.open && Shows(l0, l, base, contents)
    ensures Shows(l0, Closed(l), base, contents)
  {
    hide Name, Room, LiveNames, Wrap32;
    var l1 := Closed(l);
    assert forall i :: 0 <= i < |l.recs| ==>
             l1.recs[i].stamp == l.recs[i].stamp && l1.recs[i].index == l.recs[i].index;
    SameNames(l, l1);
  }

  // ---- the data files after any run ----

  function Joineds(gs: seq<seq<seq<byte>>>): (contents: seq<seq<byte>>)
    ensures |contents| == |gs|
  {
    seq(|gs|, i requires 0 <= i < |gs| => Joined(gs[i]))
  }

  /** Whole submits are on disk, group by group, behind groups that are gone. */
  ghost predicate Stored(l0: Log, l: Log, dropped: seq<seq<seq<byte>>>, live: seq<seq<seq<byte>>>)
    requires Inv(l)
  {
    Shows(l0, l, |dropped|, Joineds(live)) && (live == [] ==> dropped == [])
  }

  /** One more submit goes to the end of the last group, and the group at the front may go. */
  lemma SubmitStored(l0: Log, l: Log, dropped: seq<seq<seq<byte>>>, live: seq<seq<seq<byte>>>, d: seq<byte>)
    returns (dropped1: seq<seq<seq<byte>>>, live1: seq<seq<seq<byte>>>)
    requires Inv(l) && Room(l) && Stored(l0, l, dropped, live)
    ensures Stored(l0, Submitted(l, d), dropped1, live1)
    ensures Flatten(dropped1) + Flatten(live1) == Flatten(dropped) + Flatten(live) + [d]
  {
    hide Name, Room, LiveNames, Wrap32, Joined, Flatten, Shows, NewRecord, Overfull;
    var begun := BeginStored(l0, l, |dropped|, live);
    var l1 := if l.open then l else NewRecord(l);
    live1 := WriteStored(l0, l1, |dropped|, begun, d);
    dropped1 := dropped;
    var l2 := Written(l1, d);
    assert Flatten(dropped) + (Flatten(live) + [d]) == Flatten(dropped) + Flatten(live) + [d];
    if OpenLength(l2) >= UNIT_LEN {
      if Overfull(l2) {
        OverfullHasClosed(l2);
        ShowsCount(l0, l2, |dropped|, Joineds(live1));
        ShowsPopped(l0, l2, |dropped|, Joineds(live1));
        ShowsClosed(l0, PopFront(l2), |dropped| + 1, Joineds(live1)[1..]);
        assert Joineds(live1)[1..] == Joineds(live1[1..]);
        DropFirst(dropped, live1);
        dropped1, live1 := dropped + [live1[0]], live1[1..];
      } else {
        ShowsClosed(l0, l2, |dropped|, Joineds(live1));
      }
    }
  }

  lemma ShowsCount(l0: Log, l: Log, base: nat, contents: seq<seq<byte>>)
    requires Inv(l) && Shows(l0, l, base, contents)
    ensures |l.recs| == |contents|
  {
  }

  lemma DropFirst(dropped: seq<seq<seq<byte>>>, live: seq<seq<seq<byte>>>)
    requires live != []
    ensures Flatten(dropped + [live[0]]) + Flatten(live[1..]) == Flatten(dropped) + Flatten(live)
  {
    FlattenSnoc(dropped, live[0]);
  }

  lemma BeginStored(l0: Log, l: Log, base: nat, live: seq<seq<seq<byte>>>) returns (live1: seq<seq<seq<byte>>>)
    requires Inv(l) && Room(l) && Shows(l0, l, base, Joineds(live)) && (live == [] ==> base == 0)
    ensures live1 != [] && Flatten(live1) == Flatten(live)
    ensures Shows(l0, if l.open then l else NewRecord(l), base, Joineds(live1))
  {
    hide Name, Room, LiveNames, Wrap32;
    live1 := live;
    if !l.open {
      ShowsNew(l0, l, base, Joineds(live));
      live1 := live + [[]];
      assert Joineds(live) + [[]] == Joineds(live1);
      FlattenSnoc(live, []);
    }
  }

  lemma WriteStored(l0: Log, l: Log, base: nat, live: seq<seq<seq<byte>>>, d: seq<byte>)
    returns (live1: seq<seq<seq<byte>>>)
    requires Inv(l) && l.open && live != [] && Shows(l0, l, base, Joineds(live))
    ensures live1 != [] && Flatten(live1) == Flatten(live) + [d]
    ensures Shows(l0, Written(l, d), base, Joineds(live1))
  {
    hide Name, Room, LiveNames, Wrap32;
    var n := |live| - 1;
    live1 := live[..n] + [live[n] + [d]];
    ShowsWritten(l0, l, base, Joineds(live), d);
    JoinedSplit(live[n], [d]);
    JoinedOne(d);
    assert Joineds(live)[..n] + [Joined(live[n]) + d] == Joineds(live1);
    FlattenSnoc(live[..n], live[n] + [d]);
    FlattenSnoc(live[..n], live[n]);
    assert live == live[..n] + [live[n]];
    assert Flatten(live[..n]) + (live[n] + [d]) == (Flatten(live[..n]) + live[n]) + [d];
  }

  /** Retained data is a suffix of what was submitted, for submits of any size, any capacity
  and any number of restarts: the live files, in the order of their numbers, hold the
  submits in the order they were made, each whole in one file, behind a first part of the
  stream that consists of the contents of as many whole records as have been evicted. The
  rest of the directory is as it was. */
  lemma {:induction false} RetainedIsSuffix(capacity: u32, files: map<seq<byte>, seq<byte>>, clock: nat, ops: seq<Op>)
    returns (dropped: seq<seq<seq<byte>>>, live: seq<seq<seq<byte>>>)
    requires Defined(Created(capacity, files, clock), ops)
    ensures Data(ops) == Flatten(dropped) + Flatten(live)
    ensures var l := Run(Created(capacity, files, clock), ops);
            && |l.recs| == |live|
            && (forall i :: 0 <= i < |live| ==> FileOf(l, i) == Joined(live[i]))
            && (forall i :: 0 <= i < |live| ==> l.recs[i].index == |dropped| + i)
    ensures Stored(Created(capacity, files, clock), Run(Created(capacity, files, clock), ops), dropped, live)
    decreases |ops|
  {
    hide Name, Room, Submitted, Flatten, Shows;
    var l0 := Created(capacity, files, clock);
    if ops == [] {
      dropped, live := [], [];
      NothingStored(capacity, files, clock);
    } else {
      var before, op := ops[..|ops| - 1], ops[|ops| - 1];
      dropped, live := RetainedIsSuffix(capacity, files, clock, before);
      match op {
        case Submit(data) =>
          dropped, live := SubmitStored(l0, Run(l0, before), dropped, live, data);
        case Reopen(c) =>
          ReopenShows(l0, Run(l0, before), c, |dropped|, Joineds(live));
      }
    }
    ShowsFiles(l0, Run(l0, ops), |dropped|, live);
  }

  lemma ShowsFiles(l0: Log, l: Log, base: nat, live: seq<seq<seq<byte>>>)
    requires Inv(l) && Shows(l0, l, base, Joineds(live))
    ensures |l.recs| == |live|
    ensures forall i :: 0 <= i < |live| ==> FileOf(l, i) == Joined(live[i]) && l.recs[i].index == base + i
  {
    hide Name, LiveNames, Joined;
  }

  lemma NothingStored(capacity: u32, files: map<seq<byte>, seq<byte>>, clock: nat)
    ensures var l0 := Created(capacity, files, clock);
            Shows(l0, l0, 0, Joineds([])) && Flatten([]) == []
  {
    assert LiveNames(Created(capacity, files, clock)) == {};
  }

  lemma ReopenShows(l0: Log, l: Log, clock: nat, base: nat, contents: seq<seq<byte>>)
    requires Inv(l) && Shows(l0, l, base, contents)
    ensures Shows(l0, Reopened(l, clock), base, contents)
  {
    hide Name;
    SameNames(l, Reopened(l, clock));
  }
}
