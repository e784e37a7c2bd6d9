/** A condition on the operations alone under which a run has a defined outcome: how far the
signed counters can get. */
module Outcomes {
  import opened Bytes
  import opened Layout
  import opened Names
  import opened RecordLog
  import opened SlotFile
  import opened History
  import opened Runs
  import opened Restarts

  function Reopens(ops: seq<Op>): nat {
    if ops == [] then 0 else Reopens(ops[..|ops| - 1]) + if ops[|ops| - 1].Reopen? then 1 else 0
  }

  /** No more records are started than there are submits, nor than there are units in the bytes
  submitted, one more for each restart, and the last. */
  function MostRecords(ops: seq<Op>): nat {
    var byBytes := |Joined(Data(ops))| / UNIT_LEN + Reopens(ops) + 1;
    if |Data(ops)| < byBytes then |Data(ops)| else byBytes
  }

  /** The slots that an index file has offsets for in a `long`. */
  const MAX_RECORDS := (INT_MAX - HEADER_LEN) / NODE_LEN

  /** No process, from the first to the last, starts its name counter at a value from which it
  could be past `limit` by the time it has passed the files that were there at first. */
  ghost predicate StartsBelow(names: set<seq<byte>>, clock: nat, ops: seq<Op>, limit: nat) {
    && clock + |Ahead(names, clock)| <= limit
    && forall i :: 0 <= i < |ops| ==> ops[i].Reopen? ==> ops[i].clock + |Ahead(names, ops[i].clock)| <= limit
  }

  /** The records started so far, counted in three ways. */
  ghost predicate Counted(l: Log, ops: seq<Op>, limit: nat)
    requires Inv(l)
  {
    var made, open := l.stop + 1, if l.open then 1 else 0;
    && made >= 0 && (l.recs == [] ==> made == 0)
    && Reach(l) <= limit + made
    && made <= |Data(ops)|
    && (made - open - Reopens(ops)) * UNIT_LEN + OpenBytes(l) <= |Joined(Data(ops))|
  }

  lemma BytesSnoc(ops: seq<Op>)
    requires ops != []
    ensures var before, op := ops[..|ops| - 1], ops[|ops| - 1];
            && Reopens(ops) == Reopens(before) + (if op.Reopen? then 1 else 0)
            && |Data(ops)| == |Data(before)| + (if op.Submit? then 1 else 0)
            && |Joined(Data(ops))| == |Joined(Data(before))| + (if op.Submit? then |op.data| else 0)
            && MostRecords(before) <= MostRecords(ops)
  {
    var before, op := ops[..|ops| - 1], ops[|ops| - 1];
    if op.Submit? {
      JoinedSplit(Data(before), [op.data]);
      JoinedOne(op.data);
    } else {
      assert Data(ops) == Data(before);
    }
  }

  lemma RoomWhenCounted(l: Log, ops: seq<Op>, data: seq<byte>, limit: nat)
    requires Inv(l) && Counted(l, ops, limit)
    requires MostRecords(ops + [Submit(data)]) <= MAX_RECORDS
    requires limit + MostRecords(ops + [Submit(data)]) <= INT_MAX
    ensures Room(l)
  {
    hide Name, Ahead, Data, Joined;
    assert (ops + [Submit(data)])[..|ops|] == ops;
    BytesSnoc(ops + [Submit(data)]);
  }

  lemma SubmitCounted(l: Log, ops: seq<Op>, data: seq<byte>, limit: nat)
    requires Inv(l) && Room(l) && Counted(l, ops, limit)
    ensures Counted(Submitted(l, data), ops + [Submit(data)], limit)
  {
    hide Name, Ahead, Data, Joined, Room, Submitted, Reach, Done, Close;
    assert (ops + [Submit(data)])[..|ops|] == ops;
    BytesSnoc(ops + [Submit(data)]);
    DoneAfterSubmit(l, data);
    ReachOfSubmitted(l, data);
  }

  lemma ReopenCounted(capacity: u32, files: map<seq<byte>, seq<byte>>, clock: nat, ops: seq<Op>, c: nat, limit: nat)
    requires Defined(Created(capacity, files, clock), ops)
    requires c + |Ahead(files.Keys, c)| <= limit && Counted(Run(Created(capacity, files, clock), ops), ops, limit)
    ensures Counted(Reopened(Run(Created(capacity, files, clock), ops), c), ops + [Reopen(c)], limit)
  {
    hide Name, Ahead, Data, Joined, Run, Defined;
    assert (ops + [Reopen(c)])[..|ops|] == ops;
    BytesSnoc(ops + [Reopen(c)]);
    ReachAfterReopen(capacity, files, clock, ops, c);
  }

  /** The names ahead of the counter of a process that starts over. */
  lemma ReachAfterReopen(capacity: u32, files: map<seq<byte>, seq<byte>>, clock: nat, ops: seq<Op>, c: nat)
    requires Defined(Created(capacity, files, clock), ops)
    ensures var l := Run(Created(capacity, files, clock), ops);
            Reach(Reopened(l, c)) <= c + |Ahead(files.Keys, c)| + |l.recs|
  {
    hide Name, Ahead, Run, Defined, LiveNames, Inv;
    var l := Run(Created(capacity, files, clock), ops);
    OtherFilesUntouched(capacity, files, clock, ops);
    AheadOfUnion(files.Keys, LiveNames(l), c);
    LiveNamesCount(l);
  }

  lemma AheadOfUnion(names: set<seq<byte>>, more: set<seq<byte>>, y: nat)
    ensures |Ahead(names + more, y)| <= |Ahead(names, y)| + |more|
  {
    hide Name;
    SubsetSize(Ahead(names + more, y), Ahead(names, y) + more);
    UnionSize(Ahead(names, y), more);
  }

  lemma UnionSize<T>(a: set<T>, b: set<T>)
    ensures |a + b| <= |a| + |b|
  {
    assert a + b == a + (b - a);
    SubsetSize(b - a, b);
  }

  lemma {:induction false} LiveNamesCount(l: Log)
    ensures |LiveNames(l)| <= |l.recs|
    decreases |l.recs|
  {
    hide Name;
    if l.recs == [] {
      assert LiveNames(l) == {};
    } else {
      var rest := l.(recs := l.recs[1..]);
      LiveNamesCount(rest);
      assert LiveNames(l) <= {Name(l.recs[0].stamp)} + LiveNames(rest) by {
        forall n | n in LiveNames(l)
          ensures n in {Name(l.recs[0].stamp)} + LiveNames(rest)
        {
          var i :| 0 <= i < |l.recs| && n == Name(l.recs[i].stamp);
          assert i > 0 ==> rest.recs[i - 1] == l.recs[i];
        }
      }
      SubsetSize(LiveNames(l), {Name(l.recs[0].stamp)} + LiveNames(rest));
    }
  }

  /** A run has a defined outcome, whatever the sizes of the submits and wherever the restarts
  come, if its name counters start low enough for the records that there can be. */
  lemma {:induction false} RunIsDefined(capacity: u32, files: map<seq<byte>, seq<byte>>, clock: nat,
                                        ops: seq<Op>, limit: nat)
    requires StartsBelow(files.Keys, clock, ops, limit)
    requires MostRecords(ops) <= MAX_RECORDS && limit + MostRecords(ops) <= INT_MAX
    ensures Defined(Created(capacity, files, clock), ops)
    ensures Counted(Run(Created(capacity, files, clock), ops), ops, limit)
    decreases |ops|
  {
    hide Name, Ahead, Room, Submitted, Counted, MostRecords;
    var l0 := Created(capacity, files, clock);
    if ops == [] {
      NothingCounted(capacity, files, clock, limit);
    } else {
      var before, op := ops[..|ops| - 1], ops[|ops| - 1];
      assert ops == before + [op];
      BytesSnoc(ops);
      RunIsDefined(capacity, files, clock, before, limit);
      match op {
        case Submit(data) =>
          RoomWhenCounted(Run(l0, before), before, data, limit);
          SubmitCounted(Run(l0, before), before, data, limit);
        case Reopen(c) =>
          ReopenCounted(capacity, files, clock, before, c, limit);
      }
    }
  }

  lemma NothingCounted(capacity: u32, files: map<seq<byte>, seq<byte>>, clock: nat, limit: nat)
    requires clock + |Ahead(files.Keys, clock)| <= limit
    ensures Counted(Created(capacity, files, clock), [], limit)
  {
  }
}
