/** The manager object at work: a sequence of submits and restarts, and what is then in its
index file and its directory. */
module Service {
  import opened Bytes
  import opened Layout
  import opened Names
  import opened Files
  import opened RecordLog
  import opened IndexFile
  import opened SlotFile
  import opened Grouping
  import opened History
  import opened FilesysMgr

  /** Sizes as `submit` can be given them. */
  predicate Callable(ops: seq<Op>) {
    forall i :: 0 <= i < |ops| ==> ops[i].Submit? ==> |ops[i].data| < 0x1_0000_0000
  }

  lemma {:induction false} DefinedPrefix(l: Log, ops: seq<Op>, k: nat)
    requires Inv(l) && Defined(l, ops) && k < |ops|
    ensures Defined(l, ops[..k]) && Possible(Run(l, ops[..k]), ops[k])
    decreases |ops|
  {
    hide Inv, Possible, Run;
    if k < |ops| - 1 {
      DefinedPrefix(l, ops[..|ops| - 1], k);
      assert ops[..|ops| - 1][..k] == ops[..k];
    }
  }

  /** A new object on the files that `m` leaves. */
  method Restart(m: Manager, clock: nat) returns (next: Manager)
    requires m.Valid()
    modifies m.index
    ensures next.Valid() && next.log == Reopened(m.log, clock)
    ensures fresh(next) && fresh(next.times) && next.handle == null
    ensures next.index == m.index && next.disk == m.disk
  {
    var times := new TimeSource.From(clock);
    next := new Manager(m.index, 0, m.disk, times, m.log);
  }

  /** One process after the other on the same two files: a restart is a new object, with its
  own name counter. What they do together is the run. */
  method Serve(m: Manager, ops: seq<Op>) returns (last: Manager)
    requires m.Valid() && Defined(m.log, ops) && Callable(ops)
    modifies m, m.index, m.disk, m.times, m.handle
    ensures last.Valid() && last.log == Run(old(m.log), ops)
    ensures last.index == m.index && last.disk == m.disk
  {
    hide Inv, Run, Defined, Room, Submitted, Reopened, Manager.Valid, Manager.Consistent;
    last := m;
    ghost var start := m.log;
    QueueOf(m);
    RunOfNone(start);
    for i := 0 to |ops|
      invariant last.Valid() && last.index == m.index && last.disk == m.disk
      invariant last == m || fresh(last)
      invariant last.times == m.times || fresh(last.times)
      invariant last.handle == null || last.handle == old(m.handle) || fresh(last.handle)
      invariant Defined(start, ops[..i]) && last.log == Run(start, ops[..i])
    {
      DefinedPrefix(start, ops, i);
      StepAfter(start, ops[..i], ops[i]);
      assert ops[..i] + [ops[i]] == ops[..i + 1];
      match ops[i] {
        case Submit(data) =>
          var _ := last.Submit(data);
        case Reopen(clock) =>
          last := Restart(last, clock);
      }
    }
    assert ops[..|ops|] == ops;
  }

  lemma QueueOf(m: Manager)
    requires m.Valid()
    ensures Inv(m.log)
  {
    hide Inv;
  }

  lemma RunOfNone(l: Log)
    requires Inv(l)
    ensures Defined(l, []) && Run(l, []) == l
  {
  }

  // ---- what the two files of a service say ----

  /** Read from the bytes alone: the index file has one slot for each live group, numbered
  behind the dropped ones, and the data file that the slot names holds the group. */
  ghost predicate Recorded(index: seq<byte>, files: map<seq<byte>, seq<byte>>, dropped: seq<seq<seq<byte>>>,
                           live: seq<seq<seq<byte>>>)
  {
    && HEADER_LEN + |live| * NODE_LEN <= |index|
    && DecodeHeader(index[..HEADER_LEN]).nodenum == |live|
    && forall i :: 0 <= i < |live| ==>
         && SlotNode(index, i).index == |dropped| + i
         && CString(SlotNode(index, i).dataFile) in files
         && files[CString(SlotNode(index, i).dataFile)] == Joined(live[i])
  }

  lemma RecordedByRun(l0: Log, l: Log, dropped: seq<seq<seq<byte>>>, live: seq<seq<seq<byte>>>)
    requires Inv(l) && Stored(l0, l, dropped, live)
    ensures Recorded(EncodeIndex(l), l.files, dropped, live)
    ensures forall n :: n in l0.files ==> n in l.files && l.files[n] == l0.files[n]
  {
    hide Name, Joined, LiveNames, EncodeIndex, DecodeNode, DecodeHeader, CString, Decimal, Wrap32, LittleEndian;
    IndexRoundTrip(l);
    ShowsFiles(l0, l, |dropped|, live);
    forall i | 0 <= i < |live|
      ensures CString(SlotNode(EncodeIndex(l), i).dataFile) == Name(l.recs[i].stamp)
    {
      NodeStrings(l.recs[i]);
    }
  }

  /** The whole service from a new index file, through any number of processes: what the last
  one leaves in the index file and the directory is the data submitted without a first part
  of whole records, and every file that was there before is as it was. */
  method ServeNew(deviceSize: u32, disk: Disk, times: TimeSource, ops: seq<Op>)
    returns (last: Manager, ghost dropped: seq<seq<seq<byte>>>, ghost live: seq<seq<seq<byte>>>)
    requires Callable(ops)
    requires Defined(Created(if deviceSize < 0x1000_0000 then deviceSize else 0x1000_0000, disk.files, times.y), ops)
    modifies disk, times
    ensures last.Valid() && last.disk == disk
    ensures Data(ops) == Flatten(dropped) + Flatten(live)
    ensures Recorded(last.index.data, disk.files, dropped, live)
    ensures forall n :: n in old(disk.files) ==> n in disk.files && disk.files[n] == old(disk.files[n])
  {
    hide Inv, Run, Defined, Flatten, EncodeIndex, Recorded, Stored;
    ghost var capacity := if deviceSize < 0x1000_0000 then deviceSize else 0x1000_0000;
    ghost var start := Created(capacity, disk.files, times.y);
    dropped, live := RetainedIsSuffix(capacity, disk.files, times.y, ops);
    RecordedByRun(start, Run(start, ops), dropped, live);
    last := new Manager(null, deviceSize, disk, times, start);
    last := Serve(last, ops);
  }
}
