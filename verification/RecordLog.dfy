/** The record queue that the index file and the data files represent. */
module RecordLog {
  import opened Bytes
  import opened Layout
  import opened Names

  /** A record closes once it holds this many bytes (DATA_REC_UNITLEN). */
  const UNIT_LEN: u32 := 0x800_0000

  /** One live record: its number, the counter value its name was made from and the length
  that the index file gives for it, which stays 0 until the record is closed. */
  datatype Rec = Rec(index: nat, stamp: nat, len: u32)

  /** The queue, oldest record first. `start` and `stop` number its two ends; `slots` is the
  number of node slots that the index file has ever had in use; `open` says that the last
  record is being written; `files` is the directory and `clock` the name counter. */
  datatype Log = Log(capacity: u32, recs: seq<Rec>, start: i32, stop: i32, slots: nat,
                     open: bool, files: map<seq<byte>, seq<byte>>, clock: nat)

  function SumLen(recs: seq<Rec>): nat {
    if recs == [] then 0 else recs[0].len + SumLen(recs[1..])
  }

  lemma {:induction false} SumLenSnoc(recs: seq<Rec>, r: Rec)
    ensures SumLen(recs + [r]) == SumLen(recs) + r.len
  {
    if recs != [] {
      assert (recs + [r])[1..] == recs[1..] + [r];
      SumLenSnoc(recs[1..], r);
    }
  }

  ghost predicate RecOk(r: Rec, files: map<seq<byte>, seq<byte>>) {
    r.stamp <= INT_MAX && r.index < INT_MAX && Name(r.stamp) in files
  }

  /** What holds between any two operations. */
  ghost predicate Inv(l: Log) {
    && |l.recs| <= l.slots && HEADER_LEN + l.slots * NODE_LEN <= INT_MAX
    && l.stop < INT_MAX
    && (l.recs != [] ==> 0 <= l.start && |l.recs| == l.stop - l.start + 1)
    && (forall i :: 0 <= i < |l.recs| ==> l.recs[i].index == l.start + i && RecOk(l.recs[i], l.files))
    && (forall i, j :: 0 <= i < j < |l.recs| ==> l.recs[i].stamp != l.recs[j].stamp)
    && (l.open ==> l.recs != [] && l.recs[|l.recs| - 1].len == 0)
  }

  /** The signed counters have a next value: the name counter, the record number, and the
  offset just past a new slot, which stdio takes as a `long`. */
  ghost predicate Room(l: Log) {
    !l.open ==>
      && l.clock + |Ahead(l.files.Keys, l.clock)| < INT_MAX
      && l.stop + 1 < INT_MAX
      && HEADER_LEN + (|l.recs| + 1) * NODE_LEN <= INT_MAX
  }

  function Last(l: Log): Rec
    requires l.recs != []
  {
    l.recs[|l.recs| - 1]
  }

  /** The file that is being written. */
  function OpenName(l: Log): seq<byte>
    requires l.recs != []
  {
    Name(Last(l).stamp)
  }

  /** The length counter of the open record, an `unsigned long`. */
  function OpenLength(l: Log): u32
    requires l.recs != [] && OpenName(l) in l.files
  {
    Wrap32(|l.files[OpenName(l)]|)
  }

  /** The closed records are over capacity, as far as the `unsigned long` total can tell. */
  predicate Overfull(l: Log) {
    Wrap32(SumLen(l.recs)) > l.capacity
  }

  function NextIndex(l: Log): int {
    if l.recs == [] then 0 else l.stop + 1
  }

  /** new_record_handle: push an empty record with a fresh name at the back. */
  ghost function NewRecord(l: Log): (r: Log)
    requires Inv(l) && !l.open && Room(l)
    ensures Inv(r) && r.open
  {
    var stamp := FirstFree(l.files.Keys, l.clock);
    var index := NextIndex(l);
    l.(recs := l.recs + [Rec(index, stamp, 0)],
       start := if l.recs == [] then 0 else l.start,
       stop := index,
       slots := if l.slots == |l.recs| then l.slots + 1 else l.slots,
       open := true,
       files := l.files[Name(stamp) := []],
       clock := stamp)
  }

  /** The `fwrite` of submit. */
  function Written(l: Log, data: seq<byte>): (r: Log)
    requires Inv(l) && l.open
    ensures Inv(r) && r.open
  {
    l.(files := l.files[OpenName(l) := l.files[OpenName(l)] + data])
  }

  /** remove_first: pop the oldest record and delete its file. */
  function PopFront(l: Log): (r: Log)
    requires Inv(l) && l.recs != [] && (l.open ==> |l.recs| >= 2)
    ensures Inv(r)
  {
    assert forall i :: 1 <= i < |l.recs| ==> Name(l.recs[i].stamp) != Name(l.recs[0].stamp) by {
      forall i | 1 <= i < |l.recs|
        ensures Name(l.recs[i].stamp) != Name(l.recs[0].stamp)
      {
        if Name(l.recs[i].stamp) == Name(l.recs[0].stamp) {
          NameInjective(l.recs[i].stamp, l.recs[0].stamp);
        }
      }
    }
    l.(recs := l.recs[1..], start := l.start + 1, files := l.files - {Name(l.recs[0].stamp)})
  }

  /** append: give the last record its length. */
  function Closed(l: Log): (r: Log)
    requires Inv(l) && l.open
    ensures Inv(r) && !r.open
  {
    l.(recs := l.recs[..|l.recs| - 1] + [Last(l).(len := OpenLength(l))], open := false)
  }

  /** A queue that is over capacity holds a closed record in front of the open one. */
  lemma OverfullHasClosed(l: Log)
    requires Inv(l) && l.open && Overfull(l)
    ensures |l.recs| >= 2
  {
    assert |l.recs| == 1 ==> SumLen(l.recs) == l.recs[0].len + SumLen([]);
  }

  /** release: at most one record goes, and only before the closing one is counted. */
  function Released(l: Log): (r: Log)
    requires Inv(l) && l.open
    ensures Inv(r) && !r.open
  {
    if Overfull(l) then OverfullHasClosed(l); Closed(PopFront(l)) else Closed(l)
  }

  /** submit */
  ghost function Submitted(l: Log, data: seq<byte>): (r: Log)
    requires Inv(l) && Room(l)
    ensures Inv(r)
  {
    var l1 := Written(if l.open then l else NewRecord(l), data);
    if OpenLength(l1) >= UNIT_LEN then Released(l1) else l1
  }

  /** The constructor on an index file that exists: the handle of an unfinished record is
  gone, the record itself stays in the queue with length 0. */
  function Reopened(l: Log, clock: nat): (r: Log)
    requires Inv(l)
    ensures Inv(r)
  {
    l.(open := false, clock := clock)
  }

  /** The constructor on a new index file. */
  function Created(capacity: u32, files: map<seq<byte>, seq<byte>>, clock: nat): (l: Log)
    ensures Inv(l)
  {
    Log(capacity, [], -1, -1, 0, false, files, clock)
  }

  /** Eviction takes the front record and no other: the record that is about to be closed
  keeps its place at the back, its number and its file. */
  lemma OpenSurvives(l: Log)
    requires Inv(l) && l.open && |l.recs| >= 2
    ensures Last(PopFront(l)) == Last(l)
    ensures OpenName(l) in PopFront(l).files
    ensures PopFront(l).files[OpenName(l)] == l.files[OpenName(l)]
  {
    var l1 := PopFront(l);
    assert Last(l1) == l1.recs[|l1.recs| - 1];
  }

  /** Closing a record adds its length to the total, in the width of the header field. */
  lemma ClosedSum(l: Log)
    requires Inv(l) && l.open
    ensures SumLen(Closed(l).recs) == SumLen(l.recs) + OpenLength(l)
  {
    var init := l.recs[..|l.recs| - 1];
    assert l.recs == init + [Last(l)];
    SumLenSnoc(init, Last(l));
    SumLenSnoc(init, Last(Closed(l)));
  }
}
