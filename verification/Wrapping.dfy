/** When the 32-bit total in the header is the number of bytes on disk, and when not. */
module Wrapping {
  import opened Bytes
  import opened Names
  import opened RecordLog
  import opened IndexFile
  import opened SlotFile
  import opened Grouping
  import opened History
  import opened Retention
  import opened Runs
  import opened Restarts
  import opened Outcomes

  // ---- one submit ----

  /** One submit, of any size, in any state whose total is true: the lengths in the slots stay
  below 2^32 in sum if and only if the submit does not close the record, or what is kept
  and the closing record's counter stay below it. */
  lemma TotalStaysBelowIff(l: Log, data: seq<byte>)
    requires Inv(l) && Room(l) && SumLen(l.recs) < 0x1_0000_0000
    ensures var n := (OpenBytes(l) + |data|) % 0x1_0000_0000;
            var kept := SumLen(l.recs) - if SumLen(l.recs) > l.capacity then l.recs[0].len else 0;
            SumLen(Submitted(l, data).recs) < 0x1_0000_0000 <==> n < UNIT_LEN || kept + n < 0x1_0000_0000
  {
    hide Name, Room, Wrap32, Submitted, OpenBytes;
    DoneAfterSubmit(l, data);
    SumOfDone(l);
    SumOfDone(Submitted(l, data));
    WrapSmall(SumLen(l.recs));
    var n := (OpenBytes(l) + |data|) % 0x1_0000_0000;
    SumSnoc(Done(l), n);
    if Done(l) != [] {
      SumSnoc(Done(l)[1..], n);
    }
  }

  // ---- slots in a row ----

  /** `z` slots without a length, then `u` records of the unit length, then `c` that close with
  a last submit of `size` bytes one byte short of it. */
  function Shape(z: nat, u: nat, c: nat, size: nat): (lengths: seq<nat>)
    requires size >= 1
    ensures |lengths| == z + u + c
  {
    seq(z, _ => 0 as nat) + seq(u, _ => UNIT_LEN as nat) + seq(c, _ => (UNIT_LEN + size - 1) as nat)
  }

  lemma {:induction false} ShapeSum(z: nat, u: nat, c: nat, size: nat)
    requires size >= 1
    ensures Sum(Shape(z, u, c, size)) == u * UNIT_LEN + c * (UNIT_LEN + size - 1)
    decreases z + u + c
  {
    if z > 0 {
      ShapeTail(z, u, c, size);
      ShapeSum(z - 1, u, c, size);
    } else if u > 0 {
      ShapeTail(z, u, c, size);
      ShapeSum(0, u - 1, c, size);
    } else if c > 0 {
      assert Shape(0, 0, c, size)[1..] == Shape(0, 0, c - 1, size);
      ShapeSum(0, 0, c - 1, size);
      assert c * (UNIT_LEN + size - 1) == (c - 1) * (UNIT_LEN + size - 1) + (UNIT_LEN + size - 1);
    }
  }

  lemma ShapeTail(z: nat, u: nat, c: nat, size: nat)
    requires size >= 1 && z + u > 0
    ensures Shape(z, u, c, size)[1..] == if z > 0 then Shape(z - 1, u, c, size) else Shape(0, u - 1, c, size)
  {
  }

  /** Which slots are left of `r` without a length, `k` of the unit length and `c` larger ones:
  each larger one but the first has pushed one out. */
  function Kept(r: nat, k: nat, c: nat, size: nat): seq<nat>
    requires size >= 1 && c <= k + 1 + r
  {
    if c <= 1 then Shape(r, k, c, size)
    else if c - 1 <= r then Shape(r - (c - 1), k, c, size)
    else Shape(0, k - (c - 1 - r), c, size)
  }

  lemma KeptSum(r: nat, k: nat, c: nat, size: nat)
    requires size >= 1 && c <= k + 1 + r
    ensures Sum(Kept(r, k, c, size))
         == (if c <= r + 1 then k else k + 1 + r - c) * UNIT_LEN + c * (UNIT_LEN + size - 1)
    ensures c > 0 ==> Sum(Kept(r, k, c, size)) >= (k + 1) * UNIT_LEN
  {
    hide Shape, Sum;
    var z := if c <= 1 then r else if c - 1 <= r then r - (c - 1) else 0;
    ShapeSum(z, if c <= r + 1 then k else k + 1 + r - c, c, size);
    MulMonotone(UNIT_LEN, UNIT_LEN + size - 1, c);
    assert c * (UNIT_LEN + size - 1) == (UNIT_LEN + size - 1) * c >= UNIT_LEN * c;
  }

  lemma CloseUnit(r: nat, u: nat, size: nat, capacity: nat)
    requires size >= 1 && u * UNIT_LEN <= capacity < 0x1_0000_0000
    ensures Close(Shape(r, u, 0, size), capacity, UNIT_LEN) == Shape(r, u + 1, 0, size)
  {
    hide Sum, Wrap32;
    ShapeSum(r, u, 0, size);
    WrapSmall(u * UNIT_LEN);
  }

  lemma CloseLarger(r: nat, k: nat, c: nat, size: nat, capacity: nat)
    requires size >= 1 && c <= k + r && k == capacity / UNIT_LEN
    requires Sum(Kept(r, k, c, size)) < 0x1_0000_0000
    ensures Close(Kept(r, k, c, size), capacity, UNIT_LEN + size - 1) == Kept(r, k, c + 1, size)
  {
    hide Sum, Wrap32;
    KeptSum(r, k, c, size);
    WrapSmall(Sum(Kept(r, k, c, size)));
    if 0 < c <= r {
      ShapeTail(r - (c - 1), k, c, size);
    }
  }

  // ---- building runs ----

  /** A run that has so far started `made` records, has the closed slots `lengths` and, unless
  nothing is open, `begun` bytes in the open record. */
  ghost predicate At(l0: Log, ops: seq<Op>, lengths: seq<nat>, begun: nat, most: nat, made: nat)
    requires Inv(l0)
  {
    && Defined(l0, ops) && AtMost(Data(ops), most)
    && var l := Run(l0, ops);
       && l.open == (begun > 0) && OpenBytes(l) == begun
       && l.capacity == l0.capacity && Done(l) == lengths
       && l.stop < made && Reach(l) <= Reach(l0) + made
  }

  lemma AtFirst(capacity: u32, files: map<seq<byte>, seq<byte>>, clock: nat, most: nat)
    ensures At(Created(capacity, files, clock), [], [], 0, most, 0)
    ensures CutOff(Created(capacity, files, clock), []) == 0
  {
  }

  lemma RoomAt(l: Log, made: nat)
    requires Inv(l) && |Done(l)| <= 100 && l.stop < made
    requires !l.open ==> made < INT_MAX && Reach(l) < INT_MAX
    ensures Room(l)
  {
    hide Name, Ahead;
  }

  lemma Appended(l0: Log, ops: seq<Op>, op: Op, most: nat)
    requires Inv(l0) && Defined(l0, ops) && Possible(Run(l0, ops), op) && AtMost(Data(ops), most)
    requires op.Submit? ==> |op.data| <= most
    ensures Defined(l0, ops + [op]) && Run(l0, ops + [op]) == Step(Run(l0, ops), op)
    ensures CutOff(l0, ops + [op]) == CutOff(l0, ops) + if op.Reopen? && Run(l0, ops).open then 1 else 0
    ensures AtMost(Data(ops + [op]), most)
  {
    hide Inv, Possible, Run;
    assert (ops + [op])[..|ops|] == ops;
    StepAfter(l0, ops, op);
  }

  lemma SubmitAt(l0: Log, ops: seq<Op>, lengths: seq<nat>, begun: nat, most: nat, made: nat, d: seq<byte>)
    requires Inv(l0) && At(l0, ops, lengths, begun, most, made) && |lengths| <= 100
    requires 1 <= |d| <= most && (begun == 0 ==> Reach(l0) + made < INT_MAX)
    ensures var ops1, n := ops + [Submit(d)], (begun + |d|) % 0x1_0000_0000;
            var made1 := made + if begun == 0 then 1 else 0;
            && CutOff(l0, ops1) == CutOff(l0, ops)
            && if n < UNIT_LEN then At(l0, ops1, lengths, begun + |d|, most, made1)
               else At(l0, ops1, Close(lengths, l0.capacity, n), 0, most, made1)
  {
    hide Name, Ahead, Run, Defined, Room, Submitted, CutOff, Reach, Done, Wrap32, Close, AtMost;
    var l := Run(l0, ops);
    RoomAt(l, made);
    Appended(l0, ops, Submit(d), most);
    DoneAfterSubmit(l, d);
    ReachOfSubmitted(l, d);
    NothingOpenAt(Submitted(l, d));
  }

  lemma NothingOpenAt(l: Log)
    requires Inv(l)
    ensures !l.open ==> OpenBytes(l) == 0
  {
  }

  lemma ReopenAt(capacity: u32, files: map<seq<byte>, seq<byte>>, clock: nat, ops: seq<Op>, lengths: seq<nat>,
                 begun: nat, most: nat, made: nat)
    requires begun > 0 && At(Created(capacity, files, clock), ops, lengths, begun, most, made)
    ensures var l0, ops1 := Created(capacity, files, clock), ops + [Reopen(clock)];
            At(l0, ops1, lengths + [0], 0, most, made) && CutOff(l0, ops1) == CutOff(l0, ops) + 1
  {
    hide Name, Ahead, Run, Defined, Room, CutOff, Done, Wrap32, AtMost;
    var l0 := Created(capacity, files, clock);
    Appended(l0, ops, Reopen(clock), most);
    DoneAfterReopen(Run(l0, ops), clock);
    ReachAfterReopen(capacity, files, clock, ops, clock);
  }

  /** Restarts that each come after the first byte of a record. */
  lemma {:induction false} Interrupts(capacity: u32, files: map<seq<byte>, seq<byte>>, clock: nat, most: nat, r: nat)
    returns (ops: seq<Op>)
    requires most >= 1 && r <= 64 && Reach(Created(capacity, files, clock)) + r <= INT_MAX
    ensures At(Created(capacity, files, clock), ops, Shape(r, 0, 0, 1), 0, most, r)
    ensures CutOff(Created(capacity, files, clock), ops) == r
  {
    hide Name, Ahead, Reach, At, CutOff;
    var l0 := Created(capacity, files, clock);
    if r == 0 {
      ops := [];
      AtFirst(capacity, files, clock, most);
      assert Shape(0, 0, 0, 1) == [];
    } else {
      ops := Interrupts(capacity, files, clock, most, r - 1);
      var lengths := Shape(r - 1, 0, 0, 1);
      SubmitAt(l0, ops, lengths, 0, most, r - 1, Zeros(1));
      ops := ops + [Submit(Zeros(1))];
      ReopenAt(capacity, files, clock, ops, lengths, 1, most, r);
      ops := ops + [Reopen(clock)];
      assert lengths + [0] == Shape(r, 0, 0, 1);
    }
  }

  lemma {:induction false} BytesAt(l0: Log, ops: seq<Op>, lengths: seq<nat>, most: nat, made: nat, j: nat)
    returns (ops1: seq<Op>)
    requires Inv(l0) && At(l0, ops, lengths, 0, most, made) && |lengths| <= 100
    requires 1 <= j < UNIT_LEN && most >= 1 && Reach(l0) + made < INT_MAX
    ensures At(l0, ops1, lengths, j, most, made + 1) && CutOff(l0, ops1) == CutOff(l0, ops)
  {
    hide Name, Ahead, Reach, At, CutOff, Inv;
    if j == 1 {
      SubmitAt(l0, ops, lengths, 0, most, made, Zeros(1));
      ops1 := ops + [Submit(Zeros(1))];
    } else {
      var before := BytesAt(l0, ops, lengths, most, made, j - 1);
      SubmitAt(l0, before, lengths, j - 1, most, made + 1, Zeros(1));
      ops1 := before + [Submit(Zeros(1))];
    }
  }

  /** One record from the first byte to its close, in submits of at most `size` bytes. */
  lemma RecordAt(l0: Log, ops: seq<Op>, lengths: seq<nat>, size: nat, most: nat, made: nat) returns (ops1: seq<Op>)
    requires Inv(l0) && At(l0, ops, lengths, 0, most, made) && |lengths| <= 100
    requires 1 <= size <= most && UNIT_LEN + size - 1 < 0x1_0000_0000 && Reach(l0) + made < INT_MAX
    ensures At(l0, ops1, Close(lengths, l0.capacity, UNIT_LEN + size - 1), 0, most, made + 1)
    ensures CutOff(l0, ops1) == CutOff(l0, ops)
  {
    hide Name, Ahead, Reach, At, CutOff, Close, Inv;
    ops1 := BytesAt(l0, ops, lengths, most, made, UNIT_LEN - 1);
    SubmitAt(l0, ops1, lengths, UNIT_LEN - 1, most, made + 1, Zeros(size));
    ops1 := ops1 + [Submit(Zeros(size))];
  }

  lemma {:induction false} UnitsAt(l0: Log, ops: seq<Op>, r: nat, u: nat, size: nat) returns (ops1: seq<Op>)
    requires Inv(l0) && size >= 1 && At(l0, ops, Shape(r, 0, 0, size), 0, size, r)
    requires u * UNIT_LEN <= l0.capacity && r + u <= 100 && Reach(l0) + r + u <= INT_MAX
    ensures At(l0, ops1, Shape(r, u, 0, size), 0, size, r + u) && CutOff(l0, ops1) == CutOff(l0, ops)
  {
    hide Name, Ahead, Reach, At, CutOff, Close, Inv, Shape;
    if u == 0 {
      ops1 := ops;
    } else {
      ops1 := UnitsAt(l0, ops, r, u - 1, size);
      CloseUnit(r, u - 1, size, l0.capacity);
      ops1 := RecordAt(l0, ops1, Shape(r, u - 1, 0, size), 1, size, r + u - 1);
    }
  }

  lemma {:induction false} LargerAt(l0: Log, ops: seq<Op>, r: nat, k: nat, c: nat, size: nat) returns (ops1: seq<Op>)
    requires Inv(l0) && size >= 1 && k == l0.capacity / UNIT_LEN && r <= 31 && c <= k + 1 + r
    requires At(l0, ops, Shape(r, k, 0, size), 0, size, r + k)
    requires UNIT_LEN + size - 1 < 0x1_0000_0000 && Reach(l0) + r + k + c <= INT_MAX
    requires forall b :: 0 <= b < c ==> Sum(Kept(r, k, b, size)) < 0x1_0000_0000
    ensures At(l0, ops1, Kept(r, k, c, size), 0, size, r + k + c) && CutOff(l0, ops1) == CutOff(l0, ops)
  {
    hide Name, Ahead, Reach, At, CutOff, Close, Inv, Shape, Sum;
    if c == 0 {
      ops1 := ops;
    } else {
      ops1 := LargerAt(l0, ops, r, k, c - 1, size);
      CloseLarger(r, k, c - 1, size, l0.capacity);
      ops1 := RecordAt(l0, ops1, Kept(r, k, c - 1, size), size, size, r + k + c - 1);
    }
  }

  /** The whole run: restarts in the middle of a record, then units up to the capacity, then
  larger records. */
  lemma RunTo(capacity: u32, files: map<seq<byte>, seq<byte>>, clock: nat, r: nat, c: nat, size: nat)
    returns (ops: seq<Op>)
    requires size >= 1 && r <= 31 && c <= capacity / UNIT_LEN + 1 + r && UNIT_LEN + size - 1 < 0x1_0000_0000
    requires Reach(Created(capacity, files, clock)) + r + capacity / UNIT_LEN + c <= INT_MAX
    requires forall b :: 0 <= b < c ==> Sum(Kept(r, capacity / UNIT_LEN, b, size)) < 0x1_0000_0000
    ensures var k := capacity / UNIT_LEN;
            At(Created(capacity, files, clock), ops, Kept(r, k, c, size), 0, size, r + k + c)
    ensures CutOff(Created(capacity, files, clock), ops) == r
  {
    hide Name, Ahead, Reach, At, CutOff, Sum, Kept;
    var l0, k := Created(capacity, files, clock), capacity / UNIT_LEN;
    ops := Interrupts(capacity, files, clock, size, r);
    assert Shape(r, 0, 0, 1) == Shape(r, 0, 0, size);
    ops := UnitsAt(l0, ops, r, k, size);
    ops := LargerAt(l0, ops, r, k, c, size);
  }

  // ---- the exact condition ----

  /** The header has the number of bytes in the files of the finished records. */
  ghost predicate TotalIsTrue(l: Log)
    requires Inv(l)
  {
    HeaderOf(l).currentLength == FinishedBytes(l)
  }

  lemma TotalAt(capacity: u32, files: map<seq<byte>, seq<byte>>, clock: nat, ops: seq<Op>, lengths: seq<nat>,
                size: nat, made: nat)
    requires size >= 1 && UNIT_LEN + size - 1 < 0x1_0000_0000
    requires At(Created(capacity, files, clock), ops, lengths, 0, size, made)
    ensures var l := Run(Created(capacity, files, clock), ops);
            && FinishedBytes(l) == SumLen(l.recs) == Sum(lengths)
            && HeaderOf(l).currentLength == Wrap32(Sum(lengths))
            && |l.recs| == |lengths| && l.capacity == capacity && !l.open
  {
    hide Name, Ahead, Reach, Run, Defined, Wrap32, Tallied, FinishedBytes, Sum, SumLen, AtMost;
    var l0 := Created(capacity, files, clock);
    var base, contents := RunTallies(capacity, files, clock, ops, size);
    TalliedFacts(l0, Run(l0, ops), base, contents, size);
    SumOfDone(Run(l0, ops));
  }

  lemma KeptBelow(r: nat, k: nat, b: nat, size: nat)
    requires size >= 1 && b <= k + 1 + r
    ensures Sum(Kept(r, k, b, size)) <= (k + 1 + r) * (UNIT_LEN + size - 1)
  {
    hide Sum, Kept;
    var large := UNIT_LEN + size - 1;
    var u := if b <= r + 1 then k else k + 1 + r - b;
    KeptSum(r, k, b, size);
    MulMonotone(UNIT_LEN, large, u);
    MulMonotone(u + b, k + 1 + r, large);
    assert u * UNIT_LEN == UNIT_LEN * u <= large * u == u * large;
    assert (u + b) * large == u * large + b * large;
  }

  lemma {:induction false} NoneUnfinished(c: nat, size: nat)
    requires size >= 1
    ensures Unfinished(Shape(0, 0, c, size)) == 0
  {
    if c > 0 {
      assert Shape(0, 0, c, size)[1..] == Shape(0, 0, c - 1, size);
      NoneUnfinished(c - 1, size);
    }
  }

  /** The bounds of `SpaceBoundAcrossRestarts` are reached, count and bytes both, for every
  capacity, largest submit and number of restarts that cannot wrap the total. */
  lemma RestartsReachBound(capacity: u32, files: map<seq<byte>, seq<byte>>, clock: nat, most: nat, r: nat)
    returns (ops: seq<Op>)
    requires NoWrapAfter(capacity, most, r)
    requires Reach(Created(capacity, files, clock)) + 2 * (capacity / UNIT_LEN + r) + 1 <= INT_MAX
    ensures Defined(Created(capacity, files, clock), ops) && AtMost(Data(ops), most)
    ensures CutOff(Created(capacity, files, clock), ops) == r
    ensures var l, n := Run(Created(capacity, files, clock), ops), capacity / UNIT_LEN + 1 + r;
            && !l.open && |l.recs| == |Done(l)| == n && Unfinished(Done(l)) == 0
            && HeaderOf(l).currentLength == FinishedBytes(l) == n * (UNIT_LEN + most - 1)
  {
    hide Name, Ahead, Reach, CutOff, Run, Defined, Wrap32, Sum, Kept, FinishedBytes, Shape;
    var k := capacity / UNIT_LEN;
    var c := k + 1 + r;
    NoWrapEarlier(capacity, most, r, r);
    MulMonotone(UNIT_LEN, UNIT_LEN + most - 1, c);
    forall b | 0 <= b <= c
      ensures Sum(Kept(r, k, b, most)) < 0x1_0000_0000
    {
      KeptBelow(r, k, b, most);
    }
    ops := RunTo(capacity, files, clock, r, c, most);
    TotalAt(capacity, files, clock, ops, Kept(r, k, c, most), most, r + k + c);
    KeptSum(r, k, c, most);
    AllLarger(r, k, most);
    NoneUnfinished(c, most);
    WrapSmall(Sum(Kept(r, k, c, most)));
  }

  lemma AllLarger(r: nat, k: nat, size: nat)
    requires size >= 1
    ensures Kept(r, k, k + 1 + r, size) == Shape(0, 0, k + 1 + r, size)
  {
  }

  /** The first time that the kept records amount to 2^32 bytes. */
  lemma FirstOver(r: nat, k: nat, c: nat, size: nat, from: nat) returns (b: nat)
    requires size >= 1 && from <= c <= k + 1 + r && Sum(Kept(r, k, c, size)) >= 0x1_0000_0000
    requires forall a :: 0 <= a < from ==> Sum(Kept(r, k, a, size)) < 0x1_0000_0000
    ensures b <= c && Sum(Kept(r, k, b, size)) >= 0x1_0000_0000
    ensures forall a :: 0 <= a < b ==> Sum(Kept(r, k, a, size)) < 0x1_0000_0000
    decreases c - from
  {
    hide Kept, Sum;
    if Sum(Kept(r, k, from, size)) >= 0x1_0000_0000 {
      b := from;
    } else {
      b := FirstOver(r, k, c, size, from + 1);
    }
  }

  /** If the bound does not stay below 2^32, a run within it leaves a wrong total. */
  lemma TotalCanWrap(capacity: u32, files: map<seq<byte>, seq<byte>>, clock: nat, most: nat, restarts: nat)
    returns (ops: seq<Op>)
    requires most >= 1 && !NoWrapAfter(capacity, most, restarts)
    requires Reach(Created(capacity, files, clock)) + 125 <= INT_MAX
    ensures Defined(Created(capacity, files, clock), ops) && AtMost(Data(ops), most)
    ensures CutOff(Created(capacity, files, clock), ops) <= restarts
    ensures !TotalIsTrue(Run(Created(capacity, files, clock), ops))
  {
    hide Name, Ahead, Reach, CutOff, Run, Defined, Wrap32, Sum, Kept, FinishedBytes, Shape, TotalIsTrue;
    var k := capacity / UNIT_LEN;
    var r := if restarts <= 31 then restarts else 31;
    if k + r == 0 {
      ops := OneRecordWraps(capacity, files, clock, most);
    } else {
      var size := if most <= 0x1_0000_0000 - UNIT_LEN then most else 0x1_0000_0000 - UNIT_LEN;
      var c := k + 1 + r;
      EnoughToWrap(capacity, most, restarts, r, size);
      KeptSum(r, k, c, size);
      var b := FirstOver(r, k, c, size, 0);
      ops := RunTo(capacity, files, clock, r, b, size);
      TotalAt(capacity, files, clock, ops, Kept(r, k, b, size), size, r + k + b);
      WrongAbove(Run(Created(capacity, files, clock), ops), Sum(Kept(r, k, b, size)));
    }
  }

  lemma WrongAbove(l: Log, sum: nat)
    requires Inv(l) && sum >= 0x1_0000_0000
    requires FinishedBytes(l) == sum && HeaderOf(l).currentLength == Wrap32(sum)
    ensures !TotalIsTrue(l)
  {
  }

  /** Thirty-one restarts are enough, and records below 2^32 bytes. */
  lemma EnoughToWrap(capacity: u32, most: nat, restarts: nat, r: nat, size: nat)
    requires most >= 1 && !NoWrapAfter(capacity, most, restarts)
    requires r == (if restarts <= 31 then restarts else 31) && capacity / UNIT_LEN + r >= 1
    requires size == if most <= 0x1_0000_0000 - UNIT_LEN then most else 0x1_0000_0000 - UNIT_LEN
    ensures (capacity / UNIT_LEN + 1 + r) * (UNIT_LEN + size - 1) >= 0x1_0000_0000
  {
    var n := capacity / UNIT_LEN + 1 + r;
    if size != most {
      MulMonotone(2, n, UNIT_LEN + size - 1);
    } else if r != restarts {
      MulMonotone(32, n, UNIT_LEN + size - 1);
    }
  }

  /** With a capacity below the unit length and no restart there is one closed record at most,
  so only the length counter of that record can wrap: a submit takes it to 0, and it closes
  at the next unit length with 2^32 bytes too few on its account. */
  lemma OneRecordWraps(capacity: u32, files: map<seq<byte>, seq<byte>>, clock: nat, most: nat)
    returns (ops: seq<Op>)
    requires most > 0x1_0000_0000 - UNIT_LEN
    requires Reach(Created(capacity, files, clock)) + 1 <= INT_MAX
    ensures Defined(Created(capacity, files, clock), ops) && AtMost(Data(ops), most)
    ensures CutOff(Created(capacity, files, clock), ops) == 0
    ensures !TotalIsTrue(Run(Created(capacity, files, clock), ops))
  {
    hide Name, Ahead, Reach, CutOff, Run, Defined, FinishedBytes, Joined, Data, Done, Close, AtMost;
    var l0 := Created(capacity, files, clock);
    var a, b, c := Zeros(UNIT_LEN - 1), Zeros(0x1_0000_0001 - UNIT_LEN), Zeros(UNIT_LEN);
    AtFirst(capacity, files, clock, most);
    SubmitAt(l0, [], [], 0, most, 0, a);
    SubmitAt(l0, [] + [Submit(a)], [], UNIT_LEN - 1, most, 1, b);
    SubmitAt(l0, [] + [Submit(a)] + [Submit(b)], [], 0x1_0000_0000, most, 1, c);
    ops := [] + [Submit(a)] + [Submit(b)] + [Submit(c)];
    ClosesAlone(capacity, UNIT_LEN);
    BytesOfThree(a, b, c);
    OneRecord(capacity, files, clock, ops, UNIT_LEN, most);
  }

  lemma ClosesAlone(capacity: nat, n: nat)
    ensures Close([], capacity, n) == [n]
  {
  }

  lemma BytesOfThree(a: seq<byte>, b: seq<byte>, c: seq<byte>)
    ensures |Joined(Data([] + [Submit(a)] + [Submit(b)] + [Submit(c)]))| == |a| + |b| + |c|
  {
    hide MostRecords, Joined;
    var one := [] + [Submit(a)];
    var two := one + [Submit(b)];
    var three := two + [Submit(c)];
    assert three[..2] == two && two[..1] == one && one[..0] == [];
    BytesSnoc(one);
    BytesSnoc(two);
    BytesSnoc(three);
    assert Data([]) == [];
    NothingOpen();
  }

  /** The only record that there has been holds everything that was submitted. */
  lemma OneRecord(capacity: u32, files: map<seq<byte>, seq<byte>>, clock: nat, ops: seq<Op>, n: nat, most: nat)
    requires n > 0 && At(Created(capacity, files, clock), ops, [n], 0, most, 1)
    ensures var l := Run(Created(capacity, files, clock), ops);
            HeaderOf(l).currentLength == Wrap32(n) && FinishedBytes(l) == |Joined(Data(ops))|
  {
    hide Name, Ahead, Reach, Run, Defined, Data, Joined, Wrap32, LiveNames;
    var l := Run(Created(capacity, files, clock), ops);
    var dropped, live := RetainedIsSuffix(capacity, files, clock, ops);
    assert |Done(l)| == |l.recs| == 1 && Done(l)[0] == n;
    assert l.recs[0].index == l.start + 0;
    assert dropped == [];
    assert live == [live[0]] && Data(ops) == live[0] by { FlattenSnoc([], live[0]); }
    SumOfDone(l);
    SumSnoc([], n);
    SumSnoc([], |FileOf(l, 0)|);
    assert [] + [n] == [n];
    var sizes: seq<nat> :=
      seq(|l.recs|, i requires 0 <= i < |l.recs| => if l.recs[i].len == 0 then 0 else |FileOf(l, i)|);
    assert sizes == [] + [|FileOf(l, 0)|];
  }

  /** The bound is exact: for a capacity, a largest submit and a number of restarts in the
  middle of a record, the header total is the true one after every defined run if and only
  if (C/U+1+R)(U+S-1) stays below 2^32. */
  lemma NoWrapIff(capacity: u32, files: map<seq<byte>, seq<byte>>, clock: nat, most: nat, restarts: nat)
    requires most >= 1 && Reach(Created(capacity, files, clock)) + 125 <= INT_MAX
    ensures var l0 := Created(capacity, files, clock);
            NoWrapAfter(capacity, most, restarts) <==>
              forall ops :: Defined(l0, ops) && AtMost(Data(ops), most) && CutOff(l0, ops) <= restarts
                            ==> TotalIsTrue(Run(l0, ops))
  {
    hide Name, Ahead, Reach, Run, Defined, NoWrapAfter, CutOff, Unfinished, DiskBytes, FinishedBytes;
    var l0 := Created(capacity, files, clock);
    if NoWrapAfter(capacity, most, restarts) {
      forall ops | Defined(l0, ops) && AtMost(Data(ops), most) && CutOff(l0, ops) <= restarts
        ensures TotalIsTrue(Run(l0, ops))
      {
        NoWrapEarlier(capacity, most, CutOff(l0, ops), restarts);
        SpaceBoundAcrossRestarts(capacity, files, clock, ops, most);
      }
    } else {
      var ops := TotalCanWrap(capacity, files, clock, most, restarts);
    }
  }

  // ---- the configured capacity ----

  const CAPACITY: u32 := 0x1000_0000

  /** With the capacity that the constructor sets, or less, and submits of up to the unit
  length, the header total is true after every run with at most thirteen restarts in the
  middle of a record. */
  lemma ConfiguredCapacityNeverWraps(capacity: u32, files: map<seq<byte>, seq<byte>>, clock: nat, ops: seq<Op>)
    requires capacity <= CAPACITY && Defined(Created(capacity, files, clock), ops)
    requires AtMost(Data(ops), UNIT_LEN) && CutOff(Created(capacity, files, clock), ops) <= 13
    ensures TotalIsTrue(Run(Created(capacity, files, clock), ops)) && NoWrap(capacity, UNIT_LEN)
  {
    hide Name, Run, Defined, CutOff, Unfinished, DiskBytes, FinishedBytes;
    var r := CutOff(Created(capacity, files, clock), ops);
    MulMonotone(capacity / UNIT_LEN + 1 + r, 16, UNIT_LEN + UNIT_LEN - 1);
    NoWrapEarlier(capacity, UNIT_LEN, 0, r);
    SpaceBoundAcrossRestarts(capacity, files, clock, ops, UNIT_LEN);
  }

  /** Thirteen is the most, and for submits of single bytes it is twenty-eight. */
  lemma ConfiguredRestartsIff(files: map<seq<byte>, seq<byte>>, clock: nat, most: nat, restarts: nat)
    requires most == UNIT_LEN || most == 1
    requires Reach(Created(CAPACITY, files, clock)) + 125 <= INT_MAX
    ensures var l0 := Created(CAPACITY, files, clock);
            restarts <= (if most == 1 then 28 else 13) <==>
              forall ops :: Defined(l0, ops) && AtMost(Data(ops), most) && CutOff(l0, ops) <= restarts
                            ==> TotalIsTrue(Run(l0, ops))
  {
    hide Name, Ahead, Reach, Run, Defined, CutOff, TotalIsTrue;
    NoWrapIff(CAPACITY, files, clock, most, restarts);
  }

  /** Closed records of `count` slots and `sum` bytes under a header that says `total`, which
  is not over capacity. */
  ghost predicate EvictionStopped(l: Log, count: nat, sum: nat, total: nat)
    requires Inv(l)
  {
    && !l.open && |l.recs| == count
    && FinishedBytes(l) == SumLen(l.recs) == sum
    && HeaderOf(l).currentLength == total
    && !Overfull(l)
  }

  lemma StoppedAt(files: map<seq<byte>, seq<byte>>, clock: nat, ops: seq<Op>, lengths: seq<nat>, size: nat, made: nat)
    requires size >= 1 && UNIT_LEN + size - 1 < 0x1_0000_0000
    requires At(Created(CAPACITY, files, clock), ops, lengths, 0, size, made)
    requires 0x1_0000_0000 <= Sum(lengths) <= 0x1_0000_0000 + CAPACITY
    ensures EvictionStopped(Run(Created(CAPACITY, files, clock), ops), |lengths|, Sum(lengths),
                            Sum(lengths) - 0x1_0000_0000)
  {
    hide Name, Ahead, Reach, Run, Defined, FinishedBytes, Sum, SumLen;
    TotalAt(CAPACITY, files, clock, ops, lengths, size, made);
  }

  const LARGE: nat := 1_297_438_039

  /** Without any restart: two records of the unit length and three of about 1.4 GB. The three
  that are kept have sixteen times the capacity. */
  lemma ConfiguredTotalWraps(files: map<seq<byte>, seq<byte>>, clock: nat) returns (ops: seq<Op>)
    requires Reach(Created(CAPACITY, files, clock)) + 5 <= INT_MAX
    ensures Defined(Created(CAPACITY, files, clock), ops) && AtMost(Data(ops), LARGE)
    ensures CutOff(Created(CAPACITY, files, clock), ops) == 0
    ensures EvictionStopped(Run(Created(CAPACITY, files, clock), ops), 3, 0x1_0000_0002, 2)
  {
    hide Name, Ahead, Reach, Run, Defined, CutOff, Kept, Sum, EvictionStopped;
    forall b | 0 <= b <= 3
      ensures Sum(Kept(0, 2, b, LARGE)) < 0x1_0000_0000 <==> b < 3
      ensures b == 3 ==> Sum(Kept(0, 2, b, LARGE)) == 0x1_0000_0002
    {
      KeptSum(0, 2, b, LARGE);
    }
    ops := RunTo(CAPACITY, files, clock, 0, 3, LARGE);
    AllLarger(0, 2, LARGE);
    StoppedAt(files, clock, ops, Kept(0, 2, 3, LARGE), LARGE, 5);
  }

  /** With nothing but single bytes submitted: twenty-nine restarts, each after the first byte
  of a record, and then records of the unit length. Thirty-two of them, 4 GB, stay on disk
  under a header of 0. */
  lemma RestartsWrapTotal(files: map<seq<byte>, seq<byte>>, clock: nat) returns (ops: seq<Op>)
    requires Reach(Created(CAPACITY, files, clock)) + 61 <= INT_MAX
    ensures Defined(Created(CAPACITY, files, clock), ops) && AtMost(Data(ops), 1)
    ensures CutOff(Created(CAPACITY, files, clock), ops) == 29
    ensures EvictionStopped(Run(Created(CAPACITY, files, clock), ops), 32, 0x1_0000_0000, 0)
  {
    hide Name, Ahead, Reach, Run, Defined, CutOff, Sum, EvictionStopped;
    forall b | 0 <= b <= 30
      ensures Sum(Kept(29, 2, b, 1)) == (2 + b) * UNIT_LEN
    {
      KeptSum(29, 2, b, 1);
    }
    ops := RunTo(CAPACITY, files, clock, 29, 30, 1);
    StoppedAt(files, clock, ops, Kept(29, 2, 30, 1), 1, 61);
  }
}
