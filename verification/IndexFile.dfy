/** The bytes of the index file for a given record queue, and what the file operations of
CFilesys_mgr do to them. */
module IndexFile {
  import opened Bytes
  import opened Layout
  import opened Names
  import opened Files
  import opened Scanf
  import opened RecordLog
  import opened SlotFile

  function HeaderOf(l: Log): Header
    requires |l.recs| < 0x1_0000_0000
  {
    Header(l.capacity, Wrap32(SumLen(l.recs)), |l.recs|, NODE_LEN, l.start, l.stop, Zeros(HEADER_LEN - 24))
  }

  predicate Storable(r: Rec) {
    r.stamp <= INT_MAX && r.index < INT_MAX
  }

  function NodeOf(r: Rec): Node
    requires Storable(r)
  {
    NameFits(r.stamp);
    NodeWith(r.index, r.len, Decimal(DATE), Decimal(r.stamp), Name(r.stamp))
  }

  /** A zeroed node with its number, length and strings filled in. */
  function NodeWith(index: u32, len: u32, date: seq<byte>, time: seq<byte>, name: seq<byte>): Node
    requires |date| < 32 && |time| < 32 && |name| < MAX_PATH
  {
    Node(index, len, 0, StrCpy(Zeros(32), date), StrCpy(Zeros(32), time), StrCpy(Zeros(MAX_PATH), name),
         0, Zeros(NODE_LEN - 16 - 64 - MAX_PATH))
  }

  function NodeBlocks(recs: seq<Rec>): (blocks: seq<seq<byte>>)
    requires forall i :: 0 <= i < |recs| ==> Storable(recs[i])
    ensures |blocks| == |recs| && Blocks(blocks, NODE_LEN)
  {
    seq(|recs|, i requires 0 <= i < |recs| => EncodeNode(NodeOf(recs[i])))
  }

  lemma NodeBlocksSnoc(recs: seq<Rec>, r: Rec)
    requires forall i :: 0 <= i < |recs| ==> Storable(recs[i])
    requires Storable(r)
    ensures NodeBlocks(recs + [r]) == NodeBlocks(recs) + [EncodeNode(NodeOf(r))]
  {
    hide LittleEndian, Wrap32;
  }

  /** The whole index file: header, live slots oldest first, zeros in every slot after them. */
  function EncodeIndex(l: Log): (b: seq<byte>)
    requires |l.recs| < 0x1_0000_0000 && |l.recs| <= l.slots
    requires forall i :: 0 <= i < |l.recs| ==> Storable(l.recs[i])
    ensures |b| == HEADER_LEN + l.slots * NODE_LEN
  {
    PackedLength(EncodeHeader(HeaderOf(l)), NodeBlocks(l.recs), l.slots - |l.recs|, NODE_LEN);
    Packed(EncodeHeader(HeaderOf(l)), NodeBlocks(l.recs), l.slots - |l.recs|, NODE_LEN)
  }

  // ---- reading back ----

  /** The node that the file holds in one slot. */
  function SlotNode(b: seq<byte>, i: nat): Node
    requires HEADER_LEN + (i + 1) * NODE_LEN <= |b|
  {
    DecodeNode(b[HEADER_LEN + i * NODE_LEN..HEADER_LEN + (i + 1) * NODE_LEN])
  }

  /** Header and every live slot read back from the file are the ones that are encoded, and
  the slots behind them are zero. */
  lemma IndexRoundTrip(l: Log)
    requires Inv(l)
    ensures DecodeHeader(EncodeIndex(l)[..HEADER_LEN]) == HeaderOf(l)
    ensures forall i :: 0 <= i < |l.recs| ==> SlotNode(EncodeIndex(l), i) == NodeOf(l.recs[i])
    ensures EncodeIndex(l)[HEADER_LEN + |l.recs| * NODE_LEN..] == Zeros((l.slots - |l.recs|) * NODE_LEN)
  {
    hide LittleEndian, Wrap32;
    var b := EncodeIndex(l);
    JoinedLength(NodeBlocks(l.recs), NODE_LEN);
    assert b[..HEADER_LEN] == EncodeHeader(HeaderOf(l));
    HeaderRoundTrip(HeaderOf(l));
    forall i | 0 <= i < |l.recs|
      ensures SlotNode(b, i) == NodeOf(l.recs[i])
    {
      SlotBytes(l, i);
      NodeRoundTrip(NodeOf(l.recs[i]));
    }
  }

  lemma SlotBytes(l: Log, i: nat)
    requires Inv(l) && i < |l.recs|
    ensures EncodeIndex(l)[HEADER_LEN + i * NODE_LEN..HEADER_LEN + (i + 1) * NODE_LEN] == EncodeNode(NodeOf(l.recs[i]))
  {
    hide LittleEndian, Wrap32;
    PackedSlot(EncodeHeader(HeaderOf(l)), NodeBlocks(l.recs), l.slots - |l.recs|, NODE_LEN, i);
  }

  /** A record can be read off its node: nothing the queue knows is lost on disk. */
  lemma NodeStrings(r: Rec)
    requires Storable(r)
    ensures CString(NodeOf(r).time) == Decimal(r.stamp)
    ensures CString(NodeOf(r).date) == Decimal(DATE)
    ensures CString(NodeOf(r).dataFile) == Name(r.stamp)
  {
    hide LittleEndian, Wrap32;
    NameFits(r.stamp);
    StringRoundTrip(Zeros(32), Decimal(DATE));
    StringRoundTrip(Zeros(32), Decimal(r.stamp));
    StringRoundTrip(Zeros(MAX_PATH), Name(r.stamp));
  }

  /** The bytes of the index file, by their places: the header. */
  lemma HeaderBytes(l: Log)
    requires Inv(l)
    ensures var b := EncodeIndex(l);
            && |b| == 0x400 + 0x200 * l.slots
            && Word(b[0..4]) == l.capacity && Word(b[4..8]) == SumLen(l.recs) % 0x1_0000_0000
            && Word(b[8..12]) == |l.recs| && Word(b[12..16]) == 0x200
            && Word(b[16..20]) == l.start % 0x1_0000_0000 && Word(b[20..24]) == l.stop % 0x1_0000_0000
            && forall i :: 24 <= i < 0x400 ==> b[i] == 0
  {
    hide LittleEndian, EncodeHeader, EncodeIndex, Word, SumLen;
    var b, h := EncodeIndex(l), HeaderOf(l);
    HeaderAt(h);
    HeaderFirst(l);
    var head := b[..0x400];
    assert b[0..4] == head[0..4] && b[4..8] == head[4..8] && b[8..12] == head[8..12];
    assert b[12..16] == head[12..16] && b[16..20] == head[16..20] && b[20..24] == head[20..24];
    WordRoundTrip(h.deviceCapacity);
    WordRoundTrip(h.currentLength);
    WordRoundTrip(h.nodenum);
    WordRoundTrip(h.nodeitemLen);
    WordRoundTrip(Unsigned(h.nodeindexStart));
    WordRoundTrip(Unsigned(h.nodeindexStop));
    assert forall i :: 24 <= i < 0x400 ==> b[i] == head[24..][i - 24];
  }

  lemma HeaderFirst(l: Log)
    requires Inv(l)
    ensures EncodeIndex(l)[..0x400] == EncodeHeader(HeaderOf(l))
  {
    hide LittleEndian, EncodeHeader, SumLen;
  }

  /** The slot of record i: number, length, the date and the counter in digits, the file name,
  and zeros. */
  lemma RecordBytes(l: Log, i: nat)
    requires Inv(l) && i < |l.recs|
    ensures var b, p, r := EncodeIndex(l), 0x400 + 0x200 * i, l.recs[i];
            && p + 0x200 <= |b|
            && Word(b[p..p + 4]) == r.index && Word(b[p + 4..p + 8]) == r.len
            && Value(CString(b[p + 12..p + 44]), 10) == 20_150_405
            && Value(CString(b[p + 44..p + 76]), 10) == r.stamp
            && CString(b[p + 76..p + 204]) == Name(r.stamp)
            && Word(b[p + 8..p + 12]) == Word(b[p + 204..p + 208]) == 0
            && forall j :: p + 208 <= j < p + 0x200 ==> b[j] == 0
  {
    hide LittleEndian, EncodeNode, EncodeIndex, Word, CString, StrCpy, Decimal, Value, Name;
    var b, p, r := EncodeIndex(l), 0x400 + 0x200 * i, l.recs[i];
    var node := NodeOf(r);
    SlotBytes(l, i);
    SlotFits(l, i);
    var slot := b[p..p + 0x200];
    assert slot == EncodeNode(node);
    NodeAt(node);
    assert b[p..p + 4] == slot[0..4] && b[p + 4..p + 8] == slot[4..8] && b[p + 8..p + 12] == slot[8..12];
    assert b[p + 12..p + 44] == slot[12..44] && b[p + 44..p + 76] == slot[44..76];
    assert b[p + 76..p + 204] == slot[76..204] && b[p + 204..p + 208] == slot[204..208];
    NodeStrings(r);
    DecimalValue(DATE);
    DecimalValue(r.stamp);
    WordRoundTrip(node.index);
    WordRoundTrip(node.datalen);
    WordRoundTrip(0);
    assert forall j :: p + 208 <= j < p + 0x200 ==> b[j] == slot[208..][j - p - 208];
  }

  lemma SlotFits(l: Log, i: nat)
    requires Inv(l) && i < |l.recs|
    ensures 0x400 + 0x200 * i + 0x200 <= |EncodeIndex(l)|
  {
    hide EncodeHeader, EncodeNode;
  }

  /** Two queues with the same index file are the same queue as far as the file goes. */
  lemma IndexDeterminesQueue(l: Log, m: Log)
    requires Inv(l) && Inv(m) && EncodeIndex(l) == EncodeIndex(m)
    ensures l.recs == m.recs && l.slots == m.slots
    ensures l.capacity == m.capacity && l.start == m.start && l.stop == m.stop
  {
    hide LittleEndian, Wrap32;
    IndexRoundTrip(l);
    IndexRoundTrip(m);
    assert HeaderOf(l) == HeaderOf(m);
    forall i | 0 <= i < |l.recs|
      ensures l.recs[i] == m.recs[i]
    {
      assert NodeOf(l.recs[i]) == SlotNode(EncodeIndex(l), i) == NodeOf(m.recs[i]);
      NodeStrings(l.recs[i]);
      NodeStrings(m.recs[i]);
      NameInjective(l.recs[i].stamp, m.recs[i].stamp);
    }
  }

  // ---- the three updates ----

  lemma PushedBlocks(l: Log)
    requires Inv(l) && !l.open && Room(l)
    ensures NodeBlocks(NewRecord(l).recs) == NodeBlocks(l.recs) + [EncodeNode(NodeOf(Last(NewRecord(l))))]
  {
    hide LittleEndian, Wrap32;
    NodeBlocksSnoc(l.recs, Last(NewRecord(l)));
  }

  lemma PoppedBlocks(l: Log)
    requires Inv(l) && l.recs != [] && (l.open ==> |l.recs| >= 2)
    ensures NodeBlocks(PopFront(l).recs) == NodeBlocks(l.recs)[1..]
  {
    hide LittleEndian, Wrap32, EncodeNode, NodeOf;
  }

  lemma ClosedBlocks(l: Log)
    requires Inv(l) && l.open
    ensures NodeBlocks(Closed(l).recs)
         == NodeBlocks(l.recs)[..|l.recs| - 1] + [EncodeNode(NodeOf(Last(Closed(l))))]
  {
    hide LittleEndian, Wrap32;
    var init := l.recs[..|l.recs| - 1];
    assert l.recs == init + [Last(l)];
    NodeBlocksSnoc(init, Last(l));
    NodeBlocksSnoc(init, Last(Closed(l)));
  }

  lemma PushOnDisk(l: Log)
    requires Inv(l) && !l.open && Room(l)
    ensures var l1 := NewRecord(l);
            Overwrite(Overwrite(EncodeIndex(l), HEADER_LEN + |l.recs| * NODE_LEN, EncodeNode(NodeOf(Last(l1)))),
                      0, EncodeHeader(HeaderOf(l1))) == EncodeIndex(l1)
  {
    hide LittleEndian, Wrap32, EncodeHeader, EncodeNode, HeaderOf, NodeOf, Overwrite, CutOut, Packed, NodeBlocks;
    var l1 := NewRecord(l);
    var node := EncodeNode(NodeOf(Last(l1)));
    PushedBlocks(l);
    Push(EncodeHeader(HeaderOf(l)), NodeBlocks(l.recs), l.slots - |l.recs|, NODE_LEN, EncodeHeader(HeaderOf(l1)), node);
  }

  lemma PopOnDisk(l: Log)
    requires Inv(l) && l.recs != [] && (l.open ==> |l.recs| >= 2)
    ensures Overwrite(CutOut(EncodeIndex(l), NODE_LEN, NODE_LEN), 0, EncodeHeader(HeaderOf(PopFront(l))))
         == EncodeIndex(PopFront(l))
  {
    hide LittleEndian, Wrap32, EncodeHeader, EncodeNode, HeaderOf, NodeOf, Overwrite, CutOut, Packed, NodeBlocks;
    var l1 := PopFront(l);
    PoppedBlocks(l);
    Pop(EncodeHeader(HeaderOf(l)), NodeBlocks(l.recs), l.slots - |l.recs|, NODE_LEN, EncodeHeader(HeaderOf(l1)));
  }

  lemma CloseOnDisk(l: Log)
    requires Inv(l) && l.open
    ensures var l1 := Closed(l);
            Overwrite(Overwrite(EncodeIndex(l), HEADER_LEN + (|l.recs| - 1) * NODE_LEN, EncodeNode(NodeOf(Last(l1)))),
                      0, EncodeHeader(HeaderOf(l1))) == EncodeIndex(l1)
  {
    hide LittleEndian, Wrap32, EncodeHeader, EncodeNode, HeaderOf, NodeOf, Overwrite, CutOut, Packed, NodeBlocks;
    var l1 := Closed(l);
    var node := EncodeNode(NodeOf(Last(l1)));
    ClosedBlocks(l);
    SetLast(EncodeHeader(HeaderOf(l)), NodeBlocks(l.recs), l.slots - |l.recs|, NODE_LEN,
            EncodeHeader(HeaderOf(l1)), node);
  }

  // ---- the same updates, as arithmetic on the fields in memory ----

  lemma SlotOffset(l: Log, i: nat)
    requires Inv(l) && HEADER_LEN + i * NODE_LEN <= INT_MAX
    ensures Wrap32(HEADER_LEN + i * NODE_LEN) == HEADER_LEN + i * NODE_LEN
    ensures Wrap32(|l.recs|) == |l.recs| && Wrap32(|l.recs| + 1) == |l.recs| + 1
    ensures l.recs != [] ==> Wrap32(|l.recs| - 1) == |l.recs| - 1
  {
    hide LittleEndian, Wrap32;
    var n := |l.recs|;
    assert n + 1 < 0x1_0000_0000;
    WrapSmall(HEADER_LEN + i * NODE_LEN);
    WrapSmall(n);
    WrapSmall(n + 1);
    if n > 0 {
      WrapSmall(n - 1);
    }
  }

  lemma PushFields(l: Log)
    requires Inv(l) && !l.open && Room(l)
    ensures var l1, h := NewRecord(l), HeaderOf(l);
            && Wrap32(HEADER_LEN + h.nodenum * NODE_LEN) == HEADER_LEN + |l.recs| * NODE_LEN
            && NextIndex(l) == (if h.nodenum == 0 then 0 else h.nodeindexStop + 1) < INT_MAX
            && HeaderOf(l1) == if h.nodenum == 0
                               then h.(nodeindexStart := 0, nodeindexStop := 0, nodenum := 1)
                               else h.(nodeindexStop := h.nodeindexStop + 1, nodenum := Wrap32(h.nodenum + 1))
  {
    hide LittleEndian, Wrap32;
    SlotOffset(l, |l.recs|);
    SumLenSnoc(l.recs, Last(NewRecord(l)));
  }

  /** The parts of a new record: its node, its name, its length, the directory and counter. */
  lemma PushParts(l: Log)
    requires Inv(l) && !l.open && Room(l)
    ensures var l1, stamp := NewRecord(l), FirstFree(l.files.Keys, l.clock);
            && stamp <= INT_MAX && l1.recs != [] && Storable(Last(l1))
            && |Decimal(DATE)| < 32 && |Decimal(stamp)| < 32 && |Name(stamp)| < MAX_PATH
            && NodeOf(Last(l1)) == NodeWith(NextIndex(l), 0, Decimal(DATE), Decimal(stamp), Name(stamp))
            && OpenName(l1) == Name(stamp) && OpenLength(l1) == 0
            && l1.files == l.files[Name(stamp) := []] && l1.clock == stamp && l1.capacity == l.capacity
  {
    hide LittleEndian, Wrap32;
    WrapSmall(0);
    NameFits(FirstFree(l.files.Keys, l.clock));
  }

  lemma PopFields(l: Log)
    requires Inv(l) && l.recs != [] && (l.open ==> |l.recs| >= 2)
    ensures var l1, h := PopFront(l), HeaderOf(l);
            HeaderOf(l1) == h.(nodenum := |l.recs| - 1, nodeindexStart := h.nodeindexStart + 1,
                               currentLength := Wrap32(h.currentLength - l.recs[0].len))
  {
    hide LittleEndian, Wrap32;
    assert SumLen(l.recs) == l.recs[0].len + SumLen(PopFront(l).recs);
    WrapAdd(SumLen(l.recs), -(l.recs[0].len as int));
  }

  lemma CloseFields(l: Log)
    requires Inv(l) && l.open
    ensures var l1, h := Closed(l), HeaderOf(l);
            HeaderOf(l1) == h.(currentLength := Wrap32(h.currentLength + OpenLength(l)))
    ensures NodeOf(Last(Closed(l))) == NodeOf(Last(l)).(datalen := OpenLength(l))
  {
    hide LittleEndian, Wrap32;
    ClosedSum(l);
    WrapAdd(SumLen(l.recs), OpenLength(l));
  }

  lemma CreatedOnDisk(capacity: u32, files: map<seq<byte>, seq<byte>>, clock: nat)
    ensures var l := Created(capacity, files, clock);
            var h := Header(capacity, 0, 0, NODE_LEN, -1, -1, Zeros(HEADER_LEN - 24));
            HeaderOf(l) == h && EncodeIndex(l) == Overwrite([], 0, EncodeHeader(h))
  {
    hide LittleEndian;
    var l := Created(capacity, files, clock);
    assert EncodeIndex(l) == EncodeHeader(HeaderOf(l)) + Joined([]) + Zeros(0 * NODE_LEN);
  }

  /** Data bytes leave the index file alone. */
  lemma WrittenFields(l: Log, data: seq<byte>)
    requires Inv(l) && l.open
    ensures var l1 := Written(l, data);
            && OpenName(l1) == OpenName(l) && Last(l1) == Last(l)
            && OpenLength(l1) == Wrap32(OpenLength(l) + |data|)
            && HeaderOf(l1) == HeaderOf(l) && EncodeIndex(l1) == EncodeIndex(l)
  {
    hide LittleEndian, Wrap32;
    WrapAdd(|l.files[OpenName(l)]|, |data|);
  }

  /** Neither does reopening. */
  lemma ReopenedFields(l: Log, clock: nat)
    requires Inv(l)
    ensures HeaderOf(Reopened(l, clock)) == HeaderOf(l)
    ensures EncodeIndex(Reopened(l, clock)) == EncodeIndex(l)
  {
    hide LittleEndian, Wrap32;
  }
}
