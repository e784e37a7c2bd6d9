/** The two structures of the index file, as the bytes that `fwrite` puts on disk. */
module Layout {
  import opened Bytes

  const HEADER_LEN := 0x400
  const NODE_LEN := 0x200
  const MAX_PATH := 128

  type Char32 = s: seq<byte> | |s| == 32 witness Zeros(32)
  type CharPath = s: seq<byte> | |s| == MAX_PATH witness Zeros(MAX_PATH)
  type HeaderTail = s: seq<byte> | |s| == HEADER_LEN - 24 witness Zeros(HEADER_LEN - 24)
  type NodeTail = s: seq<byte> | |s| == NODE_LEN - 16 - 64 - MAX_PATH witness Zeros(NODE_LEN - 16 - 64 - MAX_PATH)

  /** filemgr_header */
  datatype Header = Header(
    deviceCapacity: u32, currentLength: u32, nodenum: u32, nodeitemLen: u32,
    nodeindexStart: i32, nodeindexStop: i32, reserved: HeaderTail)

  /** filemgr_node */
  datatype Node = Node(
    index: u32, datalen: u32, bitrate: u32, date: Char32, time: Char32,
    dataFile: CharPath, duration: u32, reserved: NodeTail)

  function EncodeHeader(h: Header): (b: seq<byte>)
    ensures |b| == HEADER_LEN
  {
    LittleEndian(h.deviceCapacity) + LittleEndian(h.currentLength) + LittleEndian(h.nodenum)
    + LittleEndian(h.nodeitemLen) + LittleEndian(Unsigned(h.nodeindexStart))
    + LittleEndian(Unsigned(h.nodeindexStop)) + h.reserved
  }

  function DecodeHeader(b: seq<byte>): Header
    requires |b| == HEADER_LEN
  {
    Header(Word(b[0..4]), Word(b[4..8]), Word(b[8..12]), Word(b[12..16]),
           Signed(Word(b[16..20])), Signed(Word(b[20..24])), b[24..])
  }

  function EncodeNode(n: Node): (b: seq<byte>)
    ensures |b| == NODE_LEN
  {
    LittleEndian(n.index) + LittleEndian(n.datalen) + LittleEndian(n.bitrate)
    + n.date + n.time + n.dataFile + LittleEndian(n.duration) + n.reserved
  }

  function DecodeNode(b: seq<byte>): Node
    requires |b| == NODE_LEN
  {
    Node(Word(b[0..4]), Word(b[4..8]), Word(b[8..12]), b[12..44], b[44..76],
         b[76..204], Word(b[204..208]), b[208..])
  }

  /** Where the fields of the header are. */
  lemma HeaderAt(h: Header)
    ensures var b := EncodeHeader(h);
            && |b| == 0x400
            && b[0..4] == LittleEndian(h.deviceCapacity) && b[4..8] == LittleEndian(h.currentLength)
            && b[8..12] == LittleEndian(h.nodenum) && b[12..16] == LittleEndian(h.nodeitemLen)
            && b[16..20] == LittleEndian(Unsigned(h.nodeindexStart))
            && b[20..24] == LittleEndian(Unsigned(h.nodeindexStop))
            && b[24..] == h.reserved
  {
    hide LittleEndian;
  }

  /** Where the fields of a node are. */
  lemma NodeAt(n: Node)
    ensures var b := EncodeNode(n);
            && |b| == 0x200
            && b[0..4] == LittleEndian(n.index) && b[4..8] == LittleEndian(n.datalen)
            && b[8..12] == LittleEndian(n.bitrate) && b[12..44] == n.date && b[44..76] == n.time
            && b[76..204] == n.dataFile && b[204..208] == LittleEndian(n.duration) && b[208..] == n.reserved
  {
    hide LittleEndian;
  }

  lemma HeaderRoundTrip(h: Header)
    ensures DecodeHeader(EncodeHeader(h)) == h
  {
    hide LittleEndian, Word, EncodeHeader;
    HeaderAt(h);
    WordRoundTrip(h.deviceCapacity);
    WordRoundTrip(h.currentLength);
    WordRoundTrip(h.nodenum);
    WordRoundTrip(h.nodeitemLen);
    WordRoundTrip(Unsigned(h.nodeindexStart));
    WordRoundTrip(Unsigned(h.nodeindexStop));
  }

  lemma NodeRoundTrip(n: Node)
    ensures DecodeNode(EncodeNode(n)) == n
  {
    hide LittleEndian, Word, EncodeNode;
    NodeAt(n);
    WordRoundTrip(n.index);
    WordRoundTrip(n.datalen);
    WordRoundTrip(n.bitrate);
    WordRoundTrip(n.duration);
  }

  /** Every 0x200 bytes are one node: nothing of a slot is lost by reading it. */
  lemma NodeBytesRoundTrip(b: seq<byte>)
    requires |b| == NODE_LEN
    ensures EncodeNode(DecodeNode(b)) == b
  {
    LittleEndianRoundTrip(b[0..4]);
    LittleEndianRoundTrip(b[4..8]);
    LittleEndianRoundTrip(b[8..12]);
    LittleEndianRoundTrip(b[204..208]);
    assert b == b[0..4] + b[4..8] + b[8..12] + b[12..44] + b[44..76] + b[76..204] + b[204..208] + b[208..];
  }
}
