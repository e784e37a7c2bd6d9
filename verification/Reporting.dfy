/** The text that `report` writes: one line for the header, one for every live record. */
module Reporting {
  import opened Bytes
  import opened Layout
  import opened Names
  import opened Options
  import opened Scanf
  import opened RecordLog
  import opened IndexFile
  import opened SlotFile

  /** A file descriptor that takes `room` more bytes and then comes up short. */
  class Sink {
    var out: seq<byte>
    var room: nat

    constructor (room: nat)
      ensures out == [] && this.room == room
    {
      out, this.room := [], room;
    }

    method Write(b: seq<byte>) returns (n: nat)
      modifies this
      ensures n == |Cut(b, old(room))|
      ensures out == old(out) + Cut(b, old(room)) && room == old(room) - n
    {
      n := if |b| <= room then |b| else room;
      out, room := out + b[..n], room - n;
    }
  }

  /** At most `room` bytes of `b`. */
  function Cut(b: seq<byte>, room: nat): (r: seq<byte>)
    ensures |r| <= room && r <= b
    ensures |b| <= room ==> r == b
    ensures |b| > room ==> |r| == room
  {
    if |b| <= room then b else b[..room]
  }

  function HeaderLine(h: Header): seq<byte> {
    Ascii("Filesys cap:0x") + (Hex(h.deviceCapacity) + (Ascii(" datalen:0x") + (Hex(h.currentLength)
    + (Ascii(" recNum:0x") + (Hex(h.nodenum) + (Ascii(" nodelen:0x") + (Hex(Unsigned(h.nodeindexStart))
    + (Ascii("-0x") + (Hex(Unsigned(h.nodeindexStop)) + Ascii("\n\0"))))))))))
  }

  function NodeLine(n: Node): seq<byte> {
    FileLine(CString(n.time), CString(n.dataFile), n.datalen)
  }

  function FileLine(time: seq<byte>, file: seq<byte>, datalen: u32): seq<byte> {
    time + (Ascii(":\t file:") + (file + (Ascii(" \t data length:0x") + (Hex(datalen) + Ascii("\n\0")))))
  }

  /** The line of a record, from what the queue knows about it. */
  function RecordLine(r: Rec): seq<byte> {
    FileLine(Decimal(r.stamp), Name(r.stamp), r.len)
  }

  /** What a reader finds in the header line, under which label. */
  lemma HeaderLineReads(h: Header)
    ensures Scanned(HeaderLine(h),
                    Text(Ascii("Filesys cap:0x"), Hexa(Text(Ascii(" datalen:0x"), Hexa(
                    Text(Ascii(" recNum:0x"), Hexa(Text(Ascii(" nodelen:0x"), Hexa(
                    Text(Ascii("-0x"), Hexa(Text(Ascii("\n\0"), End))))))))))))
         == Some([Num(h.deviceCapacity), Num(h.currentLength), Num(h.nodenum),
                  Num(h.nodeindexStart % 0x1_0000_0000), Num(h.nodeindexStop % 0x1_0000_0000)])
  {
    hide Hex, Scanned;
    LastText(Ascii("\n\0"));
    var f5 := Text(Ascii("\n\0"), End);
    var f4, s4 := Text(Ascii("-0x"), Hexa(f5)), Ascii("-0x") + (Hex(Unsigned(h.nodeindexStop)) + Ascii("\n\0"));
    var v4 := [Num(Unsigned(h.nodeindexStop))] + [];
    ReadField(Ascii("-0x"), Unsigned(h.nodeindexStop), Ascii("\n\0"), f5, []);
    var f3, s3 := Text(Ascii(" nodelen:0x"), Hexa(f4)), Ascii(" nodelen:0x") + (Hex(Unsigned(h.nodeindexStart)) + s4);
    var v3 := [Num(Unsigned(h.nodeindexStart))] + v4;
    ReadField(Ascii(" nodelen:0x"), Unsigned(h.nodeindexStart), s4, f4, v4);
    var f2, s2 := Text(Ascii(" recNum:0x"), Hexa(f3)), Ascii(" recNum:0x") + (Hex(h.nodenum) + s3);
    var v2 := [Num(h.nodenum)] + v3;
    ReadField(Ascii(" recNum:0x"), h.nodenum, s3, f3, v3);
    var f1, s1 := Text(Ascii(" datalen:0x"), Hexa(f2)), Ascii(" datalen:0x") + (Hex(h.currentLength) + s2);
    var v1 := [Num(h.currentLength)] + v2;
    ReadField(Ascii(" datalen:0x"), h.currentLength, s2, f2, v2);
    ReadField(Ascii("Filesys cap:0x"), h.deviceCapacity, s1, f1, v1);
    assert [Num(h.deviceCapacity)] + v1
        == [Num(h.deviceCapacity), Num(h.currentLength), Num(h.nodenum),
            Num(h.nodeindexStart % 0x1_0000_0000), Num(h.nodeindexStop % 0x1_0000_0000)];
  }

  lemma LastText(text: seq<byte>)
    ensures Scanned(text, Text(text, End)) == Some([])
  {
    ReadEnd();
    ReadText(text, [], End, []);
    assert text + [] == text;
  }

  lemma ReadField(text: seq<byte>, n: u32, s: seq<byte>, rest: Format, args: seq<Arg>)
    requires Scanned(s, rest) == Some(args)
    requires s != [] && !Scanf.IsDigit(s[0], 16)
    ensures Scanned(text + (Hex(n) + s), Text(text, Hexa(rest))) == Some([Num(n)] + args)
  {
    hide Hex, Scanned;
    ReadHex(n, s, rest, args);
    ReadText(text, Hex(n) + s, Hexa(rest), [Num(n)] + args);
  }

  /** What a reader finds in the line of a record: the time is the counter in digits, the file
  name reads as `NameReads` says. */
  lemma RecordLineReads(r: Rec)
    ensures Scanned(RecordLine(r),
                    Dec(Text(Ascii(":\t file:"), Str(Text(Ascii(" \t data length:0x"), Hexa(
                    Text(Ascii("\n\0"), End)))))))
         == Some([Num(r.stamp), Chars(Name(r.stamp)), Num(r.len)])
  {
    hide Hex, Decimal, Scanned, Name;
    LastText(Ascii("\n\0"));
    var f3 := Text(Ascii("\n\0"), End);
    var f2, s2 := Text(Ascii(" \t data length:0x"), Hexa(f3)),
                  Ascii(" \t data length:0x") + (Hex(r.len) + Ascii("\n\0"));
    ReadField(Ascii(" \t data length:0x"), r.len, Ascii("\n\0"), f3, []);
    var v2 := [Num(r.len)] + [];
    NameHasNoBlank(r.stamp);
    ReadStr(Name(r.stamp), s2, f2, v2);
    var v1 := [Chars(Name(r.stamp))] + v2;
    var s1 := Ascii(":\t file:") + (Name(r.stamp) + s2);
    ReadText(Ascii(":\t file:"), Name(r.stamp) + s2, Str(f2), v1);
    ReadDec(r.stamp, s1, Text(Ascii(":\t file:"), Str(f2)), v1);
    assert [Num(r.stamp)] + v1 == [Num(r.stamp), Chars(Name(r.stamp)), Num(r.len)];
  }

  lemma NameHasNoBlank(stamp: nat)
    ensures ' ' as int !in Name(stamp)
  {
    hide Decimal;
  }

  lemma NodeLineOfRecord(r: Rec)
    requires Storable(r)
    ensures NodeLine(NodeOf(r)) == RecordLine(r)
  {
    NodeStrings(r);
  }

  function Lines(l: Log): (lines: seq<seq<byte>>)
    requires |l.recs| < 0x1_0000_0000
    ensures |lines| == |l.recs| + 1
  {
    [HeaderLine(HeaderOf(l))] + seq(|l.recs|, i requires 0 <= i < |l.recs| => RecordLine(l.recs[i]))
  }

  /** How many lines, from the first, fit whole into `room` bytes. */
  function Fitting(lines: seq<seq<byte>>, room: nat): (k: nat)
    ensures k <= |lines|
  {
    if lines == [] || |lines[0]| > room then 0 else 1 + Fitting(lines[1..], room - |lines[0]|)
  }

  /** What report returns: the length of the whole lines, or -1 if there are none. */
  function Reported(lines: seq<seq<byte>>, room: nat): int {
    var whole := Fitting(lines, room);
    if whole == 0 then -1 else |Joined(lines[..whole])|
  }

  /** The first line of a report reads as the capacity, the total, the count and the two ends
  of the queue. */
  lemma ReportHeaderReads(l: Log)
    requires |l.recs| < 0x1_0000_0000
    ensures Scanned(Lines(l)[0],
                    Text(Ascii("Filesys cap:0x"), Hexa(Text(Ascii(" datalen:0x"), Hexa(
                    Text(Ascii(" recNum:0x"), Hexa(Text(Ascii(" nodelen:0x"), Hexa(
                    Text(Ascii("-0x"), Hexa(Text(Ascii("\n\0"), End))))))))))))
         == Some([Num(l.capacity), Num(SumLen(l.recs) % 0x1_0000_0000), Num(|l.recs|),
                  Num(l.start % 0x1_0000_0000), Num(l.stop % 0x1_0000_0000)])
  {
    hide Scanned, HeaderLine, RecordLine, Name, SumLen;
    HeaderLineReads(HeaderOf(l));
  }

  /** Line i + 1 reads as the counter, the name and the length of record i. */
  lemma ReportLineReads(l: Log, i: nat)
    requires i < |l.recs| < 0x1_0000_0000
    ensures Scanned(Lines(l)[i + 1],
                    Dec(Text(Ascii(":\t file:"), Str(Text(Ascii(" \t data length:0x"), Hexa(
                    Text(Ascii("\n\0"), End)))))))
         == Some([Num(l.recs[i].stamp), Chars(Name(l.recs[i].stamp)), Num(l.recs[i].len)])
  {
    hide Scanned, HeaderLine, RecordLine, Name;
    RecordLineReads(l.recs[i]);
  }

  lemma LinesAt(l: Log, i: nat)
    requires Inv(l)
    ensures Lines(l)[0] == HeaderLine(HeaderOf(l))
    ensures i < |l.recs| ==> Lines(l)[i + 1] == NodeLine(NodeOf(l.recs[i]))
  {
    hide LittleEndian, Wrap32, HeaderLine;
    if i < |l.recs| {
      NodeLineOfRecord(l.recs[i]);
    }
  }

  lemma EmptyText(lines: seq<seq<byte>>)
    ensures Joined(lines[..0]) == []
  {
  }

  lemma NextLine(lines: seq<seq<byte>>, k: nat)
    requires k < |lines|
    ensures Joined(lines[..k + 1]) == Joined(lines[..k]) + lines[k]
  {
    assert lines[..k + 1] == lines[..k] + [lines[k]];
    JoinedSplit(lines[..k], [lines[k]]);
    JoinedOne(lines[k]);
  }

  /** The first `k` lines fit and line `k` does not: the sink takes the text up to its last
  byte of room, and exactly the `k` lines count. */
  lemma StopsAt(lines: seq<seq<byte>>, k: nat, room: nat)
    requires k < |lines| && |Joined(lines[..k])| <= room < |Joined(lines[..k])| + |lines[k]|
    ensures Cut(Joined(lines), room) == Joined(lines[..k]) + Cut(lines[k], room - |Joined(lines[..k])|)
    ensures Reported(lines, room) == if k == 0 then -1 else |Joined(lines[..k])|
  {
    FittingPrefix(lines, k, room);
    assert lines == lines[..k] + ([lines[k]] + lines[k + 1..]);
    JoinedSplit(lines[..k], [lines[k]] + lines[k + 1..]);
    JoinedSplit([lines[k]], lines[k + 1..]);
    JoinedOne(lines[k]);
  }

  lemma {:induction false} FittingPrefix(lines: seq<seq<byte>>, k: nat, room: nat)
    requires k <= |lines| && |Joined(lines[..k])| <= room
    requires k < |lines| ==> |Joined(lines[..k])| + |lines[k]| > room
    ensures Fitting(lines, room) == k
  {
    if k > 0 {
      assert lines[..k][1..] == lines[1..][..k - 1];
      FittingPrefix(lines[1..], k - 1, room - |lines[0]|);
    }
  }

  lemma AllFit(lines: seq<seq<byte>>, room: nat)
    requires lines != [] && |Joined(lines)| <= room
    ensures Reported(lines, room) == |Joined(lines)|
  {
    assert lines[..|lines|] == lines;
    FittingPrefix(lines, |lines|, room);
  }
}
