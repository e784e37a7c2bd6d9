/** CFilesys_mgr: the manager of the index file and the data files. */
module FilesysMgr {
  import opened Bytes
  import opened Layout
  import opened Names
  import opened Files
  import opened RecordLog
  import opened IndexFile
  import opened SlotFile
  import opened Reporting

  const SECTOR_SIZE := 1
  const SECTORS := 1024 * 1024 * 256

  /** filemgr_handle; its stream is the file `name` of the directory. */
  class RecordHandle {
    var name: seq<byte>
    var date: seq<byte>
    var time: seq<byte>
    var length: u32

    constructor ()
    {
      name, date, time, length := [], [], [], 0;
    }
  }

  class Manager {
    var header: Header
    var capacity: u32
    const index: File
    const disk: Disk
    const times: TimeSource
    var handle: RecordHandle?
    var node: Node

    /** The queue that the fields and the files stand for. */
    ghost var log: Log

    /** Header fields, index file, directory and name counter all show the same queue. */
    ghost predicate Consistent()
      reads this, index, disk, times
    {
      && Inv(log)
      && index.data == EncodeIndex(log)
      && header == HeaderOf(log)
      && capacity == log.capacity
      && disk.files == log.files
      && times.y == log.clock
    }

    ghost predicate Valid()
      reads this, index, disk, times, handle
    {
      && Consistent()
      && (handle != null <==> log.open)
      && (handle != null ==>
            && handle.name == OpenName(log)
            && handle.length == OpenLength(log)
            && node == NodeOf(Last(log)))
    }

    /** An existing index file is the one that some earlier queue `prior` left behind. */
    constructor (existing: File?, deviceSize: u32, disk: Disk, times: TimeSource, ghost prior: Log)
      requires existing != null ==>
                 Inv(prior) && existing.data == EncodeIndex(prior) && disk.files == prior.files
      modifies existing
      ensures Valid()
      ensures this.disk == disk && this.times == times
      ensures existing != null ==> index == existing && log == Reopened(prior, times.y)
      ensures existing == null ==>
                fresh(index) &&
                log == Created(if deviceSize < 0x1000_0000 then deviceSize else 0x1000_0000, disk.files, times.y)
      ensures disk.files == old(disk.files) && times.y == old(times.y)
    {
      hide LittleEndian, Wrap32, EncodeHeader, EncodeNode, EncodeIndex, Overwrite;
      hide CString, StrCpy, Decimal, SumLen;
      this.disk, this.times := disk, times;
      handle := null;
      node := Node(0, 0, 0, Zeros(32), Zeros(32), Zeros(MAX_PATH), 0, Zeros(NODE_LEN - 16 - 64 - MAX_PATH));
      var file, hdr, cap;
      if existing != null {
        file := existing;
        file.Seek(0);
        var bytes := file.Read(HEADER_LEN);
        IndexRoundTrip(prior);
        assert bytes == EncodeIndex(prior)[..HEADER_LEN];
        hdr := DecodeHeader(bytes);
        cap := hdr.deviceCapacity;
        ReopenedFields(prior, times.y);
        log := Reopened(prior, times.y);
      } else {
        file := new File([]);
        cap := SECTOR_SIZE * SECTORS;
        if deviceSize < cap {
          cap := deviceSize;
        }
        hdr := Header(cap, 0, 0, NODE_LEN, -1, -1, Zeros(HEADER_LEN - 24));
        file.Write(EncodeHeader(hdr));
        CreatedOnDisk(cap, disk.files, times.y);
        log := Created(cap, disk.files, times.y);
      }
      index, header, capacity := file, hdr, cap;
    }

    /** The name part of new_record_handle: count up until the name is free. */
    method PickName(h: RecordHandle)
      requires times.y + |Ahead(disk.files.Keys, times.y)| < INT_MAX
      modifies h, times
      ensures times.y == FirstFree(disk.files.Keys, old(times.y)) <= INT_MAX
      ensures h.date == Decimal(DATE) && h.time == Decimal(times.y) && h.name == Name(times.y)
    {
      hide Decimal, FileName, Ahead, FirstFree;
      ghost var names := disk.files.Keys;
      TriesStep(names, times.y);
      h.date, h.time := times.GetTime();
      h.name := FileName(h.date, h.time);
      while disk.Exists(h.name)
        invariant h.date == Decimal(DATE) && h.time == Decimal(times.y) && h.name == Name(times.y)
        invariant old(times.y) < times.y <= INT_MAX
        invariant forall k :: old(times.y) < k < times.y ==> Name(k) in names
        invariant times.y + Tries(names, times.y) == old(times.y) + 1 + |Ahead(names, old(times.y))|
        decreases Tries(names, times.y)
      {
        TriesStep(names, times.y);
        h.date, h.time := times.GetTime();
        h.name := FileName(h.date, h.time);
      }
      FirstFreeUnique(names, old(times.y), times.y);
    }

    method NewRecordHandle()
      requires Valid() && handle == null && Room(log)
      modifies this, index, disk, times
      ensures Valid() && fresh(handle)
      ensures log == NewRecord(old(log))
    {
      hide LittleEndian, Wrap32, EncodeHeader, EncodeNode, EncodeIndex, Overwrite, Decimal, StrCpy;
      hide CString, SumLen, Ahead, NodeOf, NodeWith, Inv, FirstFree;
      hide NewRecord, HeaderOf, OpenName, OpenLength, Last, Name;
      ghost var l := NewRecord(log);
      PushParts(log);
      var h := new RecordHandle();
      var pos := Wrap32(HEADER_LEN + header.nodenum * NODE_LEN);
      index.Seek(pos);
      PickName(h);
      disk.Create(h.name);
      h.length := 0;
      EnterRecord(h, pos);
      handle := h;
      log := l;
    }

    /** The part behind the creation of the file: node and header, in memory and on disk. */
    method EnterRecord(h: RecordHandle, pos: nat)
      requires Inv(log) && !log.open && Room(log)
      requires index.data == EncodeIndex(log) && header == HeaderOf(log)
      requires pos == Wrap32(HEADER_LEN + header.nodenum * NODE_LEN)
      requires h.date == Decimal(DATE) && h.time == Decimal(FirstFree(log.files.Keys, log.clock))
      requires h.name == Name(FirstFree(log.files.Keys, log.clock)) && h.length == 0
      modifies `node, `header, index
      ensures index.data == EncodeIndex(NewRecord(log)) && header == HeaderOf(NewRecord(log))
      ensures NewRecord(log).recs != [] && node == NodeOf(Last(NewRecord(log)))
    {
      hide LittleEndian, Wrap32, EncodeHeader, EncodeNode, EncodeIndex, Overwrite, Decimal, StrCpy;
      hide CString, SumLen, Ahead, NodeOf, NodeWith, FirstFree;
      hide NewRecord, HeaderOf, OpenName, OpenLength, Last, Name;
      PushFields(log);
      PushParts(log);
      PushOnDisk(log);
      var number := if header.nodenum == 0 then 0 else header.nodeindexStop + 1;
      node := NodeWith(number, h.length, h.date, h.time, h.name);
      if header.nodenum == 0 {
        header := header.(nodeindexStart := 0, nodeindexStop := 0, nodenum := 1);
      } else {
        header := header.(nodeindexStop := header.nodeindexStop + 1, nodenum := Wrap32(header.nodenum + 1));
      }
      WriteNodeAndHeader(pos);
    }

    method Submit(data: seq<byte>) returns (nbytes: i32)
      requires Valid() && Room(log) && |data| < 0x1_0000_0000
      modifies this, index, disk, times, handle
      ensures Valid() && (handle == null || handle == old(handle) || fresh(handle))
      ensures log == Submitted(old(log), data)
      ensures |data| <= INT_MAX ==> nbytes == |data|
      ensures |data| > INT_MAX ==> nbytes == |data| - 0x1_0000_0000
    {
      hide LittleEndian, Wrap32, EncodeHeader, EncodeNode, EncodeIndex, Overwrite;
      hide CString, StrCpy, Decimal, SumLen, Released, NewRecord, Closed, PopFront, Name, Ahead;
      if handle == null {
        NewRecordHandle();
      }
      ghost var l := Written(log, data);
      WrittenFields(log, data);
      disk.Append(handle.name, data);
      handle.length := Wrap32(handle.length + |data|);
      log := l;
      if handle.length >= UNIT_LEN {
        var _ := Release(handle);
        handle := null;
      }
      return Signed(|data|);
    }

    /** With an open record only: append has a slot to write to. */
    method Release(h: RecordHandle) returns (ret: int)
      requires Valid() && h == handle
      modifies this, index, disk
      ensures Consistent() && handle == h && ret == 0
      ensures log == Released(old(log))
    {
      hide LittleEndian, Wrap32, EncodeHeader, EncodeNode, EncodeIndex, Overwrite;
      if header.currentLength > header.deviceCapacity {
        OverfullHasClosed(log);
        var _ := RemoveFirst();
      }
      var _ := Append(h);
      return 0;
    }

    /** Called with a record to remove in front of the open one, if there is an open one. */
    method RemoveFirst() returns (ret: int)
      requires Valid() && log.recs != [] && (log.open ==> |log.recs| >= 2)
      modifies this, index, disk
      ensures Valid() && handle == old(handle)
      ensures log == PopFront(old(log)) && ret == NODE_LEN
    {
      hide LittleEndian, Wrap32, EncodeHeader, EncodeNode, EncodeIndex, Overwrite;
      hide CString, StrCpy, Decimal, CutOut, SumLen;
      ghost var l := PopFront(log);
      PopFields(log);
      PopOnDisk(log);
      if log.open {
        OpenSurvives(log);
      }
      SlotOffset(log, 0);
      index.Seek(HEADER_LEN);
      var rec := ReadNode(0);
      ret := RemoveContent(index, 0, NODE_LEN, NODE_LEN);
      if ret != NODE_LEN {
        return -1;
      }
      NodeStrings(log.recs[0]);
      disk.Remove(CString(rec.dataFile));
      header := header.(nodenum := Wrap32(header.nodenum - 1), nodeindexStart := header.nodeindexStart + 1,
                        currentLength := Wrap32(header.currentLength - rec.datalen));
      index.Seek(0);
      index.Write(EncodeHeader(header));
      log := l;
      return NODE_LEN;
    }

    method Append(h: RecordHandle) returns (nbytes: int)
      requires Valid() && h == handle
      modifies this, index
      ensures Consistent() && handle == h
      ensures log == Closed(old(log)) && nbytes == NODE_LEN
    {
      hide LittleEndian, Wrap32, EncodeHeader, EncodeNode, EncodeIndex, Overwrite;
      hide CString, StrCpy, Decimal, SumLen;
      ghost var l := Closed(log);
      SlotOffset(log, |log.recs| - 1);
      CloseFields(log);
      CloseOnDisk(log);
      var pos := Wrap32(HEADER_LEN + Wrap32(header.nodenum - 1) * NODE_LEN);
      index.Seek(pos);
      node := node.(datalen := h.length);
      header := header.(currentLength := Wrap32(header.currentLength + h.length));
      WriteNodeAndHeader(pos);
      assert node == NodeOf(Last(l));
      assert header == HeaderOf(l);
      assert index.data == EncodeIndex(l);
      log := l;
      return NODE_LEN;
    }

    /** The `fread` of one node, with the stream at a live slot. */
    method ReadNode(ghost i: nat) returns (rec: Node)
      requires Consistent() && i < |log.recs| && index.pos == HEADER_LEN + i * NODE_LEN
      modifies index`pos
      ensures rec == NodeOf(log.recs[i])
      ensures index.pos == HEADER_LEN + (i + 1) * NODE_LEN
    {
      hide LittleEndian, Wrap32, EncodeHeader, EncodeNode, EncodeIndex, Overwrite;
      var bytes := index.Read(NODE_LEN);
      SlotBytes(log, i);
      NodeRoundTrip(NodeOf(log.recs[i]));
      rec := DecodeNode(bytes);
    }

    /** The tail that append and new_record_handle share. */
    method WriteNodeAndHeader(pos: nat)
      modifies index
      ensures index.data == Overwrite(Overwrite(old(index.data), pos, EncodeNode(node)), 0, EncodeHeader(header))
    {
      hide LittleEndian, Wrap32, EncodeHeader, EncodeNode, EncodeIndex, Overwrite;
      index.Seek(pos);
      index.Write(EncodeNode(node));
      index.Seek(0);
      index.Write(EncodeHeader(header));
    }

    /** `fd` is null for a negative descriptor. Lines go out oldest record first; the result
    is the length of the lines that went out whole, or -1 if not even the first one did. */
    method Report(fd: Sink?) returns (len: int)
      requires Valid()
      modifies index`pos, fd
      ensures Valid()
      ensures fd == null ==> len == -1
      ensures fd != null ==> fd.out == old(fd.out) + Cut(Joined(Lines(log)), old(fd.room))
      ensures fd != null ==> len == Reported(Lines(log), old(fd.room))
    {
      hide LittleEndian, Wrap32, EncodeHeader, EncodeNode, EncodeIndex, Overwrite;
      hide CString, StrCpy, Decimal, SumLen;
      hide Lines, HeaderLine, NodeLine, Joined, Cut, Reported, NodeOf;
      if fd == null {
        return -1;
      }
      ghost var lines := Lines(log);
      ghost var out, room := fd.out, fd.room;
      LinesAt(log, 0);
      NextLine(lines, 0);
      assert Joined(lines[..0]) == [] by { EmptyText(lines); }
      var line := HeaderLine(header);
      len := fd.Write(line);
      if len != |line| {
        StopsAt(lines, 0, room);
        return -1;
      }
      if header.nodenum == 0 {
        assert lines[..1] == lines;
        AllFit(lines, room);
        return len;
      }
      index.Seek(HEADER_LEN);
      var i: int := header.nodeindexStart;
      ghost var done := 0;
      while i <= header.nodeindexStop
        invariant 0 <= done <= |log.recs| && i == header.nodeindexStart + done
        invariant Consistent()
        invariant index.pos == HEADER_LEN + done * NODE_LEN
        invariant len == |Joined(lines[..done + 1])| <= room
        invariant fd.out == out + Joined(lines[..done + 1]) && fd.room == room - len
      {
        var node := ReadNode(done);
        line := NodeLine(node);
        LinesAt(log, done);
        NextLine(lines, done + 1);
        var nwrite := fd.Write(line);
        if nwrite != |line| {
          StopsAt(lines, done + 1, room);
          return len;
        }
        len := len + nwrite;
        i, done := i + 1, done + 1;
      }
      assert lines[..done + 1] == lines;
      AllFit(lines, room);
    }
  }
}
