/** Stdio streams, the directory of data files, and deletion inside a file. */
module Files {
  import opened Bytes

  /** What a write of `chunk` at offset `pos` leaves: a hole reads as zeros. */
  function Overwrite(data: seq<byte>, pos: nat, chunk: seq<byte>): (r: seq<byte>)
    ensures pos + |chunk| <= |data| ==> |r| == |data|
  {
    if chunk == [] then data
    else if pos > |data| then data + Zeros(pos - |data|) + chunk
    else data[..pos] + chunk + (if pos + |chunk| <= |data| then data[pos + |chunk|..] else [])
  }

  /** Every byte of the file after a write: the chunk at its place, zeros in a hole before it. */
  lemma OverwriteAt(data: seq<byte>, pos: nat, chunk: seq<byte>, i: nat)
    requires chunk != []
    ensures |Overwrite(data, pos, chunk)| == if pos + |chunk| > |data| then pos + |chunk| else |data|
    ensures var r := Overwrite(data, pos, chunk);
            i < |r| ==> r[i] == if pos <= i < pos + |chunk| then chunk[i - pos] else if i < |data| then data[i] else 0
  {
  }

  /** Overwriting one part of a file leaves the parts around it alone. */
  lemma OverwritePart(before: seq<byte>, part: seq<byte>, after: seq<byte>, chunk: seq<byte>)
    requires |chunk| == |part| || (after == [] && |chunk| >= |part|)
    ensures Overwrite(before + part + after, |before|, chunk) == before + chunk + after
  {
  }

  /** What a read of `n` bytes at offset `pos` returns: less at the end, nothing past it. */
  function Window(data: seq<byte>, pos: nat, n: nat): (chunk: seq<byte>)
    ensures |chunk| <= n
    ensures pos + n <= |data| ==> chunk == data[pos..pos + n]
    ensures pos <= |data| < pos + n ==> chunk == data[pos..]
    ensures pos > |data| ==> chunk == []
  {
    if pos + n <= |data| then data[pos..pos + n] else if pos <= |data| then data[pos..] else []
  }

  /** A file opened for update (`FILE *`), assuming that reads and writes are complete. */
  class File {
    var data: seq<byte>
    var pos: nat

    constructor (data: seq<byte>)
      ensures this.data == data && pos == 0
    {
      this.data, pos := data, 0;
    }

    method Seek(p: nat)
      modifies `pos
      ensures pos == p
    {
      pos := p;
    }

    method Read(n: nat) returns (chunk: seq<byte>)
      modifies `pos
      ensures chunk == Window(data, old(pos), n)
      ensures pos == old(pos) + |chunk|
    {
      chunk := Window(data, pos, n);
      pos := pos + |chunk|;
    }

    method Write(chunk: seq<byte>)
      modifies this
      ensures data == Overwrite(old(data), old(pos), chunk)
      ensures pos == old(pos) + |chunk|
    {
      data := Overwrite(data, pos, chunk);
      pos := pos + |chunk|;
    }
  }

  /** A file with `n` bytes cut out at `offset`, its length kept up by zeros at the end.
  When the cut would run past the end, nothing moves and only the zeros are written. */
  function CutOut(data: seq<byte>, offset: nat, n: nat): (r: seq<byte>)
    requires n <= |data|
    ensures |r| == |data|
  {
    (if offset + n <= |data| then data[..offset] + data[offset + n..] else data[..|data| - n]) + Zeros(n)
  }

  /** remove_content: `total` is the length of the file, or 0 to look it up. The block
  size is the number of bytes to remove, so source and target of a copy never overlap. */
  method RemoveContent(fp: File, total: nat, offset: nat, rmlen: nat) returns (ret: int)
    requires rmlen <= |fp.data|
    requires total == 0 || total == |fp.data|
    modifies fp
    ensures rmlen == 0 ==> ret == -1 && fp.data == old(fp.data)
    ensures rmlen != 0 ==> ret == rmlen && fp.data == CutOut(old(fp.data), offset, rmlen)
  {
    hide Overwrite, CutOut, Window, Moved;
    if rmlen == 0 {
      return -1;
    }
    var length := total;
    if length == 0 {
      length := |fp.data|;
    }
    var offsetRead, offsetWrite, nbytes := offset + rmlen, offset, rmlen;
    ghost var was := fp.data;
    ghost var fits := offset + rmlen <= |was|;
    if fits {
      MovedStart(was, offset, rmlen);
    }
    while nbytes == rmlen
      invariant offset <= offsetWrite && offsetRead == offsetWrite + rmlen
      invariant if fits
                then offsetRead <= |was| && fp.data == Moved(was, offset, rmlen, offsetWrite)
                else fp.data == was && offsetWrite == offset
      invariant nbytes != rmlen ==> offsetRead >= |was|
      decreases |was| - offsetWrite, if nbytes == rmlen then 1 else 0
    {
      fp.Seek(offsetRead);
      var transit := fp.Read(rmlen);
      nbytes := |transit|;
      if fits {
        CopyBlock(was, offset, rmlen, offsetWrite, transit);
      }
      OverwriteNothing(fp.data, offsetWrite);
      fp.Seek(offsetWrite);
      fp.Write(transit);
      offsetRead, offsetWrite := offsetRead + nbytes, offsetWrite + nbytes;
    }
    assert fits ==> offsetWrite == |was| - rmlen;
    ZeroTail(was, offset, rmlen, fp.data);
    fp.Seek(length - rmlen);
    fp.Write(Zeros(rmlen));
    return rmlen;
  }

  /** The file while the copy loop stands at `at`: everything between the cut and
  `at + n` has moved down by `n`; the rest has not been touched. */
  ghost function Moved(was: seq<byte>, offset: nat, n: nat, at: nat): (r: seq<byte>)
    requires offset <= at && at + n <= |was|
    ensures |r| == |was|
    ensures r[at..] == was[at..]
  {
    was[..offset] + was[offset + n..at + n] + was[at..]
  }

  lemma MovedStart(was: seq<byte>, offset: nat, n: nat)
    requires offset + n <= |was|
    ensures Moved(was, offset, n, offset) == was
  {
  }

  lemma OverwriteNothing(data: seq<byte>, pos: nat)
    ensures Overwrite(data, pos, []) == data
  {
  }

  /** One pass of the copy loop extends the part that has moved by one block. */
  lemma CopyBlock(was: seq<byte>, offset: nat, n: nat, at: nat, block: seq<byte>)
    requires 0 < n && offset <= at && at + n <= |was|
    requires block == Window(Moved(was, offset, n, at), at + n, n)
    ensures |block| <= n && at + n + |block| <= |was|
    ensures |block| < n ==> at + n + |block| == |was|
    ensures Overwrite(Moved(was, offset, n, at), at, block) == Moved(was, offset, n, at + |block|)
  {
    hide Overwrite, Window, Moved;
    var k := |block|;
    BlockRead(was, offset, n, at, block);
    MovedBefore(was, offset, n, at, k);
    MovedAfter(was, offset, n, at, k);
    OverwriteNext(was[..offset], was[offset + n..at + n], was[at..at + k], was[at + k..], block);
  }

  lemma MovedBefore(was: seq<byte>, offset: nat, n: nat, at: nat, k: nat)
    requires offset <= at && at + n + k <= |was|
    ensures Moved(was, offset, n, at) == was[..offset] + was[offset + n..at + n] + (was[at..at + k] + was[at + k..])
  {
    assert was[at..at + k] + was[at + k..] == was[at..];
  }

  lemma MovedAfter(was: seq<byte>, offset: nat, n: nat, at: nat, k: nat)
    requires offset <= at && at + n + k <= |was|
    ensures Moved(was, offset, n, at + k)
         == was[..offset] + (was[offset + n..at + n] + was[at + n..at + n + k]) + was[at + k..]
  {
    assert was[offset + n..at + n] + was[at + n..at + n + k] == was[offset + n..at + k + n];
  }

  /** The block is read from bytes that have not moved yet. */
  lemma BlockRead(was: seq<byte>, offset: nat, n: nat, at: nat, block: seq<byte>)
    requires 0 < n && offset <= at && at + n <= |was|
    requires block == Window(Moved(was, offset, n, at), at + n, n)
    ensures |block| <= n && at + n + |block| <= |was| && (|block| < n ==> at + n + |block| == |was|)
    ensures block == was[at + n..at + n + |block|]
  {
    hide Moved;
    var m := Moved(was, offset, n, at);
    assert block == m[at + n..at + n + |block|];
    forall i | 0 <= i < |block|
      ensures block[i] == was[at + n + i]
    {
      assert m[at..][n + i] == was[at..][n + i];
    }
  }

  lemma OverwriteNext(kept: seq<byte>, moved: seq<byte>, part: seq<byte>, after: seq<byte>, block: seq<byte>)
    requires |block| == |part|
    ensures Overwrite(kept + moved + (part + after), |kept| + |moved|, block) == kept + (moved + block) + after
  {
    hide Overwrite;
    assert kept + moved + (part + after) == (kept + moved) + part + after;
    OverwritePart(kept + moved, part, after, block);
    assert (kept + moved) + block + after == kept + (moved + block) + after;
  }

  /** Zeroing the tail completes the cut. */
  lemma ZeroTail(was: seq<byte>, offset: nat, n: nat, moved: seq<byte>)
    requires 0 < n <= |was|
    requires moved == if offset + n <= |was| then Moved(was, offset, n, |was| - n) else was
    ensures Overwrite(moved, |was| - n, Zeros(n)) == CutOut(was, offset, n)
  {
    assert moved == moved[..|was| - n] + moved[|was| - n..] + [];
    OverwritePart(moved[..|was| - n], moved[|was| - n..], [], Zeros(n));
  }

  /** The directory that holds the data files. */
  class Disk {
    var files: map<seq<byte>, seq<byte>>

    constructor (files: map<seq<byte>, seq<byte>>)
      ensures this.files == files
    {
      this.files := files;
    }

    /** `fopen(name, "rb")` finds the file. */
    predicate Exists(name: seq<byte>)
      reads this
    {
      name in files
    }

    /** `fopen(name, "wb")` */
    method Create(name: seq<byte>)
      modifies this
      ensures files == old(files)[name := []]
    {
      files := files[name := []];
    }

    /** `fwrite` on the stream of an open data file. */
    method Append(name: seq<byte>, chunk: seq<byte>)
      requires name in files
      modifies this
      ensures files == old(files)[name := old(files)[name] + chunk]
    {
      files := files[name := files[name] + chunk];
    }

    /** `rm -f name` */
    method Remove(name: seq<byte>)
      modifies this
      ensures files == old(files) - {name}
    {
      files := files - {name};
    }
  }
}
