/** A file of one header and equal slots, for any two lengths with the header at least as
long as a slot: the three ways in which the index file changes. */
module SlotFile {
  import opened Bytes
  import opened Files

  /** Slots of `n` bytes each. */
  ghost predicate Blocks(blocks: seq<seq<byte>>, n: nat) {
    forall i :: 0 <= i < |blocks| ==> |blocks[i]| == n
  }

  function Joined(blocks: seq<seq<byte>>): seq<byte> {
    if blocks == [] then [] else blocks[0] + Joined(blocks[1..])
  }

  lemma {:induction false} JoinedLength(blocks: seq<seq<byte>>, n: nat)
    requires Blocks(blocks, n)
    ensures |Joined(blocks)| == |blocks| * n
  {
    if blocks != [] {
      JoinedLength(blocks[1..], n);
      assert |blocks| * n == n + (|blocks| - 1) * n;
    }
  }

  lemma {:induction false} JoinedSplit(a: seq<seq<byte>>, b: seq<seq<byte>>)
    ensures Joined(a + b) == Joined(a) + Joined(b)
  {
    if a == [] {
      assert a + b == b;
    } else {
      assert (a + b)[1..] == a[1..] + b;
      JoinedSplit(a[1..], b);
    }
  }

  lemma JoinedOne(block: seq<byte>)
    ensures Joined([block]) == block
  {
    assert Joined([block]) == block + Joined([]);
  }

  /** The file: header, blocks in use, then `spare` slots of zeros. */
  function Packed(header: seq<byte>, blocks: seq<seq<byte>>, spare: nat, n: nat): seq<byte> {
    header + Joined(blocks) + Zeros(spare * n)
  }

  lemma PackedLength(header: seq<byte>, blocks: seq<seq<byte>>, spare: nat, n: nat)
    requires Blocks(blocks, n)
    ensures |Packed(header, blocks, spare, n)| == |header| + (|blocks| + spare) * n
  {
    JoinedLength(blocks, n);
    assert (|blocks| + spare) * n == |blocks| * n + spare * n;
  }

  /** The bytes at slot `i` are block `i`. */
  lemma PackedSlot(header: seq<byte>, blocks: seq<seq<byte>>, spare: nat, n: nat, i: nat)
    requires Blocks(blocks, n) && i < |blocks|
    ensures |header| + i * n + n <= |Packed(header, blocks, spare, n)|
    ensures Packed(header, blocks, spare, n)[|header| + i * n..|header| + i * n + n] == blocks[i]
  {
    var a, c := blocks[..i], blocks[i + 1..];
    assert blocks == a + ([blocks[i]] + c);
    JoinedSplit(a, [blocks[i]] + c);
    JoinedSplit([blocks[i]], c);
    JoinedOne(blocks[i]);
    JoinedLength(a, n);
    assert Packed(header, blocks, spare, n) == (header + Joined(a)) + blocks[i] + (Joined(c) + Zeros(spare * n));
  }

  /** The block shift of remove_first, for any header at least as long as a slot. The shift
  starts one slot length into the file, inside the header, so it drags the end of the
  header (and, for a long header, the removed block) down; rewriting the header in full
  covers exactly what is stale. */
  lemma ShiftOut(header: seq<byte>, first: seq<byte>, rest: seq<byte>, newHeader: seq<byte>)
    requires 0 < |first| <= |header| == |newHeader|
    ensures var n := |first|;
            Overwrite(CutOut(header + first + rest, n, n), 0, newHeader) == newHeader + rest + Zeros(n)
  {
    var n, h, file := |first|, |header|, header + first + rest;
    var cut := CutOut(file, n, n);
    assert cut == file[..n] + file[n + n..] + Zeros(n);
    assert cut[h..] == rest + Zeros(n) by {
      assert |file[..n] + file[n + n..]| == h + |rest|;
      assert (file[..n] + file[n + n..])[h..] == file[h + n..];
      assert file[h + n..] == rest;
    }
    assert Overwrite(cut, 0, newHeader) == newHeader + cut[h..];
    assert newHeader + (rest + Zeros(n)) == newHeader + rest + Zeros(n);
  }

  /** Cutting one slot at offset `n` and rewriting the header deletes exactly the oldest
  block and gives its slot back as zeros. */
  lemma Pop(header: seq<byte>, blocks: seq<seq<byte>>, spare: nat, n: nat, newHeader: seq<byte>)
    requires Blocks(blocks, n) && blocks != [] && 0 < n <= |header| == |newHeader|
    ensures n <= |Packed(header, blocks, spare, n)|
    ensures Overwrite(CutOut(Packed(header, blocks, spare, n), n, n), 0, newHeader)
         == Packed(newHeader, blocks[1..], spare + 1, n)
  {
    var rest := Joined(blocks[1..]) + Zeros(spare * n);
    assert Packed(header, blocks, spare, n) == header + blocks[0] + rest;
    ShiftOut(header, blocks[0], rest, newHeader);
    ZerosAdd(spare * n, n);
    assert spare * n + n == (spare + 1) * n;
    assert rest + Zeros(n) == Joined(blocks[1..]) + (Zeros(spare * n) + Zeros(n));
  }

  lemma RewriteHeader(header: seq<byte>, rest: seq<byte>, newHeader: seq<byte>)
    requires |newHeader| == |header|
    ensures Overwrite(header + rest, 0, newHeader) == newHeader + rest
  {
    var file := header + rest;
    assert file[|header|..] == rest && file[..0] == [];
    assert Overwrite(file, 0, newHeader) == file[..0] + newHeader + file[|header|..] || newHeader == [];
    assert newHeader == [] ==> file == rest;
  }

  lemma Regroup(a: seq<byte>, b: seq<byte>, c: seq<byte>, d: seq<byte>)
    ensures a + b + c + d == a + (b + c + d)
    ensures a + (b + c) + d == a + b + c + d
    ensures a + b + (c + d) == a + b + c + d
  {
  }

  /** Writing one slot and then the header. */
  lemma WriteSlot(header: seq<byte>, before: seq<byte>, slot: seq<byte>, after: seq<byte>,
                  chunk: seq<byte>, newHeader: seq<byte>)
    requires |chunk| == |slot| || (after == [] && |chunk| >= |slot|)
    requires |newHeader| == |header|
    ensures Overwrite(Overwrite(header + before + slot + after, |header| + |before|, chunk), 0, newHeader)
         == newHeader + (before + chunk) + after
  {
    hide Overwrite;
    OverwritePart(header + before, slot, after, chunk);
    Regroup(header, before, chunk, after);
    RewriteHeader(header, before + chunk + after, newHeader);
    Regroup(newHeader, before, chunk, after);
  }

  lemma SpareSlot(spare: nat, n: nat)
    requires spare > 0
    ensures Zeros(n) + Zeros((spare - 1) * n) == Zeros(spare * n)
  {
    assert n + (spare - 1) * n == spare * n;
    ZerosAdd(n, (spare - 1) * n);
  }

  /** A block written to the first free slot uses a spare slot up, or makes the file grow. */
  lemma Push(header: seq<byte>, blocks: seq<seq<byte>>, spare: nat, n: nat, newHeader: seq<byte>, block: seq<byte>)
    requires Blocks(blocks, n) && |block| == n && |newHeader| == |header|
    ensures Overwrite(Overwrite(Packed(header, blocks, spare, n), |header| + |blocks| * n, block), 0, newHeader)
         == Packed(newHeader, blocks + [block], if spare == 0 then 0 else spare - 1, n)
  {
    hide Overwrite, Joined;
    JoinedLength(blocks, n);
    JoinedSplit(blocks, [block]);
    JoinedOne(block);
    var slot, after := [], Zeros(spare * n);
    if spare > 0 {
      slot, after := Zeros(n), Zeros((spare - 1) * n);
      SpareSlot(spare, n);
    }
    assert slot + after == Zeros(spare * n);
    Regroup(header, Joined(blocks), slot, after);
    WriteSlot(header, Joined(blocks), slot, after, block, newHeader);
  }

  /** A block written over the last one in use. */
  lemma SetLast(header: seq<byte>, blocks: seq<seq<byte>>, spare: nat, n: nat, newHeader: seq<byte>, block: seq<byte>)
    requires Blocks(blocks, n) && blocks != [] && |block| == n && |newHeader| == |header|
    ensures Overwrite(Overwrite(Packed(header, blocks, spare, n), |header| + (|blocks| - 1) * n, block), 0, newHeader)
         == Packed(newHeader, blocks[..|blocks| - 1] + [block], spare, n)
  {
    hide Overwrite, Joined;
    var init, last := blocks[..|blocks| - 1], blocks[|blocks| - 1];
    assert blocks == init + [last];
    JoinedLength(init, n);
    JoinedSplit(init, [last]);
    JoinedSplit(init, [block]);
    JoinedOne(last);
    JoinedOne(block);
    Regroup(header, Joined(init), last, Zeros(spare * n));
    WriteSlot(header, Joined(init), last, Zeros(spare * n), block, newHeader);
  }
}
