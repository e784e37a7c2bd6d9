/** Serialport::sub_routine: the loop that reads the GPS device one byte at a time. */
module Serialport {
  import opened Options
  import opened Bytes
  import opened SlotFile
  import opened Framing
  import opened GpsFix

  const BUF_LEN := 0x200
  const TAG: seq<byte> := Ascii("$AHRS:")

  datatype GpsState = GpsWait | GpsHeader | GpsData | GpsFinish

  /** `memcpy` to the array `dst` at offset `at`. */
  method MemCpy(dst: array<byte>, at: nat, src: seq<byte>)
    requires at + |src| <= dst.Length
    modifies dst
    ensures dst[..] == old(dst[..at]) + src + old(dst[at + |src|..])
  {
    forall i | at <= i < at + |src| {
      dst[i] := src[i - at];
    }
  }

  /** `memset(a, 0, sizeof(a))` */
  method Clear(a: array<byte>)
    modifies a
    ensures a[..] == Zeros(a.Length)
  {
    forall i | 0 <= i < a.Length {
      a[i] := 0;
    }
  }

  /** The frames that a stream of bytes contains. */
  function GpsFrames(s: seq<byte>): (frames: seq<seq<byte>>)
    ensures forall i :: 0 <= i < |frames| ==> |frames[i]| == FRAME_LEN
  {
    FrameLengths(TAG, FRAME_LEN, s);
    Parse(TAG, FRAME_LEN, s)
  }

  lemma TagIsGood()
    ensures |TAG| == 6 && TAG[0] == DOLLAR && GoodTag(TAG, FRAME_LEN)
  {
    assert forall i :: 1 <= i < 6 ==> TAG[i] != DOLLAR;
    assert forall i :: 0 <= i < 5 ==> TAG[1..][i] == TAG[i + 1];
  }

  /** The bytes of a sequence of reads; a read that fails brings none. */
  function Received(polls: seq<Option<byte>>): seq<byte> {
    if polls == [] then []
    else Received(polls[..|polls| - 1]) + match polls[|polls| - 1] case None => [] case Some(c) => [c]
  }

  lemma {:induction false} ReceivedInTurn(a: seq<Option<byte>>, b: seq<Option<byte>>)
    ensures Received(a + b) == Received(a) + Received(b)
    decreases |b|
  {
    if b == [] {
      assert a + b == a;
    } else {
      var n := |b| - 1;
      assert (a + b)[..|a| + n] == a + b[..n];
      ReceivedInTurn(a, b[..n]);
    }
  }

  /** Failed reads bring nothing. */
  lemma {:induction false} NothingReceived(polls: seq<Option<byte>>)
    requires forall i :: 0 <= i < |polls| ==> polls[i] == None
    ensures Received(polls) == []
  {
    if polls != [] {
      NothingReceived(polls[..|polls| - 1]);
    }
  }

  /** Successful reads bring every byte, in order. */
  lemma {:induction false} AllReceived(s: seq<byte>)
    ensures Received(seq(|s|, i requires 0 <= i < |s| => Some(s[i]))) == s
  {
    if s != [] {
      var n := |s| - 1;
      var polls := seq(|s|, i requires 0 <= i < |s| => Some(s[i]));
      assert polls[..n] == seq(n, i requires 0 <= i < n => Some(s[..n][i]));
      AllReceived(s[..n]);
    }
  }

  /** Reads that bring `s`, with any number of failed ones before each byte and at the end. */
  function Spread(s: seq<byte>, gaps: seq<nat>): seq<Option<byte>>
    requires |gaps| == |s| + 1
  {
    seq(gaps[0], _ => None) + if s == [] then [] else [Some(s[0])] + Spread(s[1..], gaps[1..])
  }

  lemma {:induction false} SpreadIsReceived(s: seq<byte>, gaps: seq<nat>)
    requires |gaps| == |s| + 1
    ensures Received(Spread(s, gaps)) == s
  {
    var none: seq<Option<byte>> := seq(gaps[0], _ => None);
    NothingReceived(none);
    if s == [] {
      assert none + [] == none;
    } else {
      var rest := Spread(s[1..], gaps[1..]);
      SpreadIsReceived(s[1..], gaps[1..]);
      ReceivedInTurn(none, [Some(s[0])] + rest);
      ReceivedInTurn([Some(s[0])], rest);
      AllReceived([s[0]]);
      assert seq(1, i requires 0 <= i < 1 => Some([s[0]][i])) == [Some(s[0])];
    }
  }

  /** Before the first byte. */
  lemma NothingYet(held: seq<byte>)
    requires Held(TAG, FRAME_LEN, held)
    ensures FedAll(TAG, FRAME_LEN, held, []).0 == held
    ensures Fixes(GpsFrames(held + [])) == []
  {
    TagIsGood();
    MachineIsParser(TAG, FRAME_LEN, held, []);
  }

  /** One more byte: what the machine emits is what the parser finds in addition. */
  lemma OneMore(held: seq<byte>, before: seq<byte>, c: byte)
    requires Held(TAG, FRAME_LEN, held)
    ensures var one := Fed(TAG, FRAME_LEN, FedAll(TAG, FRAME_LEN, held, before).0, c);
            && FedAll(TAG, FRAME_LEN, held, before + [c]).0 == one.0
            && (forall i :: 0 <= i < |one.1| ==> |one.1[i]| == FRAME_LEN)
            && Fixes(GpsFrames(held + (before + [c]))) == Fixes(GpsFrames(held + before)) + Fixes(one.1)
  {
    hide Parse, FedAll, Fed, Localised, FixOf;
    TagIsGood();
    FedAllSnoc(TAG, FRAME_LEN, held, before, c);
    MachineIsParser(TAG, FRAME_LEN, held, before);
    MachineIsParser(TAG, FRAME_LEN, held, before + [c]);
    var old1, new1 := GpsFrames(held + before), Fed(TAG, FRAME_LEN, FedAll(TAG, FRAME_LEN, held, before).0, c).1;
    assert GpsFrames(held + (before + [c])) == old1 + new1;
    assert forall i :: 0 <= i < |new1| ==> new1[i] == (old1 + new1)[|old1| + i];
  }

  lemma FixesOne(frame: seq<byte>)
    requires |frame| == FRAME_LEN
    ensures |Localised(frame)| == FRAME_LEN && Fixes([frame]) == [FixOf(Localised(frame))]
  {
    LocalisedFits(frame);
  }

  /** The three copies into `buf` and the one back, on values. */
  lemma Reassembled(frame: seq<byte>, buf0: seq<byte>)
    requires |frame| == FRAME_LEN && |buf0| >= 12
    ensures |LocalHour(frame[HOUR..HOUR + 2])| == 2
    ensures var buf1 := buf0[..6] + (LocalHour(frame[HOUR..HOUR + 2]) + [0]) + buf0[9..];
            var buf2 := buf1[..0] + frame[TIME..HOUR] + buf1[6..];
            var buf3 := buf2[..8] + frame[HOUR + 2..AVAILABLE] + buf2[12..];
            frame[..TIME] + buf3[..12] + frame[AVAILABLE..] == Localised(frame)
  {
    hide LocalHour;
    LocalHourIsTwoBytes(frame[HOUR..HOUR + 2]);
    var hour := LocalHour(frame[HOUR..HOUR + 2]);
    var buf1 := buf0[..6] + (hour + [0]) + buf0[9..];
    var buf2 := buf1[..0] + frame[TIME..HOUR] + buf1[6..];
    var buf3 := buf2[..8] + frame[HOUR + 2..AVAILABLE] + buf2[12..];
    assert buf1[6..8] == hour;
    assert buf2[..8] == frame[TIME..HOUR] + hour;
    assert buf3[..12] == buf2[..8] + frame[HOUR + 2..AVAILABLE];
  }

  /** On the GPS line: from any state of the receiver, back-to-back sentences reach the board
  as they were sent, hour aside, from the second one on; at most one fix comes before them
  that is a mixture. */
  lemma GpsSelfSynchronises(held: seq<byte>, ps: seq<seq<byte>>)
    requires Held(TAG, FRAME_LEN, held) && Payloads(ps, FRAME_LEN - 6)
    requires ps != [] && Plain(ps[0])
    ensures var sent, got := Packets(TAG, ps), GpsFrames(held + Joined(Packets(TAG, ps)));
            && |sent| - 1 <= |got| <= |sent|
            && got[|got| - (|sent| - 1)..] == sent[1..]
            && (|got| == |sent| ==> got[0] == if held == [] then sent[0] else held + sent[0][..FRAME_LEN - |held|])
  {
    TagIsGood();
    SelfSynchronises(TAG, FRAME_LEN, held, ps);
    MachineIsParser(TAG, FRAME_LEN, held, Joined(Packets(TAG, ps)));
  }

  /** A receiver in step, with a board: sentences that come in over any number of reads, failed
  ones anywhere between their bytes, are all delivered, in order. */
  lemma SentencesDelivered(payloads: seq<seq<byte>>, gaps: seq<nat>)
    requires Payloads(payloads, FRAME_LEN - 6) && |gaps| == |Joined(Packets(TAG, payloads))| + 1
    ensures var fixes := Fixes(GpsFrames([] + Received(Spread(Joined(Packets(TAG, payloads)), gaps))));
            && |fixes| == |payloads|
            && forall i :: 0 <= i < |payloads| ==> fixes[i] == FixOfPayload(payloads[i])
  {
    hide Parse, Localised, FixOf, FixOfPayload, TAG;
    TagIsGood();
    var s := Joined(Packets(TAG, payloads));
    SpreadIsReceived(s, gaps);
    InStep(TAG, FRAME_LEN, payloads);
    assert [] + s == s;
    forall i | 0 <= i < |payloads|
      ensures |TAG + payloads[i]| == FRAME_LEN
      ensures Fixes(GpsFrames(s))[i] == FixOfPayload(payloads[i])
    {
      PayloadFix(payloads[i]);
    }
  }

  /** What the board gets for a sentence: the time with its hour converted, the position, the
  validity and the angle. */
  function FixOfPayload(payload: seq<byte>): Fix
    requires |payload| == FRAME_LEN - 6
  {
    Fix(payload[..6] + LocalHour(payload[6..8]) + payload[8..12], payload[13..29], payload[12..13], payload[29..])
  }

  lemma PayloadFix(payload: seq<byte>)
    requires |payload| == FRAME_LEN - 6
    ensures |TAG + payload| == FRAME_LEN && |Localised(TAG + payload)| == FRAME_LEN
    ensures FixOf(Localised(TAG + payload)) == FixOfPayload(payload)
  {
    hide LocalHour, Localised, FixOf;
    var hour, tail := LocalHour(payload[6..8]), payload[12..];
    LocalHourIsTwoBytes(payload[6..8]);
    LocalisedParts(payload);
    FixOfParts(TAG, payload[..6] + hour + payload[8..12], tail);
    assert tail[1..17] == payload[13..29] && tail[..1] == payload[12..13] && tail[17..] == payload[29..];
  }

  lemma LocalisedParts(payload: seq<byte>)
    requires |payload| == FRAME_LEN - 6
    ensures |TAG + payload| == FRAME_LEN && |LocalHour(payload[6..8])| == 2
    ensures Localised(TAG + payload) == TAG + (payload[..6] + LocalHour(payload[6..8]) + payload[8..12]) + payload[12..]
  {
    hide LocalHour;
    var frame := TAG + payload;
    LocalHourIsTwoBytes(payload[6..8]);
    assert frame[..HOUR] == TAG + payload[..6];
    assert frame[HOUR..HOUR + 2] == payload[6..8];
    assert frame[HOUR + 2..] == payload[8..12] + payload[12..];
  }

  lemma FixOfParts(tag: seq<byte>, time: seq<byte>, tail: seq<byte>)
    requires |tag| == 6 && |time| == 12 && |tail| == 25
    ensures FixOf(tag + time + tail) == Fix(time, tail[1..17], tail[..1], tail[17..])
  {
    var frame := tag + time + tail;
    assert frame[6..18] == time && frame[18..19] == tail[..1];
    assert frame[19..35] == tail[1..17] && frame[35..43] == tail[17..];
  }

  /** One sentence: exactly one fix, with these fields. */
  lemma OneSentence(payload: seq<byte>, gaps: seq<nat>)
    requires |payload| == 37 && |gaps| == 44
    ensures Fixes(GpsFrames([] + Received(Spread(Ascii("$AHRS:") + payload, gaps))))
         == [Fix(payload[..6] + LocalHour(payload[6..8]) + payload[8..12],
                 payload[13..29], payload[12..13], payload[29..])]
  {
    hide Parse, GpsFrames, LocalHour, Received, Spread;
    var packets := Packets(TAG, [payload]);
    assert packets == [Ascii("$AHRS:") + payload];
    JoinedOne(Ascii("$AHRS:") + payload);
    SentencesDelivered([payload], gaps);
    var fixes := Fixes(GpsFrames([] + Received(Spread(Ascii("$AHRS:") + payload, gaps))));
    assert |fixes| == 1 && fixes[0] == FixOfPayload(payload);
  }

  class Port {
    const buf: array<byte>
    const pkt: array<byte>
    var gpsState: GpsState
    var headIndex: nat
    var cnt: nat
    var pdata: nat

    /** Whether a board is set, and what it has been given. */
    var hasBoard: bool
    var fixes: seq<Fix>

    /** The cursors: none runs outside its buffer, and outside the header state the bytes
    that count are in the packet. */
    ghost predicate Valid()
      reads this, buf, pkt
    {
      && buf != pkt && buf.Length == 4 * BUF_LEN && pkt.Length == FRAME_LEN
      && match gpsState
         case GpsWait => headIndex == 0 && pdata == 0
         case GpsHeader =>
           1 <= headIndex < 6 && pdata == headIndex && buf[0] == DOLLAR && pkt[..headIndex] == buf[..headIndex]
         case GpsData => headIndex == 0 && 6 <= cnt < FRAME_LEN && pdata == cnt && pkt[..6] == TAG
         case GpsFinish => false
    }

    /** The bytes of an unfinished frame. */
    ghost function Pending(): (p: seq<byte>)
      requires Valid()
      reads this, buf, pkt
      ensures Held(TAG, FRAME_LEN, p)
    {
      if gpsState == GpsWait then []
      else if gpsState == GpsHeader then buf[..headIndex]
      else pkt[..cnt]
    }

    constructor ()
      ensures Valid() && Pending() == [] && fixes == [] && !hasBoard
      ensures fresh(buf) && fresh(pkt)
    {
      buf, pkt := new byte[4 * BUF_LEN], new byte[FRAME_LEN];
      gpsState, headIndex, cnt, pdata := GpsWait, 0, 0, 0;
      hasBoard, fixes := false, [];
    }

    method SetBoard()
      modifies `hasBoard
      ensures hasBoard
    {
      hasBoard := true;
    }

    /** The body of the loop after a read that brought a byte. */
    method Receive(c: byte)
      requires Valid()
      modifies this, buf, pkt
      ensures Valid() && hasBoard == old(hasBoard)
      ensures Pending() == Fed(TAG, FRAME_LEN, old(Pending()), c).0
      ensures var frames := Fed(TAG, FRAME_LEN, old(Pending()), c).1;
              && (forall i :: 0 <= i < |frames| ==> |frames[i]| == FRAME_LEN)
              && fixes == old(fixes) + if hasBoard then Fixes(frames) else []
    {
      hide Fed, Localised, FixOf;
      Accept(c);
      if gpsState == GpsFinish {
        gpsState := GpsWait;
        headIndex := 0;
        pdata := 0;
        cnt := 0;
        Deliver();
      }
    }

    /** The switch on the state. */
    method Accept(c: byte)
      requires Valid()
      modifies `gpsState, `headIndex, `cnt, `pdata, buf, pkt
      ensures buf != pkt && buf.Length == 4 * BUF_LEN && pkt.Length == FRAME_LEN
      ensures gpsState == GpsFinish ==> Fed(TAG, FRAME_LEN, old(Pending()), c) == ([], [pkt[..]])
      ensures gpsState != GpsFinish ==>
                Valid() && Fed(TAG, FRAME_LEN, old(Pending()), c) == (Pending(), [])
    {
      hide GoodTag, TAG;
      TagIsGood();
      ghost var held := Pending();
      buf[headIndex] := c;
      match gpsState {
        case GpsWait =>
          if buf[headIndex] == DOLLAR {
            pkt[pdata] := buf[headIndex];
            pdata := pdata + 1;
            cnt := 1;
            headIndex := 1;
            gpsState := GpsHeader;
            assert buf[..headIndex] == [c] && pkt[..headIndex] == [c];
          }
        case GpsHeader =>
          pkt[pdata] := buf[headIndex];
          pdata := pdata + 1;
          headIndex := headIndex + 1;
          assert buf[..headIndex] == held + [c] && pkt[..headIndex] == buf[..headIndex];
          if headIndex == |TAG| && buf[..|TAG|] == TAG {
            MemCpy(pkt, pdata, TAG);
            assert pkt[..|TAG|] == TAG;
            gpsState := GpsData;
            cnt := headIndex;
            headIndex := 0;
          } else if headIndex == |TAG| && buf[..|TAG|] != TAG {
            gpsState := GpsWait;
            headIndex := 0;
            pdata := 0;
          }
        case GpsData =>
          pkt[pdata] := buf[headIndex];
          pdata := pdata + 1;
          cnt := cnt + 1;
          assert pkt[..cnt] == held + [c] && pkt[..|TAG|] == held[..|TAG|];
          if cnt == FRAME_LEN {
            assert pkt[..] == held + [c];
            gpsState := GpsFinish;
            cnt := 0;
          }
        case GpsFinish =>
      }
    }

    /** The hour of the packet goes through `buf` and back; the fields go to the board. */
    method Deliver()
      requires buf != pkt && buf.Length == 4 * BUF_LEN && pkt.Length == FRAME_LEN
      modifies `fixes, buf, pkt
      ensures |old(pkt[..])| == FRAME_LEN
      ensures fixes == old(fixes) + if hasBoard then Fixes([old(pkt[..])]) else []
    {
      hide Decimal, Atoi, Localised, TwoDigits;
      ghost var frame := pkt[..];
      Show(pkt[..TIME]);
      Show(pkt[HOUR..HOUR + 2]);
      AtoiStops(frame[HOUR..HOUR + 2], Zeros(buf.Length - 2));
      LocalHourIsTwoBytes(frame[HOUR..HOUR + 2]);
      Reassembled(frame, buf[..]);
      var hour := Atoi(buf[..]);
      hour := Remainder(hour + 8, 24);
      MemCpy(buf, 6, TwoDigits(hour) + [0]);
      MemCpy(buf, 0, pkt[TIME..HOUR]);
      MemCpy(buf, 8, pkt[HOUR + 2..AVAILABLE]);
      MemCpy(pkt, TIME, buf[..12]);
      LocalisedFits(frame);
      assert pkt[..] == Localised(frame);
      Show(pkt[AVAILABLE..LONGITUDE]);
      Show(pkt[LONGITUDE..LONGITUDE + 8]);
      Show(pkt[LONGITUDE + 8..ANGLE]);
      Show(pkt[ANGLE..]);
      var fix := Fix(pkt[TIME..AVAILABLE], pkt[LONGITUDE..ANGLE], pkt[AVAILABLE..LONGITUDE], pkt[ANGLE..]);
      FixesOne(frame);
      assert pkt[..] == Localised(frame) && fix == FixOf(pkt[..]);
      if hasBoard {
        fixes := fixes + [fix];
      }
    }

    /** A field as a string in `buf`, for printing. */
    method Show(field: seq<byte>)
      requires |field| <= buf.Length
      modifies buf
      ensures buf[..] == field + Zeros(buf.Length - |field|)
    {
      Clear(buf);
      MemCpy(buf, 0, field);
    }

    /** The loop, for a given sequence of reads: it delivers what the stream parser finds in
    the bytes already held and the bytes read. */
    method SubRoutine(polls: seq<Option<byte>>)
      requires Valid()
      modifies this, buf, pkt
      ensures Valid() && hasBoard == old(hasBoard)
      ensures fixes == old(fixes) + if hasBoard then Fixes(GpsFrames(old(Pending()) + Received(polls))) else []
    {
      hide Parse, FedAll, Fed, Held, Fixes, TAG, Port.Pending;
      TagIsGood();
      ghost var held := Pending();
      var i := 0;
      assert Received(polls[..0]) == [];
      NothingYet(held);
      while i < |polls|
        invariant 0 <= i <= |polls|
        invariant Valid() && hasBoard == old(hasBoard)
        invariant Pending() == FedAll(TAG, FRAME_LEN, held, Received(polls[..i])).0
        invariant fixes == old(fixes) + if hasBoard then Fixes(GpsFrames(held + Received(polls[..i]))) else []
      {
        ghost var before := Received(polls[..i]);
        assert polls[..i + 1][..i] == polls[..i];
        match polls[i] {
          case None =>
            assert before + [] == before;
          case Some(c) =>
            Receive(c);
            OneMore(held, before, c);
        }
        i := i + 1;
      }
      assert polls[..i] == polls;
    }
  }

  /** A receiver with a board, between two frames: each sentence becomes one fix. */
  method Listen(port: Port, payloads: seq<seq<byte>>, gaps: seq<nat>)
    requires port.Valid() && port.Pending() == [] && port.hasBoard
    requires Payloads(payloads, FRAME_LEN - 6) && |gaps| == |Joined(Packets(TAG, payloads))| + 1
    modifies port, port.buf, port.pkt
    ensures port.Valid() && |port.fixes| == |old(port.fixes)| + |payloads|
    ensures port.fixes[..|old(port.fixes)|] == old(port.fixes)
    ensures forall i :: 0 <= i < |payloads| ==> port.fixes[|old(port.fixes)| + i] == FixOfPayload(payloads[i])
  {
    hide GpsFrames, Fixes, Received, Spread, FixOfPayload, TAG;
    SentencesDelivered(payloads, gaps);
    port.SubRoutine(Spread(Joined(Packets(TAG, payloads)), gaps));
  }
}
