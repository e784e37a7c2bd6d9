/** Cutting a byte stream into frames: a tag that starts with '$', then a fixed number of
bytes. The same machine, with another tag and length, reads the other serial device. */
module Framing {
  import opened Bytes
  import opened SlotFile

  const DOLLAR: byte := 0x24

  ghost predicate Format(tag: seq<byte>, n: nat) {
    2 <= |tag| < n
  }

  // ---- what the stream means ----

  /** The frames of a stream: skip to a '$' and take as many bytes as the tag has; if they
  are not the tag drop all of them, if they are take a whole frame. */
  function Parse(tag: seq<byte>, n: nat, s: seq<byte>): (frames: seq<seq<byte>>)
    requires 2 <= |tag| < n
    decreases |s|
  {
    if s == [] then []
    else if s[0] != DOLLAR then Parse(tag, n, s[1..])
    else if |s| < |tag| then []
    else if s[..|tag|] != tag then Parse(tag, n, s[|tag|..])
    else if |s| < n then []
    else [s[..n]] + Parse(tag, n, s[n..])
  }

  lemma {:induction false} FrameLengths(tag: seq<byte>, n: nat, s: seq<byte>)
    requires Format(tag, n)
    ensures forall i :: 0 <= i < |Parse(tag, n, s)| ==>
              |Parse(tag, n, s)[i]| == n && Parse(tag, n, s)[i][..|tag|] == tag
    decreases |s|
  {
    if s == [] {
    } else if s[0] != DOLLAR {
      FrameLengths(tag, n, s[1..]);
    } else if |s| < |tag| {
    } else if s[..|tag|] != tag {
      FrameLengths(tag, n, s[|tag|..]);
    } else if |s| >= n {
      FrameLengths(tag, n, s[n..]);
    }
  }

  // ---- one byte at a time ----

  /** The bytes that a machine in the middle of a stream can be holding: none, the start of
  a possible tag, or a tag with the start of a frame. */
  ghost predicate Held(tag: seq<byte>, n: nat, p: seq<byte>)
    requires Format(tag, n)
  {
    || p == []
    || (|p| < |tag| && p[0] == DOLLAR)
    || (|tag| <= |p| < n && p[..|tag|] == tag)
  }

  /** What is held after one more byte, and the frame that it completes, if any. */
  function Fed(tag: seq<byte>, n: nat, p: seq<byte>, c: byte): (r: (seq<byte>, seq<seq<byte>>))
    requires 2 <= |tag| < n
  {
    if p == [] then (if c == DOLLAR then [c] else [], [])
    else
      var q := p + [c];
      if |q| < |tag| then (q, [])
      else if |q| == |tag| then (if q == tag then q else [], [])
      else if |q| == n then ([], [q])
      else (q, [])
  }

  function FedAll(tag: seq<byte>, n: nat, p: seq<byte>, s: seq<byte>): (r: (seq<byte>, seq<seq<byte>>))
    requires 2 <= |tag| < n
    decreases |s|
  {
    if s == [] then (p, [])
    else
      var one := Fed(tag, n, p, s[0]);
      var rest := FedAll(tag, n, one.0, s[1..]);
      (rest.0, one.1 + rest.1)
  }

  lemma FedHeld(tag: seq<byte>, n: nat, p: seq<byte>, c: byte)
    requires Format(tag, n) && Held(tag, n, p) && tag[0] == DOLLAR
    ensures Held(tag, n, Fed(tag, n, p, c).0)
  {
  }

  lemma {:induction false} FedAllSnoc(tag: seq<byte>, n: nat, p: seq<byte>, s: seq<byte>, c: byte)
    requires Format(tag, n)
    ensures var before, one := FedAll(tag, n, p, s), FedAll(tag, n, p, s + [c]);
            var last := Fed(tag, n, before.0, c);
            one == (last.0, before.1 + last.1)
    decreases |s|
  {
    if s == [] {
      var last := Fed(tag, n, p, c);
      assert s + [c] == [c] && [c][1..] == [];
      assert FedAll(tag, n, last.0, []) == (last.0, []);
      assert last.1 + [] == [] + last.1;
    } else {
      assert (s + [c])[1..] == s[1..] + [c];
      var first := Fed(tag, n, p, s[0]);
      FedAllSnoc(tag, n, first.0, s[1..], c);
      var rest := FedAll(tag, n, first.0, s[1..]);
      var last := Fed(tag, n, rest.0, c).1;
      assert first.1 + (rest.1 + last) == (first.1 + rest.1) + last;
    }
  }

  /** From any state it can be in, the machine delivers the frames that the parser finds in
  what it holds followed by what it is fed. */
  lemma {:induction false} MachineIsParser(tag: seq<byte>, n: nat, p: seq<byte>, s: seq<byte>)
    requires Format(tag, n) && tag[0] == DOLLAR && Held(tag, n, p)
    ensures FedAll(tag, n, p, s).1 == Parse(tag, n, p + s)
    ensures Held(tag, n, FedAll(tag, n, p, s).0)
    decreases |s|
  {
    if s == [] {
      assert p + s == p;
    } else {
      var q := p + [s[0]];
      var one := Fed(tag, n, p, s[0]);
      FedHeld(tag, n, p, s[0]);
      MachineIsParser(tag, n, one.0, s[1..]);
      assert p + s == q + s[1..];
      ParseStep(tag, n, p, s[0], s[1..]);
    }
  }

  /** The parser does not mind being interrupted after any byte. */
  lemma ParseStep(tag: seq<byte>, n: nat, p: seq<byte>, c: byte, rest: seq<byte>)
    requires Format(tag, n) && tag[0] == DOLLAR && Held(tag, n, p)
    ensures var one := Fed(tag, n, p, c);
            Parse(tag, n, (p + [c]) + rest) == one.1 + Parse(tag, n, one.0 + rest)
  {
    var q := p + [c];
    var s := q + rest;
    if p == [] {
      assert q == [c] && s[1..] == rest;
      assert [] + rest == rest;
    } else if |q| == |tag| {
      assert s[..|tag|] == q && s[|tag|..] == rest;
      assert [] + rest == rest;
    } else if |q| == n {
      assert s[..|tag|] == p[..|tag|] && s[..n] == q && s[n..] == rest;
      assert [] + rest == rest;
    }
  }

  // ---- finding back into step ----

  ghost predicate Plain(s: seq<byte>) {
    DOLLAR !in s
  }

  /** A tag that cannot start inside itself. */
  ghost predicate GoodTag(tag: seq<byte>, n: nat) {
    Format(tag, n) && tag[0] == DOLLAR && Plain(tag[1..])
  }

  ghost predicate Payloads(ps: seq<seq<byte>>, length: nat) {
    forall i :: 0 <= i < |ps| ==> |ps[i]| == length
  }

  /** Complete packets, one after another. */
  function Packets(tag: seq<byte>, ps: seq<seq<byte>>): (packets: seq<seq<byte>>)
    ensures |packets| == |ps|
  {
    seq(|ps|, i requires 0 <= i < |ps| => tag + ps[i])
  }

  lemma {:induction false} SkipPlain(tag: seq<byte>, n: nat, u: seq<byte>, s: seq<byte>)
    requires Format(tag, n) && Plain(u)
    ensures Parse(tag, n, u + s) == Parse(tag, n, s)
  {
    if u == [] {
      assert u + s == s;
    } else {
      assert u[0] in u;
      assert (u + s)[1..] == u[1..] + s;
      SkipPlain(tag, n, u[1..], s);
    }
  }

  /** In step, every packet is delivered, once and in order, whatever is in it. */
  lemma {:induction false} InStep(tag: seq<byte>, n: nat, ps: seq<seq<byte>>)
    requires GoodTag(tag, n) && Payloads(ps, n - |tag|)
    ensures Parse(tag, n, Joined(Packets(tag, ps))) == Packets(tag, ps)
  {
    if ps != [] {
      var first, rest := tag + ps[0], Packets(tag, ps)[1..];
      assert rest == Packets(tag, ps[1..]);
      InStep(tag, n, ps[1..]);
      var s := first + Joined(rest);
      assert s[..|tag|] == tag && s[..n] == first && s[n..] == Joined(rest);
    }
  }

  /** Self-synchronisation. Fed back-to-back packets of which the first has no '$' in its
  payload, a machine that holds nothing delivers all of them. One that holds the start of a
  tag loses exactly the first packet; one that holds part of a frame fills that frame up
  from the first packet, delivers the mixture, and every packet after the first. */
  lemma SelfSynchronises(tag: seq<byte>, n: nat, p: seq<byte>, ps: seq<seq<byte>>)
    requires GoodTag(tag, n) && Held(tag, n, p) && Payloads(ps, n - |tag|)
    requires ps != [] && Plain(ps[0])
    ensures var packets := Packets(tag, ps);
            FedAll(tag, n, p, Joined(packets)).1 ==
              if p == [] then packets
              else if |p| < |tag| then packets[1..]
              else [p + packets[0][..n - |p|]] + packets[1..]
  {
    hide FedAll, Fed, Parse, Joined, Packets, Plain;
    var packets := Packets(tag, ps);
    var first, rest := packets[0], Joined(packets[1..]);
    FirstPacket(tag, ps);
    InStep(tag, n, ps);
    InStep(tag, n, ps[1..]);
    MachineIsParser(tag, n, p, Joined(packets));
    Associate(p, first, rest);
    if p == [] {
      assert p + Joined(packets) == Joined(packets);
    } else if |p| < |tag| {
      LosesFirst(tag, n, p, ps[0], rest);
    } else {
      MixesFirst(tag, n, p, ps[0], rest);
    }
  }

  lemma FirstPacket(tag: seq<byte>, ps: seq<seq<byte>>)
    requires ps != []
    ensures var packets := Packets(tag, ps);
            && packets[0] == tag + ps[0] && packets[1..] == Packets(tag, ps[1..])
            && Joined(packets) == packets[0] + Joined(packets[1..])
  {
  }

  lemma Associate(a: seq<byte>, b: seq<byte>, c: seq<byte>)
    ensures a + (b + c) == a + b + c
  {
  }

  /** The condition on the bytes: a string that a machine in step reads without holding any
  of it at the end, because every '$' in it starts a complete string of the tag's length
  that is not the tag, or stands inside one. */
  predicate Skips(tag: seq<byte>, s: seq<byte>)
    requires |tag| >= 2
    decreases |s|
  {
    || s == []
    || (s[0] != DOLLAR && Skips(tag, s[1..]))
    || (s[0] == DOLLAR && |s| >= |tag| && s[..|tag|] != tag && Skips(tag, s[|tag|..]))
  }

  lemma {:induction false} FedInTurn(tag: seq<byte>, n: nat, p: seq<byte>, s: seq<byte>, t: seq<byte>)
    requires Format(tag, n)
    ensures FedAll(tag, n, p, s + t).0 == FedAll(tag, n, FedAll(tag, n, p, s).0, t).0
    decreases |s|
  {
    if s == [] {
      assert s + t == t;
    } else {
      assert (s + t)[1..] == s[1..] + t;
      FedInTurn(tag, n, Fed(tag, n, p, s[0]).0, s[1..], t);
    }
  }

  /** Below the length of the tag, and again from there to the length of a frame, bytes are
  only gathered. */
  lemma {:induction false} Gathers(tag: seq<byte>, n: nat, p: seq<byte>, s: seq<byte>)
    requires Format(tag, n) && p != []
    requires |p + s| < |tag| || |tag| <= |p| <= |p + s| < n
    ensures FedAll(tag, n, p, s).0 == p + s
    decreases |s|
  {
    if s == [] {
      assert p + s == p;
    } else {
      Gathers(tag, n, p + [s[0]], s[1..]);
      assert p + [s[0]] + s[1..] == p + s;
    }
  }

  /** The bytes that complete a tag or a frame: a wrong tag is dropped, a frame is delivered. */
  lemma Completes(tag: seq<byte>, n: nat, p: seq<byte>, s: seq<byte>)
    requires Format(tag, n) && Held(tag, n, p) && p != [] && s != []
    requires |p + s| == if |p| < |tag| then |tag| else n
    ensures FedAll(tag, n, p, s).0 == if |p| < |tag| && p + s == tag then tag else []
  {
    var m := |s| - 1;
    assert s == s[..m] + [s[m]];
    FedInTurn(tag, n, p, s[..m], [s[m]]);
    Gathers(tag, n, p, s[..m]);
    var q := p + s[..m];
    assert q + [s[m]] == p + s;
    assert FedAll(tag, n, q, [s[m]]).0 == Fed(tag, n, q, s[m]).0 by {
      assert [s[m]][1..] == [];
    }
  }

  /** Fewer bytes than a frame, from a machine that holds nothing. */
  lemma {:induction false} HoldsNothingIffSkips(tag: seq<byte>, n: nat, s: seq<byte>)
    requires Format(tag, n) && tag[0] == DOLLAR && |s| < n
    ensures FedAll(tag, n, [], s).0 == [] <==> Skips(tag, s)
    decreases |s|
  {
    if s == [] {
    } else if s[0] != DOLLAR {
      HoldsNothingIffSkips(tag, n, s[1..]);
    } else {
      var p := [s[0]];
      assert FedAll(tag, n, [], s).0 == FedAll(tag, n, p, s[1..]).0;
      assert p + s[1..] == s;
      if |s| < |tag| {
        Gathers(tag, n, p, s[1..]);
      } else {
        var k := |tag|;
        assert s[1..] == s[1..k] + s[k..] && p + s[1..k] == s[..k];
        FedInTurn(tag, n, p, s[1..k], s[k..]);
        Completes(tag, n, p, s[1..k]);
        if s[..k] == tag {
          Gathers(tag, n, tag, s[k..]);
        } else {
          HoldsNothingIffSkips(tag, n, s[k..]);
        }
      }
    }
  }

  /** How many bytes of the first packet a machine takes for what it was holding. */
  function Taken(tag: seq<byte>, n: nat, p: seq<byte>): int {
    (if |p| < |tag| then |tag| else n) - |p|
  }

  /** Whatever the first packet holds, the machine is back in step after it if and only if
  the rest of the packet, behind what was taken for the held bytes, skips. */
  lemma BackInStepIffTailSkips(tag: seq<byte>, n: nat, p: seq<byte>, payload: seq<byte>)
    requires GoodTag(tag, n) && Held(tag, n, p) && p != [] && |payload| == n - |tag|
    ensures 1 <= Taken(tag, n, p) <= n
    ensures FedAll(tag, n, p, tag + payload).0 == [] <==> Skips(tag, (tag + payload)[Taken(tag, n, p)..])
  {
    var first, k := tag + payload, Taken(tag, n, p);
    assert first == first[..k] + first[k..];
    FedInTurn(tag, n, p, first[..k], first[k..]);
    Completes(tag, n, p, first[..k]);
    if |p| < |tag| {
      assert (p + first[..k])[|p|] == DOLLAR && tag[|p|] == tag[1..][|p| - 1];
    }
    HoldsNothingIffSkips(tag, n, first[k..]);
  }

  /** The exact condition for synchronising at the second packet, on the bytes of the first:
  the later packets come out as they are if and only if that rest skips. */
  lemma SynchronisesIff(tag: seq<byte>, n: nat, p: seq<byte>, ps: seq<seq<byte>>)
    requires GoodTag(tag, n) && Held(tag, n, p) && p != [] && Payloads(ps, n - |tag|)
    requires |ps| >= 2 && Plain(ps[1])
    ensures var packets := Packets(tag, ps);
            var q := FedAll(tag, n, p, packets[0]).0;
            1 <= Taken(tag, n, p) <= |packets[0]| &&
            (FedAll(tag, n, q, Joined(packets[1..])).1 == packets[1..]
             <==> Skips(tag, packets[0][Taken(tag, n, p)..]))
  {
    hide Parse, FedAll, Fed, Joined, Skips;
    var packets, later := Packets(tag, ps), ps[1..];
    var q := FedAll(tag, n, p, packets[0]).0;
    BackInStepIffTailSkips(tag, n, p, ps[0]);
    MachineIsParser(tag, n, p, packets[0]);
    assert packets[1..] == Packets(tag, later);
    SelfSynchronises(tag, n, q, later);
    if |tag| <= |q| {
      var mixed := q + packets[1][..n - |q|];
      assert mixed[|q|] == packets[1][0] == DOLLAR;
      assert packets[1][|q|] == ps[1][|q| - |tag|];
      assert ([mixed] + Packets(tag, later)[1..])[0] == mixed;
    }
  }

  lemma TailIsPlain(tag: seq<byte>, n: nat, payload: seq<byte>, k: nat)
    requires GoodTag(tag, n) && Plain(payload) && 1 <= k <= |tag + payload|
    ensures Plain((tag + payload)[k..])
  {
    var first := tag + payload;
    forall i | k <= i < |first|
      ensures first[i] != DOLLAR
    {
      if i < |tag| {
        assert first[i] == tag[1..][i - 1];
      } else {
        assert first[i] == payload[i - |tag|];
      }
    }
  }

  lemma LosesFirst(tag: seq<byte>, n: nat, p: seq<byte>, payload: seq<byte>, rest: seq<byte>)
    requires GoodTag(tag, n) && Held(tag, n, p) && 0 < |p| < |tag|
    requires Plain(payload)
    ensures Parse(tag, n, p + (tag + payload) + rest) == Parse(tag, n, rest)
  {
    var first, k := tag + payload, |tag| - |p|;
    var s := p + first + rest;
    assert s[..|tag|][|p|] == DOLLAR;
    assert tag[|p|] == tag[1..][|p| - 1];
    assert s[|tag|..] == first[k..] + rest;
    TailIsPlain(tag, n, payload, k);
    SkipPlain(tag, n, first[k..], rest);
  }

  lemma MixesFirst(tag: seq<byte>, n: nat, p: seq<byte>, payload: seq<byte>, rest: seq<byte>)
    requires GoodTag(tag, n) && Held(tag, n, p) && |tag| <= |p|
    requires Plain(payload) && |payload| == n - |tag|
    ensures Parse(tag, n, p + (tag + payload) + rest)
         == [p + (tag + payload)[..n - |p|]] + Parse(tag, n, rest)
  {
    var first, k := tag + payload, n - |p|;
    var s := p + first + rest;
    assert s[..|tag|] == p[..|tag|] == tag;
    assert s[..n] == p + first[..k];
    assert s[n..] == first[k..] + rest;
    TailIsPlain(tag, n, payload, k);
    SkipPlain(tag, n, first[k..], rest);
  }

  /** The condition on the payloads is needed: with a '$' at the end of every payload, a
  machine that starts out of step can miss every packet for ever. */
  lemma {:induction false} NeverSynchronises(tag: seq<byte>, n: nat, u: seq<byte>, packets: nat)
    requires GoodTag(tag, n) && Plain(u) && |tag| + |u| + 1 == n
    ensures Held(tag, n, [DOLLAR])
    ensures FedAll(tag, n, [DOLLAR], Joined(seq(packets, _ => tag + (u + [DOLLAR])))).1 == []
  {
    hide FedAll, Fed;
    var stream := seq(packets, _ => tag + (u + [DOLLAR]));
    MachineIsParser(tag, n, [DOLLAR], Joined(stream));
    if packets > 0 {
      var rest := Joined(stream[1..]);
      assert stream[1..] == seq(packets - 1, _ => tag + (u + [DOLLAR]));
      NeverSynchronises(tag, n, u, packets - 1);
      MachineIsParser(tag, n, [DOLLAR], rest);
      var s := [DOLLAR] + Joined(stream);
      assert Joined(stream) == tag + (u + [DOLLAR]) + rest;
      var k := |tag|;
      assert s[..k][1] == DOLLAR && tag[1] == tag[1..][0];
      assert s[k..] == (tag + u)[k - 1..] + ([DOLLAR] + rest);
      TailIsPlain(tag, n, u, k - 1);
      SkipPlain(tag, n, (tag + u)[k - 1..], [DOLLAR] + rest);
    }
  }
}
