/** What becomes of a frame: the text of the hour is moved to local time, the fields go to
the board. */
module GpsFix {
  import opened Bytes

  /** gps_packet: 6 header bytes, 12 of time, 1 of validity, 8 each of longitude, latitude
  and angle. */
  const FRAME_LEN := 43
  const TIME := 6
  const HOUR := 12
  const AVAILABLE := 18
  const LONGITUDE := 19
  const ANGLE := 35

  /** The arguments of the four calls on the board. */
  datatype Fix = Fix(time: seq<byte>, location: seq<byte>, valid: seq<byte>, angle: seq<byte>)

  predicate IsDigit(c: byte) {
    '0' as int <= c <= '9' as int
  }

  predicate IsSpace(c: byte) {
    c == 32 || 9 <= c <= 13
  }

  /** `atoi` */
  function Atoi(s: seq<byte>): int {
    if s == [] then 0
    else if IsSpace(s[0]) then Atoi(s[1..])
    else if s[0] == '-' as int then (var d: int := Digits(s[1..], 0); -d)
    else if s[0] == '+' as int then Digits(s[1..], 0)
    else Digits(s, 0)
  }

  function Digits(s: seq<byte>, value: nat): nat {
    if s == [] || !IsDigit(s[0]) then value
    else Digits(s[1..], 10 * value + (s[0] - '0' as int))
  }

  /** `%` of C, which takes the sign of the dividend. */
  function Remainder(a: int, b: int): int
    requires b > 0
  {
    if a >= 0 then a % b else -(-a % b)
  }

  /** `%02d` */
  function TwoDigits(n: int): seq<byte> {
    if n < 0 then ['-' as int] + Decimal(-n)
    else if n < 10 then ['0' as int] + Decimal(n)
    else Decimal(n)
  }

  /** The hour of a time text, moved eight hours on. */
  function LocalHour(text: seq<byte>): seq<byte> {
    TwoDigits(Remainder(Atoi(text) + 8, 24))
  }

  /** A frame with its hour converted; every other byte is as it was received. */
  function Localised(frame: seq<byte>): (r: seq<byte>)
    requires |frame| == FRAME_LEN
  {
    frame[..HOUR] + LocalHour(frame[HOUR..HOUR + 2]) + frame[HOUR + 2..]
  }

  function FixOf(frame: seq<byte>): Fix
    requires |frame| >= FRAME_LEN
  {
    Fix(frame[TIME..AVAILABLE], frame[LONGITUDE..ANGLE], frame[AVAILABLE..LONGITUDE], frame[ANGLE..FRAME_LEN])
  }

  function Fixes(frames: seq<seq<byte>>): (fixes: seq<Fix>)
    requires forall i :: 0 <= i < |frames| ==> |frames[i]| == FRAME_LEN
    ensures |fixes| == |frames|
  {
    seq(|frames|, i requires 0 <= i < |frames| => LocalisedFits(frames[i]); FixOf(Localised(frames[i])))
  }

  /** The two bytes of the hour are read up to the NUL after them. */
  lemma {:induction false} AtoiStops(s: seq<byte>, rest: seq<byte>)
    requires rest == [] || rest[0] == 0
    ensures Atoi(s + rest) == Atoi(s)
  {
    if s == [] {
      assert [] + rest == rest;
      DigitsStop([], rest, 0);
    } else {
      assert (s + rest)[1..] == s[1..] + rest;
      AtoiStops(s[1..], rest);
      DigitsStop(s[1..], rest, 0);
      DigitsStop(s, rest, 0);
    }
  }

  lemma {:induction false} DigitsStop(s: seq<byte>, rest: seq<byte>, value: nat)
    requires rest == [] || rest[0] == 0
    ensures Digits(s + rest, value) == Digits(s, value)
  {
    if s == [] {
      assert [] + rest == rest;
    } else {
      assert (s + rest)[1..] == s[1..] + rest;
      DigitsStop(s[1..], rest, if IsDigit(s[0]) then 10 * value + (s[0] - '0' as int) else value);
    }
  }

  lemma {:induction false} DigitsBound(s: seq<byte>, value: nat)
    requires |s| <= 2
    ensures |s| == 0 ==> Digits(s, value) == value
    ensures |s| == 1 ==> Digits(s, value) <= 10 * value + 9
    ensures |s| == 2 ==> Digits(s, value) <= 100 * value + 99
  {
    if s != [] && IsDigit(s[0]) {
      DigitsBound(s[1..], 10 * value + (s[0] - '0' as int));
    }
  }

  /** Whatever the two hour bytes are, the converted hour is two bytes again. */
  lemma LocalHourIsTwoBytes(text: seq<byte>)
    requires |text| == 2
    ensures |LocalHour(text)| == 2
    ensures -9 <= Atoi(text) <= 99
  {
    DigitsBound(text, 0);
    DigitsBound(text[1..], 0);
    DigitsBound([], 0);
    assert text[1..][1..] == [];
    if !IsSpace(text[0]) {
      assert -9 <= Atoi(text) <= 99;
    } else if IsSpace(text[1]) {
      assert Atoi(text) == Atoi(text[1..]) == Atoi([]);
    } else {
      assert Atoi(text) == Atoi(text[1..]);
    }
    var h := Remainder(Atoi(text) + 8, 24);
    assert -1 <= h < 24;
    DecimalOfTwo(if h < 0 then -h else h);
  }

  lemma DecimalOfTwo(n: nat)
    requires n < 100
    ensures n < 10 ==> Decimal(n) == ['0' as int + n]
    ensures n >= 10 ==> Decimal(n) == ['0' as int + n / 10, '0' as int + n % 10]
  {
  }

  /** What two bytes are worth as an hour: blanks before a digit are skipped, a sign may stand
  before it, reading stops at anything else, and no digit means 0. */
  function HourValue(a: byte, b: byte): int {
    var first, second := '0' as int <= a <= '9' as int, '0' as int <= b <= '9' as int;
    if first && second then 10 * (a - '0' as int) + (b - '0' as int)
    else if first then a - '0' as int
    else if second && a == '-' as int then '0' as int - b
    else if second && a in {9, 10, 11, 12, 13, 32, '+' as int} then b - '0' as int
    else 0
  }

  /** `atoi` of any two bytes. */
  lemma AtoiOfTwo(a: byte, b: byte)
    ensures Atoi([a, b]) == HourValue(a, b)
  {
    assert [a, b][1..] == [b];
    DigitsOfOne(b, 0);
    AtoiOfOne(b);
    if '0' as int <= a <= '9' as int {
      DigitsOfOne(b, a - '0' as int);
      assert Digits([a, b], 0) == Digits([b], a - '0' as int);
    }
  }

  lemma AtoiOfOne(c: byte)
    ensures Atoi([c]) == if '0' as int <= c <= '9' as int then c - '0' as int else 0
  {
    assert [c][1..] == [];
    DigitsOfOne(c, 0);
    assert Digits([], 0) == 0 && Atoi([]) == 0;
  }

  lemma DigitsOfOne(c: byte, value: nat)
    ensures Digits([c], value) == if '0' as int <= c <= '9' as int then 10 * value + (c - '0' as int) else value
  {
    assert [c][1..] == [];
    assert Digits([], 0) == 0;
  }

  /** The hour that goes to the board, for any two bytes: eight more, modulo 24, in two digits;
  only for -9 the remainder is negative, and prints with its sign. */
  lemma LocalHourIs(a: byte, b: byte)
    ensures var h := HourValue(a, b);
            var local := (h + 8) % 24;
            LocalHour([a, b]) == if h == -9 then ['-' as int, '1' as int]
                                 else ['0' as int + local / 10, '0' as int + local % 10]
  {
    hide Atoi;
    AtoiOfTwo(a, b);
    var h := HourValue(a, b);
    DecimalOfTwo(if h == -9 then 1 else (h + 8) % 24);
  }

  lemma LocalisedFits(frame: seq<byte>)
    requires |frame| == FRAME_LEN
    ensures |Localised(frame)| == FRAME_LEN
  {
    LocalHourIsTwoBytes(frame[HOUR..HOUR + 2]);
  }

  /** A decimal hour h becomes the two digits of (h + 8) mod 24. */
  lemma DecimalHour(tens: nat, ones: nat)
    requires tens <= 9 && ones <= 9
    ensures var h := (10 * tens + ones + 8) % 24;
            LocalHour(['0' as int + tens, '0' as int + ones]) == ['0' as int + h / 10, '0' as int + h % 10]
  {
    var text: seq<byte> := ['0' as int + tens, '0' as int + ones];
    assert text[1..][1..] == [];
    assert Digits(text[1..][1..], 10 * tens + ones) == 10 * tens + ones;
    assert Digits(text[1..], tens) == Digits(text[1..][1..], 10 * tens + ones);
    assert Digits(text, 0) == Digits(text[1..], tens);
    assert Atoi(text) == 10 * tens + ones;
    DecimalOfTwo((10 * tens + ones + 8) % 24);
  }

  /** Only the hour of a frame changes on the way to the board. */
  lemma OnlyTheHourChanges(frame: seq<byte>)
    requires |frame| == FRAME_LEN
    ensures |Localised(frame)| == FRAME_LEN
    ensures forall i :: 0 <= i < 43 && i != 12 && i != 13 ==> Localised(frame)[i] == frame[i]
    ensures Localised(frame)[12..14] == LocalHour(frame[12..14])
  {
    LocalHourIsTwoBytes(frame[HOUR..HOUR + 2]);
  }

  /** The fields that go to the board are the whole frame behind its tag, in order: 12 bytes
  of time, 1 of validity, 16 of position and 8 of angle. */
  lemma FieldsCoverTheFrame(frame: seq<byte>)
    requires |frame| == FRAME_LEN
    ensures var fix := FixOf(frame);
            && |fix.time| == 12 && |fix.valid| == 1 && |fix.location| == 16 && |fix.angle| == 8
            && frame == frame[..6] + fix.time + fix.valid + fix.location + fix.angle
  {
    assert frame == frame[..6] + frame[6..18] + frame[18..19] + frame[19..35] + frame[35..43];
  }
}
