/** A reader for text that `sprintf` has put together: labels, numbers and strings. */
module Scanf {
  import opened Options
  import opened Bytes

  // ---- digits ----

  /** The characters that stand for digits, the lower-case letters only beyond ten. */
  predicate IsDigit(c: byte, base: nat) {
    '0' as int <= c <= '9' as int || (base == 16 && 'a' as int <= c <= 'f' as int)
  }

  predicate AllDigits(s: seq<byte>, base: nat) {
    forall c :: c in s ==> IsDigit(c, base)
  }

  function DigitValue(c: byte): int {
    if c <= '9' as int then c - '0' as int else c - 'a' as int + 10
  }

  /** The number that a string of digits stands for. */
  function Value(s: seq<byte>, base: nat): int {
    if s == [] then 0 else Value(s[..|s| - 1], base) * base + DigitValue(s[|s| - 1])
  }

  /** No zero in front, except in the text of 0. */
  predicate Plainly(s: seq<byte>) {
    s != [] && (|s| > 1 ==> s[0] != '0' as int)
  }

  lemma {:induction false} DecimalValue(n: nat)
    ensures AllDigits(Decimal(n), 10) && Plainly(Decimal(n)) && Value(Decimal(n), 10) == n
    ensures n > 0 ==> Decimal(n)[0] != '0' as int
  {
    var s := Decimal(n);
    if n < 10 {
      assert Value(s, 10) == Value(s[..0], 10) * 10 + DigitValue(s[0]);
    } else {
      DecimalValue(n / 10);
      assert s[..|s| - 1] == Decimal(n / 10);
    }
  }

  lemma {:induction false} HexValue(n: u32)
    ensures AllDigits(Hex(n), 16) && Plainly(Hex(n)) && Value(Hex(n), 16) == n
    ensures n > 0 ==> Hex(n)[0] != '0' as int
  {
    var s := Hex(n);
    if n < 16 {
      assert Value(s, 16) == Value(s[..0], 16) * 16 + DigitValue(s[0]);
    } else {
      HexValue(n / 16);
      assert s[..|s| - 1] == Hex(n / 16);
    }
  }

  // ---- formats ----

  /** A format: literal text, `%d`, `%x` and `%s`. */
  datatype Format = End | Text(text: seq<byte>, rest: Format) | Dec(rest: Format) | Hexa(rest: Format)
                  | Str(rest: Format)

  datatype Arg = Num(n: nat) | Chars(s: seq<byte>)

  /** How far the digits go from the start of a text. */
  function DigitRun(s: seq<byte>, base: nat): (k: nat)
    ensures k <= |s|
  {
    if s == [] || !IsDigit(s[0], base) then 0 else 1 + DigitRun(s[1..], base)
  }

  function Until(s: seq<byte>, stop: byte): (k: nat)
    ensures k <= |s|
  {
    if s == [] || s[0] == stop then 0 else 1 + Until(s[1..], stop)
  }

  /** Put in front of what the rest of a text gives. */
  function Before(arg: Arg, args: Option<seq<Arg>>): Option<seq<Arg>> {
    match args
    case None => None
    case Some(more) => Some([arg] + more)
  }

  /** The reader: labels have to be there, numbers are as many digits as there are, strings end
  where the label behind them begins, and nothing may be left over. */
  function Scanned(s: seq<byte>, f: Format): Option<seq<Arg>>
    decreases f, 0
  {
    match f
    case End => if s == [] then Some([]) else None
    case Text(text, rest) => if text <= s then Scanned(s[|text|..], rest) else None
    case Dec(rest) => ScannedNumber(s, 10, rest)
    case Hexa(rest) => ScannedNumber(s, 16, rest)
    case Str(rest) =>
      if rest.Text? && rest.text != [] then
        var k := Until(s, rest.text[0]);
        Before(Chars(s[..k]), Scanned(s[k..], rest))
      else
        None
  }

  function ScannedNumber(s: seq<byte>, base: nat, rest: Format): Option<seq<Arg>>
    decreases rest, 1
  {
    var k := DigitRun(s, base);
    if k == 0 || Value(s[..k], base) < 0 then None else Before(Num(Value(s[..k], base)), Scanned(s[k..], rest))
  }

  lemma {:induction false} RunOfDigits(t: seq<byte>, s: seq<byte>, base: nat)
    requires AllDigits(t, base) && (s == [] || !IsDigit(s[0], base))
    ensures DigitRun(t + s, base) == |t|
  {
    if t == [] {
      assert t + s == s;
    } else {
      assert t[0] in t;
      assert (t + s)[1..] == t[1..] + s;
      RunOfDigits(t[1..], s, base);
    }
  }

  lemma {:induction false} UntilStop(t: seq<byte>, s: seq<byte>, stop: byte)
    requires stop !in t && s != [] && s[0] == stop
    ensures Until(t + s, stop) == |t|
  {
    if t == [] {
      assert t + s == s;
    } else {
      assert t[0] in t;
      assert (t + s)[1..] == t[1..] + s;
      UntilStop(t[1..], s, stop);
    }
  }

  // ---- one item at a time ----

  lemma ReadEnd()
    ensures Scanned([], End) == Some([])
  {
  }

  lemma ReadText(text: seq<byte>, s: seq<byte>, rest: Format, args: seq<Arg>)
    requires Scanned(s, rest) == Some(args)
    ensures Scanned(text + s, Text(text, rest)) == Some(args)
  {
    assert (text + s)[|text|..] == s;
  }

  /** A number is read as what it is, if the text behind it does not go on with a digit. */
  lemma ReadNumber(t: seq<byte>, s: seq<byte>, base: nat, n: nat, rest: Format, args: seq<Arg>)
    requires t != [] && AllDigits(t, base) && Value(t, base) == n
    requires s == [] || !IsDigit(s[0], base)
    requires Scanned(s, rest) == Some(args)
    ensures ScannedNumber(t + s, base, rest) == Some([Num(n)] + args)
  {
    RunOfDigits(t, s, base);
    assert (t + s)[..|t|] == t && (t + s)[|t|..] == s;
  }

  lemma ReadDec(n: nat, s: seq<byte>, rest: Format, args: seq<Arg>)
    requires s == [] || !IsDigit(s[0], 10)
    requires Scanned(s, rest) == Some(args)
    ensures Scanned(Decimal(n) + s, Dec(rest)) == Some([Num(n)] + args)
  {
    hide Decimal, Value, ScannedNumber;
    DecimalValue(n);
    ReadNumber(Decimal(n), s, 10, n, rest, args);
  }

  lemma ReadHex(n: u32, s: seq<byte>, rest: Format, args: seq<Arg>)
    requires s == [] || !IsDigit(s[0], 16)
    requires Scanned(s, rest) == Some(args)
    ensures Scanned(Hex(n) + s, Hexa(rest)) == Some([Num(n)] + args)
  {
    hide Hex, Value, ScannedNumber;
    HexValue(n);
    ReadNumber(Hex(n), s, 16, n, rest, args);
  }

  /** A string is read up to the first character of the label behind it. */
  lemma ReadStr(t: seq<byte>, s: seq<byte>, rest: Format, args: seq<Arg>)
    requires rest.Text? && rest.text != [] && rest.text[0] !in t
    requires Scanned(s, rest) == Some(args)
    ensures Scanned(t + s, Str(rest)) == Some([Chars(t)] + args)
  {
    UntilStop(t, s, rest.text[0]);
    assert (t + s)[..|t|] == t && (t + s)[|t|..] == s;
  }
}
