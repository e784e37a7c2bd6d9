/** Machine integers, byte strings and C strings.

The target is a 32-bit little-endian ARM, where `int` and `long` are four bytes
wide and `char` is unsigned.
*/
module Bytes {

  type byte = n: int | 0 <= n < 0x100
  type u32 = n: int | 0 <= n < 0x1_0000_0000
  type i32 = n: int | -0x8000_0000 <= n < 0x8000_0000

  const INT_MAX: int := 0x7FFF_FFFF

  /** The value an `unsigned long` keeps of a result. */
  function Wrap32(n: int): u32 {
    n % 0x1_0000_0000
  }

  lemma WrapSmall(n: int)
    requires 0 <= n < 0x1_0000_0000
    ensures Wrap32(n) == n
  {
  }

  lemma WrapAdd(a: int, b: int)
    ensures Wrap32(Wrap32(a) + b) == Wrap32(a + b)
  {
  }

  function Zeros(n: nat): seq<byte> {
    seq(n, _ => 0)
  }

  lemma ZerosAdd(a: nat, b: nat)
    ensures Zeros(a) + Zeros(b) == Zeros(a + b)
  {
  }

  function Ascii(s: string): (b: seq<byte>)
    requires forall i :: 0 <= i < |s| ==> s[i] as int < 128
    ensures |b| == |s|
    ensures forall i :: 0 <= i < |s| ==> b[i] == s[i] as int
  {
    seq(|s|, i requires 0 <= i < |s| => var b: byte := s[i] as int; b)
  }

  // ---- little-endian words ----

  /** The bytes of an `unsigned long` in memory. */
  function LittleEndian(n: u32): (b: seq<byte>)
    ensures |b| == 4
  {
    [n % 0x100, n / 0x100 % 0x100, n / 0x100 / 0x100 % 0x100, n / 0x100 / 0x100 / 0x100]
  }

  function Word(b: seq<byte>): u32
    requires |b| == 4
  {
    WordOf(b[0], b[1], b[2], b[3])
  }

  function WordOf(b0: int, b1: int, b2: int, b3: int): int {
    b0 + 0x100 * (b1 + 0x100 * (b2 + 0x100 * b3))
  }

  /** The lowest byte comes first. */
  lemma LittleEndianValue(n: u32)
    ensures var b := LittleEndian(n);
            n == b[0] as int + 0x100 * (b[1] as int) + 0x1_0000 * (b[2] as int) + 0x100_0000 * (b[3] as int)
  {
    LowestByte(n);
    LowestByte(n / 0x100);
    LowestByte(n / 0x100 / 0x100);
  }

  lemma WordRoundTrip(n: u32)
    ensures Word(LittleEndian(n)) == n
  {
    LowestByte(n);
    LowestByte(n / 0x100);
    LowestByte(n / 0x100 / 0x100);
  }

  lemma LowestByte(n: nat)
    ensures n == n % 0x100 + 0x100 * (n / 0x100)
  {
  }

  lemma LittleEndianRoundTrip(b: seq<byte>)
    requires |b| == 4
    ensures LittleEndian(Word(b)) == b
  {
    var b1: int, b2: int, b3: int := b[1], b[2], b[3];
    PushByte(b[0], b1 + 0x100 * (b2 + 0x100 * b3));
    PushByte(b[1], b2 + 0x100 * b3);
    PushByte(b[2], b3);
  }

  lemma PushByte(low: byte, high: nat)
    ensures (low + 0x100 * high) % 0x100 == low && (low + 0x100 * high) / 0x100 == high
  {
  }

  /** The two's complement bit pattern of an `int`, and back. */
  function Unsigned(i: i32): (r: u32)
    ensures r == i % 0x1_0000_0000
  {
    if i < 0 then i + 0x1_0000_0000 else i
  }

  function Signed(n: u32): (r: i32)
    ensures r % 0x1_0000_0000 == n
  {
    if n < 0x8000_0000 then n else n - 0x1_0000_0000
  }

  // ---- C strings held in fixed-size fields ----

  /** The string a field holds: its bytes up to the first NUL. */
  function CString(field: seq<byte>): seq<byte> {
    if field == [] || field[0] == 0 then [] else [field[0]] + CString(field[1..])
  }

  /** `strcpy` into a field: the string and its NUL; later bytes keep their value. */
  function StrCpy(field: seq<byte>, s: seq<byte>): (r: seq<byte>)
    requires |s| < |field|
    ensures |r| == |field|
  {
    s + [0] + field[|s| + 1..]
  }

  /** The string ends at the first NUL, or where the field does. */
  lemma {:induction false} CStringIs(field: seq<byte>)
    ensures CString(field) <= field && 0 !in CString(field)
    ensures |CString(field)| < |field| ==> field[|CString(field)|] == 0
  {
    if field != [] && field[0] != 0 {
      CStringIs(field[1..]);
      assert field == [field[0]] + field[1..];
    }
  }

  /** Copying a string changes no byte behind its NUL. */
  lemma {:induction false} StringRoundTrip(field: seq<byte>, s: seq<byte>)
    requires |s| < |field|
    requires 0 !in s
    ensures CString(StrCpy(field, s)) == s
    ensures forall i :: |s| < i < |field| ==> StrCpy(field, s)[i] == field[i]
  {
    var r := StrCpy(field, s);
    if s != [] {
      assert s[0] in s;
      assert r[0] == s[0] && r[1..] == StrCpy(field[1..], s[1..]);
      StringRoundTrip(field[1..], s[1..]);
    }
  }

  // ---- printf conversions ----

  /** `%d` of a non-negative number. */
  function Decimal(n: nat): (s: seq<byte>)
    ensures s != []
    ensures forall c :: c in s ==> '0' as int <= c <= '9' as int
  {
    if n < 10 then ['0' as int + n] else Decimal(n / 10) + ['0' as int + n % 10]
  }

  lemma {:induction false} DecimalInjective(m: nat, n: nat)
    requires Decimal(m) == Decimal(n)
    ensures m == n
  {
    var s, t := Decimal(m), Decimal(n);
    assert s[|s| - 1] == t[|t| - 1];
    if m >= 10 && n >= 10 {
      assert s[..|s| - 1] == Decimal(m / 10) && t[..|t| - 1] == Decimal(n / 10);
      DecimalInjective(m / 10, n / 10);
    }
  }

  lemma {:induction false} DecimalLength(n: nat, digits: nat, bound: nat)
    requires bound == Pow10(digits) && 0 < digits
    requires n < bound
    ensures |Decimal(n)| <= digits
  {
    if digits > 1 && n >= 10 {
      DecimalLength(n / 10, digits - 1, Pow10(digits - 1));
    }
  }

  function Pow10(e: nat): nat {
    if e == 0 then 1 else 10 * Pow10(e - 1)
  }

  /** An `int` prints in at most ten digits when it is not negative. */
  lemma IntFitsTenDigits(n: nat)
    requires n <= INT_MAX
    ensures |Decimal(n)| <= 10
  {
    assert Pow10(5) == 100_000;
    assert Pow10(10) == 10_000_000_000;
    DecimalLength(n, 10, Pow10(10));
  }

  /** `%x`. */
  function Hex(n: u32): (s: seq<byte>)
    ensures s != []
  {
    if n < 16 then [HexDigit(n)] else Hex(n / 16) + [HexDigit(n % 16)]
  }

  function HexDigit(d: nat): byte
    requires d < 16
  {
    if d < 10 then '0' as int + d else 'a' as int + d - 10
  }
}
