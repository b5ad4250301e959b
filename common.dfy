/*
 * Value types shared by every part of the relay model: fixed-width integers,
 * IPv4 addresses, C-string comparisons and the decimal / dotted-quad text
 * conversions that the daemons and the CLI use (printf "%d", inet_ntoa, atoi).
 */
module Common {

  type byte = x: int | 0 <= x < 0x100
  type u16 = x: int | 0 <= x < 0x1_0000
  type u32 = x: int | 0 <= x < 0x1_0000_0000

  /** An IPv4 address as a number whose most significant octet is the first
      octet of the dotted quad (the order in which it travels on the wire). */
  type IPv4 = u32

  datatype Option<T> = None | Some(value: T)

  /** `strncmp(a, b, strlen(a)) == 0`: the C idiom used throughout the code base
      to compare a string against a key. It holds exactly when `a` is a prefix
      of `b` (the empty string is a prefix of everything). */
  predicate IsPrefix(a: string, b: string)
  {
    |a| <= |b| && b[..|a|] == a
  }

  /** `strncmp(a, b, n) == 0` on strings without NUL characters: the two
      agree on their first `n` characters, or both end before that. */
  predicate StrnEq(a: string, b: string, n: nat)
  {
    a[..if |a| < n then |a| else n] == b[..if |b| < n then |b| else n]
  }

  /** Big-endian reading of four bytes. */
  function BigEndian32(s: seq<byte>): u32
    requires |s| == 4
  {
    ((s[0] as int * 0x100 + s[1] as int) * 0x100 + s[2] as int) * 0x100 + s[3] as int
  }

  /** The four octets of an address, first octet first. */
  function Octets(a: IPv4): (r: seq<byte>)
    ensures |r| == 4 && BigEndian32(r) == a
  {
    var q1 := a as int / 0x100;
    var q2 := q1 / 0x100;
    [q2 / 0x100, q2 % 0x100, q1 % 0x100, a as int % 0x100]
  }

  lemma BigEndianRoundTrip(s: seq<byte>)
    requires |s| == 4
    ensures Octets(BigEndian32(s)) == s
  {
    var v := BigEndian32(s) as int;
    var q2 := s[0] as int * 0x100 + s[1] as int;
    var q1 := q2 * 0x100 + s[2] as int;
    assert v == q1 * 0x100 + s[3] as int;
    assert v / 0x100 == q1 && v % 0x100 == s[3] as int;
    assert q1 / 0x100 == q2 && q1 % 0x100 == s[2] as int;
    assert q2 / 0x100 == s[0] as int && q2 % 0x100 == s[1] as int;
  }

  function DigitChar(d: nat): char
    requires d < 10
  {
    "0123456789"[d]
  }

  predicate IsDigit(c: char)
  {
    '0' <= c <= '9'
  }

  function DigitValue(c: char): nat
    requires IsDigit(c)
  {
    c as int - '0' as int
  }

  /** printf("%d") of a non-negative number. */
  function NatToDecimal(n: nat): (r: string)
    ensures |r| >= 1
    ensures forall i :: 0 <= i < |r| ==> IsDigit(r[i])
  {
    if n < 10 then [DigitChar(n)] else NatToDecimal(n / 10) + [DigitChar(n % 10)]
  }

  /** printf("%d") of a signed number. */
  function IntToDecimal(i: int): string
  {
    if i < 0 then "-" + NatToDecimal(-i) else NatToDecimal(i)
  }

  /** Value of a string made of decimal digits only. */
  function DigitsValue(s: string): nat
    requires forall i :: 0 <= i < |s| ==> IsDigit(s[i])
  {
    if s == [] then 0 else DigitsValue(s[..|s| - 1]) * 10 + DigitValue(s[|s| - 1])
  }

  /** Length of the longest prefix of `s` made of digits. */
  function DigitRun(s: string): (n: nat)
    ensures n <= |s|
    ensures forall i :: 0 <= i < n ==> IsDigit(s[i])
    ensures n < |s| ==> !IsDigit(s[n])
  {
    if s == [] || !IsDigit(s[0]) then 0 else 1 + DigitRun(s[1..])
  }

  predicate IsSpace(c: char)
  {
    c == ' ' || c == '\t' || c == '\n' || c == '\r' || c == '\U{000b}' || c == '\U{000c}'
  }

  function SkipSpaces(s: string): (r: string)
    ensures |r| <= |s| && r == s[|s| - |r|..]
    ensures r == [] || !IsSpace(r[0])
  {
    if s != [] && IsSpace(s[0]) then SkipSpaces(s[1..]) else s
  }

  /** C `atoi`: leading white space, an optional sign, then the longest run of
      digits; no digits gives 0. Overflow is undefined in C and is not modelled. */
  function Atoi(s: string): int
  {
    var t := SkipSpaces(s);
    if t != [] && (t[0] == '-' || t[0] == '+') then
      var v := DigitsValue(t[1..][..DigitRun(t[1..])]);
      if t[0] == '-' then -(v as int) else v
    else
      DigitsValue(t[..DigitRun(t)])
  }

  lemma {:induction false} DecimalValue(n: nat)
    ensures DigitsValue(NatToDecimal(n)) == n
  {
    if n >= 10 {
      var s := NatToDecimal(n);
      assert s[..|s| - 1] == NatToDecimal(n / 10);
      DecimalValue(n / 10);
    }
  }

  /** `atoi` reads back what `%d` printed. */
  lemma AtoiOfDecimal(n: nat)
    ensures Atoi(NatToDecimal(n)) == n
  {
    var s := NatToDecimal(n);
    assert IsDigit(s[0]) && !IsSpace(s[0]);
    assert SkipSpaces(s) == s;
    assert s[0] != '-' && s[0] != '+';
    DigitRunAll(s);
    assert s[..DigitRun(s)] == s;
    DecimalValue(n);
  }

  lemma {:induction false} DigitRunAll(s: string)
    requires forall i :: 0 <= i < |s| ==> IsDigit(s[i])
    ensures DigitRun(s) == |s|
  {
    if s != [] {
      DigitRunAll(s[1..]);
    }
  }

  /** inet_ntoa: the dotted-quad text of an address. */
  function DottedQuad(a: IPv4): string
  {
    var o := Octets(a);
    NatToDecimal(o[0]) + "." + NatToDecimal(o[1]) + "." + NatToDecimal(o[2]) + "." + NatToDecimal(o[3])
  }
}
