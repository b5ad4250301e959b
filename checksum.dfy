/*
 * in_cksum: the Internet checksum of section 1 of RFC 1071, as both daemon
 * copies compute it (udpfwd_util.c). The buffer is read as 16-bit words in
 * host order; the model fixes the host to be little-endian, so a word is
 * `b[i] + 256 * b[i+1]` and an odd last byte is added as it is.
 */
module Checksum {
  import opened Common

  /** The sum of the buffer's 16-bit words, an odd last byte zero-extended. */
  function WordSum(s: seq<byte>): nat
  {
    if |s| == 0 then 0
    else if |s| == 1 then s[0]
    else s[0] + 0x100 * s[1] + WordSum(s[2..])
  }

  /** One's complement (end-around carry) sum of a non-negative total, as
      RFC 1071 defines it: the value in 1..0xffff congruent to the total
      modulo 0xffff, or 0 for a zero total. */
  function OnesComplementSum(t: nat): (r: nat)
    ensures r <= 0xffff
  {
    if t == 0 then 0 else (t - 1) % 0xffff + 1
  }

  /** The two folding steps of in_cksum: add the high half to the low half,
      then add the carry once more, and keep 16 bits. */
  function Fold(sum: nat): nat
  {
    var s1 := sum / 0x1_0000 + sum % 0x1_0000;
    var s2 := s1 + s1 / 0x1_0000;
    s2 % 0x1_0000
  }

  /** The value in_cksum returns for the bytes `s` and the running checksum `csum`. */
  function InternetChecksum(s: seq<byte>, csum: u16): u16
  {
    0xffff - Fold(csum + WordSum(s))
  }

  lemma {:induction false} WordSumBound(s: seq<byte>)
    ensures WordSum(s) <= 0xffff * (|s| / 2) + 0xff * (|s| % 2)
  {
    if |s| >= 2 {
      WordSumBound(s[2..]);
    }
  }

  /** With an accumulator below 2^31 the two folding steps compute exactly
      the one's complement sum. */
  lemma FoldIsOnesComplementSum(sum: nat)
    requires sum < 0x8000_0000
    ensures Fold(sum) == OnesComplementSum(sum)
  {
    var hi, lo := sum / 0x1_0000, sum % 0x1_0000;
    var s1 := hi + lo;
    assert sum == hi * 0x1_0000 + lo;
    assert hi < 0x8000;
    assert s1 % 0xffff == sum % 0xffff by {
      assert sum == hi * 0xffff + s1;
    }
    if s1 < 0x1_0000 {
      assert Fold(sum) == s1;
      if s1 != 0 {
        assert sum != 0;
        assert (sum - 1) % 0xffff == s1 - 1 by {
          assert sum - 1 == hi * 0xffff + (s1 - 1);
        }
      }
    } else {
      assert Fold(sum) == s1 - 0xffff;
      assert (sum - 1) % 0xffff == s1 - 0x1_0000 by {
        assert sum - 1 == (hi + 1) * 0xffff + (s1 - 0x1_0000);
      }
    }
  }

  /** in_cksum(addr, len, csum), reading `len` bytes of `addr`. The length is
      bounded so that the C code's 32-bit signed accumulator cannot overflow. */
  method InCksum(addr: array<byte>, len: int, csum: u16) returns (answer: u16)
    requires len <= addr.Length && len <= 0xffff
    ensures answer == InternetChecksum(addr[..if len < 0 then 0 else len], csum)
    ensures answer == 0xffff - OnesComplementSum(csum + WordSum(addr[..if len < 0 then 0 else len]))
  {
    var n := if len < 0 then 0 else len;
    var sum := AddWords(addr, len, csum);
    WordSumBound(addr[..n]);
    FoldIsOnesComplementSum(sum);
    answer := FoldSum(sum);
  }

  /** The summing loop of in_cksum: the 16-bit words of the first `len`
      bytes, and an odd last byte, added to `csum`. */
  method AddWords(addr: array<byte>, len: int, csum: u16) returns (sum: int)
    requires len <= addr.Length
    ensures sum == csum + WordSum(addr[..if len < 0 then 0 else len])
  {
    var n := if len < 0 then 0 else len;
    ghost var total := csum + WordSum(addr[..n]);
    var nleft := len;
    var i := 0;
    sum := csum;
    while nleft > 1
      invariant 0 <= i <= n
      invariant nleft == len - i
      invariant sum + WordSum(addr[i..n]) == total
    {
      assert addr[i..n][2..] == addr[i + 2..n];
      sum := sum + addr[i] as int + 0x100 * addr[i + 1] as int;
      i := i + 2;
      nleft := nleft - 2;
    }
    if nleft == 1 {
      sum := sum + addr[i];
    }
    assert addr[i..n] == [] || (nleft == 1 && addr[i..n] == [addr[i]]);
  }

  /** The end of in_cksum: fold the accumulator into 16 bits and complement it. */
  method FoldSum(sum: int) returns (answer: u16)
    requires 0 <= sum < 0x8000_0000
    ensures answer == 0xffff - OnesComplementSum(sum)
  {
    FoldIsOnesComplementSum(sum);
    var s := sum / 0x1_0000 + sum % 0x1_0000;
    ghost var s1 := s;
    s := s + s / 0x1_0000;
    FoldSteps(sum, s1, s);
    answer := 0xffff - s % 0x1_0000;
  }

  /** The folding steps of in_cksum, one assignment at a time. */
  lemma FoldSteps(sum: nat, s1: int, s2: int)
    requires s1 == sum / 0x1_0000 + sum % 0x1_0000 && s2 == s1 + s1 / 0x1_0000
    ensures s2 % 0x1_0000 == Fold(sum)
  {
  }

  lemma {:induction false} WordSumAppend(s: seq<byte>, t: seq<byte>)
    requires |s| % 2 == 0
    ensures WordSum(s + t) == WordSum(s) + WordSum(t)
  {
    if |s| > 0 {
      assert (s + t)[2..] == s[2..] + t;
      WordSumAppend(s[2..], t);
    } else {
      assert s + t == t;
    }
  }

  /** The two bytes of a 16-bit value as a little-endian host stores them. */
  function HostWord(v: u16): seq<byte>
  {
    [v % 0x100, v / 0x100]
  }

  /** Adding the complement of a one's complement sum gives negative zero. */
  lemma AddComplementIsNegativeZero(total: nat)
    ensures OnesComplementSum(total + (0xffff - OnesComplementSum(total))) == 0xffff
  {
    var c := 0xffff - OnesComplementSum(total);
    if total != 0 {
      var k := (total - 1) / 0xffff;
      assert total - 1 == k * 0xffff + (OnesComplementSum(total) - 1);
      assert total + c - 1 == k * 0xffff + 0xfffe;
    }
  }

  /** The receiver's check of RFC 1071: re-computing the checksum over data
      of even length followed by its checksum gives 0. */
  lemma ChecksumVerifies(s: seq<byte>, csum: u16)
    requires |s| % 2 == 0 && |s| + 2 <= 0xffff
    ensures InternetChecksum(s + HostWord(InternetChecksum(s, csum)), csum) == 0
  {
    var c := InternetChecksum(s, csum);
    var total := csum + WordSum(s);
    WordSumBound(s);
    FoldIsOnesComplementSum(total);
    assert c == 0xffff - OnesComplementSum(total);
    WordSumAppend(s, HostWord(c));
    assert WordSum(HostWord(c)) == c by {
      assert HostWord(c)[2..] == [];
    }
    assert csum + WordSum(s + HostWord(c)) == total + c;
    WordSumBound(s + HostWord(c));
    FoldIsOnesComplementSum(total + c);
    AddComplementIsNegativeZero(total);
  }
}
