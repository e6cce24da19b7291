/** One's-complement checksums as the IPv4 and ICMP code computes them, against the definition
    of section 1 of RFC 1071. */
module Checksum {
  import opened Bytes

  /** The sum of the 16-bit words the code adds up; an odd last byte is not included. */
  function Sum16(s: seq<byte>): (sum: nat)
    ensures sum <= 0xffff * (|s| / 2)
  {
    if |s| < 2 then 0 else FromBe16(s[..2]) + Sum16(s[2..])
  }

  /** One's-complement addition: the carry is added back in. */
  function EndAround(a: u16, b: u16): u16 {
    var sum: int := (a as int) + b;
    if sum > 0xffff then sum - 0xffff else sum
  }

  /** The one's-complement sum of a message, an odd last byte padded with zero. */
  function OnesSum(s: seq<byte>): u16 {
    if s == [] then 0
    else if |s| == 1 then FromBe16([s[0], 0])
    else EndAround(FromBe16(s[..2]), OnesSum(s[2..]))
  }

  /** A receiver accepts a message whose one's-complement sum is all ones. */
  predicate Verifies(s: seq<byte>) {
    OnesSum(s) == 0xffff
  }

  /** Low and high half of the sum add up without a second carry. */
  predicate SingleCarry(sum: nat) {
    sum % 0x1_0000 + (sum / 0x1_0000) % 0x1_0000 <= 0xffff
  }

  /** The complement of low half plus high half, in 16-bit arithmetic. */
  function Complement(build: Build, sum: nat): Outcome<u16> {
    var folded := sum % 0x1_0000 + (sum / 0x1_0000) % 0x1_0000;
    if folded <= 0xffff then Ok(0xffff - folded)
    else if build.Checked? then Panic
    else Ok(0xffff - (folded - 0x1_0000))
  }

  lemma {:induction false} SumConcat(a: seq<byte>, b: seq<byte>)
    requires |a| % 2 == 0
    ensures Sum16(a + b) == Sum16(a) + Sum16(b)
  {
    if a == [] {
      assert a + b == b;
    } else {
      SumConcat(a[2..], b);
      assert (a + b)[..2] == a[..2] && (a + b)[2..] == a[2..] + b;
    }
  }

  /** What an odd last byte adds to the padded sum. */
  function Tail(s: seq<byte>): nat {
    if |s| % 2 == 1 then FromBe16([s[|s| - 1], 0]) else 0
  }

  /** Number of end-around carries in the one's-complement sum. */
  function Carries(s: seq<byte>): nat {
    if |s| < 2 then 0
    else Carries(s[2..]) + if FromBe16(s[..2]) + OnesSum(s[2..]) > 0xffff then 1 else 0
  }

  /** The one's-complement sum is the plain sum modulo 2^16 - 1, and is zero only for zero. */
  lemma {:induction false} OnesSumIsModular(s: seq<byte>)
    ensures Sum16(s) + Tail(s) == OnesSum(s) + 0xffff * Carries(s)
    ensures OnesSum(s) == 0 ==> Sum16(s) + Tail(s) == 0
  {
    if |s| >= 2 {
      OnesSumIsModular(s[2..]);
      assert Tail(s) == Tail(s[2..]);
    }
  }

  /** A total that exceeds a multiple of 2^16 - 1 by d, less than a whole one. */
  lemma Residue(total: nat, m: nat, d: nat, ones: u16, carries: nat)
    requires total == 0xffff * m + d && d < 0xffff && total == ones + 0xffff * carries && (ones == 0 ==> total == 0) && total > 0
    ensures ones == 0xffff <==> d == 0
  {
    if ones == 0xffff { assert total == 0xffff * (carries + 1); assert 0xffff * (carries + 1 - m) == d; }
    else { assert 0xffff * (m - carries) == ones - d; }
  }

  /** Sum plus checksum is a multiple of 2^16 - 1, or one more after a second carry. */
  lemma SumPlusComplement(build: Build, sum: nat)
    requires sum < 0x1_0000_0000 && Complement(build, sum).Ok?
    ensures sum + Complement(build, sum).value
            == if SingleCarry(sum) then 0xffff * (sum / 0x1_0000 + 1) else 0xffff * (sum / 0x1_0000 + 2) + 1
  {
    var hi := sum / 0x1_0000;
    assert hi < 0x1_0000;
    assert hi % 0x1_0000 == hi;
  }

  lemma SumFits(s: seq<byte>)
    requires |s| <= 0x1_0001
    ensures Sum16(s) < 0x1_0000_0000
  {}

  /** Filling in the computed checksum makes the message verify if and only if the sum folds
      with a single carry and no odd last byte was left out of it. */
  lemma PatchedVerifies(build: Build, before: seq<byte>, after: seq<byte>, c: u16)
    requires |before| % 2 == 0 && |before| + |after| < 0x1_0000
    requires Complement(build, Sum16(before + [0, 0] + after)) == Ok(c)
    ensures Verifies(before + Be16(c) + after) <==> SingleCarry(Sum16(before + [0, 0] + after)) && Tail(after) == 0
  {
    SumFits(before + [0, 0] + after);
    SumPatched(before, after, c);
    PatchedTail(before, Be16(c), after);
    VerifiesIff(build, before + Be16(c) + after, Sum16(before + [0, 0] + after), c);
  }

  /** A checked build panics exactly when there is a second carry; an unchecked one never does. */
  lemma ComplementPanics(build: Build, sum: nat)
    ensures Complement(build, sum).Ok? <==> build.Wrapping? || SingleCarry(sum)
    ensures !Complement(build, sum).Err?
  {}

  lemma AllOnes(build: Build, sum: nat, c: u16, tail: nat, ones: u16, carries: nat)
    requires sum < 0x1_0000_0000 && Complement(build, sum) == Ok(c) && tail <= 0xff00
    requires sum + c + tail == ones + 0xffff * carries && (ones == 0 ==> sum + c + tail == 0)
    ensures ones == 0xffff <==> SingleCarry(sum) && tail == 0
  {
    SumPlusComplement(build, sum);
    var hi := sum / 0x1_0000;
    if SingleCarry(sum) {
      Residue(sum + c + tail, hi + 1, tail, ones, carries);
    } else {
      Residue(sum + c + tail, hi + 2, 1 + tail, ones, carries);
    }
  }

  lemma VerifiesIff(build: Build, patched: seq<byte>, sum: nat, c: u16)
    requires sum < 0x1_0000_0000 && Complement(build, sum) == Ok(c) && Sum16(patched) == sum + c
    ensures Verifies(patched) <==> SingleCarry(sum) && Tail(patched) == 0
  {
    OnesSumIsModular(patched);
    AllOnes(build, sum, c, Tail(patched), OnesSum(patched), Carries(patched));
  }

  lemma PatchedTail(before: seq<byte>, field: seq<byte>, after: seq<byte>)
    requires |before| % 2 == 0 && |field| == 2
    ensures Tail(before + field + after) == Tail(after)
  {
    assert |before + field + after| == |before| + |after| + 2;
  }

  lemma SumOfParts(before: seq<byte>, field: seq<byte>, after: seq<byte>)
    requires |before| % 2 == 0 && |field| == 2
    ensures Sum16(before + field + after) == Sum16(before) + FromBe16(field) + Sum16(after)
  {
    SumConcat(before, field + after);
    SumConcat(field, after);
    assert before + field + after == before + (field + after);
    assert field[..2] == field;
  }

  lemma SumPatched(before: seq<byte>, after: seq<byte>, c: u16)
    requires |before| % 2 == 0
    ensures Sum16(before + Be16(c) + after) == Sum16(before + [0, 0] + after) + c
  {
    SumOfParts(before, Be16(c), after);
    SumOfParts(before, [0, 0], after);
  }
}
