/** Bytes, machine words and the big-endian conversions the protocol code uses. */
module Bytes {

  type byte = x: int | 0 <= x < 0x100
  type u16 = x: int | 0 <= x < 0x1_0000
  type u32 = x: int | 0 <= x < 0x1_0000_0000
  type u64 = x: int | 0 <= x < 0x1_0000_0000_0000_0000

  type Ip = s: seq<byte> | |s| == 4 witness [0, 0, 0, 0]
  type Mac = s: seq<byte> | |s| == 6 witness [0, 0, 0, 0, 0, 0]

  /** How the build treats an arithmetic overflow: a checked build panics, an
      unchecked one drops the carry. */
  datatype Build = Checked | Wrapping

  /** The three ways a fallible routine of the kernel can end. */
  datatype Outcome<+T> = Ok(value: T) | Err | Panic

  function Be16(w: u16): (s: seq<byte>)
    ensures |s| == 2
  {
    [w / 0x100, w % 0x100]
  }

  function FromBe16(s: seq<byte>): (w: u16)
    requires |s| == 2
  {
    var hi: int, lo: int := s[0], s[1];
    hi * 0x100 + lo
  }

  function Be32(w: u32): (s: seq<byte>)
    ensures |s| == 4
  {
    Be16(w / 0x1_0000) + Be16(w % 0x1_0000)
  }

  function FromBe32(s: seq<byte>): (w: u32)
    requires |s| == 4
  {
    var hi: int, lo: int := FromBe16(s[..2]), FromBe16(s[2..]);
    hi * 0x1_0000 + lo
  }

  lemma Be32RoundTrip(w: u32)
    ensures FromBe32(Be32(w)) == w
  {
    assert Be32(w)[..2] == Be16(w / 0x1_0000);
    assert Be32(w)[2..] == Be16(w % 0x1_0000);
  }

  /** The number a sequence of bytes stands for in network byte order: most significant first. */
  function Number(s: seq<byte>): nat {
    if s == [] then 0
    else
      var last: int := s[|s| - 1];
      Number(s[..|s| - 1]) * 0x100 + last
  }

  lemma NumberOfTwo(s: seq<byte>)
    requires |s| == 2
    ensures Number(s) == FromBe16(s) && Be16(FromBe16(s)) == s
  {
    assert s[..1][..0] == [];
    assert Number(s[..1]) == s[0];
    assert Be16(FromBe16(s)) == [s[0], s[1]];
  }

  lemma NumberOfFour(s: seq<byte>)
    requires |s| == 4
    ensures Number(s) == FromBe32(s)
  {
    assert s[..3][..2] == s[..2];
    NumberOfTwo(s[..2]);
    assert s[2..][0] == s[2] && s[2..][1] == s[3];
  }

  function Zeros(n: nat): (s: seq<byte>)
    ensures |s| == n
  {
    seq(n, _ => 0)
  }

  lemma SliceOfSlice(s: seq<byte>, i: nat, j: nat, k: nat, l: nat)
    requires i <= j <= |s| && k <= l <= j - i
    ensures s[i..j][k..l] == s[i + k..i + l]
  {
    var a, b := s[i..j][k..l], s[i + k..i + l];
    forall m: nat | m < l - k ensures a[m] == b[m] { assert a[m] == s[i..j][k + m]; }
  }

  function Max(a: nat, b: nat): nat {
    if a < b then b else a
  }

  function Min(a: nat, b: nat): nat {
    if a < b then a else b
  }

  lemma FitsWord(n: nat)
    requires n < 0x1_0000
    ensures n % 0x1_0000 == n
  {}
}
