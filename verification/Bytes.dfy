/** Machine integers and the byte orders of the on-disk log and the wire frame. */
module Bytes {

  type byte = x: int | 0 <= x < 0x100
  type u16 = x: int | 0 <= x < 0x1_0000
  type u32 = x: int | 0 <= x < 0x1_0000_0000
  type u64 = x: int | 0 <= x < 0x1_0000_0000_0000_0000

  datatype Option<+T> = None | Some(value: T)

  /** The four bytes of a 32-bit word in little-endian order. */
  function Le32(n: u32): (s: seq<byte>)
    ensures |s| == 4
  {
    var a := n / 0x100;
    var b := a / 0x100;
    [n % 0x100, a % 0x100, b % 0x100, b / 0x100]
  }

  /** The little-endian value of any number of bytes. */
  function FromLe(s: seq<byte>): nat {
    if s == [] then 0 else s[0] as int + 0x100 * FromLe(s[1..])
  }

  lemma FromLeFour(s: seq<byte>)
    requires |s| == 4
    ensures FromLe(s) == s[0] as int + 0x100 * s[1] as int + 0x1_0000 * s[2] as int + 0x100_0000 * s[3] as int
  {
    var t, u := s[1..], s[2..];
    assert t[1..] == u && u[1..] == s[3..] && s[3..][1..] == [];
    assert FromLe(s[3..]) == s[3];
    assert FromLe(u) == s[2] as int + 0x100 * s[3] as int;
    assert FromLe(t) == s[1] as int + 0x100 * FromLe(u);
  }

  /** Writing a word and reading it back gives the word. */
  lemma Le32RoundTrip(n: u32)
    ensures FromLe(Le32(n)) == n
  {
    FromLeFour(Le32(n));
  }
}
