/** The binary frame: magic "BN", version, kind, payload length, payload; numbers big endian. */
module Framing {
  import opened Bytes

  const MAGIC0: byte := 0x42
  const MAGIC1: byte := 0x4E
  const VERSION: byte := 1
  const HEADER_SIZE := 9

  /** Any 16-bit kind can travel; the named kinds are 1, 2 and 3. */
  datatype Frame = Frame(kind: u16, payload: seq<byte>)

  function Be16(v: u16): (s: seq<byte>)
    ensures |s| == 2
  {
    [v / 0x100, v % 0x100]
  }

  function Be32(v: u32): (s: seq<byte>)
    ensures |s| == 4
  {
    Be16(v / 0x1_0000) + Be16(v % 0x1_0000)
  }

  function ReadU16(s: seq<byte>, offset: nat): u16
    requires offset + 2 <= |s|
  {
    0x100 * s[offset] as int + s[offset + 1] as int
  }

  function ReadU32(s: seq<byte>, offset: nat): u32
    requires offset + 4 <= |s|
  {
    0x1_0000 * ReadU16(s, offset) as int + ReadU16(s, offset + 2) as int
  }

  /** The bytes of a frame; the length field keeps the low 32 bits of the payload size. */
  function Encoded(f: Frame): (bytes: seq<byte>)
    ensures |bytes| == HEADER_SIZE + |f.payload|
  {
    [MAGIC0, MAGIC1, VERSION] + Be16(f.kind) + Be32(|f.payload| % 0x1_0000_0000) + f.payload
  }

  method EncodeFrame(f: Frame) returns (bytes: seq<byte>)
    ensures bytes == Encoded(f)
    ensures DecodeFrame(bytes) == if |f.payload| < 0x1_0000_0000 then Some(f) else None
    ensures var n := |f.payload| % 4_294_967_296;
      bytes[..9] == [66, 78, 1, f.kind / 256, f.kind % 256,
                     n / 16_777_216, n / 65_536 % 256, n / 256 % 256, n % 256]
    ensures bytes[9..] == f.payload
  {
    FrameRoundTrip(f);
    FrameHeader(f);
    bytes := [];
    bytes := bytes + [MAGIC0];
    bytes := bytes + [MAGIC1];
    bytes := bytes + [VERSION];
    bytes := bytes + Be16(f.kind);
    bytes := bytes + Be32(|f.payload| % 0x1_0000_0000);
    bytes := bytes + f.payload;
  }

  lemma TopByte(n: u32)
    ensures n / 65_536 / 256 == n / 16_777_216
  {
  }

  lemma Split256(n: nat, high: nat, low: nat)
    requires n == 256 * high + low && low < 256
    ensures n / 256 == high && n % 256 == low
  {
  }

  lemma ThirdByte(n: u32)
    ensures n % 65_536 / 256 == n / 256 % 256
  {
    var a, b := n / 65_536, n % 65_536;
    Split256(n, 256 * a + b / 256, b % 256);
    Split256(n / 256, a, b / 256);
  }

  lemma LowByte(n: u32)
    ensures n % 65_536 % 256 == n % 256
  {
    var a, b := n / 65_536, n % 65_536;
    Split256(n, 256 * a + b / 256, b % 256);
  }

  lemma SizeBytes(n: u32)
    ensures Be32(n) == [n / 16_777_216, n / 65_536 % 256, n / 256 % 256, n % 256]
  {
    TopByte(n);
    ThirdByte(n);
    LowByte(n);
  }

  /** The nine bytes before the payload: "BN", 1, the kind and the size, high bytes first. */
  lemma FrameHeader(f: Frame)
    ensures var n := |f.payload| % 4_294_967_296;
      Encoded(f)[..9] == [66, 78, 1, f.kind / 256, f.kind % 256,
                          n / 16_777_216, n / 65_536 % 256, n / 256 % 256, n % 256]
    ensures Encoded(f)[9..] == f.payload
  {
    SizeBytes(|f.payload| % 4_294_967_296);
  }

  predicate HasHeader(bytes: seq<byte>) {
    |bytes| >= HEADER_SIZE && bytes[0] == MAGIC0 && bytes[1] == MAGIC1 && bytes[2] == VERSION
  }

  function DecodeFrame(bytes: seq<byte>): Option<Frame> {
    if !HasHeader(bytes) then None
    else if |bytes| != HEADER_SIZE + ReadU32(bytes, 5) as int then None
    else Some(Frame(ReadU16(bytes, 3), bytes[HEADER_SIZE..]))
  }

  lemma HeaderFields(f: Frame)
    ensures HasHeader(Encoded(f))
    ensures ReadU16(Encoded(f), 3) == f.kind
    ensures ReadU32(Encoded(f), 5) == |f.payload| % 0x1_0000_0000
    ensures Encoded(f)[HEADER_SIZE..] == f.payload
  {
    var b, n := Encoded(f), |f.payload| % 0x1_0000_0000;
    assert b[3] == f.kind / 0x100 && b[4] == f.kind % 0x100;
    assert b[5] == n / 0x1_0000 / 0x100 && b[6] == n / 0x1_0000 % 0x100;
    assert b[7] == n % 0x1_0000 / 0x100 && b[8] == n % 0x1_0000 % 0x100;
  }

  /** A frame survives the wire exactly when its payload size fits the length field. */
  lemma FrameRoundTrip(f: Frame)
    ensures DecodeFrame(Encoded(f)) == Some(f) <==> |f.payload| < 0x1_0000_0000
    ensures |f.payload| >= 0x1_0000_0000 ==> DecodeFrame(Encoded(f)) == None
  {
    HeaderFields(f);
  }

  lemma ReadBackU16(s: seq<byte>, offset: nat)
    requires offset + 2 <= |s|
    ensures Be16(ReadU16(s, offset)) == s[offset..offset + 2]
  {
  }

  lemma ReadBackU32(s: seq<byte>, offset: nat)
    requires offset + 4 <= |s|
    ensures Be32(ReadU32(s, offset)) == s[offset..offset + 4]
  {
    ReadBackU16(s, offset);
    ReadBackU16(s, offset + 2);
    assert s[offset..offset + 4] == s[offset..offset + 2] + s[offset + 2..offset + 4];
  }

  /** Every accepted byte string is the encoding of the frame it decodes to. */
  lemma AcceptedIsEncoded(bytes: seq<byte>)
    requires DecodeFrame(bytes).Some?
    ensures Encoded(DecodeFrame(bytes).value) == bytes
    ensures |DecodeFrame(bytes).value.payload| < 0x1_0000_0000
  {
    ReadBackU16(bytes, 3);
    ReadBackU32(bytes, 5);
    FramePieces(bytes);
  }

  lemma FramePieces(bytes: seq<byte>)
    requires HasHeader(bytes)
    ensures bytes == [MAGIC0, MAGIC1, VERSION] + bytes[3..5] + bytes[5..9] + bytes[9..]
  {
    assert bytes[..3] == [MAGIC0, MAGIC1, VERSION];
    assert bytes == bytes[..3] + bytes[3..5] + bytes[5..9] + bytes[9..];
  }

  /** No accepted byte string is a proper prefix of another. */
  lemma PrefixFree(a: seq<byte>, b: seq<byte>)
    requires DecodeFrame(a).Some? && DecodeFrame(b).Some?
    requires a <= b
    ensures a == b
  {
    assert forall i :: 0 <= i < HEADER_SIZE ==> a[i] == b[i];
  }

  lemma SameStart(s: seq<byte>, a: seq<byte>, b: seq<byte>)
    requires DecodeFrame(a).Some? && DecodeFrame(b).Some?
    requires a <= s && b <= s
    ensures a == b
  {
    if |a| <= |b| {
      PrefixFree(a, b);
    } else {
      PrefixFree(b, a);
    }
  }

  function Stream(fs: seq<Frame>): seq<byte> {
    if fs == [] then [] else Encoded(fs[0]) + Stream(fs[1..])
  }

  /** A stream of frames splits back in only one way. */
  lemma {:induction false} StreamSplitsUniquely(fs: seq<Frame>, gs: seq<Frame>)
    requires forall f :: f in fs + gs ==> |f.payload| < 0x1_0000_0000
    requires Stream(fs) == Stream(gs)
    ensures fs == gs
  {
    if fs != [] && gs != [] {
      var s, a, b := Stream(fs), Encoded(fs[0]), Encoded(gs[0]);
      assert fs[0] in fs + gs && gs[0] in fs + gs;
      FrameRoundTrip(fs[0]);
      FrameRoundTrip(gs[0]);
      assert a == s[..|a|] && b == s[..|b|];
      SameStart(s, a, b);
      assert Stream(fs[1..]) == s[|a|..] && Stream(gs[1..]) == s[|b|..];
      assert forall f :: f in fs[1..] + gs[1..] ==> f in fs + gs;
      StreamSplitsUniquely(fs[1..], gs[1..]);
      assert fs == [fs[0]] + fs[1..] && gs == [gs[0]] + gs[1..];
    }
  }
}
