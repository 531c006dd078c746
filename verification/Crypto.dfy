/**
 Hex (section 8 of RFC 4648, lower-case output), the payload an agent signs, and
 the decision logic around Ed25519 (section 5.1 of RFC 8032), which itself is an
 unknown predicate.
 */
module Crypto {
  import opened Bytes
  import opened Text
  import opened Records

  // ---------- Hex ----------

  function HexValue(c: char): int {
    if '0' <= c <= '9' then (c - '0') as int
    else if 'a' <= c <= 'f' then 10 + (c - 'a') as int
    else if 'A' <= c <= 'F' then 10 + (c - 'A') as int
    else -1
  }

  function HexDigit(d: nat): char
    requires d < 16
  {
    if d < 10 then '0' + d as char else 'a' + (d - 10) as char
  }

  /** The digits of section 8 of RFC 4648. */
  lemma HexDigits()
    ensures HexDigit(0) == '0' && HexDigit(1) == '1' && HexDigit(2) == '2' && HexDigit(3) == '3'
    ensures HexDigit(4) == '4' && HexDigit(5) == '5' && HexDigit(6) == '6' && HexDigit(7) == '7'
    ensures HexDigit(8) == '8' && HexDigit(9) == '9' && HexDigit(10) == 'a' && HexDigit(11) == 'b'
    ensures HexDigit(12) == 'c' && HexDigit(13) == 'd' && HexDigit(14) == 'e' && HexDigit(15) == 'f'
    ensures HexValue('0') == 0 && HexValue('1') == 1 && HexValue('2') == 2 && HexValue('3') == 3
    ensures HexValue('4') == 4 && HexValue('5') == 5 && HexValue('6') == 6 && HexValue('7') == 7
    ensures HexValue('8') == 8 && HexValue('9') == 9
    ensures HexValue('a') == HexValue('A') == 10 && HexValue('b') == HexValue('B') == 11
    ensures HexValue('c') == HexValue('C') == 12 && HexValue('d') == HexValue('D') == 13
    ensures HexValue('e') == HexValue('E') == 14 && HexValue('f') == HexValue('F') == 15
  {
  }

  predicate IsHex(s: string) {
    |s| % 2 == 0 && forall i :: 0 <= i < |s| ==> HexValue(s[i]) >= 0
  }

  /** The bytes of a hex string that is known to be well formed. */
  function HexBytes(s: string): (b: seq<byte>)
    requires IsHex(s)
    ensures 2 * |b| == |s|
  {
    if s == [] then [] else [16 * HexValue(s[0]) + HexValue(s[1])] + HexBytes(s[2..])
  }

  /** Nothing at all for an ill-formed string. */
  function Unhex(s: string): seq<byte> {
    if IsHex(s) then HexBytes(s) else []
  }

  function Hex(bytes: seq<byte>): (s: string)
    ensures |s| == 2 * |bytes|
  {
    if bytes == [] then "" else [HexDigit(bytes[0] / 16), HexDigit(bytes[0] % 16)] + Hex(bytes[1..])
  }

  lemma IsHexTail(s: string)
    requires |s| >= 2 && |s| % 2 == 0
    ensures IsHex(s) <==> HexValue(s[0]) >= 0 && HexValue(s[1]) >= 0 && IsHex(s[2..])
  {
    if IsHex(s[2..]) && HexValue(s[0]) >= 0 && HexValue(s[1]) >= 0 {
      assert forall i :: 2 <= i < |s| ==> s[i] == s[2..][i - 2];
    }
  }

  /** The bytes read so far continue into the decoding of the whole string. */
  ghost predicate HexSoFar(hex: string, index: nat, bytes: seq<byte>) {
    && index <= |hex|
    && (IsHex(hex) <==> IsHex(hex[index..]))
    && (IsHex(hex) ==> bytes + HexBytes(hex[index..]) == HexBytes(hex))
  }

  lemma HexStep(hex: string, index: nat, bytes: seq<byte>)
    requires |hex| % 2 == 0 && index % 2 == 0 && index < |hex|
    requires HexSoFar(hex, index, bytes)
    ensures HexValue(hex[index]) < 0 || HexValue(hex[index + 1]) < 0 ==> !IsHex(hex)
    ensures HexValue(hex[index]) >= 0 && HexValue(hex[index + 1]) >= 0 ==>
              HexSoFar(hex, index + 2, bytes + [16 * HexValue(hex[index]) + HexValue(hex[index + 1])])
  {
    var rest := hex[index..];
    IsHexTail(rest);
    assert rest[2..] == hex[index + 2..];
    if IsHex(hex) {
      assert HexBytes(rest) == [16 * HexValue(hex[index]) + HexValue(hex[index + 1])] + HexBytes(hex[index + 2..]);
    }
  }

  method DecodeHex(hex: string) returns (bytes: seq<byte>)
    ensures bytes == Unhex(hex)
  {
    if |hex| % 2 != 0 {
      return [];
    }
    bytes := [];
    var index := 0;
    while index < |hex|
      invariant index % 2 == 0 && HexSoFar(hex, index, bytes)
    {
      HexStep(hex, index, bytes);
      var high, low := HexValue(hex[index]), HexValue(hex[index + 1]);
      if high < 0 || low < 0 {
        return [];
      }
      bytes := bytes + [16 * high + low];
      index := index + 2;
    }
    HexDone(hex, bytes);
  }

  lemma HexDone(hex: string, bytes: seq<byte>)
    requires HexSoFar(hex, |hex|, bytes)
    ensures bytes == Unhex(hex)
  {
    assert hex[|hex|..] == "";
  }

  lemma {:induction false} HexConcat(x: seq<byte>, y: seq<byte>)
    ensures Hex(x + y) == Hex(x) + Hex(y)
  {
    if x == [] {
      assert x + y == y;
    } else {
      assert (x + y)[1..] == x[1..] + y;
      HexConcat(x[1..], y);
    }
  }

  method EncodeHex(bytes: seq<byte>) returns (hex: string)
    ensures hex == Hex(bytes)
  {
    hex := "";
    for i := 0 to |bytes|
      invariant hex == Hex(bytes[..i])
    {
      assert bytes[..i + 1] == bytes[..i] + [bytes[i]];
      HexConcat(bytes[..i], [bytes[i]]);
      hex := hex + [HexDigit(bytes[i] / 16), HexDigit(bytes[i] % 16)];
    }
    assert bytes[..|bytes|] == bytes;
  }

  lemma HexDigitValue(d: nat)
    requires d < 16
    ensures HexValue(HexDigit(d)) == d
  {
  }

  /** Decoding undoes encoding. */
  lemma {:induction false} HexRoundTrip(bytes: seq<byte>)
    ensures IsHex(Hex(bytes)) && Unhex(Hex(bytes)) == bytes
  {
    if bytes != [] {
      var s := Hex(bytes);
      HexDigitValue(bytes[0] / 16);
      HexDigitValue(bytes[0] % 16);
      assert s[2..] == Hex(bytes[1..]);
      HexRoundTrip(bytes[1..]);
      assert forall i :: 2 <= i < |s| ==> s[i] == s[2..][i - 2];
    }
  }

  function LowerHex(c: char): char {
    if 'A' <= c <= 'F' then 'a' + (c - 'A') else c
  }

  lemma HexPair(a: char, b: char, n: byte)
    requires HexValue(a) >= 0 && HexValue(b) >= 0 && n == 16 * HexValue(a) + HexValue(b)
    ensures HexDigit(n / 16) == LowerHex(a) && HexDigit(n % 16) == LowerHex(b)
  {
    assert n / 16 == HexValue(a) && n % 16 == HexValue(b);
  }

  /** Encoding what was decoded lowers the case of a well-formed string. */
  lemma {:induction false} HexNormalises(s: string)
    requires IsHex(s)
    ensures |Hex(Unhex(s))| == |s|
    ensures forall i :: 0 <= i < |s| ==> Hex(Unhex(s))[i] == LowerHex(s[i])
  {
    if s != [] {
      var h, b := Hex(HexBytes(s)), HexBytes(s);
      HexPair(s[0], s[1], b[0]);
      HexNormalises(s[2..]);
      assert b[1..] == HexBytes(s[2..]);
      forall i | 2 <= i < |s| ensures h[i] == LowerHex(s[i]) {
        assert h[i] == Hex(Unhex(s[2..]))[i - 2] && s[i] == s[2..][i - 2];
      }
    }
  }

  // ---------- The signed payload ----------

  function MetadataText(m: Metadata): string {
    if m == [] then "" else "metadata." + m[0].0 + "=" + m[0].1 + "\n" + MetadataText(m[1..])
  }

  function Payload(r: AgentRecord): string {
    "agent_id=" + r.agentId + "\n" + "node_id=" + r.nodeId + "\n" + "endpoint=" + r.endpoint + "\n" +
    "revision=" + Decimal(r.revision) + "\n" + MetadataText(r.metadata)
  }

  method CanonicalAgentPayload(r: AgentRecord) returns (output: string)
    ensures output == Payload(r)
  {
    output := "agent_id=" + r.agentId + "\n";
    output := output + "node_id=" + r.nodeId + "\n";
    output := output + "endpoint=" + r.endpoint + "\n";
    output := output + "revision=" + Decimal(r.revision) + "\n";
    for i := 0 to |r.metadata|
      invariant output + MetadataText(r.metadata[i..]) == Payload(r)
    {
      var (key, value) := r.metadata[i];
      var line := "metadata." + key + "=" + value + "\n";
      assert MetadataText(r.metadata[i..]) == line + MetadataText(r.metadata[i + 1..]) by {
        assert r.metadata[i..][1..] == r.metadata[i + 1..];
      }
      output := output + line;
    }
  }

  function MetadataLines(m: Metadata): (ls: seq<string>)
    ensures |ls| == |m|
    ensures forall i :: 0 <= i < |m| ==> ls[i] == "metadata." + m[i].0 + "=" + m[i].1
  {
    if m == [] then [] else ["metadata." + m[0].0 + "=" + m[0].1] + MetadataLines(m[1..])
  }

  function PayloadLines(r: AgentRecord): seq<string> {
    ["agent_id=" + r.agentId, "node_id=" + r.nodeId, "endpoint=" + r.endpoint, "revision=" + Decimal(r.revision)]
    + MetadataLines(r.metadata)
  }

  lemma {:induction false} MetadataTextIsLines(m: Metadata)
    ensures MetadataText(m) == Unlines(MetadataLines(m))
  {
    if m != [] {
      MetadataTextIsLines(m[1..]);
      assert MetadataLines(m)[1..] == MetadataLines(m[1..]);
    }
  }

  lemma UnlinesFour(a: string, b: string, c: string, d: string, rest: seq<string>)
    ensures Unlines([a, b, c, d] + rest) == a + "\n" + b + "\n" + c + "\n" + d + "\n" + Unlines(rest)
  {
    UnlinesConcat([a, b, c, d], rest);
    assert [a, b, c, d][1..] == [b, c, d] && [b, c, d][1..] == [c, d] && [c, d][1..] == [d] && [d][1..] == [];
    assert Unlines([d]) == d + "\n";
    assert Unlines([c, d]) == c + "\n" + (d + "\n");
    assert Unlines([b, c, d]) == b + "\n" + (c + "\n" + (d + "\n"));
  }

  lemma PayloadIsLines(r: AgentRecord)
    ensures Payload(r) == Unlines(PayloadLines(r))
  {
    MetadataTextIsLines(r.metadata);
    UnlinesFour("agent_id=" + r.agentId, "node_id=" + r.nodeId, "endpoint=" + r.endpoint,
                "revision=" + Decimal(r.revision), MetadataLines(r.metadata));
  }

  /** No field holds a line feed and no metadata key holds an '='. */
  ghost predicate Signable(r: AgentRecord) {
    && Lacks(r.agentId, '\n') && Lacks(r.nodeId, '\n') && Lacks(r.endpoint, '\n')
    && forall i :: 0 <= i < |r.metadata| ==>
         Lacks(r.metadata[i].0, '\n') && Lacks(r.metadata[i].0, '=') && Lacks(r.metadata[i].1, '\n')
  }

  lemma LacksConcat(a: string, b: string, c: char)
    requires Lacks(a, c) && Lacks(b, c)
    ensures Lacks(a + b, c)
  {
  }

  lemma PayloadLinesAreLines(r: AgentRecord)
    requires Signable(r)
    ensures forall l :: l in PayloadLines(r) ==> Lacks(l, '\n')
  {
    assert forall i :: 0 <= i < |Decimal(r.revision)| ==> IsDigit(Decimal(r.revision)[i]);
    forall i | 0 <= i < |r.metadata| ensures Lacks(MetadataLines(r.metadata)[i], '\n') {
      LacksConcat("metadata.", r.metadata[i].0, '\n');
    }
  }

  lemma PrefixCancels(p: string, a: string, b: string)
    requires p + a == p + b
    ensures a == b
  {
    assert (p + a)[|p|..] == a && (p + b)[|p|..] == b;
  }

  lemma MetadataLineInjective(k: string, v: string, k': string, v': string)
    requires Lacks(k, '=') && Lacks(k', '=')
    requires "metadata." + k + "=" + v == "metadata." + k' + "=" + v'
    ensures k == k' && v == v'
  {
    assert "metadata." + k + "=" + v == "metadata." + (k + "=" + v);
    assert "metadata." + k' + "=" + v' == "metadata." + (k' + "=" + v');
    PrefixCancels("metadata.", k + "=" + v, k' + "=" + v');
    KeyValueInjective(k, v, k', v');
  }

  lemma MetadataLinesInjective(m: Metadata, n: Metadata)
    requires MetadataLines(m) == MetadataLines(n)
    requires forall i :: 0 <= i < |m| ==> Lacks(m[i].0, '=')
    requires forall i :: 0 <= i < |n| ==> Lacks(n[i].0, '=')
    ensures m == n
  {
    forall i | 0 <= i < |m| ensures m[i] == n[i] {
      assert MetadataLines(m)[i] == MetadataLines(n)[i];
      MetadataLineInjective(m[i].0, m[i].1, n[i].0, n[i].1);
    }
  }

  /** A signed payload determines every signed field. */
  lemma PayloadInjective(r: AgentRecord, q: AgentRecord)
    requires Signable(r) && Signable(q)
    requires Payload(r) == Payload(q)
    ensures r.agentId == q.agentId && r.nodeId == q.nodeId && r.endpoint == q.endpoint
    ensures r.revision == q.revision && r.metadata == q.metadata
  {
    PayloadIsLines(r);
    PayloadIsLines(q);
    PayloadLinesAreLines(r);
    PayloadLinesAreLines(q);
    LinesOfUnlines(PayloadLines(r));
    LinesOfUnlines(PayloadLines(q));
    var a, b := PayloadLines(r), PayloadLines(q);
    assert a[0] == b[0] && a[1] == b[1] && a[2] == b[2] && a[3] == b[3];
    PrefixCancels("agent_id=", r.agentId, q.agentId);
    PrefixCancels("node_id=", r.nodeId, q.nodeId);
    PrefixCancels("endpoint=", r.endpoint, q.endpoint);
    PrefixCancels("revision=", Decimal(r.revision), Decimal(q.revision));
    DecimalInjective(r.revision, q.revision);
    assert a[4..] == MetadataLines(r.metadata) && b[4..] == MetadataLines(q.metadata);
    MetadataLinesInjective(r.metadata, q.metadata);
  }

  lemma Regroup(p: string, a: string, q: string, b: string, c: string, z: string)
    ensures p + (a + q + b) + q + c + z == p + a + q + (b + q + c) + z
  {
  }

  lemma PayloadShape(r: AgentRecord)
    ensures Payload(r) == ("agent_id=" + r.agentId + "\n" + "node_id=") + r.nodeId + ("\n" + "endpoint=") + r.endpoint
                          + ("\n" + "revision=" + Decimal(r.revision) + "\n" + MetadataText(r.metadata))
  {
  }

  /** Without the restriction the payload is ambiguous: a line feed in a field imitates the next line. */
  lemma PayloadAmbiguous(r: AgentRecord, a: string, b: string, c: string)
    ensures Payload(r.(nodeId := a + ("\n" + "endpoint=") + b, endpoint := c))
         == Payload(r.(nodeId := a, endpoint := b + ("\n" + "endpoint=") + c))
    ensures a + ("\n" + "endpoint=") + b != a
  {
    assert |a + ("\n" + "endpoint=") + b| > |a|;
    PayloadShape(r.(nodeId := a + ("\n" + "endpoint=") + b, endpoint := c));
    PayloadShape(r.(nodeId := a, endpoint := b + ("\n" + "endpoint=") + c));
    Regroup("agent_id=" + r.agentId + "\n" + "node_id=", a, "\n" + "endpoint=", b, c,
            "\n" + "revision=" + Decimal(r.revision) + "\n" + MetadataText(r.metadata));
  }

  lemma MetadataTextOne(k: string, v: string)
    ensures MetadataText([(k, v)]) == "metadata." + (k + "=" + v) + "\n"
  {
    var one := [(k, v)];
    assert one[1..] == [] && MetadataText(one[1..]) == "";
  }

  /** So is an '=' in a metadata key: it may as well belong to the value. */
  lemma MetadataAmbiguous(r: AgentRecord, k: string, v: string, w: string)
    ensures Payload(r.(metadata := [(k + "=" + v, w)])) == Payload(r.(metadata := [(k, v + "=" + w)]))
    ensures k + "=" + v != k
  {
    MetadataTextOne(k + "=" + v, w);
    MetadataTextOne(k, v + "=" + w);
    assert k + "=" + v + "=" + w == k + "=" + (v + "=" + w);
    assert |k + "=" + v| > |k|;
  }

  function BeforeRevision(r: AgentRecord): string {
    "agent_id=" + r.agentId + "\n" + "node_id=" + r.nodeId + "\n" + "endpoint=" + r.endpoint + "\n" + "revision="
  }

  lemma PayloadAroundRevision(r: AgentRecord)
    ensures Payload(r) == BeforeRevision(r) + Decimal(r.revision) + ("\n" + MetadataText(r.metadata))
  {
  }

  lemma MiddleCancels(front: string, a: string, b: string, end: string)
    requires front + a + end == front + b + end
    ensures a == b
  {
    var x, y := front + a + end, front + b + end;
    assert |a| == |b|;
    assert x[|front|..|front| + |a|] == a && y[|front|..|front| + |b|] == b;
  }

  /** With everything else equal, the payload determines the revision, whatever the fields hold. */
  lemma PayloadFixesRevision(r: AgentRecord, revision: u64, expiresAt: int)
    ensures Payload(r.(expiresAt := expiresAt, revision := revision)) == Payload(r) <==> revision == r.revision
  {
    var q := r.(expiresAt := expiresAt, revision := revision);
    var front, end := BeforeRevision(r), "\n" + MetadataText(r.metadata);
    PayloadAroundRevision(r);
    PayloadAroundRevision(q);
    if Payload(q) == Payload(r) {
      MiddleCancels(front, Decimal(revision), Decimal(r.revision), end);
      DecimalInjective(revision, r.revision);
    }
  }

  // ---------- Signature status ----------

  datatype SignatureStatus = Valid | Missing | Invalid | Unsupported

  /** Built without libsodium, or with it and then with some way to check a signature. */
  datatype Verifier = NoSodium | Sodium(check: (seq<byte>, string, seq<byte>) -> bool)

  const PUBLIC_KEY_BYTES := 32
  const SIGNATURE_BYTES := 64

  function SignatureStatusOf(verifier: Verifier, r: AgentRecord): (status: SignatureStatus)
    ensures status == Missing <==> r.publicKeyHex == "" || r.signatureHex == ""
    ensures status == Valid <==>
              && verifier.Sodium?
              && |Unhex(r.publicKeyHex)| == 32 && |Unhex(r.signatureHex)| == 64
              && verifier.check(Unhex(r.signatureHex), Payload(r), Unhex(r.publicKeyHex))
    ensures status == Unsupported <==> verifier.NoSodium? && Unhex(r.publicKeyHex) != [] && Unhex(r.signatureHex) != []
  {
    if r.publicKeyHex == "" || r.signatureHex == "" then Missing
    else
      var publicKey, signature := Unhex(r.publicKeyHex), Unhex(r.signatureHex);
      if publicKey == [] || signature == [] then Invalid
      else if verifier.NoSodium? then Unsupported
      else if |publicKey| != PUBLIC_KEY_BYTES || |signature| != SIGNATURE_BYTES then Invalid
      else if verifier.check(signature, Payload(r), publicKey) then Valid
      else Invalid
  }

  function StatusMessage(status: SignatureStatus): string {
    match status
    case Valid => "valid"
    case Missing => "missing_signature"
    case Invalid => "invalid_signature"
    case Unsupported => "signature_verification_unsupported"
  }
}
