/** When a signed payload can be read in two ways: two neighbouring fields and the text between them. */
module PayloadSplits {
  import opened Text
  import opened Records
  import opened Crypto

  ghost predicate OccursAt(p: string, s: string, i: nat) {
    i + |p| <= |s| && s[i..i + |p|] == p
  }

  ghost predicate Occurs(p: string, s: string) {
    exists i: nat :: OccursAt(p, s, i)
  }

  /** The first character comes once only, so that the text never overlaps itself. */
  ghost predicate Borderless(sep: string) {
    sep != "" && forall d :: 0 < d < |sep| ==> sep[d] != sep[0]
  }

  /** The same text splits at the separator into another pair. */
  ghost predicate SplitsAgain(sep: string, a: string, b: string) {
    exists c, d :: c != a && c + sep + d == a + sep + b
  }

  lemma SeparatorAt(sep: string, a: string, b: string, s: string)
    requires s == a + sep + b
    ensures OccursAt(sep, s, |a|) && s[..|a|] == a && s[|a| + |sep|..] == b
  {
  }

  /** Two occurrences of a borderless text do not overlap. */
  lemma Apart(sep: string, s: string, i: nat, j: nat)
    requires Borderless(sep) && OccursAt(sep, s, i) && OccursAt(sep, s, j) && i < j
    ensures i + |sep| <= j
  {
    OccursChar(sep, s, j, 0);
    if j < i + |sep| {
      OccursChar(sep, s, i, j - i);
    }
  }

  lemma OccursChar(sep: string, s: string, i: nat, k: nat)
    requires OccursAt(sep, s, i) && k < |sep|
    ensures s[i + k] == sep[k]
  {
    assert s[i..i + |sep|][k] == s[i + k];
  }

  lemma OccursWithin(sep: string, s: string, from: nat, to: nat, i: nat)
    requires from <= i && i + |sep| <= to <= |s| && OccursAt(sep, s, i)
    ensures Occurs(sep, s[from..to])
  {
    var part, at := s[from..to], i - from;
    forall k | 0 <= k < |sep| ensures part[at..at + |sep|][k] == sep[k] {
      OccursChar(sep, s, i, k);
    }
    assert OccursAt(sep, part, at);
  }

  lemma OtherSplitOccurs(sep: string, a: string, b: string, c: string, d: string)
    requires Borderless(sep) && c != a && c + sep + d == a + sep + b
    ensures Occurs(sep, a) || Occurs(sep, b)
  {
    var s := a + sep + b;
    SeparatorAt(sep, a, b, s);
    SeparatorAt(sep, c, d, s);
    if |c| < |a| {
      Apart(sep, s, |c|, |a|);
      OccursWithin(sep, s, 0, |a|, |c|);
      assert s[0..|a|] == a;
    } else if |c| > |a| {
      Apart(sep, s, |a|, |c|);
      OccursWithin(sep, s, |a| + |sep|, |s|, |c|);
      assert s[|a| + |sep|..|s|] == b;
    }
  }

  lemma CutAt(sep: string, s: string, i: nat)
    requires OccursAt(sep, s, i)
    ensures s == s[..i] + sep + s[i + |sep|..]
  {
  }

  lemma RegroupFive(x: string, sep: string, y: string, b: string)
    ensures x + sep + (y + sep + b) == (x + sep + y) + sep + b
  {
  }

  lemma OccurrenceSplits(sep: string, a: string, b: string)
    requires sep != "" && (Occurs(sep, a) || Occurs(sep, b))
    ensures SplitsAgain(sep, a, b)
  {
    if Occurs(sep, a) {
      var i: nat :| OccursAt(sep, a, i);
      var x, y := a[..i], a[i + |sep|..];
      CutAt(sep, a, i);
      RegroupFive(x, sep, y, b);
      assert x != a && x + sep + (y + sep + b) == a + sep + b;
    } else {
      var i: nat :| OccursAt(sep, b, i);
      var x, y := b[..i], b[i + |sep|..];
      CutAt(sep, b, i);
      RegroupFive(a, sep, x, y);
      assert |a + sep + x| > |a|;
      assert a + sep + x != a && (a + sep + x) + sep + y == a + sep + b;
    }
  }

  /** A pair can be split again if and only if the separator occurs in one of its parts. */
  lemma SplitsAgainIff(sep: string, a: string, b: string)
    requires Borderless(sep)
    ensures SplitsAgain(sep, a, b) <==> Occurs(sep, a) || Occurs(sep, b)
  {
    if SplitsAgain(sep, a, b) {
      var c, d :| c != a && c + sep + d == a + sep + b;
      OtherSplitOccurs(sep, a, b, c, d);
    }
    if Occurs(sep, a) || Occurs(sep, b) {
      OccurrenceSplits(sep, a, b);
    }
  }

  lemma FramedSplit(front: string, c: string, sep: string, d: string, a: string, b: string, end: string)
    ensures front + c + sep + d + end == front + a + sep + b + end <==> c + sep + d == a + sep + b
  {
    assert front + c + sep + d + end == front + (c + sep + d) + end;
    assert front + a + sep + b + end == front + (a + sep + b) + end;
    if front + (c + sep + d) + end == front + (a + sep + b) + end {
      MiddleCancels(front, c + sep + d, a + sep + b, end);
    }
  }

  // ---------- Node id and endpoint ----------

  const ENDPOINT_MARK := "\n" + "endpoint="

  lemma EndpointMarkBorderless()
    ensures Borderless(ENDPOINT_MARK)
  {
  }

  lemma PayloadAroundEndpoint(r: AgentRecord, a: string, b: string)
    ensures Payload(r.(nodeId := a, endpoint := b)) ==
            ("agent_id=" + r.agentId + "\n" + "node_id=") + a + ENDPOINT_MARK + b
            + ("\n" + "revision=" + Decimal(r.revision) + "\n" + MetadataText(r.metadata))
  {
    PayloadShape(r.(nodeId := a, endpoint := b));
  }

  /**
   With all other fields fixed, a record shares its payload with another node id and
   endpoint if and only if the text between the two occurs in one of them.
   */
  lemma EndpointAmbiguousIff(r: AgentRecord)
    ensures (exists a, b :: a != r.nodeId && Payload(r.(nodeId := a, endpoint := b)) == Payload(r)) <==>
            Occurs(ENDPOINT_MARK, r.nodeId) || Occurs(ENDPOINT_MARK, r.endpoint)
  {
    var front := "agent_id=" + r.agentId + "\n" + "node_id=";
    var end := "\n" + "revision=" + Decimal(r.revision) + "\n" + MetadataText(r.metadata);
    EndpointMarkBorderless();
    SplitsAgainIff(ENDPOINT_MARK, r.nodeId, r.endpoint);
    forall a, b
      ensures Payload(r.(nodeId := a, endpoint := b)) == Payload(r) <==> a + ENDPOINT_MARK + b == r.nodeId + ENDPOINT_MARK + r.endpoint
    {
      PayloadAroundEndpoint(r, a, b);
      PayloadAroundEndpoint(r, r.nodeId, r.endpoint);
      FramedSplit(front, a, ENDPOINT_MARK, b, r.nodeId, r.endpoint, end);
    }
  }

  // ---------- Agent id and node id ----------

  const NODE_MARK := "\n" + "node_id="

  lemma NodeMarkBorderless()
    ensures Borderless(NODE_MARK)
  {
  }

  lemma PayloadAroundNode(r: AgentRecord, a: string, b: string)
    ensures Payload(r.(agentId := a, nodeId := b)) ==
            "agent_id=" + a + NODE_MARK + b
            + ("\n" + "endpoint=" + r.endpoint + "\n" + "revision=" + Decimal(r.revision) + "\n" + MetadataText(r.metadata))
  {
  }

  /** The same of agent id and node id. */
  lemma NodeAmbiguousIff(r: AgentRecord)
    ensures (exists a, b :: a != r.agentId && Payload(r.(agentId := a, nodeId := b)) == Payload(r)) <==>
            Occurs(NODE_MARK, r.agentId) || Occurs(NODE_MARK, r.nodeId)
  {
    var end := "\n" + "endpoint=" + r.endpoint + "\n" + "revision=" + Decimal(r.revision) + "\n" + MetadataText(r.metadata);
    NodeMarkBorderless();
    SplitsAgainIff(NODE_MARK, r.agentId, r.nodeId);
    forall a, b
      ensures Payload(r.(agentId := a, nodeId := b)) == Payload(r) <==> a + NODE_MARK + b == r.agentId + NODE_MARK + r.nodeId
    {
      PayloadAroundNode(r, a, b);
      PayloadAroundNode(r, r.agentId, r.nodeId);
      FramedSplit("agent_id=", a, NODE_MARK, b, r.agentId, r.nodeId, end);
    }
  }

  // ---------- Key and value ----------

  lemma PayloadAroundEntry(r: AgentRecord, k: string, v: string)
    ensures Payload(r.(metadata := [(k, v)])) ==
            (BeforeRevision(r) + Decimal(r.revision) + "\n" + "metadata.") + k + "=" + v + "\n"
  {
    MetadataTextOne(k, v);
    PayloadAroundRevision(r.(metadata := [(k, v)]));
    assert BeforeRevision(r.(metadata := [(k, v)])) == BeforeRevision(r);
  }

  /** The same of the key and the value of a single metadata entry, where the text between them is one '='. */
  lemma EntryAmbiguousIff(r: AgentRecord, k: string, v: string)
    ensures (exists a, b :: a != k && Payload(r.(metadata := [(a, b)])) == Payload(r.(metadata := [(k, v)]))) <==>
            Occurs("=", k) || Occurs("=", v)
  {
    var front := BeforeRevision(r) + Decimal(r.revision) + "\n" + "metadata.";
    SplitsAgainIff("=", k, v);
    forall a, b
      ensures Payload(r.(metadata := [(a, b)])) == Payload(r.(metadata := [(k, v)])) <==> a + "=" + b == k + "=" + v
    {
      PayloadAroundEntry(r, a, b);
      PayloadAroundEntry(r, k, v);
      FramedSplit(front, a, "=", b, k, v, "\n");
    }
  }
}
