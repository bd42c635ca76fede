/** The read path of the ledger: `getElectionBlockchain`
    (src/services/BlockChain/BlockChain.controller.ts) fetches one election's
    blocks in index order and walks them once to decide `chain_valid`. */
module BlockChainController {
  import opened Common
  import opened BlockChainService

  predicate SortedByIndex(s: seq<Block>) {
    forall i, j :: 0 <= i < j < |s| ==> s[i].index <= s[j].index
  }

  lemma AppendBounded(s: seq<Block>, x: Block)
    requires SortedByIndex(s)
    requires forall y :: y in s ==> y.index <= x.index
    ensures SortedByIndex(s + [x])
  {
    var r := s + [x];
    forall i, j | 0 <= i < j < |r| ensures r[i].index <= r[j].index {
      if j == |s| {
        assert r[i] in s;
      }
    }
  }

  lemma BoundedByLast(sorted: seq<Block>, b: Block, front: seq<Block>)
    requires SortedByIndex(sorted) && sorted != []
    requires b.index < sorted[|sorted| - 1].index
    requires multiset(front) == multiset(sorted[..|sorted| - 1]) + multiset{b}
    ensures forall y :: y in front ==> y.index <= sorted[|sorted| - 1].index
  {
    var init := sorted[..|sorted| - 1];
    forall y | y in front ensures y.index <= sorted[|sorted| - 1].index {
      assert y in multiset(front);
      if y != b {
        assert y in multiset(init);
        var k :| 0 <= k < |init| && init[k] == y;
        assert sorted[k] == y;
      }
    }
  }

  /** Puts `b` after every block whose index is not greater than its own. */
  function InsertByIndex(sorted: seq<Block>, b: Block): (r: seq<Block>)
    requires SortedByIndex(sorted)
    ensures SortedByIndex(r)
    ensures multiset(r) == multiset(sorted) + multiset{b}
  {
    if sorted == [] then [b]
    else
      var n := |sorted|;
      var init := sorted[..n - 1];
      var last := sorted[n - 1];
      assert sorted == init + [last];
      if last.index <= b.index then
        assert forall y :: y in sorted ==> y.index <= b.index by {
          forall y | y in sorted ensures y.index <= b.index {
            var k :| 0 <= k < n && sorted[k] == y;
          }
        }
        AppendBounded(sorted, b);
        sorted + [b]
      else
        var front := InsertByIndex(init, b);
        BoundedByLast(sorted, b, front);
        AppendBounded(front, last);
        front + [last]
  }

  /** The blocks ordered by ascending index, as the query's `orderBy` returns
      them; blocks with equal indices keep their stored order. */
  function SortByIndex(s: seq<Block>): (r: seq<Block>)
    ensures SortedByIndex(r)
    ensures multiset(r) == multiset(s)
  {
    if s == [] then []
    else
      assert s == s[..|s| - 1] + [s[|s| - 1]];
      InsertByIndex(SortByIndex(s[..|s| - 1]), s[|s| - 1])
  }

  /** Ordering a chain that is already in index order changes nothing. */
  lemma {:induction false} SortOfSorted(s: seq<Block>)
    requires SortedByIndex(s)
    ensures SortByIndex(s) == s
  {
    if s != [] {
      var init := s[..|s| - 1];
      assert SortedByIndex(init);
      SortOfSorted(init);
      assert s == init + [s[|s| - 1]];
    }
  }

  /** The integrity loop: starting from the second block, compare each block
      with its predecessor and stop at the first broken link. */
  method CheckChainIntegrity(blocks: seq<Block>, h: Digest) returns (isValid: bool)
    ensures isValid == ChainValid(blocks, h)
    ensures isValid <==> forall i :: 1 <= i < |blocks| ==> LinkOk(blocks[i - 1], blocks[i], h)
  {
    ChainValidPairs(blocks, h);
    isValid := true;
    var i := 1;
    while i < |blocks|
      invariant 1 <= i
      invariant isValid
      invariant forall k :: 1 <= k < i && k < |blocks| ==> LinkOk(blocks[k - 1], blocks[k], h)
    {
      var prev := blocks[i - 1];
      var current := blocks[i];
      var expectedHash := h(Payload(current.index, current.voter_hash, current.candidate_id,
                                    current.position_id, current.election_id, current.previous_hash,
                                    current.timestamp));
      if current.previous_hash != prev.hash || current.hash != expectedHash {
        isValid := false;
        assert !LinkOk(blocks[i - 1], blocks[i], h);
        break;
      }
      i := i + 1;
    }
  }

  datatype ChainResponse =
    | BadRequest(error: string)
    | ChainReport(election_id: string, blocks: seq<Block>, chain_valid: bool)

  /** `getElectionBlockchain`: a missing election id is refused before any
      block is read; otherwise the election's blocks are returned in index
      order, unchanged, together with the verdict of the integrity loop. */
  method GetElectionBlockchain(ledger: BlockLedger, election_id: string) returns (r: ChainResponse)
    ensures r.BadRequest? <==> election_id == ""
    ensures r.BadRequest? ==> r.error == "Election ID is required"
    ensures r.ChainReport? ==> r.election_id == election_id
    ensures r.ChainReport? ==> r.blocks == SortByIndex(ledger.ChainOf(election_id))
    ensures r.ChainReport? ==> multiset(r.blocks) == multiset(ledger.ChainOf(election_id))
    ensures r.ChainReport? ==> r.chain_valid == ChainValid(r.blocks, ledger.h)
  {
    if election_id == "" {
      return BadRequest("Election ID is required");
    }
    var blocks := SortByIndex(ledger.ChainOf(election_id));
    var isValid := CheckChainIntegrity(blocks, ledger.h);
    r := ChainReport(election_id, blocks, isValid);
  }

  /** Every chain the ledger keeps is reported as stored, and as valid. */
  lemma LedgerChainReportedValid(chain: seq<Block>, h: Digest)
    requires Sound(chain, h)
    ensures SortByIndex(chain) == chain && ChainValid(SortByIndex(chain), h)
  {
    assert SortedByIndex(chain);
    SortOfSorted(chain);
  }

  /** Chains of zero or one block are reported valid whatever they hold. */
  lemma ShortChainValid(chain: seq<Block>, h: Digest)
    requires |chain| <= 1
    ensures ChainValid(chain, h)
  {
  }

  /** The loop never looks at the first block's own fields beyond its stored
      hash: replacing it by any block with the same `hash` (another index, a
      `previous_hash` other than "0", another candidate) leaves the verdict
      unchanged. */
  lemma {:induction false} FirstBlockNotRechecked(chain: seq<Block>, first: Block, h: Digest)
    requires |chain| >= 1 && first.hash == chain[0].hash
    ensures ChainValid([first] + chain[1..], h) == ChainValid(chain, h)
  {
    var other := [first] + chain[1..];
    ChainValidPairs(chain, h);
    ChainValidPairs(other, h);
    assert forall i :: 1 <= i < |chain| ==> other[i] == chain[i];
    if |chain| > 1 {
      assert LinkOk(other[0], other[1], h) == LinkOk(chain[0], chain[1], h);
    }
  }

  /** A chain whose indices are neither 1-based nor consecutive, and whose
      first block does not carry the "0" sentinel, still passes the check. */
  lemma IndicesAndSentinelNotChecked(h: Digest)
    ensures var first := Block(7, "v", "c", "p", "e", "not-genesis", "x", "t");
      var secondPayload := Payload(3, "w", "c", "p", "e", "x", "t");
      var second := Block(3, "w", "c", "p", "e", "x", h(secondPayload), "t");
      ChainValid([first, second], h) && !Contiguous([first, second]) && first.previous_hash != Genesis
  {
    var first := Block(7, "v", "c", "p", "e", "not-genesis", "x", "t");
    var second := Block(3, "w", "c", "p", "e", "x", h(Payload(3, "w", "c", "p", "e", "x", "t")), "t");
    ChainValidPairs([first, second], h);
    assert LinkOk(first, second, h);
  }

  /** Fields are concatenated with no separator, so different field values
      can commit to the same text: the digest cannot tell candidate "ab" for
      position "c" from candidate "a" for position "bc". */
  lemma PayloadAmbiguous()
    ensures Payload(1, "v", "ab", "c", "e", "0", "t") == Payload(1, "v", "a", "bc", "e", "0", "t")
  {
    assert IntToString(1) == "1";
  }

  lemma MiddleDetermined(a: string, x: string, y: string, b: string)
    requires a + x + b == a + y + b
    ensures x == y
  {
    assert |x| == |y|;
    forall k | 0 <= k < |x| ensures x[k] == y[k] {
      assert (a + x + b)[|a| + k] == x[k];
      assert (a + y + b)[|a| + k] == y[k];
    }
  }

  /** If the digest is injective, a block whose candidate is overwritten
      (keeping its stored hash) no longer carries the digest of its fields. */
  lemma CandidateChangeBreaksHash(b: Block, candidate: string, h: Digest)
    requires forall x, y :: h(x) == h(y) ==> x == y
    requires HashIntact(b, h) && candidate != b.candidate_id
    ensures !HashIntact(b.(candidate_id := candidate), h)
  {
    var t := b.(candidate_id := candidate);
    var front := IntToString(b.index) + b.voter_hash;
    var back := b.position_id + b.election_id + b.previous_hash + b.timestamp;
    assert BlockPayload(b) == front + b.candidate_id + back;
    assert BlockPayload(t) == front + candidate + back;
    if HashIntact(t, h) {
      MiddleDetermined(front, b.candidate_id, candidate, back);
      assert false;
    }
  }

  /** If the digest is injective, overwriting the candidate of any block after
      the first (keeping its stored hash) makes the check fail. */
  lemma TamperedCandidateDetected(chain: seq<Block>, i: nat, candidate: string, h: Digest)
    requires forall x, y :: h(x) == h(y) ==> x == y
    requires ChainValid(chain, h) && 1 <= i < |chain|
    requires candidate != chain[i].candidate_id
    ensures !ChainValid(chain[i := chain[i].(candidate_id := candidate)], h)
  {
    var tampered := chain[i := chain[i].(candidate_id := candidate)];
    ChainValidLinks(chain, h, i);
    CandidateChangeBreaksHash(chain[i], candidate, h);
    if ChainValid(tampered, h) {
      ChainValidLinks(tampered, h, i);
      assert false;
    }
  }
}
