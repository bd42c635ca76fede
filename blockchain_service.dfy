/** The per-election hash-linked ledger written by `createBlockFromVote`
    (src/services/BlockChain/BlockChain.service.ts).

    The digest H (SHA-256 as lowercase hex) is a parameter `h` of the model:
    nothing here depends on what it computes. */
module BlockChainService {
  import opened Common

  type Digest = string -> string

  /** A stored vote row (src/drizzle/schema.ts:171-180); `timestamp` is the
      text the row's timestamp prints as inside a template literal. */
  datatype Vote = Vote(
    id: string,
    voter_id: string,
    candidate_id: string,
    position_id: string,
    election_id: string,
    timestamp: string)

  /** A stored block row (src/drizzle/schema.ts:183-193). It holds the digest
      of the voter, never the voter id itself. */
  datatype Block = Block(
    index: int,
    voter_hash: string,
    candidate_id: string,
    position_id: string,
    election_id: string,
    previous_hash: string,
    hash: string,
    timestamp: string)

  /** The `previous_hash` of the first block of every election. */
  const Genesis: string := "0"

  /** The text that a block's hash commits to: its fields concatenated in a
      fixed order, with no separator between them. */
  function Payload(index: int, voter_hash: string, candidate_id: string, position_id: string,
                   election_id: string, previous_hash: string, timestamp: string): string
  {
    IntToString(index) + voter_hash + candidate_id + position_id + election_id + previous_hash + timestamp
  }

  function BlockPayload(b: Block): string {
    Payload(b.index, b.voter_hash, b.candidate_id, b.position_id, b.election_id, b.previous_hash, b.timestamp)
  }

  /** A block whose stored hash is the digest of its own fields. */
  predicate HashIntact(b: Block, h: Digest) {
    b.hash == h(BlockPayload(b))
  }

  /** What the integrity loop checks of one consecutive pair. */
  predicate LinkOk(prev: Block, cur: Block, h: Digest) {
    cur.previous_hash == prev.hash && HashIntact(cur, h)
  }

  /** A chain passes the integrity check when every block after the first is
      linked to its predecessor and carries the digest of its own fields. */
  predicate ChainValid(chain: seq<Block>, h: Digest) {
    if |chain| <= 1 then true
    else ChainValid(chain[..|chain| - 1], h) && LinkOk(chain[|chain| - 2], chain[|chain| - 1], h)
  }

  /** Every consecutive pair passes the link check. */
  predicate AllLinked(chain: seq<Block>, h: Digest) {
    forall i :: 1 <= i < |chain| ==> LinkOk(chain[i - 1], chain[i], h)
  }

  /** A chain that passes the check has every consecutive pair linked. */
  lemma {:induction false} ChainValidLinks(chain: seq<Block>, h: Digest, i: int)
    requires ChainValid(chain, h) && 1 <= i < |chain|
    ensures LinkOk(chain[i - 1], chain[i], h)
  {
    var n := |chain|;
    var init := chain[..n - 1];
    assert ChainValid(init, h) && LinkOk(chain[n - 2], chain[n - 1], h);
    if i < n - 1 {
      ChainValidLinks(init, h, i);
      assert init[i - 1] == chain[i - 1] && init[i] == chain[i];
    }
  }

  /** A chain whose consecutive pairs are all linked passes the check. */
  lemma {:induction false} LinkedChainValid(chain: seq<Block>, h: Digest)
    requires AllLinked(chain, h)
    ensures ChainValid(chain, h)
  {
    var n := |chain|;
    if n > 1 {
      var init := chain[..n - 1];
      forall i | 1 <= i < |init| ensures LinkOk(init[i - 1], init[i], h) {
        assert init[i - 1] == chain[i - 1] && init[i] == chain[i];
      }
      LinkedChainValid(init, h);
      assert LinkOk(chain[n - 2], chain[n - 1], h);
    }
  }

  /** The recursive definition checks exactly the consecutive pairs. */
  lemma ChainValidPairs(chain: seq<Block>, h: Digest)
    ensures ChainValid(chain, h) <==> AllLinked(chain, h)
  {
    if ChainValid(chain, h) {
      forall i | 1 <= i < |chain| ensures LinkOk(chain[i - 1], chain[i], h) {
        ChainValidLinks(chain, h, i);
      }
    }
    if AllLinked(chain, h) {
      LinkedChainValid(chain, h);
    }
  }

  /** Indices 1, 2, ..., N in stored order. */
  predicate Contiguous(chain: seq<Block>) {
    forall i :: 0 <= i < |chain| ==> chain[i].index == i + 1
  }

  /** What the source intends every election's chain to be: gapless indices
      from 1, the genesis sentinel on the first block, every hash intact and
      every link correct. */
  predicate Sound(chain: seq<Block>, h: Digest) {
    && Contiguous(chain)
    && ChainValid(chain, h)
    && (|chain| > 0 ==> chain[0].previous_hash == Genesis && HashIntact(chain[0], h))
  }

  /** The latest block of one election's chain: the one with the greatest
      index; among equal indices the later-stored one. */
  function LastBlock(chain: seq<Block>): (r: Option<Block>)
    ensures r.None? <==> chain == []
    ensures r.Some? ==> r.value in chain
    ensures r.Some? ==> forall b :: b in chain ==> b.index <= r.value.index
  {
    if chain == [] then None
    else
      var earlier := LastBlock(chain[..|chain| - 1]);
      assert chain == chain[..|chain| - 1] + [chain[|chain| - 1]];
      if earlier.None? || chain[|chain| - 1].index >= earlier.value.index then Some(chain[|chain| - 1])
      else earlier
  }

  /** In a gapless chain the latest block is the last one stored. */
  lemma LastBlockOfContiguous(chain: seq<Block>)
    requires Contiguous(chain) && chain != []
    ensures LastBlock(chain) == Some(chain[|chain| - 1])
  {
    var r := LastBlock(chain);
    var k :| 0 <= k < |chain| && chain[k] == r.value;
    assert chain[|chain| - 1] in chain;
  }

  /** The block `createBlockFromVote` builds from a vote, given the latest
      block of the vote's election. */
  function NewBlock(last: Option<Block>, vote: Vote, h: Digest): (b: Block)
    ensures b.index == (if last.Some? then last.value.index + 1 else 1)
    ensures b.previous_hash == (if last.Some? then last.value.hash else Genesis)
    ensures b.voter_hash == h(vote.voter_id)
    ensures b.candidate_id == vote.candidate_id && b.position_id == vote.position_id
    ensures b.election_id == vote.election_id && b.timestamp == vote.timestamp
    ensures HashIntact(b, h)
  {
    var index := if last.Some? then last.value.index + 1 else 1;
    var previous := if last.Some? then last.value.hash else Genesis;
    var voterHash := h(vote.voter_id);
    Block(index, voterHash, vote.candidate_id, vote.position_id, vote.election_id, previous,
          h(Payload(index, voterHash, vote.candidate_id, vote.position_id, vote.election_id, previous, vote.timestamp)),
          vote.timestamp)
  }

  /** Key property of the ledger: appending a vote to a gapless chain that
      passes the integrity check gives a gapless chain, one longer, that
      still passes it. */
  lemma {:induction false} AppendKeepsChainValid(chain: seq<Block>, vote: Vote, h: Digest)
    requires Contiguous(chain) && ChainValid(chain, h)
    ensures var next := chain + [NewBlock(LastBlock(chain), vote, h)];
      |next| == |chain| + 1 && Contiguous(next) && ChainValid(next, h)
  {
    var b := NewBlock(LastBlock(chain), vote, h);
    var next := chain + [b];
    assert next[..|next| - 1] == chain;
    if chain != [] {
      LastBlockOfContiguous(chain);
      assert LinkOk(next[|next| - 2], next[|next| - 1], h);
    }
  }

  /** The stronger intended invariant is kept too, genesis sentinel included. */
  lemma AppendKeepsSound(chain: seq<Block>, vote: Vote, h: Digest)
    requires Sound(chain, h)
    ensures Sound(chain + [NewBlock(LastBlock(chain), vote, h)], h)
  {
    AppendKeepsChainValid(chain, vote, h);
    var next := chain + [NewBlock(LastBlock(chain), vote, h)];
    if chain == [] {
      assert next[0] == NewBlock(None, vote, h);
    } else {
      assert next[0] == chain[0];
    }
  }

  /** The voter digest depends on the voter id alone: the same voter gets the
      same `voter_hash` in every election, whatever else the votes hold. */
  lemma VoterHashLinkable(last1: Option<Block>, v1: Vote, last2: Option<Block>, v2: Vote, h: Digest)
    requires v1.voter_id == v2.voter_id
    ensures NewBlock(last1, v1, h).voter_hash == NewBlock(last2, v2, h).voter_hash
  {
  }

  /** The blockchain table, one chain per election in stored order. */
  class BlockLedger {
    var chains: map<string, seq<Block>>
    const h: Digest

    /** Every chain holds only its own election's blocks and is sound. */
    ghost predicate Valid()
      reads this
    {
      forall e :: e in chains ==> ElectionChainOk(e, chains[e])
    }

    ghost predicate ElectionChainOk(e: string, chain: seq<Block>)
      reads this
    {
      (forall b :: b in chain ==> b.election_id == e) && Sound(chain, h)
    }

    /** The blocks stored for one election (what the query filtered on
        `election_id` sees). */
    function ChainOf(election_id: string): seq<Block>
      reads this
    {
      if election_id in chains then chains[election_id] else []
    }

    constructor (digest: Digest)
      ensures Valid() && chains == map[] && h == digest
    {
      chains := map[];
      h := digest;
    }

    /** `getLastBlock`: the latest block of one election; other elections'
        blocks never influence it. */
    function GetLastBlock(election_id: string): (r: Option<Block>)
      reads this
      ensures r.None? <==> ChainOf(election_id) == []
      ensures r.Some? ==> r.value in ChainOf(election_id)
      ensures r.Some? ==> forall b :: b in ChainOf(election_id) ==> b.index <= r.value.index
    {
      LastBlock(ChainOf(election_id))
    }

    /** `createBlockFromVote`: builds the next block of the vote's election
        and appends it; no other chain changes. */
    method CreateBlockFromVote(vote: Vote) returns (block: Block)
      requires Valid()
      modifies this
      ensures Valid()
      ensures block == NewBlock(old(GetLastBlock(vote.election_id)), vote, h)
      ensures chains == old(chains)[vote.election_id := old(ChainOf(vote.election_id)) + [block]]
    {
      var lastBlock := GetLastBlock(vote.election_id);
      var index := if lastBlock.Some? then lastBlock.value.index + 1 else 1;
      var previous_hash := if lastBlock.Some? then lastBlock.value.hash else Genesis;
      var voterHash := h(vote.voter_id);
      var blockHash := h(Payload(index, voterHash, vote.candidate_id, vote.position_id,
                                 vote.election_id, previous_hash, vote.timestamp));
      block := Block(index, voterHash, vote.candidate_id, vote.position_id, vote.election_id,
                     previous_hash, blockHash, vote.timestamp);
      var chain := ChainOf(vote.election_id);
      AppendKeepsSound(chain, vote, h);
      chains := chains[vote.election_id := chain + [block]];
      assert ElectionChainOk(vote.election_id, chains[vote.election_id]);
    }
  }
}
