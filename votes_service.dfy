/** The vote ledger (src/services/votes/votes.service.ts): one vote per voter
    and position, each accepted vote committed to its election's chain, and
    the read-only queries over the votes table. */
module VotesService {
  import opened Common
  import opened BlockChainService

  /** The fields a caller supplies; the row id and the timestamp are filled
      in by the database when the row is stored. */
  datatype VoteInsert = VoteInsert(voter_id: string, candidate_id: string, position_id: string, election_id: string)

  datatype CastError =
    | AlreadyVoted   // "You have already voted for this position"
    | BlockNotStored // the block insert failed after the vote was stored

  function StoredVote(data: VoteInsert, id: string, timestamp: string): Vote {
    Vote(id, data.voter_id, data.candidate_id, data.position_id, data.election_id, timestamp)
  }

  /** Some stored vote has this voter and this position, in any election. */
  predicate HasVoted(votes: seq<Vote>, voter_id: string, position_id: string) {
    exists v :: v in votes && v.voter_id == voter_id && v.position_id == position_id
  }

  /** No two stored votes share (voter_id, position_id): the rule the unique
      index on the votes table also enforces. */
  predicate UniqueVoterPosition(votes: seq<Vote>) {
    forall i, j :: 0 <= i < j < |votes| ==>
      votes[i].voter_id != votes[j].voter_id || votes[i].position_id != votes[j].position_id
  }

  lemma UniqueAfterAccepted(votes: seq<Vote>, v: Vote)
    requires UniqueVoterPosition(votes)
    requires !HasVoted(votes, v.voter_id, v.position_id)
    ensures UniqueVoterPosition(votes + [v])
  {
    var all := votes + [v];
    forall i, j | 0 <= i < j < |all|
      ensures all[i].voter_id != all[j].voter_id || all[i].position_id != all[j].position_id
    {
      if j == |votes| {
        assert all[i] in votes;
      }
    }
  }

  /** The votes table, and the blockchain table each accepted vote feeds. */
  class VoteLedger {
    var votes: seq<Vote>
    const blocks: BlockLedger

    ghost predicate Valid()
      reads this, blocks
    {
      UniqueVoterPosition(votes) && blocks.Valid()
    }

    constructor (chainStore: BlockLedger)
      requires chainStore.Valid()
      ensures Valid() && votes == [] && blocks == chainStore
    {
      votes := [];
      blocks := chainStore;
    }

    /** `castVoteService`: refuse a second vote for the same position; else
        store the vote and then build its block. The vote is stored first and
        stays stored if the block insert fails (`blockInsertFails`). */
    method CastVote(data: VoteInsert, id: string, timestamp: string, blockInsertFails: bool)
      returns (r: Result<Vote, CastError>)
      requires Valid()
      modifies this, blocks
      ensures Valid()
      ensures old(HasVoted(votes, data.voter_id, data.position_id)) ==>
        r == Err(AlreadyVoted) && votes == old(votes) && blocks.chains == old(blocks.chains)
      ensures !old(HasVoted(votes, data.voter_id, data.position_id)) ==>
        votes == old(votes) + [StoredVote(data, id, timestamp)]
      ensures !old(HasVoted(votes, data.voter_id, data.position_id)) && !blockInsertFails ==>
        && r == Ok(StoredVote(data, id, timestamp))
        && blocks.chains == old(blocks.chains)[data.election_id :=
             old(blocks.ChainOf(data.election_id)) +
             [NewBlock(old(blocks.GetLastBlock(data.election_id)), StoredVote(data, id, timestamp), blocks.h)]]
      ensures !old(HasVoted(votes, data.voter_id, data.position_id)) && blockInsertFails ==>
        r == Err(BlockNotStored) && blocks.chains == old(blocks.chains)
    {
      var existing := exists v :: v in votes && v.voter_id == data.voter_id && v.position_id == data.position_id;
      if existing {
        return Err(AlreadyVoted);
      }
      var newVote := StoredVote(data, id, timestamp);
      UniqueAfterAccepted(votes, newVote);
      votes := votes + [newVote];
      if blockInsertFails {
        return Err(BlockNotStored);
      }
      var _ := blocks.CreateBlockFromVote(newVote);
      r := Ok(newVote);
    }

    /** A voter whose vote for a position is accepted is refused when casting
        for that position again, in any election (the position id may be
        reused across elections), and the refused cast changes neither
        table: only the first vote and its block remain. */
    method RefusedInEveryElection(data: VoteInsert, election_id: string,
                                  id: string, timestamp: string, blockInsertFails: bool,
                                  id2: string, timestamp2: string, blockInsertFails2: bool)
      returns (first: Result<Vote, CastError>, second: Result<Vote, CastError>)
      requires Valid() && !HasVoted(votes, data.voter_id, data.position_id)
      modifies this, blocks
      ensures Valid()
      ensures second == Err(AlreadyVoted)
      ensures votes == old(votes) + [StoredVote(data, id, timestamp)]
      ensures blockInsertFails ==> blocks.chains == old(blocks.chains)
      ensures !blockInsertFails ==>
        blocks.chains == old(blocks.chains)[data.election_id :=
          old(blocks.ChainOf(data.election_id)) +
          [NewBlock(old(blocks.GetLastBlock(data.election_id)), StoredVote(data, id, timestamp), blocks.h)]]
    {
      first := CastVote(data, id, timestamp, blockInsertFails);
      assert votes[|votes| - 1] == StoredVote(data, id, timestamp);
      second := CastVote(data.(election_id := election_id), id2, timestamp2, blockInsertFails2);
    }
  }

  /** The votes `keep` accepts, in stored order: each exactly as often as it
      is stored. */
  function Select(votes: seq<Vote>, keep: Vote -> bool): (r: seq<Vote>)
    ensures forall v :: v in r <==> v in votes && keep(v)
    ensures forall v :: multiset(r)[v] == if keep(v) then multiset(votes)[v] else 0
  {
    if votes == [] then []
    else
      var init := votes[..|votes| - 1];
      var last := votes[|votes| - 1];
      assert votes == init + [last];
      Select(init, keep) + (if keep(last) then [last] else [])
  }

  /** `getVotesByCandidateService`. */
  function VotesByCandidate(votes: seq<Vote>, candidate_id: string): (r: seq<Vote>)
    ensures forall v :: v in r <==> v in votes && v.candidate_id == candidate_id
    ensures forall v: Vote :: v.candidate_id == candidate_id ==> multiset(r)[v] == multiset(votes)[v]
  {
    Select(votes, (v: Vote) => v.candidate_id == candidate_id)
  }

  /** `getVotesByElectionService`. */
  function VotesByElection(votes: seq<Vote>, election_id: string): (r: seq<Vote>)
    ensures forall v :: v in r <==> v in votes && v.election_id == election_id
    ensures forall v: Vote :: v.election_id == election_id ==> multiset(r)[v] == multiset(votes)[v]
  {
    Select(votes, (v: Vote) => v.election_id == election_id)
  }

  /** One row of the grouped count. */
  datatype VoteCount = VoteCount(candidate_id: string, votes_count: nat)

  /** How many of the votes name this candidate. */
  function Occurrences(votes: seq<Vote>, candidate_id: string): nat {
    if votes == [] then 0
    else Occurrences(votes[..|votes| - 1], candidate_id) + (if votes[|votes| - 1].candidate_id == candidate_id then 1 else 0)
  }

  /** The candidates that have an entry. */
  function Candidates(counts: seq<VoteCount>): set<string> {
    if counts == [] then {} else {counts[0].candidate_id} + Candidates(counts[1..])
  }

  /** No candidate has two entries. */
  predicate Distinct(counts: seq<VoteCount>) {
    counts == [] || (counts[0].candidate_id !in Candidates(counts[1..]) && Distinct(counts[1..]))
  }

  function CountOf(counts: seq<VoteCount>, candidate_id: string): nat {
    if counts == [] then 0
    else (if counts[0].candidate_id == candidate_id then counts[0].votes_count else 0) + CountOf(counts[1..], candidate_id)
  }

  function Sum(counts: seq<VoteCount>): nat {
    if counts == [] then 0 else counts[0].votes_count + Sum(counts[1..])
  }

  predicate AllPositive(counts: seq<VoteCount>) {
    forall i :: 0 <= i < |counts| ==> counts[i].votes_count >= 1
  }

  /** Counts one more vote for `candidate_id`: the candidate's entry goes up
      by one, or a new entry with count 1 is added at the end. */
  function Bump(counts: seq<VoteCount>, candidate_id: string): seq<VoteCount> {
    if counts == [] then [VoteCount(candidate_id, 1)]
    else if counts[0].candidate_id == candidate_id then
      [counts[0].(votes_count := counts[0].votes_count + 1)] + counts[1..]
    else [counts[0]] + Bump(counts[1..], candidate_id)
  }

  lemma {:induction false} BumpCounts(counts: seq<VoteCount>, candidate_id: string)
    ensures CountOf(Bump(counts, candidate_id), candidate_id) == CountOf(counts, candidate_id) + 1
    ensures forall d :: d != candidate_id ==> CountOf(Bump(counts, candidate_id), d) == CountOf(counts, d)
    ensures Sum(Bump(counts, candidate_id)) == Sum(counts) + 1
    ensures Candidates(Bump(counts, candidate_id)) == Candidates(counts) + {candidate_id}
  {
    var r := Bump(counts, candidate_id);
    if counts == [] {
    } else if counts[0].candidate_id == candidate_id {
      assert r[1..] == counts[1..];
    } else {
      BumpCounts(counts[1..], candidate_id);
      assert r[1..] == Bump(counts[1..], candidate_id);
    }
  }

  lemma {:induction false} BumpShape(counts: seq<VoteCount>, candidate_id: string)
    ensures Distinct(counts) ==> Distinct(Bump(counts, candidate_id))
    ensures AllPositive(counts) ==> AllPositive(Bump(counts, candidate_id))
  {
    var r := Bump(counts, candidate_id);
    if counts == [] {
    } else if counts[0].candidate_id == candidate_id {
      assert r[1..] == counts[1..];
    } else {
      BumpShape(counts[1..], candidate_id);
      BumpCounts(counts[1..], candidate_id);
      assert r[1..] == Bump(counts[1..], candidate_id);
      if AllPositive(counts) {
        assert AllPositive(counts[1..]);
      }
    }
  }

  /** The grouped count over a list of votes, candidates in order of their
      first vote. */
  function Tally(votes: seq<Vote>): (r: seq<VoteCount>)
    ensures Distinct(r) && AllPositive(r)
    ensures forall c :: CountOf(r, c) == Occurrences(votes, c)
    ensures Candidates(r) == set v | v in votes :: v.candidate_id
    ensures Sum(r) == |votes|
  {
    if votes == [] then []
    else
      var init := votes[..|votes| - 1];
      var last := votes[|votes| - 1];
      assert votes == init + [last];
      var earlier := Tally(init);
      BumpCounts(earlier, last.candidate_id);
      BumpShape(earlier, last.candidate_id);
      Bump(earlier, last.candidate_id)
  }

  /** `getVoteCountsByElectionService`: one entry per candidate with at least
      one vote in the election, each with that candidate's number of votes
      there; the counts add up to the election's number of votes. */
  function VoteCountsByElection(votes: seq<Vote>, election_id: string): (r: seq<VoteCount>)
    ensures Distinct(r) && AllPositive(r)
    ensures Candidates(r) == set v | v in votes && v.election_id == election_id :: v.candidate_id
    ensures forall c :: CountOf(r, c) == Occurrences(VotesByElection(votes, election_id), c)
    ensures Sum(r) == |VotesByElection(votes, election_id)|
  {
    Tally(VotesByElection(votes, election_id))
  }
}
