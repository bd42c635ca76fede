# Online voting system: the vote ledger and its rules, in Dafny

This project models the core of an online voting back end. Its centre is the
per-election vote ledger:

- **Casting a vote.** A voter may cast one vote per position. Each accepted
  vote is stored and then committed to its election's chain as a hash-linked
  block.
- **Blocks.** A block carries:
  - an index one past the election's latest block;
  - the latest block's hash, or the sentinel `"0"` for the first block;
  - the digest of the voter id (never the voter id itself);
  - the digest of its own seven fields, concatenated with no separator.
- **Checking a chain.** The read path fetches one election's blocks in index
  order. It walks consecutive pairs, re-checks every link and every
  recomputed hash, and stops at the first broken one.

Around the ledger sit the rule-bearing components that feed it or share its
stores:

- the three-stage approval of candidate applications (school dean, accounts,
  dean of students) and the promotion of an approved application to a
  candidate;
- the election status job (upcoming / ongoing / finished) and the explicit
  status change;
- the graduation rules: the role gate of the manual update, and the
  "MM/YYYY" due-month job;
- the input schemas for accounts, applications and positions;
- the admission decision of the bearer-token middleware.

The digest (SHA-256, lowercase hex) is a function parameter `h`; nothing
proved depends on what it computes. The one exception is
`TamperedCandidateDetected`, which assumes `h` is injective as an explicit
precondition. The clock, the JWT verifier and the UUID, URL and e-mail format
checks are parameters as well.

Tables are Dafny values held by classes whose methods update them:
- the chains are `map<election id, seq<Block>>`;
- votes, elections and users are `seq`s of rows;
- applications are a `map` from id to row.

What the chain check does not look at is stated as lemmas:
- the first block's own hash;
- the `"0"` sentinel;
- whether the indices are contiguous;
- field boundaries inside the hashed text.

A tamper-evident chain would be expected to catch any change to a stored
vote. Here, a change to the stored candidate of block 1 goes unnoticed,
because the code never re-checks the first block (`FirstBlockNotRechecked`).
A change to the candidate of any later block is detected when the digest is
injective (`TamperedCandidateDetected`).

Files (one module each): `common.dfy`, `blockchain_service.dfy`,
`blockchain_controller.dfy`, `votes_service.dfy`,
`applications_validator.dfy`, `applications_service.dfy`,
`elections_service.dfy`, `auth_validator.dfy`, `graduation_controller.dfy`,
`positions_validator.dfy`, `bear_auth.dfy`.

## Model

| member | source | states |
|---|---|---|
| Common.NatToStringDenotes | src/services/BlockChain/BlockChain.service.ts:38 | the decimal text of a natural number is a non-empty digit string denoting it, with no leading zero unless it is 0 |
| Common.IntToStringDenotes | src/services/BlockChain/BlockChain.service.ts:38 | an index prints as its digits, with a leading '-' exactly when negative |
| Common.NatToStringInjective | src/validators/Applications.validator.ts:44-47 | distinct positions print as distinct texts |
| Common.IntToStringInjective | src/services/BlockChain/BlockChain.service.ts:38 | distinct indices print as distinct texts |
| BlockChainService.LastBlock | src/services/BlockChain/BlockChain.service.ts:16-21 | none exactly for an empty chain; otherwise a block of the chain whose index no other block exceeds |
| BlockChainService.BlockLedger.GetLastBlock | src/services/BlockChain/BlockChain.service.ts:16-21 | the latest block is drawn only from the requested election's blocks and has the greatest index among them |
| BlockChainService.LastBlockOfContiguous | src/services/BlockChain/BlockChain.service.ts:16-21 | in a chain indexed 1..N the latest block is the last one stored |
| BlockChainService.NewBlock | src/services/BlockChain/BlockChain.service.ts:26-51 | index last+1 or 1, previous_hash last.hash or "0", voter_hash = h(voter_id), candidate/position/election/timestamp copied from the vote, hash = h of the seven fields in order |
| BlockChainService.ChainValidLinks | src/services/BlockChain/BlockChain.controller.ts:29-41 | in a chain that passes the check, every block after the first is linked to its predecessor and carries the digest of its fields |
| BlockChainService.ChainValidPairs | src/services/BlockChain/BlockChain.controller.ts:29-41 | the recursive chain predicate holds exactly when every consecutive pair is linked and the later block's hash is intact |
| BlockChainService.AppendKeepsChainValid | src/services/BlockChain/BlockChain.service.ts:28-57 | appending the block built from a vote to a chain indexed 1..N that passes the check gives a chain one longer, indexed 1..N+1, that still passes |
| BlockChainService.AppendKeepsSound | src/services/BlockChain/BlockChain.service.ts:30-51 | the append also keeps the "0" sentinel and the intact hash of the first block |
| BlockChainService.VoterHashLinkable | src/services/BlockChain/BlockChain.service.ts:34 | the same voter gets the same voter_hash in every election, whatever else the votes hold |
| BlockChainService.BlockLedger.CreateBlockFromVote | src/services/BlockChain/BlockChain.service.ts:26-60 | exactly one block, the one NewBlock describes, is appended to the vote's election; every other chain is unchanged; every chain stays sound and holds only its own election's blocks |
| BlockChainController.InsertByIndex | src/services/BlockChain/BlockChain.controller.ts:21-24 | inserting a block into a chain sorted by index keeps it sorted and adds exactly that block |
| BlockChainController.SortByIndex | src/services/BlockChain/BlockChain.controller.ts:21-24 | the fetched blocks come back sorted by ascending index, the same blocks with the same multiplicities |
| BlockChainController.SortOfSorted | src/services/BlockChain/BlockChain.controller.ts:21-24 | a chain already in index order is returned as stored |
| BlockChainController.CheckChainIntegrity | src/services/BlockChain/BlockChain.controller.ts:27-41 | the loop with its early exit answers true exactly when every pair i-1, i (i >= 1) has a matching previous_hash and a hash equal to the recomputed digest |
| BlockChainController.GetElectionBlockchain | src/services/BlockChain/BlockChain.controller.ts:10-47 | an empty election id is refused before any read; otherwise the election's own blocks in index order, unchanged, with the loop's verdict |
| BlockChainController.LedgerChainReportedValid | src/services/BlockChain/BlockChain.controller.ts:21-41 | every chain the ledger builds is returned as stored and reported valid |
| BlockChainController.ShortChainValid | src/services/BlockChain/BlockChain.controller.ts:27-29 | chains of zero or one block are reported valid |
| BlockChainController.FirstBlockNotRechecked | src/services/BlockChain/BlockChain.controller.ts:29-38 | replacing the first block by any block with the same hash never changes the verdict |
| BlockChainController.IndicesAndSentinelNotChecked | src/services/BlockChain/BlockChain.controller.ts:29-38 | a chain indexed 7, 3 whose first block lacks the "0" sentinel still passes |
| BlockChainController.PayloadAmbiguous | src/services/BlockChain/BlockChain.controller.ts:33-35 | with no separators, candidate "ab" / position "c" and candidate "a" / position "bc" hash the same text |
| BlockChainController.CandidateChangeBreaksHash | src/services/BlockChain/BlockChain.controller.ts:33-37 | for an injective digest, a block whose candidate is overwritten no longer carries the digest of its own fields |
| BlockChainController.TamperedCandidateDetected | src/services/BlockChain/BlockChain.controller.ts:33-37 | for an injective digest, changing the candidate of any block after the first makes a valid chain fail the check |
| VotesService.VoteLedger.CastVote | src/services/votes/votes.service.ts:9-26 | a vote for an already-voted (voter, position) in any election is refused and changes neither table; otherwise exactly that vote is stored, then exactly one block built from it is appended, and the vote stays stored if the block insert fails; one vote per (voter, position) is kept |
| VotesService.UniqueAfterAccepted | src/services/votes/votes.service.ts:11-19 | storing a vote whose (voter, position) is new keeps every (voter, position) unique |
| VotesService.VoteLedger.RefusedInEveryElection | src/services/votes/votes.service.ts:9-26 | after an accepted cast, a second cast by the same voter for the same position, in any election, is refused with "already voted"; only the first vote is stored, and only its block, if written, is appended |
| VotesService.VotesByCandidate | src/services/votes/votes.service.ts:31-33 | exactly the stored votes naming the candidate, each as often as stored |
| VotesService.VotesByElection | src/services/votes/votes.service.ts:38-40 | exactly the stored votes of the election, each as often as stored |
| VotesService.Tally | src/services/votes/votes.service.ts:45-52 | one entry per distinct candidate of the votes, each count positive and equal to that candidate's number of votes, counts summing to the number of votes |
| VotesService.VoteCountsByElection | src/services/votes/votes.service.ts:45-55 | one entry per candidate with a vote in the election, each with its count there; the counts sum to the election's number of votes |
| ApplicationsValidator.DocumentIssues | src/validators/Applications.validator.ts:27-29 | one issue "documents_url.i" for exactly each document i that is not a URL |
| ApplicationsValidator.ValidateCandidateApplication | src/validators/Applications.validator.ts:38-51 | valid (with the data itself) exactly when both ids are UUIDs, the manifesto has 10+ characters, there is at least one document and all are URLs, and the school is one of the five; otherwise a non-empty list whose issues are exactly the broken rules |
| ApplicationsValidator.IssuesExplained | src/validators/Applications.validator.ts:17-33 | an issue is in the schema's list exactly when the rule it names is broken |
| ApplicationsValidator.DocumentErrorsDistinct | src/validators/Applications.validator.ts:44-47 | the joined paths name each bad document by its own position |
| ApplicationsService.Recorded | src/services/Applications/candidateApplications.service.ts:115-127 | the acting stage gets the status and the approver; its comment is replaced only by a non-empty comment |
| ApplicationsService.ApplyDecision | src/services/Applications/candidateApplications.service.ts:113-131 | only the acting role's stage changes, no stage order is enforced, an unknown role sets no stage field, the overall status is untouched |
| ApplicationsService.Settle | src/services/Applications/candidateApplications.service.ts:139-168 | all stages approved gives APPROVED, any stage rejected gives REJECTED, otherwise the overall status stays as it was; no other field changes |
| ApplicationsService.CandidateFrom | src/services/Applications/candidateApplications.service.ts:145-152 | the candidate's id is the student id, with the application's position, manifesto as bio, school, and the student's name or "Unknown" |
| ApplicationsService.PendingFor | src/services/Applications/candidateApplications.service.ts:77-94 | exactly the applications whose stage for that role is PENDING; nothing for an unknown role |
| ApplicationsService.NewApplicationPendingEverywhere | src/services/Applications/candidateApplications.service.ts:36-41 | a newly stored application is in all three approvers' pending queues |
| ApplicationsService.DecisionLeavesQueue | src/services/Applications/candidateApplications.service.ts:100-168 | a decision sets the acting stage and leaves the other two stages as they were |
| ApplicationsService.RejectionCanBeOverturned | src/services/Applications/candidateApplications.service.ts:139-168 | a rejected application whose rejecting stage later approves, with the others approved, becomes APPROVED |
| ApplicationsService.OverallNotReopened | src/services/Applications/candidateApplications.service.ts:159-168 | moving a stage back to PENDING leaves an APPROVED overall status in place |
| ApplicationsService.ApplicationStore.CreateApplication | src/services/Applications/candidateApplications.service.ts:23-45 | invalid input is refused with the schema's issues before any lookup; a student with any application is refused; otherwise the application is stored PENDING at every stage; one application per student is kept |
| ApplicationsService.ApplicationStore.UpdateApplicationStatus | src/services/Applications/candidateApplications.service.ts:100-175 | unknown id: not found and nothing changes; a role other than the three approvers: the update has no column to set and fails, with nothing written and no candidate inserted; otherwise the decision is recorded, the overall status settled, and a candidate inserted exactly when all three stages are approved |
| ApplicationsService.ApplicationStore.DeleteApplication | src/services/Applications/candidateApplications.service.ts:180-192 | removes the application only when it exists and is PENDING; otherwise not found or already processed, with nothing removed |
| ElectionsService.Classify | src/services/elections/elections.service.ts:97-103 | upcoming iff now < start, ongoing iff start <= now <= end, finished iff start <= now and now > end; exactly one applies |
| ElectionsService.InvertedWindowNeverOngoing | src/services/elections/elections.service.ts:97-103 | an election ending before it starts is upcoming, then finished, never ongoing |
| ElectionsService.ChangedIds | src/services/elections/elections.service.ts:105-109 | the written rows are exactly those whose stored status differs from the computed one |
| ElectionsService.RefreshOnlyStatus | src/services/elections/elections.service.ts:105-109 | a run changes only the status column, to the status the row's own dates call for |
| ElectionsService.RefreshIdempotent | src/services/elections/elections.service.ts:90-111 | running the job twice at the same instant is running it once |
| ElectionsService.SecondRunWritesNothing | src/services/elections/elections.service.ts:90-111 | a second run at the same instant writes no row |
| ElectionsService.NothingToWrite | src/services/elections/elections.service.ts:105-109 | a table already holding every computed status gets no write |
| ElectionsService.ElectionTable.AutoUpdateElectionStatus | src/services/elections/elections.service.ts:90-111 | the loop leaves every row with its computed status and writes exactly the rows that differed, in order |
| ElectionsService.ElectionTable.ChangeElectionStatus | src/services/elections/elections.service.ts:66-76 | sets only the status of the row with that id and returns that updated row; none and no change for an unknown id |
| AuthValidator.TrimStart | src/validators/Auth.validator.ts:23 | removes exactly the leading white space |
| AuthValidator.TrimEnd | src/validators/Auth.validator.ts:23 | removes exactly the trailing white space |
| AuthValidator.TrimProperties | src/validators/Auth.validator.ts:23 | trimming gives a contiguous piece of the input with no white space at either end, and is idempotent |
| AuthValidator.RegisterUser | src/validators/Auth.validator.ts:19-33 | accepted iff reg_no has 3+ characters before trimming and, trimmed, is non-empty letters, digits and '/', and the role is absent or one of the eight; the parsed reg_no is the trimmed one and an absent role becomes "voter" |
| AuthValidator.AccountantsRefused | src/validators/Auth.validator.ts:8-17 | "Accountants", a role of the users table, is refused at registration |
| AuthValidator.PaddedRegNoAccepted | src/validators/Auth.validator.ts:20-27 | " A " passes the length rule and registers as "A", shorter than the rule demands, so the login schema refuses that number whatever the password |
| AuthValidator.LoginUser | src/validators/Auth.validator.ts:39-45 | accepted iff reg_no and password are present with 3+ characters each; the data passes through untrimmed |
| AuthValidator.CompleteProfile | src/validators/Auth.validator.ts:52-66 | accepted iff name has 3+ characters, the school is one of the five, expected_graduation is MM/YYYY with month 01-12, and the e-mail is well formed |
| AuthValidator.UpdatePassword | src/validators/Auth.validator.ts:72-74 | accepted iff the password has 3+ characters |
| GraduationController.StatusNamed | src/services/graduation/graduation.controller.ts:27-29 | a status name is recognised iff it is one of active, graduated, deferred, inactive |
| GraduationController.ManualUpdateDecision | src/services/graduation/graduation.controller.ts:14-29 | forbidden iff the role is missing or not admin or a school dean; otherwise invalid iff the requested status is not in the enumeration; otherwise that status is applied |
| GraduationController.DeanOfStudentsForbidden | src/services/graduation/graduation.controller.ts:14-25 | the dean of students is refused whatever status is requested |
| GraduationController.SlashIndex | src/services/graduation/graduation.controller.ts:49 | the position of the first '/', or none when there is none |
| GraduationController.ToNumber | src/services/graduation/graduation.controller.ts:49 | "" is 0, digits are their value, other text is NaN |
| GraduationController.AcceptedGraduationParses | src/services/graduation/graduation.controller.ts:49-50 | every expected_graduation the profile schema accepts splits into a month 1..12 and a year below 10000, so it makes a valid date |
| GraduationController.DueLexicographic | src/services/graduation/graduation.controller.ts:50-52 | for years from 100 on, a student is due iff (today's year, month) >= (year, month) lexicographically |
| GraduationController.TwoDigitYearQuirk | src/services/graduation/graduation.controller.ts:50 | "01/0025" falls due in January 1925: years 0..99 are read as 1900..1999 |
| GraduationController.NoSlashNeverDue | src/services/graduation/graduation.controller.ts:49-52 | a value without '/' has no year, makes an invalid date, and is never due |
| GraduationController.ActiveStudents | src/services/graduation/graduation.controller.ts:42-44 | the job examines exactly the users whose status is active |
| GraduationController.DueRegNos | src/services/graduation/graduation.controller.ts:48-55 | exactly the registration numbers of the examined students that are due |
| GraduationController.GraduateChanges | src/services/graduation/graduation.controller.ts:42-55 | a run only ever marks a row graduated, only when an active due student has its registration number, and never reverts a graduated row |
| GraduationController.DueStudentGraduated | src/services/graduation/graduation.controller.ts:48-54 | every active student that is due ends graduated |
| GraduationController.OthersUnchanged | src/services/graduation/graduation.controller.ts:42-55 | with unique registration numbers, non-active users and students not yet due are unchanged |
| GraduationController.SharedRegNoGraduated | src/services/graduation/graduation.service.ts:11-14 | a deferred user sharing the registration number of a due active student is marked graduated too |
| GraduationController.GraduateIdempotent | src/services/graduation/graduation.controller.ts:42-55 | a second run on the same day changes nothing |
| GraduationController.UserTable.UpdateGraduationStatusService | src/services/graduation/graduation.service.ts:7-18 | every row with that registration number gets the status; an error and no change when there is none |
| GraduationController.UserTable.AutoUpdateGraduationStatus | src/services/graduation/graduation.controller.ts:40-60 | the loop over the snapshot of active students leaves the table as one run of the rule describes and updates exactly the due students, in order, none of the updates failing |
| PositionsValidator.PositionIssuesExplained | src/validators/positions.validator.ts:19-48 | the issue list is empty exactly when every rule holds, and holds exactly the issues of the broken rules |
| PositionsValidator.ValidatePosition | src/validators/positions.validator.ts:19-48 | accepted (with the data itself) iff election_id is a UUID, the name has 3..100 characters, the tier is school/college/department, a given coalition_id is a UUID, and a school-level position has no coalition; otherwise exactly the issues of the broken rules |
| PositionsValidator.UnknownTierSkipsCoalitionRule | src/validators/positions.validator.ts:38-47 | with an unknown tier the tier issue is raised and the coalition rule is not evaluated |
| PositionsValidator.AcceptedSchoolPositionHasNoCoalition | src/validators/positions.validator.ts:38-47 | an accepted school-level position has no coalition, as the table's CHECK constraint requires |
| PositionsValidator.AcceptedTierNotStored | src/validators/positions.validator.ts:12-16 | every accepted tier other than "school" is outside the table's tier enumeration |
| BearAuth.FindFirst | src/middlewares/bearAuth.ts:44 | the first position at which the pattern occurs, or none when it never does |
| BearAuth.RemoveFirst | src/middlewares/bearAuth.ts:44 | only the first occurrence of the pattern is removed |
| BearAuth.Admission | src/middlewares/bearAuth.ts:40-67 | 401 "missing" iff no header or an empty token, 401 "invalid" iff verification fails, admitted iff verified and the roles are "any" or include the token's role (with exactly the decoded token), 403 with the permission message iff verified and the role is not listed; no other answer |
| BearAuth.BearerPrefixStripped | src/middlewares/bearAuth.ts:44 | "Bearer " followed by a token yields that token |
| BearAuth.RawTokenAccepted | src/middlewares/bearAuth.ts:44 | a header that never contains the scheme is taken whole as the token |
| BearAuth.SchemeRemovedAnywhere | src/middlewares/bearAuth.ts:44 | the scheme is removed wherever it first occurs, not only in front |
| BearAuth.EmptyBearerIsMissing | src/middlewares/bearAuth.ts:44-48 | "Bearer " with nothing after it is a missing token |
| BearAuth.RoleGuards | src/middlewares/bearAuth.ts:70-80 | the admin guard admits only admin, the voter guard only voter, the dean guard only the six dean roles (others get 403), and the "any" guard every verified token |
| BearAuth.Request.Authenticate | src/middlewares/bearAuth.ts:55-66 | on admission the decoded token is attached to the request and the next handler runs; otherwise the request is left as it was |

## Left out

- SHA-256 itself: the digest is the parameter `h`. Tamper detection is stated only under an explicit injectivity precondition.
- VotesService.VoteCountsByElection: each count is a SQL bigint, which the database driver returns as a decimal string; the model gives it as a number (`VoteCount.votes_count`).
- Persistence: the query builder, SQL and the database driver. Tables are Dafny values, and every insert and update succeeds except the block insert in `CastVote`, whose failure is the parameter `blockInsertFails`.
- Database-generated values (row ids, `defaultNow()` timestamps) are method parameters. A timestamp is the text it prints as inside a template literal.
- Concurrency: the model is sequential. It does not cover the read-then-insert races in casting a vote and in building a block, nor the missing transaction between the vote and block inserts.
- The ordering of rows that SQL leaves unspecified. Among blocks with equal indices the later-stored one is taken as the latest, and the sort keeps the stored order.
- The unique index on (voter, position) is represented by the invariant `UniqueVoterPosition`, which the service check already keeps. The unique index on (student, position, election) is implied by the one-application-per-student invariant.
- Column constraints of the candidates insert (its election id, which the promotion leaves out, is NOT NULL in the table). Whatever the database would then do is not modelled: the candidate row is appended.
- The error that the update with no column to set (an unrecognised approver role) raises, and the 500 response it becomes, are one outcome, `NoValuesToSet`.
- HTTP plumbing: status codes appear only as outcome constructors and messages. Routers, the other controllers and the `try`/`catch` blocks that turn exceptions into 500 responses are not modelled.
- The cron schedule: `now` and `today` are parameters. The console log of the graduation job is the returned list of registration numbers.
- bcrypt and JWT: token verification is the parameter `verify`, which gives None whenever the library throws.
- Exceptions that are not validation errors, which `validateCandidateApplication` rethrows. The model has no such exceptions.
- Payloads with missing fields or values of the wrong JSON type, in all the schemas. Fields are modelled as strings (or `Option`s for optional fields), and their absence is not modelled for required fields.
- GraduationController.ToNumber: JavaScript's `Number` also accepts surrounding white space, signs, exponents, fractions and hexadecimal. The model reads only "" and decimal digits and treats every other text as NaN.
- GraduationController.IsDue: the date comparison is reduced to months, which is exact because the due date is the first instant of its month. `today` is the local calendar date of the run.
- String lengths are counted in Dafny characters (Unicode scalar values), while the schemas count UTF-16 code units. The two differ only outside the Basic Multilingual Plane.
- The UUID, URL and e-mail formats are the parameters in `Formats`, not definitions.
- The CRUD services around these components (users, positions, candidates, notifications, the remaining election services), the other schemas and the compiled copies under `dist/`.
