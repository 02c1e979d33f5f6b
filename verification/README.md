# Verification of the benchmark subnet

The benchmark subnet lets workers ask questions, hand questions out to other
workers, score them from the collected answers, and once a day turn the scores
into rewards that are published as a Merkle tree. This project models that
logic in Dafny and proves what it is relied on for:

- **Rewards add up.** In every state that any interleaving of polls, answers,
  timers, scorers, restarts and crashes can reach, the leaf amounts of an epoch
  equal the positive final rewards, which are at most the raw rewards, which are
  at most the epoch's pool. The per-question bound behind it is exact: it holds
  for every pool and every reply set if and only if at most 14500 replies are
  required per question.
- **The protocol is safe.** Slot limits, one live claim per worker, frozen reply
  sets, at most one winning scorer, monotone row histories, bounded runs; a scored
  question ends up fully scored exactly when no crash cut its scorer off.
- **The protocol finishes.** No wake-up is lost: a question with enough answers has
  a handler on its way to score it, a claimed row has a timer. Handlers take a
  bounded number of steps and none gets stuck, so every crash-free run comes to
  rest with no claim left and every question either short of answers or won by
  exactly one scorer and fully scored. After any run, crashes included, one restart
  and the handlers bring the system to that rest; only questions whose scorer a
  crash cut off stay unfinished.
- **The handlers do what the protocol threads do.** The imperative services over
  the store are proved equal to functions on the tables, and each of those
  functions is proved to be a run of the corresponding thread.
- **Scoring and settlement are order-free and restartable.** The loops over lists
  and maps are proved against reference definitions in which no order occurs.
  Settling works on any books that an earlier attempt left, no insert meets a
  leftover key, and any part of an earlier attempt makes no difference.
- **The numbers are the right ones.** Scores, shares, composite scores, rewards,
  estimates, leaves, hashes and signatures are stated over the rows, replies and
  bytes themselves, with the numbers of the source written out, and over any run
  every question, claim, reply and scoring time is traced to the step it comes from.
- **What is published is what is owed.** Settling any reachable state publishes the
  root of a tree whose leaves together carry exactly the day's final rewards; every
  stored leaf hash commits to its recipient's account and amount, and every stored
  proof leads to the root.
- **The Merkle tree is complete and sound.** Every stored proof verifies; whoever
  gets a foreign leaf accepted exhibits a hash collision.
- **MinHash, the submission gate, the running estimate and the suspension
  back-off** are proved against their set-based, pairwise and closed-form
  meanings.

## Layout

| files | contents |
|---|---|
| `Wrappers`, `Sets`, `Sums`, `Powers` | options and results, set sizes, sums over maps, powers of two |
| `Hashing`, `Merkle` | leaf encoding, hash order, sorting; the tree, proofs, soundness |
| `Scoring`, `ScoreQuestion`, `Payouts` | reference scoring, its loops, the rounding bound |
| `ScoringLaws`, `ScoredColumns` | the scoring tables over the replies, and over the rows of every reachable state |
| `Tables`, `Store` | table statements as functions, and the store object |
| `Text` | code points, UTF-8, unique decoding |
| `Protocol`, `ProtocolInvariant`, `ProtocolSteps`, `ProtocolRuns` | the state machine, its invariant, whole runs |
| `ProtocolDeadlines`, `ProtocolOrigins` | which replies are recorded and when late; whose question, claim, reply and scoring time it is |
| `OfferLaws`, `ProtocolPolls` | which questions are on offer, who is served, polls whose statements lie apart |
| `ProtocolCompletion`, `ProtocolTimers`, `ProtocolRest`, `ProtocolRestart` | no question forgotten, no claim forgotten, handlers end, restart after any run |
| `ProtocolEffort`, `ProtocolWitnesses` | bounded table changes, concrete runs |
| `Handlers`, `Services`, `HandlerRuns` | handlers as thread runs, the services, what they achieve |
| `Settlement`, `SettlementRuns` | what an epoch computes, conservation, link to protocol runs |
| `RewardLaws`, `LeafLaws`, `SettledLaws` | rewards, tree and tables of a settled day, over the rows and with the numbers written out |
| `Ledger`, `Restart`, `RestartWitness` | root and proof rows, store calls, settling again, a concrete day |
| `Aggregation`, `EpochStore`, `SettlementService`, `MerkleRows`, `Settle` | the settlement's loops and calls |
| `Estimator`, `EstimatorLaws` | the running estimate of the day, and what it is over the worker's rows |
| `MinHash`, `MinHashLaws`, `QuestionGate` | signatures, what they are bit by bit, and the submission gate |
| `Suspension` | the back-off |

## Modelling choices

- Each guarded SQL statement is one atomic step. What a handler read may be stale
  when it writes. `required` is fixed during a run.
- Stored shares and rates are whole ten-thousandths, rounded half up as
  `NUMERIC(5,4)` does. Scores, averages and composites are exact rationals, and a
  conversion to an integer is a floor. The source computes with 64-bit floats.
- Hashing is an arbitrary function from byte strings to 32 bytes. The recipient
  lookup, which may fail, and the parsing of addresses are arbitrary functions.
- Times are integers. Row identifiers order rows by creation.
- Words of the MinHash code are integers below 2^64 with xor and wrap-around
  written out.

## Where code and documentation differ

The model follows the code.

- `docs/protocol.md` compares a new question with questions of score 2 or more and
  rejects at 0.9; the code compares with all questions of the set and uses the
  configured threshold, 0.85 by default.
- `docs/protocol.md` lets a timeout trigger the suspension check; the code does not.
- `docs/protocol.md` calls the first assignment status `assigned`; the code calls it
  `claimed`. It also excludes questions a worker was assigned before; the code
  allows a second attempt after one timeout.
- The comment on the question compare-and-set (`internal/store/question.go:109`)
  mentions a status `answering`; the guard accepts `submitted` only.
- `docs/protocol.md` records a reply only up to its deadline. The code compares the
  clock with the deadline first and writes later, guarded by the status only: every
  recorded reply passed that comparison in time, and it is late exactly when the
  clock passed the deadline between the comparison and the write
  (`ProtocolDeadlines.LateIffTickBetween`; a concrete run in
  `ProtocolWitnesses.LateReplyIsAccepted`).
- The settlement is commented as safe to retry. That holds for everything a
  settlement reads or publishes (`Restart.RestartAgrees`), but the sets'
  `qualified_questions` counters go up again with every retry: they stay as one
  settlement leaves them exactly when no question of a known set qualifies
  (`Restart.CountersRepeatIff`; a day that a run leaves in
  `RestartWitness.RepeatCountsTwice`).
- A poll looks for a claim of its worker before it picks a question. Two overlapping
  polls of one worker both pass that guard; the second is then rejected by the unique
  index, exactly when the first one's claim still stands
  (`ProtocolPolls.SplitPollIsAtomic`; a concrete run in
  `ProtocolWitnesses.OverlappingPollIsRejected`).
- A crash between the compare-and-set and the assignment writes leaves replied
  assignments on a scored question for good
  (`ProtocolWitnesses.CrashTearsQuestion`).

## Model

| member | source | states |
|---|---|---|
| Hashing.CompareHashes | internal/merkle/tree.go:145-155 | returns a negative number, zero or a positive number exactly as the first hash is before, equal to or after the second in byte order |
| Hashing.Trichotomy | internal/merkle/tree.go:145-155 | the byte order is total: different hashes are before or after each other, never both |
| Hashing.BeforeTransitive | internal/merkle/tree.go:145-155 | the byte order is transitive |
| Hashing.NodeCommutes | internal/merkle/tree.go:135-143 | the parent of two hashes does not depend on which comes first |
| Hashing.PairInputInjective | internal/merkle/tree.go:135-143 | the 64-byte input of a parent determines its two children up to order |
| Hashing.HashPair | internal/merkle/tree.go:135-143 | the pair hash puts the smaller hash first |
| Hashing.DecodeEncoded | internal/merkle/tree.go:122-132 | account and amount can be read back from the padded encoding of a leaf whose amount is a uint256 |
| Hashing.EncodeInjective | internal/merkle/tree.go:122-132 | two such leaves have the same encoding only if they are equal |
| Hashing.EncodeAmbiguous | internal/merkle/tree.go:122-132 | every leaf beyond uint256 shares its encoding with a different leaf, so the uint256 bound is exact |
| Hashing.HashLeaf | internal/merkle/tree.go:122-132 | the buffer filled in place hashes to the double hash of the padded encoding |
| Hashing.SortHashes | internal/merkle/tree.go:42-45 | sorts the array in place into the sorted copy of its old contents |
| Hashing.SortedUnique | internal/merkle/tree.go:42-45 | two sorted sequences with the same elements are equal |
| Merkle.Verify | internal/merkle/tree.go:112-118 | accepts exactly when folding the proof over the leaf hash gives the root |
| Merkle.SiblingGivesParent | internal/merkle/tree.go:95-107 | hashing a node with its sibling, or promoting it, gives its parent |
| Merkle.PathReachesRoot | internal/merkle/tree.go:80-118 | the siblings on the way up fold every node of every layer to the root, odd promotions included |
| Merkle.PathIsShort | internal/merkle/tree.go:80-110 | a proof has at most ceil(log2 n) elements |
| Merkle.NewTree | internal/merkle/tree.go:29-65 | fails exactly for no leaves; otherwise holds the layers over the sorted leaf hashes |
| Merkle.HashNeighbours | internal/merkle/tree.go:50-61 | one layer up: neighbours hashed, the odd last node promoted |
| Merkle.Tree.Root | internal/merkle/tree.go:68-77 | the root of the leaves, or zero for a tree without nodes |
| Merkle.Tree.Proof | internal/merkle/tree.go:80-110 | fails exactly for a leaf that is not in the tree; otherwise the proof verifies against the root and is logarithmic |
| Merkle.Climb | internal/merkle/tree.go:94-107 | the loop over the layers collects exactly the siblings on the path |
| Merkle.EveryLeafProves | internal/merkle/tree.go:29-118 | completeness for every leaf list, repetitions allowed |
| Merkle.RootIgnoresOrder | internal/merkle/tree.go:36-63 | bottom layer and root depend only on the multiset of leaves |
| Merkle.AcceptedOutsiderCollides | internal/merkle/tree.go:29-143 | soundness: from an accepted leaf that is not in the list and any proof of any length, two different inputs with the same hash are computed |
| Merkle.OversizedLeafImpersonates | internal/merkle/tree.go:122-132 | outside the uint256 range acceptance of an outsider needs no collision: a concrete leaf and proof |
| Scoring.StoredRoundsHalfUp | migrations/001_init.sql:44 | a stored share is the nearest ten-thousandth, ties upwards |
| Scoring.VerdictSeparates | internal/service/scoring.go:127-142 | two replies share a group exactly when both are invalid or both give the same answer |
| Scoring.CasesAreExact | internal/service/scoring.go:101-125 | which of the three cases applies, in terms of the replies alone |
| Scoring.SomeonePaid | internal/service/scoring.go:101-172 | somebody is paid unless every reply lacks its validity flag, so no share divides by zero |
| Scoring.MarksShareOnePool | internal/service/scoring.go:101-172 | every judged reply gets one mark; the paid ones get 5 and exact equal shares summing to one, the others 2 or 3 and nothing |
| Scoring.ScoresWithinFive | internal/service/scoring.go:101-172 | all scores are at most 5 |
| ScoreQuestion.Classify | internal/service/scoring.go:71-87 | the three lists hold exactly the correct, wrong and invalid replies, each once |
| ScoreQuestion.GroupReplies | internal/service/scoring.go:127-142 | the groups are exactly the verdict classes that occur |
| ScoreQuestion.LargestSize | internal/service/scoring.go:144-149 | the size of a largest group |
| ScoreQuestion.SplitWinners | internal/service/scoring.go:151-161 | whatever order the groups are visited in, the winners are the members of all largest groups and the losers the other judged replies |
| ScoreQuestion.Plurality | internal/service/scoring.go:127-171 | winners and losers are the reference ones, each listed once |
| ScoreQuestion.ScoreReplies | internal/service/scoring.go:58-177 | error for no replies, otherwise exactly the reference outcome and every mark listed once; ScoringLaws says what the reference outcome is |
| ScoringLaws.QuestionColumns | internal/service/scoring.go:230-243 | with k replies that call the question valid and give its reference answer, score and share are (5, 1), (5, 9/10), (4, 7/10), (3, 5/10) for k = 1 to 4 and (2, 1/10) from 5 on; without any, (0, 0) if everybody calls it invalid and (1, 1/10) otherwise; the pass rate is k over all replies |
| ScoringLaws.EasierNeverPaysMore | internal/service/scoring.go:230-243 | one more correct reply to a question that has one never raises its score or its share |
| ScoringLaws.MarksBesideCorrect | internal/service/scoring.go:101-113 | beside a correct reply: 5 and an equal part for the correct ones, 3 for other answers, 2 for calling the question invalid |
| ScoringLaws.MarksOfInvalid | internal/service/scoring.go:114-121 | when everybody calls the question invalid each gets 5 and an equal part |
| ScoringLaws.MarksOfCamps | internal/service/scoring.go:122-171 | otherwise exactly the replies whose camp nobody outnumbers get 5 and an equal part, the others 2 and nothing |
| ScoredColumns.QuestionColumnsLaw | internal/service/scoring.go:179-186 | the same table over the stored rows of every scored question of every reachable state, in ten-thousandths |
| ScoredColumns.RowColumnsLaw | internal/service/scoring.go:188-192 | the stored score and share of every scored row of every reachable state, by what it and the others reply |
| ScoredColumns.CampColumnsLaw | internal/service/scoring.go:188-192 | the same for a question nobody answered correctly: the largest camps share, the others get 2 |
| Payouts.PayoutIsSplit | internal/service/settlement.go:113-143 | a judged question pays one portion of the ask pool and equal portions of the answer pool |
| Payouts.SplitIsSafe | internal/service/settlement.go:113-143 | rounded shares never overdraw the base reward for up to 14500, or more than 20000, winners |
| Payouts.SplitOverdraws | internal/service/settlement.go:113-143 | with 14501 to 20000 winners the base reward 14999 is overdrawn |
| Payouts.QuestionNeverOverdrawn | internal/service/scoring.go:101-172 | no reply set with a safe number of paid replies overdraws any base reward |
| Payouts.RequiredRepliesBound | internal/service/settlement.go:113-143 | for all references, reply sets and pools: no overdraft if and only if at most 14500 replies are required |
| Store.Store.GetAssignmentByWorker | internal/store/assignment.go:49-66 | any one of the matching rows, none only if there is none |
| Store.Store.FindClaimedAssignment | internal/store/assignment.go:69-87 | the newest claimed row of the worker |
| Store.Store.ListAssignmentsByQuestion | internal/store/assignment.go:90-112 | every row of the question once, the oldest first |
| Store.Store.CountActiveAssignments | internal/store/assignment.go:195-204 | the loop over the rows counts exactly the claimed and replied rows of the question |
| Store.Store.PickQuestionForWorker | internal/store/question.go:127-164 | a pick is an unlocked one of the 100 oldest questions that are submitted, not the worker's own, without a live attempt, with fewer than two timeouts and with a free slot in the query's snapshot; none only if all of these are locked |
| Store.Store.CreateQuestion | internal/store/question.go:12-28 | a new submitted question under a fresh identifier |
| Store.Store.CreateAssignment | internal/store/assignment.go:12-28 | fails exactly when the worker holds a claim; otherwise one claimed row more |
| Store.Store.TimeoutAssignment | internal/store/assignment.go:208-217 | acts exactly on a claimed row |
| Store.Store.SetAssignmentReply | internal/store/assignment.go:115-127 | acts exactly on a claimed row, which then is replied and holds the validity and the answer given |
| Store.Store.SetAssignmentScore | internal/store/assignment.go:130-138 | writes status, score and rounded share, whatever the status was |
| Store.Store.ScoreQuestion | internal/store/question.go:111-120 | compare-and-set: acts exactly on a submitted question |
| ProtocolInvariant.FullHasNoClaims | internal/service/timer.go:85-108 | a question with enough replies has no claimed row and exactly the required number of replies |
| ProtocolInvariant.LeavesClaimedKeeps | internal/store/assignment.go:115-127 | a reply or timeout keeps the table invariant and every full question's replies |
| ProtocolInvariant.InsertAccepted | internal/service/poll.go:86-101 | after the double-poll guard the unique index accepts the insert |
| ProtocolInvariant.InsertKeeps | internal/service/poll.go:103-133 | a claim on an eligible question keeps the slot limits and every full question's replies |
| ProtocolInvariant.WinKeeps | internal/store/question.go:111-120 | a successful compare-and-set with the reference outcome keeps the table invariant |
| ProtocolInvariant.WriteKeeps | internal/service/scoring.go:188-192 | an assignment write of a pending mark keeps the table invariant |
| ProtocolSteps.StepKeeps | internal/service/timer.go:33-175 | every step of every handler, and a crash, keeps the invariant and is progress |
| ProtocolRuns.SlotLimits | internal/service/poll.go:86-133 | in every reachable state: at most `required` claimed or replied rows per question, one claim per worker, one live row and two rows per worker and question, nobody on their own question |
| ProtocolRuns.PollNeverRejected | migrations/001_init.sql:81 | no poll taken as one step meets the unique index; ProtocolPolls.SplitPollIsAtomic is about polls whose statements lie apart |
| ProtocolRuns.RowHistory | internal/service/timer.go:54-82 | over any run a row leaves claimed once, to replied or timed out; accepted replies stay; a timed-out row had reached its deadline |
| ProtocolRuns.ReplySetFreezes | internal/service/timer.go:85-108 | from enough replies until the compare-and-set no step touches the question's rows, and the replies stay afterwards |
| ProtocolRuns.AtMostOneWin | internal/service/scoring.go:179-186 | in any interleaving at most one compare-and-set per question succeeds; ProtocolCompletion.ExactlyOneWins adds when one does |
| ProtocolRuns.ScoredIffWon | internal/service/scoring.go:179-186 | a question is scored if and only if some step of the run won it |
| ProtocolRuns.SettledUnlessTorn | internal/service/scoring.go:179-192 | a scored question whose scorer has ended has all its rows timed out or scored with the reference marks if and only if no crash cut the scorer off |
| ProtocolRuns.TornIffCut | internal/service/scoring.go:179-192 | a question is cut off if and only if some step of the run was a crash while a scorer of it still had marks to write |
| ProtocolRuns.SettledUnlessCut | internal/service/scoring.go:179-192 | over any run: a scored question whose scorer has ended is fully scored if and only if no such crash occurred |
| ProtocolRuns.NothingTornWithoutCrash | internal/service/scoring.go:179-192 | without a crash no question is cut off |
| ProtocolDeadlines.OnlyAnswersReply | internal/store/assignment.go:115-127 | no step of any handler but the guarded write of an answer makes a row replied |
| ProtocolDeadlines.LateIffTickBetween | internal/service/answer.go:36-64 | every recorded reply passed its row's deadline test in time in an earlier step of the same handler; it is late if and only if the clock passed the deadline between that step and the write |
| ProtocolOrigins.QuestionOrigin | internal/service/question.go:104-115 | over any run every question was asked in some step with the set, the asker and the reference answer it has |
| ProtocolOrigins.RowOrigin | internal/service/poll.go:102-133 | over any run every row was claimed by a poll of its worker, which picked its question and set its deadline |
| ProtocolOrigins.ReplyOrigin | internal/service/answer.go:24-71 | when a row goes from claimed to replied, an earlier submission for its question by its worker carries exactly the validity and the answer that the row then holds |
| ProtocolOrigins.ScoredAtOrigin | internal/service/scoring.go:179-186 | over any run the scoring time of a scored question is the clock at the step that won it |
| ProtocolOrigins.DeadlineTest | internal/service/answer.go:36-59 | a claimed row in time goes on to the write or is dropped by the length of the answer, a late one goes on to the timeout |
| ProtocolOrigins.RowLaw | internal/service/timer.go:54-108 | what a row holds in each status in every reachable state; it is timed out only once its deadline has come |
| ProtocolPolls.RejectedIffClaimedMeanwhile | internal/service/poll.go:86-133 | the unique index rejects an insert whose guard found no claim if and only if another poll of the same worker has claimed a row since that it still holds |
| ProtocolPolls.LockedStaysEligible | internal/service/poll.go:103-125 | a question that was picked and counted while eligible stays so as long as its row lock keeps inserts and the compare-and-set away, whatever else happens |
| ProtocolPolls.SplitPollIsAtomic | internal/service/poll.go:86-133 | guard, pick and insert at three points of any run: either the effect of one atomic poll at the last point, or a rejection, the latter if and only if the worker got another claim meanwhile |
| OfferLaws.CandidatesLaw | internal/store/question.go:130-143 | a candidate is an open question of somebody else, on which the worker has no row or one that timed out, with a free slot |
| OfferLaws.OfferedLaw | internal/store/question.go:144-152 | on offer are a hundred candidates, or all if there are fewer, each older than every candidate left out |
| ProtocolPolls.HeldClaimLaw | internal/service/poll.go:87-100 | a held claim is handed out again up to its deadline, with nothing written, and times out after it |
| ProtocolPolls.ServedLaw | internal/service/poll.go:86-133 | in every reachable state a worker can be given a question if and only if it holds no claim and the question is one it may serve; it then gets a claimed row with the deadline and no reply |
| ProtocolCompletion.StepPursues | internal/service/timer.go:85-108 | no step but a crash leaves an open question with enough replies without a handler that is about to score it |
| ProtocolCompletion.NeverForgotten | internal/service/timer.go:150-172 | no lost wake-up over any interleaving, from the start or from the restart's attempt on the question |
| ProtocolCompletion.ExactlyOneWins | internal/service/scoring.go:179-186 | once no handler pursues a question, exactly one compare-and-set on it succeeded if and only if it has enough answers, and then it has exactly enough |
| ProtocolTimers.TimersFineAt | internal/service/timer.go:33-52 | in every state of every run the timer map never names another row's timer, and a timer is only cancelled after its row left claimed |
| ProtocolTimers.StepGuards | internal/service/timer.go:33-82 | no step but a crash leaves a claimed row without a timer |
| ProtocolTimers.NeverUnguarded | internal/service/timer.go:112-145 | every claimed row has a timer over any interleaving, from the start or from the restart's timer on |
| ProtocolTimers.TimerStartLaw | internal/service/timer.go:33-45 | before the deadline a timer is armed under its row, from the deadline on the timeout starts at once |
| ProtocolTimers.TimeoutLaw | internal/service/timer.go:54-82 | in every reachable state a timeout changes exactly a claimed row, to timed out, and then tries the question; otherwise it ends and changes nothing |
| ProtocolTimers.TryLaw | internal/service/timer.go:85-108 | a try goes on to score exactly with enough replied rows |
| ProtocolTimers.AnswerStopsTimer | internal/service/timer.go:47-52 | the answer's callback stops exactly the timer of its own row unless it fired, and goes on to try the question |
| ProtocolTimers.NoClaimLeft | internal/service/timer.go:54-82 | when every handler has ended after a complete restart, or without any crash, no row is claimed; ProtocolRestart.RestartCompletes establishes the restart |
| ProtocolTimers.EveryQuestionDecided | internal/service/timer.go:112-174 | then a question is open if and only if it has too few answers, is scored if and only if exactly one scorer won, and is fully scored if and only if no crash cut its scorer off |
| ProtocolTimers.RestAfterNoCrash | internal/service/timer.go:54-108 | a crash-free run at rest: no claims, and every question is open with too few answers or fully scored |
| ProtocolRest.StepsAreBounded | internal/service/timer.go:33-108 | over any run, steps taken plus steps still to come are at most required + 10 per handler started |
| ProtocolRest.NothingStuck | internal/service/timer.go:33-108 | a handler cannot take a step if and only if it is a timer before its deadline |
| ProtocolRest.ComesToRest | internal/service/timer.go:33-108 | from any run, the clock and the handlers alone reach a state in which every handler has ended |
| ProtocolRest.EverythingGetsDecided | internal/service/scoring.go:37-192 | any crash-free run can be continued by the clock and the handlers alone until no claim is left and every question with enough answers is fully scored |
| ProtocolRestart.RestartCompletes | internal/service/timer.go:111-175 | after any run, crashes included, a timer for every claimed row and a try at every question with enough replies make the restart complete and leave the tables alone |
| ProtocolRestart.EveryRunGetsDecided | internal/service/timer.go:111-175 | any run, crashes included, can be continued by one restart, the clock and the handlers alone until no claim is left and every question is open with too few answers or won by exactly one scorer, and fully scored if and only if no crash of the run cut that scorer off |
| ProtocolEffort.RowsBounded | internal/store/question.go:134-143 | at most two rows per worker and question |
| ProtocolEffort.StepSpends | internal/service/poll.go:86-133 | a step adds a question, leaves the tables alone, or lowers the measure |
| ProtocolEffort.RunsAreBounded | internal/store/question.go:134-143 | no run changes the tables more than 6 * workers + 1 times per question |
| ProtocolWitnesses.LateReplyIsAccepted | internal/service/answer.go:36-64 | a concrete run in which a reply is recorded after its deadline |
| ProtocolWitnesses.CrashTearsQuestion | internal/service/scoring.go:179-192 | a concrete run in which a crash leaves a replied row on a scored question |
| ProtocolWitnesses.CrashForgetsQuestion | internal/service/timer.go:150-172 | a concrete run in which a crash leaves a question with enough replies and no handler, so the restart's attempt is needed |
| ProtocolWitnesses.OverlappingPollIsRejected | internal/service/poll.go:86-133 | a concrete run in which the second of two overlapping polls of a worker meets the unique index |
| Handlers.LeadsReachable | internal/service/timer.go:54-108 | what a handler reaches from a reachable state is reachable |
| Handlers.ScoringThread | internal/service/scoring.go:37-192 | ScoreQuestion run alone is the scorer thread from its first read to its last write |
| Handlers.TryingThread | internal/service/timer.go:85-108 | TryScore run alone is the counting step and, with enough replies, the scorer thread |
| Handlers.FiringThread | internal/service/timer.go:54-82 | handleTimeout run alone is the timer thread |
| Handlers.StartingThread | internal/service/timer.go:33-45 | StartReplyTimer run alone is the starting step of the timer thread |
| Handlers.SubmitThread | internal/service/answer.go:24-71 | SubmitAnswer with its callback run alone is the answer thread |
| Handlers.PollThread | internal/service/poll.go:75-146 | PollOnline run alone is the poll step and the start of the timer |
| HandlerRuns.LastReplySettles | internal/service/answer.go:24-71 | the answer that completes the required number, undisturbed, leaves a reachable state in which the question is fully scored; ProtocolCompletion.ExactlyOneWins and ProtocolTimers.RestAfterNoCrash are the interleaved case |
| Services.TimerManager.CollectReplied | internal/service/scoring.go:46-57 | the loop collects exactly the replied rows |
| Services.TimerManager.WriteScores | internal/service/scoring.go:188-192 | the loop of writes leaves every mark written, in any order of the list |
| Services.TimerManager.ScoreQuestion | internal/service/scoring.go:37-192 | tables afterwards as the scorer thread leaves them; an error exactly for an open question without replies; ScoredColumns says what they then hold |
| Services.TimerManager.TryScore | internal/service/timer.go:85-108 | counts the replied rows and scores exactly when there are enough |
| Services.TimerManager.StartReplyTimer | internal/service/timer.go:33-45 | a timer under the assignment, or an immediate timeout when the deadline has come |
| Services.TimerManager.CancelTimer | internal/service/timer.go:48-52 | forgets the entry and stops its timer unless it fired |
| Services.TimerManager.HandleTimeout | internal/service/timer.go:54-82 | tables, timers and goroutines afterwards as the timer thread leaves them |
| Services.TimerManager.AnswerSubmitted | cmd/benchmarkd/main.go:96-103 | the callback cancels the timer and tries to score |
| Services.TimerManager.RecordReply | internal/service/answer.go:62-69 | the row then holds the validity and the answer given, for its question and worker; calls back, with the whole state afterwards |
| Services.TimerManager.SubmitAnswer | internal/service/answer.go:24-71 | for every row the unordered query may return: recorded exactly if it is claimed, in time and the answer is short enough, and then the row holds the validity and the answer submitted; a late row times out, every other verdict changes no table; the whole state afterwards |
| Services.VerdictOn | internal/service/answer.go:33-59 | which verdict a row gets, each if and only if its condition holds |
| Services.TimerManager.PollOnline | internal/service/poll.go:75-146 | a poll that the protocol allows, with its whole state afterwards; an error exactly when the insert is rejected, which rolls back; a handed-out row is claimed by the worker; nothing is handed out only if every question on offer is locked or the picked one has lost its last slot |
| Settlement.RawsPartition | internal/service/settlement.go:118-143 | the raw rewards of all workers add up to the rewards of all questions and answers |
| Settlement.CompositeInRange | internal/service/settlement.go:152-177 | with scores up to 5 the composite score is between 0 and 1 |
| Settlement.FinalWithinRaw | internal/service/settlement.go:173-177 | a final reward is between 0 and the raw reward |
| Settlement.LeavesCarryEverything | internal/service/settlement.go:320-341 | summing by recipient loses nothing |
| Settlement.EpochConserves | internal/service/settlement.go:113-341 | leaf amounts == positive final rewards <= raw rewards <= pool, for every recipient assignment |
| RewardLaws.BaseRewardLaw | internal/service/settlement.go:113-114 | the base reward is the even part of the pool per question, rounded down |
| RewardLaws.RecordLaw | internal/service/settlement.go:129-145 | a worker's record counts its own questions, scored and timed-out answers and sums their scores |
| RewardLaws.RawLaw | internal/service/settlement.go:113-145 | the raw reward is a third of the base reward times the share for each own question and the rest times the share for each own answer, each rounded down |
| RewardLaws.WorkerComposite | internal/service/settlement.go:152-171 | ten times the composite score is the average over the one kind of task there is, timed-out answers counted, or the sum of the two averages; without tasks it is 0 |
| RewardLaws.OneSidedIsHalf | internal/service/settlement.go:164-171 | who only asks or only answers has at most one half |
| RewardLaws.FinalLaw | internal/service/settlement.go:173-177 | the final reward is the raw reward times the composite score, rounded down, exactly with enough scored tasks, and 0 otherwise |
| RewardLaws.BenchmarkLaw | internal/service/settlement.go:200-218 | marked are exactly the questions with a score of 4 or 5, at most one objection and a sufficient composite of the questioner |
| SettlementRuns.QuestionWithinBase | internal/service/settlement.go:113-143 | in any state with the table invariant a scored question, even one cut off by a crash, pays at most its base reward |
| SettlementRuns.ReachableEpochConserves | internal/service/settlement.go:60-194 | conservation in every reachable state, for every window and configuration |
| SettlementRuns.ReachableNeverOverflows | internal/service/settlement.go:320-341 | in every reachable state the leaf amounts are positive and fit in an int64 |
| SettlementRuns.ReachableTreeConserves | internal/service/settlement.go:60-245 | settling any reachable state publishes, if anything, the root of a tree whose leaves together carry exactly the final rewards in the day's reward rows, at most the pool |
| Ledger.BaseIgnoresOrder | internal/service/settlement.go:320-349 | the bottom layer, hence root and proofs, does not depend on the iteration order over recipients |
| Ledger.StoredProofsVerify | internal/service/settlement.go:347-374 | every stored proof verifies against the stored root and is logarithmic |
| LeafLaws.BeforeIsNumeric | internal/merkle/tree.go:145-155 | one hash is before another if and only if it spells the smaller number |
| LeafLaws.NodeLaw | internal/merkle/tree.go:135-143 | a parent is the hash of the smaller number followed by the larger |
| LeafLaws.LeafHashLaw | internal/merkle/tree.go:122-132 | a leaf hash is the double hash of 64 bytes: twelve zeros, the account, and the amount as a 32-byte number |
| LeafLaws.StoredRowLaw | internal/service/settlement.go:357-374 | every proof row has its recipient's amount, and its leaf hash commits to the recipient's account and to that amount |
| LeafLaws.TreeLaw | internal/service/settlement.go:328-353 | the stored root is that of a tree with, for every account and amount, as many leaves as recipients of that account and amount, and no others; the leaves add up to the amounts |
| LeafLaws.BottomLaw | internal/merkle/tree.go:36-47 | the bottom layer lists the leaf hashes in the order of the numbers they spell |
| LeafLaws.LayerLaw | internal/merkle/tree.go:49-62 | neighbours are hashed with the smaller number first, an odd last node moves up unhashed |
| SettledLaws.InputsLaw | internal/store/epoch.go:76-130 | a settlement reads exactly the questions scored within the 24 hours from its date on, and their scored and timed-out rows |
| SettledLaws.RewardsLaw | internal/service/settlement.go:147-198 | afterwards the day has one reward row for everyone who asked or answered one of its questions and no other; other days keep theirs |
| SettledLaws.RewardRowLaw | internal/service/settlement.go:152-194 | what a reward row holds, with a recipient exactly when something is paid |
| SettledLaws.ProofsLaw | internal/service/settlement.go:320-374 | the day has a proof row for exactly the recipients of positive final rewards, for the sum of what its reward rows give them |
| SettledLaws.ProofRowLaw | internal/service/settlement.go:357-374 | every proof row's leaf hash is the double hash of the recipient's account and the row's amount, and its proof leads to the epoch's root |
| SettledLaws.EpochLaw | internal/store/epoch.go:65-73 | the epoch row: reward, number of questions, settled and not published; other days keep theirs |
| SettledLaws.RootLaw | internal/service/settlement.go:343-355 | the epoch has a root if and only if the day has a proof row |
| SettledLaws.FlagsLaw | internal/service/settlement.go:200-218 | of the question and answer tables a settlement changes the day's benchmark flags only, and sets them exactly on the marked questions |
| SettledLaws.ViolationsLaw | internal/service/settlement.go:231-234 | violations are forgiven exactly on a day with questions |
| SettledLaws.CountersLaw | internal/store/epoch.go:145-155 | each known set's counter rises by the number of its questions that qualify |
| Restart.ExecAlike | internal/store/epoch.go:15-62 | no store call of a settlement changes what a settlement reads |
| Restart.RestartAgrees | internal/service/settlement.go:60-245 | after any part of a settlement's calls, in any order and number, settling leaves the same books as settling at once |
| Restart.SettlingIsIdempotent | internal/service/settlement.go:58-60 | settling twice is settling once, for the books |
| Restart.CountersRepeatIff | internal/store/epoch.go:145-155 | the sets' counters of qualified questions are after two settlements as after one if and only if no question of a known set qualifies |
| RestartWitness.RepeatCountsTwice | internal/store/epoch.go:145-155 | a day that a run leaves, with one question answered correctly: its set's counter is one after the first settlement and two after the second |
| Aggregation.IndexAnswers | internal/service/settlement.go:107-111 | the index lists, for every question, exactly its answers |
| Aggregation.QuestionAdds | internal/service/settlement.go:130-133 | one more question changes one worker's record by one ask, its score and its portion |
| Aggregation.AnswerAdds | internal/service/settlement.go:135-143 | one more answer changes one worker's record by one answer, its score and its portion |
| Aggregation.LoopComputesRecords | internal/service/settlement.go:118-143 | the nested loop ends with every worker's record, whatever order the rows are listed in |
| Aggregation.Aggregate | internal/service/settlement.go:118-143 | the map of records the two nested loops build |
| EpochStore.EpochStore.CreateOrResetEpoch | internal/store/epoch.go:15-33 | the epoch row is new or wiped |
| EpochStore.EpochStore.DeleteEpochRewards | internal/store/epoch.go:36-42 | exactly the day's reward rows go |
| EpochStore.EpochStore.DeleteEpochMerkleProofs | internal/store/epoch.go:45-51 | exactly the day's proof rows go |
| EpochStore.EpochStore.ResetBenchmarkFlags | internal/store/epoch.go:54-62 | exactly the window's flags are cleared |
| EpochStore.EpochStore.SaveRewardBatch | internal/store/epoch.go:173-210 | fails exactly when a primary key exists; otherwise adds exactly the batch |
| EpochStore.EpochStore.MarkBenchmark | internal/store/epoch.go:145-155 | sets the flag of one question and raises the counter of its set |
| EpochStore.EpochStore.SetWorkerEpochRecipient | internal/store/epoch.go:286-295 | sets the recipient of one existing row |
| EpochStore.EpochStore.SetEpochMerkleRoot | internal/store/merkle.go:23-30 | sets the root of the epoch |
| EpochStore.EpochStore.SaveMerkleProof | internal/store/merkle.go:43-52 | fails exactly when the recipient has a row; otherwise adds it |
| EpochStore.EpochStore.FinishEpoch | internal/store/epoch.go:65-73 | stores the number of questions and marks the epoch settled |
| EpochStore.EpochStore.ResetAllEpochViolations | internal/store/epoch.go:298-304 | zeroes every worker's violations |
| EpochStore.EpochStore.ListScoredQuestionsInRange | internal/store/epoch.go:76-100 | every scored question of the window once, in the order of scoring |
| EpochStore.EpochStore.ListScoredAssignmentsForQuestions | internal/store/epoch.go:103-130 | every scored or timed-out row of the questions once, by question and age |
| EpochStore.EpochStore.CountInvalidReports | internal/store/epoch.go:133-142 | the loop over the rows counts exactly the scored answers that judged the question invalid |
| SettlementService.CompositeScore | internal/service/settlement.go:153-171 | the branches compute the composite score of the record, which RewardLaws.WorkerComposite determines from the rows |
| SettlementService.ComputeRewards | internal/service/settlement.go:147-194 | one row per worker, and the composites and final rewards, whatever the map order; RewardLaws says what these are |
| SettlementService.BatchSaveWorkerEpochRewards | internal/store/epoch.go:173-210 | batches of 100 add exactly the rows; it stops exactly when some row exists already |
| SettlementService.IsQualified | internal/service/settlement.go:200-215 | true exactly for a score of at least 4, at most one report of invalidity and a sufficient composite of the questioner |
| SettlementService.JudgeBenchmarks | internal/service/settlement.go:200-218 | exactly the qualifying questions of the list are flagged, and counted for their sets |
| SettlementService.EligibleWorkers | internal/service/settlement.go:262-268 | exactly the workers with a positive final reward |
| SettlementService.ResolveRecipients | internal/service/settlement.go:271-318 | fails exactly when some lookup fails |
| SettlementService.AggregateRecipients | internal/service/settlement.go:320-327 | the running sums and the noted recipients |
| SettlementService.AllAggregated | internal/service/settlement.go:320-327 | the running sums are the amounts per recipient and every payable row has its recipient, in any order |
| SettlementService.BuildMerkleTree | internal/service/settlement.go:251-376 | fails exactly when a lookup fails; otherwise recipients, root and one proof per recipient; LeafLaws says what they commit to |
| MerkleRows.StoreTree | internal/service/settlement.go:328-374 | root and proof rows as determined by the amounts, which LeafLaws.TreeLaw and LeafLaws.StoredRowLaw describe; no insert meets an existing row; no root without recipients |
| Settle.Gather | internal/service/settlement.go:97-143 | the records of all workers from the queries |
| Settle.Settle | internal/service/settlement.go:60-245 | on any books: fails exactly when a recipient is unknown, otherwise leaves exactly the books its inputs determine, which SettledLaws describes table by table; in either case a retry gives the same books, and the counters of qualified questions rise by the day's qualifying questions |
| Estimator.EstimatedTotalFalls | internal/store/public_queries.go:307-316 | the extrapolated total never rises while no question is scored, is at least the total, and ends at it |
| Estimator.Extrapolate | internal/store/public_queries.go:308-316 | both clamps and the division give the extrapolated total |
| Estimator.GetWorkerTodayStats | internal/store/public_queries.go:294-329 | composite, raw and estimated reward with all branches and clamps; EstimatorLaws says what they are |
| Estimator.EstimateBrackets | internal/store/public_queries.go:294-322 | with the same number of questions: settled raw <= estimated raw <= settled raw + one less than each kind of task; same composite |
| Estimator.EstimateFalls | internal/store/public_queries.go:318-327 | raising the extrapolated total never raises the estimate |
| Estimator.EstimateRisesOverTheDay | internal/store/public_queries.go:307-327 | while no question is scored the estimate only rises towards the one for the day's own total |
| SettlementRuns.ReachableEstimateBrackets | internal/store/public_queries.go:294-324 | the bracket holds in every reachable state |
| EstimatorLaws.ExtrapolationLaw | internal/store/public_queries.go:307-316 | between the first minute and the end of the day the extrapolated total times the elapsed seconds is 86400 times the total, rounded down; 1440 times the total before, the total itself after |
| EstimatorLaws.SumsLaw | internal/store/public_queries.go:252-292 | the queries count and sum exactly the worker's own rows of the window, shares of scored answers only |
| EstimatorLaws.EstimatedRawLaw | internal/store/public_queries.go:318-321 | a third of the even part per question times the summed ask shares plus the rest times the summed answer shares, each rounded down |
| EstimatorLaws.TodayLaw | internal/store/public_queries.go:294-327 | the composite is the settlement's over the rows so far; the estimated reward is its part of the raw one, rounded down, exactly with enough tasks |
| MinHash.HashWithSeed | internal/minhash/minhash.go:42-50 | the loop computes the rounds over the seeded offset |
| MinHash.HashIsBijective | internal/minhash/minhash.go:42-50 | for every byte string each 64-bit value is the hash under exactly one seed, which is computed |
| MinHash.SeedsDisagree | internal/minhash/minhash.go:42-50 | different seeds give different hashes on every input |
| MinHash.ExtractNGrams | internal/minhash/minhash.go:85-98 | all windows of the text, a short text as its own gram, nothing for the empty text |
| MinHash.Generate | internal/minhash/minhash.go:18-39 | the nested loops compute the componentwise minima over the n-grams |
| MinHash.MinOverUnion | internal/minhash/minhash.go:31-37 | the minimum over a union is the smaller minimum, regardless of order and repetition |
| MinHash.SignatureOfUnion | internal/minhash/minhash.go:18-39 | the signature of a union is the componentwise minimum |
| MinHash.SameGramsSameSignature | internal/minhash/minhash.go:18-39 | the signature is a function of the set of n-grams |
| MinHash.CountMatches | internal/minhash/minhash.go:53-61 | the loop computes the similarity |
| MinHash.JaccardIsSimilarity | internal/minhash/minhash.go:53-61 | symmetric, within the unit interval, 1 exactly on equal signatures |
| MinHash.SameGramsAreDuplicates | internal/minhash/minhash.go:18-61 | texts with the same n-grams have similarity 1 |
| MinHash.ParsedBytes | internal/minhash/minhash.go:64-82 | every signature survives the byte round trip |
| MinHash.ToBytes | internal/minhash/minhash.go:64-70 | 1024 bytes, little-endian words in order |
| MinHash.FromBytes | internal/minhash/minhash.go:73-82 | short data reads as the zero signature, longer data word by word |
| MinHashLaws.XorLaw | internal/minhash/minhash.go:44-46 | each of the 64 bits of the exclusive or is set exactly when the two bits differ |
| MinHashLaws.HashLaw | internal/minhash/minhash.go:42-50 | the offset basis with the seed; each byte is put in first and multiplied by 1099511628211 modulo 2^64 after |
| MinHashLaws.KnownHashes | internal/minhash/minhash.go:42-50 | the published FNV-1a values of the empty string and of "a" |
| MinHashLaws.SignatureLaw | internal/minhash/minhash.go:18-39 | place i is the smallest hash with seed i over the windows of three characters, and one of them; the hash of a shorter text; the largest word for none |
| MinHashLaws.JaccardLaw | internal/minhash/minhash.go:53-61 | 128 times the similarity is the number of places that agree |
| MinHashLaws.BytesLaw | internal/minhash/minhash.go:64-70 | byte 8 * i + k of 1024 is the k-th lowest of place i |
| MinHashLaws.ParsedLaw | internal/minhash/minhash.go:73-82 | fewer than 1024 bytes read as zeros; otherwise the k-th lowest byte of place i is byte 8 * i + k |
| Text.EncodingLaw | internal/service/question.go:81-86 | a character takes one to four bytes by its range and is read back from them, as RFC 3629 section 3 lays them out |
| Text.Utf8Injective | internal/minhash/minhash.go:31-33 | different n-grams have different bytes |
| QuestionGate.QuestionService.FindsDuplicate | internal/service/question.go:89-101 | true exactly when some stored question of the set is at least as similar as the threshold |
| QuestionGate.QuestionService.Validate | internal/service/question.go:60-101 | the first check that fails, in order, or none; QuestionGate.RefusalLaw says when each is |
| QuestionGate.QuestionService.SubmitQuestion | internal/service/question.go:57-126 | stores the question, signed and counted, if and only if its set takes questions, everything the worker asked is old enough, both lengths are within their own limits and no stored question of the set reaches the threshold; otherwise changes nothing and reports the first failed check; keeps all pairs dissimilar, all lengths within their set's limits and all counters right |
| QuestionGate.RefusalLaw | internal/service/question.go:60-101 | when a question is taken and, for each refusal, exactly when it is the one reported |
| QuestionGate.StoringKeepsLimited | internal/service/question.go:81-86 | every stored question and answer is within the length limits of its own set |
| QuestionGate.StoringKeepsDissimilar | internal/service/question.go:95-115 | the one-sided gate on stored bytes protects every pair of the set |
| QuestionGate.NoTwoAlike | internal/service/question.go:88-101 | with a threshold of at most 1 no set holds two texts with the same n-grams |
| Suspension.MaybeSuspend | internal/service/scoring.go:210-228 | the doubling loop and the extension of a running suspension |
| Suspension.PunishmentLaw | internal/service/scoring.go:210-228 | one more violation and 2^v times the base period, v the violations before, from the end of a running suspension or from now; nothing without a threshold |
| Suspension.NeverShorter | internal/service/scoring.go:223-227 | a running suspension never gets shorter |
| Suspension.BackoffClosedForm | internal/service/scoring.go:210-228 | k violations from a clean record suspend until base * (2^k - 1) minutes after the first if and only if each lands before the periods so far have run out; otherwise for longer |

## Left out

- Protocol.AfterPoll: a poll is one atomic step that tests the candidate when the row lock is held, and any eligible question may be picked; the real transaction draws from the oldest 100 candidates of its snapshot. ProtocolPolls splits guard, pick and insert; that two transactions on one row wait for each other is taken from the database.
- ProtocolRuns.PollNeverRejected: about polls that are one step; overlapping polls of one worker can meet the index, exactly as ProtocolPolls.SplitPollIsAtomic says.
- Services.TimerManager.AnswerSubmitted: runs TryScore at once, where the source starts a goroutine; the interleaved case is the protocol's.
- Store.Store.PickQuestionForWorker: only the count of active rows is taken from an older snapshot; the other tests are made on the tables of the call.
- HandlerRuns.LastReplySettles: about a handler that nothing interrupts; the interleaved case is the protocol's.
- Services.TimerManager.SubmitAnswer: takes the maximum answer length of the question's set as a parameter and runs the callback's TryScore at once, where the source starts a goroutine; the interleaved case is the protocol's.
- Services.TimerManager.ScoreQuestion: assumes the question's benchmark set exists, as the foreign key guarantees, and leaves the suspension calls at its end to Suspension.
- Services.TimerManager.PollOnline: leaves out the poll time column, the view returned to the worker and the prompt text.
- Settle.Settle: requires that no leaf amount overflows an int64, which SettlementRuns.ReachableNeverOverflows shows for every reachable state; publishing on chain is not modelled.
- SettlementService.ResolveRecipients: one lookup per worker, the test network's own address being one possible lookup; retries, pauses and the ten concurrent lookups are not modelled.
- Aggregation.Aggregate: the records are values in a map, where the source mutates them through pointers.
- Hashing.SortHashes: the library sort is modelled as an insertion sort in place.
- MinHash.ExtractNGrams: texts are sequences of code points; decoding of invalid UTF-8 is not modelled.
- Estimator.GetWorkerTodayStats: the sums and averages of the three queries are inputs, defined from the window's rows by SumsOf.
- Suspension.MaybeSuspend: minutes are unbounded natural numbers; a negative configured base and 64-bit wrap-around are not modelled.
- QuestionGate.QuestionService.SubmitQuestion: submissions one after another; two at once may both pass the similarity check.
- RecoverOnStartup: appears as protocol events that start timers and scorers again after a crash, not as a method.
- Failing database calls: only a process crash and a rejected insert are modelled; a statement that fails on its own is not.
- Rounding of 64-bit floats: shares, averages and composites are exact rationals.
- Hexadecimal formatting and parsing of hashes, roots and proofs.
- HTTP handlers, authentication, signatures, the chain client, leaderboards and statistics queries, and the settlement scheduler.
- Reloading of the runtime configuration: lowering the required number of answers during a run would break the frozen reply set.
