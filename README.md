# Statement table of candidate agreement, in Dafny

This project models the statement table of the candidate-agreement protocol
(`substrate/candidate-agreement/src/table.rs`). The table is the vote ledger
of one agreement round. Validators broadcast signed statements about
candidates: a proposal (`Candidate`), a validity vote (`Valid` / `Invalid`)
or an availability vote (`Available`). For each statement the table

- keeps at most one recorded proposal per validator (`proposedCandidates`);
- keeps per-candidate vote data (`candidateVotes`): the candidate's group and
  payload, one validity vote per validator, the set of availability voters,
  and the `indicatedBadBy` list;
- records provable misbehaviour per validator (`detectedMisbehavior`). The
  three kinds are a statement issued without authority, two different
  proposals from one validator, and contradictory validity votes. A newer
  proof replaces an older one for the same validator.

Signature recovery, digests and group membership belong to a context that
the table consumes but never implements. Here the context is a value of the
datatype `TableTypes.Context`, whose five fields are total functions. The
identifier types (validator id, digest, candidate, group id, signature) are
type parameters `V, D, C, G, S` throughout.

Modules:

- `TableTypes` (`table_types.dfy`): statements, signed statements, the
  context, the misbehaviour kinds and the per-candidate vote data.
- `TableSpec` (`table_spec.dfy`): the table as a value (`TableState`) and
  one function per operation of the source. Each function's contract says
  which maps change, and which misbehaviour is produced, in every branch. It
  also defines the invariants every operation preserves:
  - `Consistent`: every recorded proposal's digest has vote data, so the
    `expect` at table.rs:237-238 cannot fail. It also says `indicatedBadBy`
    lists each validity voter exactly once.
  - `MatchesContext`: vote data is filed under its candidate's digest and
    group, and only authorised validators have votes recorded.
  - `Grows`: no proposal or vote is removed or overwritten; a misbehaviour
    record may be replaced but never removed.
- `StatementTable` (`statement_table.dfy`): class `Table`, with the three
  maps as fields that its methods update in place, as the source does. Each
  method is proved to produce exactly the state and result of the matching
  `TableSpec` function.
- `TableProperties` (`table_properties.dfy`): lemmas that relate several
  imports. They cover idempotence, a double vote detected in either order,
  dropped statements over whole streams, and the invariant holding on every
  table reachable from `create`.
- `TableTests` (`table_tests.dfy`): the source's test context, and its
  two-candidates test replayed on the class, and two replays of
  a digest shared by candidates of different groups.

Candidate digests are not tied to groups, and vote data is created only
when a digest has none (table.rs:252-258). If two candidates share a digest,
the vote data keeps the one that arrived first, with its group. A later
proposer of the other candidate has its proposal recorded against that
stored data. If that proposer then proposes a different candidate, the first
entry of its `MultipleCandidates` proof is the stored candidate, which it
never signed (table.rs:237-245). Its validity votes on the shared digest are
checked against the stored candidate's group (table.rs:278). The model does
exactly this. `TableTests.ProposalOnCollidingDigest` and
`TableTests.VoteOnCollidingDigestIsUnauthorized` replay it, and
`TableProperties.TwoProposalsProveMultipleCandidates` states when the proof
names the validator's own first candidate.

The field name `indicated_bad_by` suggests a list of the validators that
voted "invalid". The code appends the voter on every first validity vote,
whatever its flag (table.rs:309-312), and the model does the same.
`TableSpec.VotesConsistent` states the result: the list holds exactly the
validity voters, each once.

## Model

| member | source | states |
|---|---|---|
| `TableSpec.Create` | substrate/candidate-agreement/src/table.rs:150-157 | the new, empty table satisfies the context-independent invariant |
| `TableSpec.CreateMatchesContext` | substrate/candidate-agreement/src/table.rs:150-157 | the empty table agrees with every context |
| `TableSpec.FirstProposalKeepsInvariants` | substrate/candidate-agreement/src/table.rs:248-258 | recording a first proposal, with new empty vote data only when its digest has none, keeps both invariants and only grows the table |
| `TableSpec.FirstVoteKeepsInvariants` | substrate/candidate-agreement/src/table.rs:309-312 | recording a first validity vote and appending its voter to `indicatedBadBy` keeps both invariants (each voter listed once) and only grows the table |
| `TableSpec.AvailabilityVoteKeepsInvariants` | substrate/candidate-agreement/src/table.rs:340 | adding an availability voter keeps both invariants, and keeps the context agreement when the voter is a guarantor |
| `TableSpec.ImportCandidate` | substrate/candidate-agreement/src/table.rs:211-263 | misbehaviour arises exactly when the proposer is not a member of the candidate's group, or already proposed a different digest; in that case no map changes. A non-member yields `UnauthorizedStatement(Candidate(c), sig)`. A different second digest yields `MultipleCandidates` holding the candidate stored under the first proposal's digest with the first signature, then the new candidate and signature. A first proposal records `(digest, sig)` and creates vote data only when the digest has none. Re-proposing the same digest changes nothing. The invariants are preserved and misbehaviour records are untouched |
| `TableSpec.ValidityVote` | substrate/candidate-agreement/src/table.rs:265-316 | a vote on an unknown digest is dropped. A non-member yields `UnauthorizedStatement` wrapping `Valid(d)` or `Invalid(d)` to match the flag. A first vote inserts `(flag, sig)` and appends the voter to `indicatedBadBy` whatever the flag. A repeated vote with the same flag changes nothing. An opposite vote yields `ValidityDoubleVote` for the digest, with the signature of the `true` vote and of the `false` vote in their slots whatever the order, and keeps the stored vote. Only this digest's data can change; the invariants are preserved |
| `TableSpec.AvailabilityVote` | substrate/candidate-agreement/src/table.rs:318-342 | misbehaviour arises exactly when a known candidate gets a vote from a non-guarantor of its group. It is `UnauthorizedStatement(Available(d), sig)` and leaves the table unchanged. A guarantor is added to the vote set, so a repeat changes nothing. A vote on an unknown digest is dropped |
| `TableSpec.Dispatch` | substrate/candidate-agreement/src/table.rs:175-202 | a proposal goes to `ImportCandidate`, `Valid` and `Invalid` to `ValidityVote` with flag `true` and `false`, `Available` to `AvailabilityVote`; handling any statement preserves both invariants, only lets the table grow and leaves misbehaviour records to the caller |
| `TableSpec.ImportStatement` | substrate/candidate-agreement/src/table.rs:168-209 | if no signer is recovered the table is unchanged. Otherwise the proposals and vote data are those of the sub-operation, and a proved misbehaviour replaces the signer's record with no other validator's record changing. Without misbehaviour the records are unchanged. Both invariants are preserved and the table only grows |
| `TableSpec.ImportAll` | substrate/candidate-agreement/src/table.rs:168-209 | importing any stream of statements in order preserves both invariants; no proposal or vote is removed or overwritten, and a misbehaviour record may be replaced but never removed |
| `StatementTable.Table.constructor` | substrate/candidate-agreement/src/table.rs:150-157 | `create`: the new table is the empty table and is valid |
| `StatementTable.Table.ImportStatement` | substrate/candidate-agreement/src/table.rs:168-209 | updates the three maps in place to exactly `TableSpec.ImportStatement` of the old state, and stays valid |
| `StatementTable.Table.ImportCandidate` | substrate/candidate-agreement/src/table.rs:211-263 | updates the maps in place and returns exactly the outcome of `TableSpec.ImportCandidate`; validity makes the old-candidate lookup safe |
| `StatementTable.Table.ValidityVote` | substrate/candidate-agreement/src/table.rs:265-316 | updates the maps in place and returns exactly the outcome of `TableSpec.ValidityVote` |
| `StatementTable.Table.AvailabilityVote` | substrate/candidate-agreement/src/table.rs:318-342 | updates the maps in place and returns exactly the outcome of `TableSpec.AvailabilityVote` |
| `TableProperties.ReachableTablesAreConsistent` | substrate/candidate-agreement/src/table.rs:231-262 | in every table reachable from `create` under one context, every recorded proposal's digest has vote data, so the `expect` never panics. Such a table also agrees with the context |
| `TableProperties.ImportCandidateAgain` | substrate/candidate-agreement/src/table.rs:231-262 | handling a proposal again, on the table its first handling produced, proves the same misbehaviour and changes nothing |
| `TableProperties.ValidityVoteAgain` | substrate/candidate-agreement/src/table.rs:293-313 | handling a validity vote again proves the same misbehaviour and changes nothing |
| `TableProperties.AvailabilityVoteAgain` | substrate/candidate-agreement/src/table.rs:330-341 | handling an availability vote again proves the same misbehaviour and changes nothing |
| `TableProperties.ImportStatementIdempotent` | substrate/candidate-agreement/src/table.rs:168-209 | importing the same signed statement twice leaves the table as importing it once |
| `TableProperties.FirstVoteRecorded` | substrate/candidate-agreement/src/table.rs:309-312 | a first validity vote of an authorised validator is stored with its flag and signature |
| `TableProperties.OppositeVoteProvesDoubleVote` | substrate/candidate-agreement/src/table.rs:293-307 | importing a vote opposite to the stored one records `ValidityDoubleVote` against the signer, with the true-vote signature first, and leaves the vote data unchanged |
| `TableProperties.DoubleVoteDetectedInEitherOrder` | substrate/candidate-agreement/src/table.rs:293-307 | `Valid(d)` signed `s1` and `Invalid(d)` signed `s2` from one authorised validator record `ValidityDoubleVote(d, s1, s2)` in either arrival order. The vote that came first stays recorded |
| `TableProperties.TwoProposalsProveMultipleCandidates` | substrate/candidate-agreement/src/table.rs:231-258 | a validator with no proposal that proposes `a` signed `s1` and then `b` signed `s2`, with different digests and within its groups, gets `MultipleCandidates((a, s1), (b, s2))` recorded against it and keeps `(digest(a), s1)` as its proposal, whenever the vote data under `a`'s digest is absent or holds `a` |
| `TableProperties.UnsignedStatementsIgnored` | substrate/candidate-agreement/src/table.rs:170-173 | a stream of statements whose signers cannot be recovered leaves the table unchanged |
| `TableProperties.VotesOnUnknownCandidatesDropped` | substrate/candidate-agreement/src/table.rs:273-276 | a stream of validity or availability votes on digests without vote data leaves the table unchanged: nothing is queued |
| `TableProperties.FirstProposalRetained` | substrate/candidate-agreement/src/table.rs:231-247 | a recorded proposal survives any later stream of statements; a second, different proposal never replaces it |
| `TableTests.TestContext` | substrate/candidate-agreement/src/table.rs:366-409 | the test context: a validator is a member, or a guarantor, of exactly the group recorded for it |
| `TableTests.SubmittingTwoCandidatesIsMisbehavior` | substrate/candidate-agreement/src/table.rs:411-443 | validator 1 proposing `(2, 100)` then `(2, 999)` proves nothing at first, then `MultipleCandidates(((2, 100), 1), ((2, 999), 1))` |
| `TableTests.ProposalOnCollidingDigest` | substrate/candidate-agreement/src/table.rs:231-258 | validator 5 proposes `(3, 100)` and validator 1 proposes `(2, 100)`, which has the same digest, with nothing proved. Validator 1 then proposes `(2, 999)` and gets `MultipleCandidates(((3, 100), 1), ((2, 999), 1))`: the stored candidate, not its own |
| `TableTests.VoteOnCollidingDigestIsUnauthorized` | substrate/candidate-agreement/src/table.rs:273-291 | after the same two proposals, validator 1's `Valid(100)` is `UnauthorizedStatement`, because digest 100's vote data carries group 3 |

## Left out

- Context implementations (signature recovery, digest computation, group
  policy) are cryptography and policy outside the table. They are fields of
  the `Context` value, so every property holds for every context.
- The Rust trait bounds and derives (`Hash`, `Debug`, `Clone`, `Ord`,
  `Default`) carry no behaviour. Candidate ordering is never used.
- `HashMap`/`HashSet` iteration order and the `Entry` API are not modelled.
  The containers are Dafny `map` and `set`, and `indicated_bad_by` is a `seq`
  appended in order.
- The structs `ValidityDoubleVote`, `MultipleCandidates` and
  `UnauthorizedStatement` are folded into the constructors of `Misbehavior`
  with the same fields.
- The TODO comments about queuing or seeding votes describe possible future
  work. The model drops votes on unknown digests, as the code does.
- The `expect` in `import_candidate` appears as the precondition
  `Consistent` of the operations. It is the class invariant `Valid()`,
  established by `create` and preserved by every operation. A table built
  any other way is not modelled.
- `MatchesContext` is preserved only while one context is used for every
  import. The code does not require this, and nothing else in the model
  depends on it.
