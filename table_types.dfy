/** Vocabulary of the statement table: statements, signed statements, the
    context through which signatures, digests and group membership are
    resolved, the provable kinds of misbehaviour, and per-candidate vote data.
    The identifier types of the context are type parameters throughout:
    V validator id, D digest, C candidate, G group id, S signature. */
module TableTypes {

  datatype Option<T> = None | Some(value: T)

  /** What a validator can assert about a candidate. */
  datatype Statement<C, D> =
    | Candidate(candidate: C)   // a proposal; at most one per validator
    | Valid(digest: D)          // the candidate with this digest is valid
    | Available(digest: D)      // its auxiliary data is available
    | Invalid(digest: D)        // the candidate with this digest is invalid

  /** A statement with its signature; the signer is recovered from the pair. */
  datatype SignedStatement<C, D, S> = SignedStatement(statement: Statement<C, D>, signature: S)

  /** The capabilities the table consumes but never implements: digest and
      group of a candidate, the two kinds of authority a validator may hold
      over a group, and recovery of the signer of a signed statement. */
  datatype Context<!V, !D, !C, !G, !S> = Context(
    candidateDigest: C -> D,
    candidateGroup: C -> G,
    isMemberOf: (V, G) -> bool,
    isAvailabilityGuarantorOf: (V, G) -> bool,
    statementSigner: SignedStatement<C, D, S> -> Option<V>)

  /** Provable misbehaviour of one validator. */
  datatype Misbehavior<C, D, S> =
      /** Voted both valid and invalid on one candidate. */
    | ValidityDoubleVote(digest: D, tSignature: S, fSignature: S)
      /** Proposed two different candidates. */
    | MultipleCandidates(first: (C, S), second: (C, S))
      /** Issued a statement without the authority to do so. */
    | UnauthorizedStatement(statement: SignedStatement<C, D, S>)

  /** Votes on one candidate. */
  datatype CandidateData<V, C, G, S> = CandidateData(
    groupId: G,
    candidate: C,
    validityVotes: map<V, (bool, S)>,
    availabilityVotes: set<V>,
    indicatedBadBy: seq<V>)

  /** The vote data recorded when a candidate is first proposed. */
  function NewCandidateData<V, C, G, S>(group: G, candidate: C): CandidateData<V, C, G, S>
  {
    CandidateData(group, candidate, map[], {}, [])
  }
}
