/** The statement table as the source keeps it: an object owning three maps
    that each imported statement updates in place. Every method is proved to
    leave the table exactly as the matching function of module TableSpec
    says, so the properties proved there hold of the object too. */
module StatementTable {
  import opened TableTypes
  import TableSpec

  class Table<V(==), D(==), C, G, S> {
    var proposedCandidates: map<V, (D, S)>
    var detectedMisbehavior: map<V, Misbehavior<C, D, S>>
    var candidateVotes: map<D, CandidateData<V, C, G, S>>

    /** The table's three maps as one value. */
    function State(): TableSpec.TableState<V, D, C, G, S>
      reads this
    {
      TableSpec.TableState(proposedCandidates, detectedMisbehavior, candidateVotes)
    }

    ghost predicate Valid()
      reads this
    {
      TableSpec.Consistent(State())
    }

    /** A new, empty statement table. */
    constructor ()
      ensures Valid() && State() == TableSpec.Create()
    {
      proposedCandidates := map[];
      detectedMisbehavior := map[];
      candidateVotes := map[];
    }

    /** Import a signed statement. */
    method ImportStatement(ctx: Context<V, D, C, G, S>, statement: SignedStatement<C, D, S>)
      requires Valid()
      modifies this
      ensures Valid()
      ensures State() == TableSpec.ImportStatement(ctx, old(State()), statement)
    {
      var signer;
      match ctx.statementSigner(statement) {
        case None => return;
        case Some(v) => signer := v;
      }

      ghost var o := TableSpec.Dispatch(ctx, State(), signer, statement);
      var maybeMisbehavior;
      match statement.statement {
        case Candidate(candidate) =>
          maybeMisbehavior := ImportCandidate(ctx, signer, candidate, statement.signature);
        case Valid(digest) =>
          maybeMisbehavior := ValidityVote(ctx, signer, digest, true, statement.signature);
        case Invalid(digest) =>
          maybeMisbehavior := ValidityVote(ctx, signer, digest, false, statement.signature);
        case Available(digest) =>
          maybeMisbehavior := AvailabilityVote(ctx, signer, digest, statement.signature);
      }

      assert TableSpec.Outcome(State(), maybeMisbehavior) == o;
      if maybeMisbehavior.Some? {
        // Punishments are not cumulative: the newest proof replaces the old one.
        detectedMisbehavior := detectedMisbehavior[signer := maybeMisbehavior.value];
      }
    }

    method ImportCandidate(ctx: Context<V, D, C, G, S>, from: V, candidate: C, signature: S)
      returns (misbehavior: Option<Misbehavior<C, D, S>>)
      requires Valid()
      modifies this
      ensures Valid()
      ensures TableSpec.Outcome(State(), misbehavior)
           == TableSpec.ImportCandidate(ctx, old(State()), from, candidate, signature)
    {
      var group := ctx.candidateGroup(candidate);
      if !ctx.isMemberOf(from, group) {
        return Some(UnauthorizedStatement(SignedStatement(Candidate(candidate), signature)));
      }

      // Check that the validator has not already proposed another candidate.
      var digest := ctx.candidateDigest(candidate);
      if from in proposedCandidates {
        var (oldDigest, oldSignature) := proposedCandidates[from];
        if oldDigest != digest {
          // Valid() guarantees the first proposal's vote data exists.
          var oldCandidate := candidateVotes[oldDigest].candidate;
          return Some(MultipleCandidates((oldCandidate, oldSignature), (candidate, signature)));
        }
      } else {
        proposedCandidates := proposedCandidates[from := (digest, signature)];
        if digest !in candidateVotes {
          candidateVotes := candidateVotes[digest := NewCandidateData(group, candidate)];
        }
      }
      return None;
    }

    method ValidityVote(ctx: Context<V, D, C, G, S>, from: V, digest: D, valid: bool, signature: S)
      returns (misbehavior: Option<Misbehavior<C, D, S>>)
      requires Valid()
      modifies this
      ensures Valid()
      ensures TableSpec.Outcome(State(), misbehavior)
           == TableSpec.ValidityVote(ctx, old(State()), from, digest, valid, signature)
    {
      if digest !in candidateVotes {
        return None;
      }
      var votes := candidateVotes[digest];

      // Check that this validator can vote in this group.
      if !ctx.isMemberOf(from, votes.groupId) {
        var statement := if valid then Statement.Valid(digest) else Invalid(digest);
        return Some(UnauthorizedStatement(SignedStatement(statement, signature)));
      }

      // Check for double votes.
      if from in votes.validityVotes {
        var (oldValid, oldSignature) := votes.validityVotes[from];
        if oldValid != valid {
          var (tSignature, fSignature) := if valid then (signature, oldSignature) else (oldSignature, signature);
          return Some(ValidityDoubleVote(digest, tSignature, fSignature));
        }
      } else {
        votes := votes.(validityVotes := votes.validityVotes[from := (valid, signature)]);
        votes := votes.(indicatedBadBy := votes.indicatedBadBy + [from]);
        candidateVotes := candidateVotes[digest := votes];
      }
      return None;
    }

    method AvailabilityVote(ctx: Context<V, D, C, G, S>, from: V, digest: D, signature: S)
      returns (misbehavior: Option<Misbehavior<C, D, S>>)
      requires Valid()
      modifies this
      ensures Valid()
      ensures TableSpec.Outcome(State(), misbehavior)
           == TableSpec.AvailabilityVote(ctx, old(State()), from, digest, signature)
    {
      if digest !in candidateVotes {
        return None;
      }
      var votes := candidateVotes[digest];

      // Check that this validator can vote on availability in this group.
      if !ctx.isAvailabilityGuarantorOf(from, votes.groupId) {
        return Some(UnauthorizedStatement(SignedStatement(Available(digest), signature)));
      }

      candidateVotes := candidateVotes[digest := votes.(availabilityVotes := votes.availabilityVotes + {from})];
      return None;
    }
  }
}
