/** Properties that relate several imports to each other, stated over the
    reference definition in module TableSpec. */
module TableProperties {
  import opened TableTypes
  import opened TableSpec

  /** Every table reachable from `create` by importing statements under one
      context satisfies both invariants. The last conjunct, already part of
      `Consistent`, is spelled out as the corollary that matters: the vote
      data of every recorded proposal exists, so the `expect` that looks up a
      first proposal's candidate never panics. */
  lemma ReachableTablesAreConsistent<V, D, C, G, S>(ctx: Context<V, D, C, G, S>, ss: seq<SignedStatement<C, D, S>>)
    ensures var t := ImportAll(ctx, Create(), ss);
      && Consistent(t)
      && MatchesContext(ctx, t)
      && (forall v :: v in t.proposedCandidates ==> t.proposedCandidates[v].0 in t.candidateVotes)
  {
    CreateMatchesContext(ctx);
  }

  /** A proposal handled a second time, on the table its first handling
      produced, proves the same misbehaviour and changes nothing. */
  lemma ImportCandidateAgain<V, D, C, G, S>(
    ctx: Context<V, D, C, G, S>, t: TableState<V, D, C, G, S>, u: TableState<V, D, C, G, S>,
    from: V, candidate: C, signature: S)
    requires Consistent(t) && Consistent(u)
    requires var o := ImportCandidate(ctx, t, from, candidate, signature);
      u.proposedCandidates == o.table.proposedCandidates && u.candidateVotes == o.table.candidateVotes
    ensures ImportCandidate(ctx, u, from, candidate, signature)
         == Outcome(u, ImportCandidate(ctx, t, from, candidate, signature).misbehavior)
  {
  }

  /** A validity vote handled a second time, on the table its first handling
      produced, proves the same misbehaviour and changes nothing. */
  lemma ValidityVoteAgain<V, D, C, G, S>(
    ctx: Context<V, D, C, G, S>, t: TableState<V, D, C, G, S>, u: TableState<V, D, C, G, S>,
    from: V, digest: D, valid: bool, signature: S)
    requires Consistent(t) && Consistent(u)
    requires var o := ValidityVote(ctx, t, from, digest, valid, signature);
      u.proposedCandidates == o.table.proposedCandidates && u.candidateVotes == o.table.candidateVotes
    ensures ValidityVote(ctx, u, from, digest, valid, signature)
         == Outcome(u, ValidityVote(ctx, t, from, digest, valid, signature).misbehavior)
  {
  }

  /** An availability vote handled a second time, on the table its first
      handling produced, proves the same misbehaviour and changes nothing. */
  lemma AvailabilityVoteAgain<V, D, C, G, S>(
    ctx: Context<V, D, C, G, S>, t: TableState<V, D, C, G, S>, u: TableState<V, D, C, G, S>,
    from: V, digest: D, signature: S)
    requires Consistent(t) && Consistent(u)
    requires var o := AvailabilityVote(ctx, t, from, digest, signature);
      u.proposedCandidates == o.table.proposedCandidates && u.candidateVotes == o.table.candidateVotes
    ensures AvailabilityVote(ctx, u, from, digest, signature)
         == Outcome(u, AvailabilityVote(ctx, t, from, digest, signature).misbehavior)
  {
    var o := AvailabilityVote(ctx, t, from, digest, signature);
    if digest in t.candidateVotes && ctx.isAvailabilityGuarantorOf(from, t.candidateVotes[digest].groupId) {
      var data := u.candidateVotes[digest];
      assert from in data.availabilityVotes;
      assert data.(availabilityVotes := data.availabilityVotes + {from}) == data;
      assert u.candidateVotes[digest := data] == u.candidateVotes;
    }
  }

  /** Importing the same signed statement a second time changes nothing. */
  lemma ImportStatementIdempotent<V, D, C, G, S>(
    ctx: Context<V, D, C, G, S>, t: TableState<V, D, C, G, S>, s: SignedStatement<C, D, S>)
    requires Consistent(t)
    ensures var once := ImportStatement(ctx, t, s);
      ImportStatement(ctx, once, s) == once
  {
    var once := ImportStatement(ctx, t, s);
    if ctx.statementSigner(s).Some? {
      var signer := ctx.statementSigner(s).value;
      var o := Dispatch(ctx, t, signer, s);
      assert Dispatch(ctx, once, signer, s) == Outcome(once, o.misbehavior) by {
        match s.statement {
          case Candidate(c) => ImportCandidateAgain(ctx, t, once, signer, c, s.signature);
          case Valid(d) => ValidityVoteAgain(ctx, t, once, signer, d, true, s.signature);
          case Invalid(d) => ValidityVoteAgain(ctx, t, once, signer, d, false, s.signature);
          case Available(d) => AvailabilityVoteAgain(ctx, t, once, signer, d, s.signature);
        }
      }
      assert o.misbehavior.Some? ==> once.detectedMisbehavior[signer := o.misbehavior.value] == once.detectedMisbehavior;
    }
  }

  /** A `Valid` and an `Invalid` vote on one candidate by one authorised
      validator yield the same double-vote proof in either order, and the
      vote recorded is the one that came first. */
  lemma DoubleVoteDetectedInEitherOrder<V, D, C, G, S>(
    ctx: Context<V, D, C, G, S>, t: TableState<V, D, C, G, S>, v: V, d: D, tSignature: S, fSignature: S)
    requires Consistent(t)
    requires d in t.candidateVotes
    requires ctx.isMemberOf(v, t.candidateVotes[d].groupId)
    requires v !in t.candidateVotes[d].validityVotes
    requires ctx.statementSigner(SignedStatement(Valid(d), tSignature)) == Some(v)
    requires ctx.statementSigner(SignedStatement(Invalid(d), fSignature)) == Some(v)
    ensures var yes, no := SignedStatement(Valid(d), tSignature), SignedStatement(Invalid(d), fSignature);
      var yesNo := ImportStatement(ctx, ImportStatement(ctx, t, yes), no);
      var noYes := ImportStatement(ctx, ImportStatement(ctx, t, no), yes);
      && v in yesNo.detectedMisbehavior && v in noYes.detectedMisbehavior
      && yesNo.detectedMisbehavior[v] == ValidityDoubleVote(d, tSignature, fSignature)
      && noYes.detectedMisbehavior[v] == ValidityDoubleVote(d, tSignature, fSignature)
      && d in yesNo.candidateVotes && v in yesNo.candidateVotes[d].validityVotes
      && d in noYes.candidateVotes && v in noYes.candidateVotes[d].validityVotes
      && yesNo.candidateVotes[d].validityVotes[v] == (true, tSignature)
      && noYes.candidateVotes[d].validityVotes[v] == (false, fSignature)
  {
    var yes, no := SignedStatement(Valid(d), tSignature), SignedStatement(Invalid(d), fSignature);
    var afterYes, afterNo := ImportStatement(ctx, t, yes), ImportStatement(ctx, t, no);
    FirstVoteRecorded(ctx, t, yes, v, d, true);
    OppositeVoteProvesDoubleVote(ctx, afterYes, no, v, d, false);
    FirstVoteRecorded(ctx, t, no, v, d, false);
    OppositeVoteProvesDoubleVote(ctx, afterNo, yes, v, d, true);
  }

  /** A first validity vote of an authorised validator is recorded as cast. */
  lemma FirstVoteRecorded<V, D, C, G, S>(
    ctx: Context<V, D, C, G, S>, t: TableState<V, D, C, G, S>, s: SignedStatement<C, D, S>, v: V, d: D, valid: bool)
    requires Consistent(t)
    requires s.statement == (if valid then Valid(d) else Invalid(d))
    requires ctx.statementSigner(s) == Some(v)
    requires d in t.candidateVotes
    requires ctx.isMemberOf(v, t.candidateVotes[d].groupId)
    requires v !in t.candidateVotes[d].validityVotes
    ensures var u := ImportStatement(ctx, t, s);
      && d in u.candidateVotes
      && ctx.isMemberOf(v, u.candidateVotes[d].groupId)
      && v in u.candidateVotes[d].validityVotes
      && u.candidateVotes[d].validityVotes[v] == (valid, s.signature)
  {
    assert Dispatch(ctx, t, v, s) == ValidityVote(ctx, t, v, d, valid, s.signature);
  }

  /** A validity vote opposite to the one a validator already cast proves a
      double vote, with each signature in the slot of its flag, and keeps the
      vote first cast. */
  lemma OppositeVoteProvesDoubleVote<V, D, C, G, S>(
    ctx: Context<V, D, C, G, S>, t: TableState<V, D, C, G, S>, s: SignedStatement<C, D, S>, v: V, d: D, valid: bool)
    requires Consistent(t)
    requires s.statement == (if valid then Valid(d) else Invalid(d))
    requires ctx.statementSigner(s) == Some(v)
    requires d in t.candidateVotes
    requires ctx.isMemberOf(v, t.candidateVotes[d].groupId)
    requires v in t.candidateVotes[d].validityVotes && t.candidateVotes[d].validityVotes[v].0 == !valid
    ensures var u := ImportStatement(ctx, t, s);
      var earlier := t.candidateVotes[d].validityVotes[v].1;
      && u.candidateVotes == t.candidateVotes
      && v in u.detectedMisbehavior
      && u.detectedMisbehavior[v] == ValidityDoubleVote(d, if valid then s.signature else earlier,
                                                            if valid then earlier else s.signature)
  {
    var o := ValidityVote(ctx, t, v, d, valid, s.signature);
    assert Dispatch(ctx, t, v, s) == o;
    var m := o.misbehavior.value;
    var pairs := {(valid, s.signature), t.candidateVotes[d].validityVotes[v]};
    assert {(true, m.tSignature), (false, m.fSignature)} == pairs;
    assert (true, m.tSignature) in pairs && (false, m.fSignature) in pairs;
  }

  /** A validator that proposes candidate `a` and then a candidate `b` with a
      different digest, both within its groups, is caught: the second
      proposal records `MultipleCandidates((a, s1), (b, s2))` and the first
      proposal stays recorded. The vote data filed under `a`'s digest must be
      absent or hold `a` itself: otherwise the first entry of the proof is the
      candidate stored there, which another validator proposed. */
  lemma TwoProposalsProveMultipleCandidates<V, D, C, G, S>(
    ctx: Context<V, D, C, G, S>, t: TableState<V, D, C, G, S>, v: V, a: C, s1: S, b: C, s2: S)
    requires Consistent(t)
    requires v !in t.proposedCandidates
    requires ctx.statementSigner(SignedStatement(Candidate(a), s1)) == Some(v)
    requires ctx.statementSigner(SignedStatement(Candidate(b), s2)) == Some(v)
    requires ctx.isMemberOf(v, ctx.candidateGroup(a)) && ctx.isMemberOf(v, ctx.candidateGroup(b))
    requires ctx.candidateDigest(a) != ctx.candidateDigest(b)
    requires ctx.candidateDigest(a) in t.candidateVotes ==> t.candidateVotes[ctx.candidateDigest(a)].candidate == a
    ensures var first, second := SignedStatement(Candidate(a), s1), SignedStatement(Candidate(b), s2);
      var u := ImportStatement(ctx, ImportStatement(ctx, t, first), second);
      && v in u.detectedMisbehavior
      && u.detectedMisbehavior[v] == MultipleCandidates((a, s1), (b, s2))
      && v in u.proposedCandidates
      && u.proposedCandidates[v] == (ctx.candidateDigest(a), s1)
  {
    var first, second := SignedStatement(Candidate(a), s1), SignedStatement(Candidate(b), s2);
    var once := ImportStatement(ctx, t, first);
    assert Dispatch(ctx, t, v, first) == ImportCandidate(ctx, t, v, a, s1);
    assert v in once.proposedCandidates && once.proposedCandidates[v] == (ctx.candidateDigest(a), s1);
    assert ctx.candidateDigest(a) in once.candidateVotes && once.candidateVotes[ctx.candidateDigest(a)].candidate == a;
    assert Dispatch(ctx, once, v, second) == ImportCandidate(ctx, once, v, b, s2);
  }

  /** Statements whose signer cannot be recovered are ignored, however many. */
  lemma {:induction false} UnsignedStatementsIgnored<V, D, C, G, S>(
    ctx: Context<V, D, C, G, S>, t: TableState<V, D, C, G, S>, ss: seq<SignedStatement<C, D, S>>)
    requires Consistent(t)
    requires forall i :: 0 <= i < |ss| ==> ctx.statementSigner(ss[i]).None?
    ensures ImportAll(ctx, t, ss) == t
    decreases |ss|
  {
    if ss != [] {
      UnsignedStatementsIgnored(ctx, t, ss[1..]);
    }
  }

  /** Votes on candidates the table has not seen are dropped, however many:
      nothing is queued and nothing is recorded. */
  lemma {:induction false} VotesOnUnknownCandidatesDropped<V, D, C, G, S>(
    ctx: Context<V, D, C, G, S>, t: TableState<V, D, C, G, S>, ss: seq<SignedStatement<C, D, S>>)
    requires Consistent(t)
    requires forall i :: 0 <= i < |ss| ==> !ss[i].statement.Candidate? && ss[i].statement.digest !in t.candidateVotes
    ensures ImportAll(ctx, t, ss) == t
    decreases |ss|
  {
    if ss != [] {
      var s := ss[0];
      if ctx.statementSigner(s).Some? {
        var signer := ctx.statementSigner(s).value;
        assert Dispatch(ctx, t, signer, s) == Outcome(t, None);
      }
      assert ImportStatement(ctx, t, s) == t;
      VotesOnUnknownCandidatesDropped(ctx, t, ss[1..]);
    }
  }

  /** A proposal, once recorded, survives any stream of later statements;
      in particular a second, different proposal never replaces it. */
  lemma FirstProposalRetained<V, D, C, G, S>(
    ctx: Context<V, D, C, G, S>, t: TableState<V, D, C, G, S>, ss: seq<SignedStatement<C, D, S>>, v: V)
    requires Consistent(t)
    requires v in t.proposedCandidates
    ensures var u := ImportAll(ctx, t, ss);
      v in u.proposedCandidates && u.proposedCandidates[v] == t.proposedCandidates[v]
  {
  }
}
