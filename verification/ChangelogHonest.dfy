/** An honest server's fast-forward always succeeds: with the proof of a log that has
    the client's anchor entry where it was, or without one, and then the rest of the
    server's log as a tail. */
module ChangelogHonest {
  import opened Prelude
  import opened Mmr
  import opened Changelog
  import opened ChangelogRuns

  // ---------------------------------------------------------------------
  // The tail
  // ---------------------------------------------------------------------

  /** Element `k` of the tail is the record of `full` at that position, proven and
      taken in time. */
  ghost predicate HonestElement(env: Env, ff: FfData, start: nat, full: seq<Record>, k: nat)
    requires |ff.changes| == |ff.responses| && k < |ff.changes| && start + k < |full|
  {
    var record, change, response := full[start + k], ff.changes[k], ff.responses[k];
    && record == Record(change, response.oldRoot, response.newRoot)
    && response.changeId == start + k + 1
    && env.proves(change, response.tree, response.oldRoot, response.newRoot, start + k + 1)
    && change.timestamp - 5 <= response.acceptedAt <= change.timestamp + 100
  }

  ghost predicate HonestTail(env: Env, ff: FfData, base: seq<Record>, full: seq<Record>) {
    && Verified(env, full) && base <= full
    && |ff.changes| == |ff.responses| == |full| - |base|
    && forall k | 0 <= k < |ff.changes| :: HonestElement(env, ff, |base|, full, k)
  }

  lemma {:induction false} HonestStep(env: Env, st: State, ff: FfData, start: nat, full: seq<Record>, k: nat)
    requires |ff.changes| == |ff.responses| && k < |ff.changes| && start + k < |full|
    requires Verified(env, full) && HonestElement(env, ff, start, full, k)
    requires st.uid.Some? && Represents(env, st, full[..start + k])
    ensures PeaksMatch(st.clc)
    ensures var step := StepTail(env, st, ff.changes[k], ff.responses[k]);
      && step.Stepped? && step.st.uid == st.uid
      && Represents(env, step.st, full[..start + k + 1])
  {
    hide HeadOf, Append, Leaves, LastSigned, Latest, FinalRoot, Verified;
    VerifiedAt(env, full, start + k);
    RepresentsWellFormed(env, st, full[..start + k]);
    ApplyKeeps(env, st, full[..start + k], ff.changes[k], ff.responses[k]);
    assert full[..start + k + 1] == full[..start + k] + [full[start + k]];
  }

  lemma {:induction false} HonestTailRuns(env: Env, st: State, applied: bool, ff: FfData, base: seq<Record>,
                                          full: seq<Record>, from: nat)
    requires HonestTail(env, ff, base, full) && from <= |ff.changes|
    requires st.uid.Some? && Represents(env, st, full[..|base| + from])
    ensures PeaksMatch(st.clc)
    ensures var end := Tail(env, st, applied, ff.changes, ff.responses, from);
      end.error.None? && Represents(env, end.st, full)
    decreases |ff.changes| - from
  {
    hide Represents, StepTail, HonestElement, Verified;
    RepresentsWellFormed(env, st, full[..|base| + from]);
    if from == |ff.changes| {
      assert full[..|base| + from] == full;
    } else {
      HonestStep(env, st, ff, |base|, full, from);
      HonestTailRuns(env, StepTail(env, st, ff.changes[from], ff.responses[from]).st, true, ff, base, full, from + 1);
    }
  }

  // ---------------------------------------------------------------------
  // The proof
  // ---------------------------------------------------------------------

  /** The audit path of the entry at position `c`. */
  function PathTo(dc0: Dc, base: seq<Record>, c: nat): Inclusion
    requires c <= |base|
  {
    InclusionProof(c, |base| + 1, AuditPath(Leaves(dc0, base), c))
  }

  ghost predicate HonestProof(env: Env, st: State, ff: FfData, base: seq<Record>)
    requires ff.proof.Some?
  {
    var proof := ff.proof.value;
    && env.verifyFf(proof.blob).Some?
    && var range := env.verifyFf(proof.blob).value;
    && Attests(env, range, base) && |base| + 1 < TREE_SIZE_LIMIT
    && range.startDc == st.initialDc && range.startClc == HeadOf([HInit(st.initialDc)])
    && proof.endChangeId == |base| && st.changeId <= |base|
    && (if st.changeId == 0 then proof.fromInclusion == None
        else && st.entry.Some? && At(base, st.changeId, HLeaf(st.entry.value))
             && proof.fromInclusion == Some(PathTo(st.initialDc, base, st.changeId)))
    && (ff.responses == [] ==>
          && base != [] && proof.endEntry == LastEntry(base)
          && proof.endInclusion == Some(PathTo(st.initialDc, base, |base|)))
    && (ff.responses != [] ==> ff.responses[0].oldRoot == range.endDc)
    && NewestSupplied(base, proof.sigrefEntries)
  }

  lemma {:induction false} PathVerifies(dc0: Dc, base: seq<Record>, c: nat)
    requires 0 < c <= |base| && |base| + 1 < TREE_SIZE_LIMIT
    ensures VerifyInclusion(HeadOf(Leaves(dc0, base)), PathTo(dc0, base, c), HLeaf(base[c - 1].entry))
  {
    hide HeadOf, AuditPath, VerifyInclusion;
    InclusionIff(Leaves(dc0, base), PathTo(dc0, base, c), HLeaf(base[c - 1].entry));
  }

  lemma {:induction false} HonestProofOk(env: Env, st: State, ff: FfData, base: seq<Record>)
    requires ff.proof.Some? && HonestProof(env, st, ff, base)
    ensures ProofOk(st, ff, ff.proof.value, env.verifyFf(ff.proof.value.blob).value, AnchorOf(st))
  {
    hide AuditPath, VerifyInclusion, LastSigned, Latest, Verified, Linked, ParentsOk, WellFormed, NewestSupplied;
    var leaves := Leaves(st.initialDc, base);
    AppendExtends(leaves, HInit(0));
    hide HeadOf;
    HeadSize(leaves);
    if st.changeId > 0 { PathVerifies(st.initialDc, base, st.changeId); }
    if ff.responses == [] { PathVerifies(st.initialDc, base, |base|); }
  }

  lemma HeadSize(leaves: seq<Hash>)
    requires leaves != []
    ensures HeadOf(leaves).treeSize == |leaves|
  {
  }

  lemma {:induction false} HonestSigrefs(env: Env, range: Range, proof: FfProof, base: seq<Record>)
    requires Attests(env, range, base) && NewestSupplied(base, proof.sigrefEntries)
    ensures SigrefEntriesOk(range, proof)
  {
    hide HeadOf, Leaves, Latest, Verified, Linked, ParentsOk, LastSigned;
    forall u | u in range.sigref
      ensures var (c, hash) := range.sigref[u];
        && c in proof.sigrefEntries && proof.sigrefEntries[c].uid == u && proof.sigrefEntries[c].signed
        && HLeaf(proof.sigrefEntries[c]) == hash
    {
      assert u in LastSigned(base);
      LastSignedIsLast(base, u);
    }
  }

  lemma {:induction false} HonestBlock(env: Env, st: State, log: seq<Record>, r: Recovery, base: seq<Record>)
    requires Represents(env, st, log) && (r.ff.proof.None? ==> base == log)
    requires r.ff.proof.Some? ==> HonestProof(env, st, r.ff, base)
    ensures var block := ProofBlock(env, st, r.ff, AnchorOf(st), r.expected);
      block.Ok? && Represents(env, block.value, base) && block.value.uid == st.uid
  {
    hide Represents, ProofOk, HeadOf, Leaves, LastSigned, Latest, FinalRoot, Verified, Linked, ParentsOk;
    if r.ff.proof.Some? {
      HonestProofOk(env, st, r.ff, base);
      AdoptRepresents(env, st, r.ff, env.verifyFf(r.ff.proof.value.blob).value, base, r.expected);
    }
  }

  // ---------------------------------------------------------------------
  // The whole fast-forward
  // ---------------------------------------------------------------------

  /** What a server with the log `full` sends: a proof of the log `base`, or none if
      the client is on it, and the rest as a tail, with right signatures. */
  ghost predicate OnBranch(env: Env, st: State, log: seq<Record>, r: Recovery, base: seq<Record>, full: seq<Record>) {
    && (r.ff.proof.None? ==> base == log)
    && (r.ff.proof.Some? ==> HonestProof(env, st, r.ff, base))
    && HonestTail(env, r.ff, base, full)
    && AllVerified(r.sigs, |r.ff.changes|) && r.sigrefs
    && r.ff.head.Some? && r.ff.head.value.changeId == |full|
  }

  /** The head that the server reports is that of the log. */
  ghost predicate HeadTold(env: Env, st: State, r: Recovery, full: seq<Record>)
    requires r.ff.head.Some?
  {
    && r.ff.head.value.clc == env.clcPrefix(HeadOf(Leaves(st.initialDc, full)).root)
    && r.ff.head.value.dc == env.dcPrefix(FinalRoot(st.initialDc, full))
  }

  lemma {:induction false} HonestIds(env: Env, ff: FfData, base: seq<Record>, full: seq<Record>)
    requires HonestTail(env, ff, base, full)
    ensures MaxId(ff.responses) <= |full|
  {
    MaxIdReached(ff.responses);
    if MaxId(ff.responses) > 0 {
      var k :| 0 <= k < |ff.responses| && ff.responses[k].changeId == MaxId(ff.responses);
      assert HonestElement(env, ff, |base|, full, k);
    }
  }

  lemma {:induction false} HonestChecks(env: Env, st: State, t: State, r: Recovery, base: seq<Record>)
    requires r.ff.proof.Some? ==> HonestProof(env, st, r.ff, base)
    requires AllVerified(r.sigs, |r.ff.changes|) && r.sigrefs
    ensures DeferredChecks(env, t, r.ff, st.changeId, r.sigs, r.sigrefs) == HeadCheck(env, t, r.ff, st.changeId)
  {
    hide HeadOf, Leaves, LastSigned, Latest, FinalRoot, Verified, Linked, ParentsOk, NewestSupplied, SigrefEntriesOk,
         AllVerified, VerifyInclusion, AuditPath, HeadCheck;
    if r.ff.proof.Some? {
      HonestSigrefs(env, env.verifyFf(r.ff.proof.value.blob).value, r.ff.proof.value, base);
    }
  }

  // Everything but the head: the run gets to the end of the log, and what is left
  // is the comparison of heads.
  lemma {:induction false} HonestRun(env: Env, st: State, log: seq<Record>, r: Recovery, base: seq<Record>,
                                     full: seq<Record>)
    returns (end: State)
    requires Represents(env, st, log) && st.uid.Some? && OnBranch(env, st, log, r, base, full)
    ensures PeaksMatch(st.clc) && HeadIdsOk(r.ff, st.changeId)
    ensures Represents(env, end, full) && end.initialDc == st.initialDc
    ensures HeadCheck(env, end, r.ff, st.changeId).None? ==> Recover(env, st, r) == (end, None)
    ensures HeadCheck(env, end, r.ff, st.changeId).Some? ==>
      Recover(env, st, r).1 == HeadCheck(env, end, r.ff, st.changeId)
  {
    hide Represents, Tail, ProofBlock, DeferredChecks, HonestProof, HeadCheck, AllVerified, RollbackIfApplied;
    RepresentsWellFormed(env, st, log);
    RepresentsLog(env, st, log);
    HonestBlock(env, st, log, r, base);
    var block := ProofBlock(env, st, r.ff, AnchorOf(st), r.expected).value;
    assert full[..|base| + 0] == base;
    HonestTailRuns(env, block, r.ff.proof.Some?, r.ff, base, full, 0);
    end := Tail(env, block, r.ff.proof.Some?, r.ff.changes, r.ff.responses, 0).st;
    TailAdvances(env, block, r.ff.proof.Some?, r.ff.changes, r.ff.responses, 0);
    BlockDc(env, st, r);
    HonestIds(env, r.ff, base, full);
    HonestEnds(env, st, r, base);
    HonestChecks(env, st, end, r, base);
  }

  /** A client with a user that is on the server's branch, as far as its anchor goes,
      ends exactly on the server's log if the head it is told is that of the log.
      Otherwise it reports that it diverged, and stays where it was. */
  lemma {:induction false} HonestFastForward(env: Env, st: State, log: seq<Record>, r: Recovery, base: seq<Record>,
                                             full: seq<Record>)
    requires Represents(env, st, log) && st.uid.Some? && OnBranch(env, st, log, r, base, full)
    ensures PeaksMatch(st.clc)
    ensures HeadTold(env, st, r, full) ==> Recover(env, st, r).1.None? && Represents(env, Recover(env, st, r).0, full)
    ensures !HeadTold(env, st, r, full) ==> Recover(env, st, r) == (st, Some(StateDiverged))
  {
    hide Recover, HonestProof, HonestTail, AllVerified, HeadOf, Leaves, LastSigned, Latest, FinalRoot, Verified;
    var end := HonestRun(env, st, log, r, base, full);
    if Recover(env, st, r).1.Some? { RecoverFails(env, st, r); }
  }

  lemma {:induction false} RecoverFails(env: Env, st: State, r: Recovery)
    requires PeaksMatch(st.clc) && Recover(env, st, r).1.Some?
    ensures Recover(env, st, r).0 == st
  {
    hide FastForward;
    FailedFastForwardChangesNothing(env, st, r.ff, AnchorOf(st), r.expected, r.sigs, r.sigrefs);
  }

  lemma {:induction false} BlockDc(env: Env, st: State, r: Recovery)
    requires ProofBlock(env, st, r.ff, AnchorOf(st), r.expected).Ok?
    ensures ProofBlock(env, st, r.ff, AnchorOf(st), r.expected).value.initialDc == st.initialDc
  {
    hide ProofOk, ProvenExpected;
  }

  lemma HonestEnds(env: Env, st: State, r: Recovery, base: seq<Record>)
    requires r.ff.proof.Some? ==> HonestProof(env, st, r.ff, base)
    ensures r.ff.proof.Some? ==> r.ff.proof.value.endChangeId == |base| && st.changeId <= |base|
  {
  }
}
