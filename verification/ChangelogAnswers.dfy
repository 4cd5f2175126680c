/** When the client reports success: exactly which single changes are appended, which
    submissions are confirmed and what a broadcast comes to. */
module ChangelogAnswers {
  import opened Prelude
  import opened Mmr
  import opened Changelog
  import opened ChangelogRuns

  // ---------------------------------------------------------------------
  // Single changes
  // ---------------------------------------------------------------------

  /** The server took the change within its window, by both clocks. */
  predicate InTime(change: Entry, response: Response, now: nat) {
    && change.timestamp - 5 <= response.acceptedAt <= change.timestamp + 100
    && now - 120 <= response.acceptedAt <= now + 120
  }

  /** The change is the next one of `log`: in position, from its root, proven, in its
      signer's chain and not too old. */
  ghost predicate Appends(env: Env, st: State, log: seq<Record>, change: Entry, response: Response, now: nat) {
    && st.uid.Some? && InTime(change, response, now)
    && response.changeId == |log| + 1 && response.oldRoot == FinalRoot(st.initialDc, log)
    && Latest(log) <= change.timestamp + 105
    && env.proves(change, response.tree, response.oldRoot, response.newRoot, |log| + 1)
    && change.sigRef == if change.uid in LastSigned(log) then LastSigned(log)[change.uid] else 0
  }

  /** It is further on, or starts from another root. */
  ghost predicate Ahead(st: State, log: seq<Record>, change: Entry, response: Response, now: nat) {
    && st.uid.Some? && InTime(change, response, now)
    && (response.changeId > |log| + 1 ||
        (response.changeId == |log| + 1 && response.oldRoot != FinalRoot(st.initialDc, log)))
  }

  /** It is at a position the client has passed, and its proof, if any, is right. */
  ghost predicate Behind(env: Env, st: State, log: seq<Record>, change: Entry, response: Response, now: nat) {
    && st.uid.Some? && InTime(change, response, now) && response.changeId <= |log|
    && (response.tree == [] ||
        env.proves(change, response.tree, response.oldRoot, response.newRoot, response.changeId))
  }

  /** Everything that is looked at before the proof passes, and the proof does not. */
  ghost predicate Unproven(env: Env, st: State, log: seq<Record>, change: Entry, response: Response, now: nat) {
    && st.uid.Some? && InTime(change, response, now)
    && !env.proves(change, response.tree, response.oldRoot, response.newRoot, response.changeId)
    && if response.changeId <= |log| then response.tree != []
       else && response.changeId == |log| + 1 && response.oldRoot == FinalRoot(st.initialDc, log)
            && Latest(log) <= change.timestamp + 105
  }

  lemma TimeChecks(change: Entry, response: Response, now: nat)
    ensures InTime(change, response, now) <==> AcceptanceOk(change, response) && LocalClockOk(response, now)
  {
  }

  /** A single change is appended, sends the client to a fast-forward, is passed over,
      or fails its proof, each in exactly one case; what remains is invalid.  Only an
      append changes the state. */
  lemma {:induction false} SingleOutcome(env: Env, st: State, log: seq<Record>, change: Entry, response: Response,
                                         now: nat)
    requires Represents(env, st, log)
    ensures PeaksMatch(st.clc)
    ensures var (t, error) := ValidateAndApply(env, st, change, response, now);
      && (Appends(env, st, log, change, response, now) <==> error.None? && t != st)
      && (Ahead(st, log, change, response, now) <==> error == Some(FastForwardRequired))
      && (Behind(env, st, log, change, response, now) <==> error.None? && t == st)
      && (Appends(env, st, log, change, response, now) ==>
            && t.changeId == |log| + 1
            && Represents(env, t, log + [Record(change, response.oldRoot, response.newRoot)])
            && t.pending == Discharge(st.pending, response.changeId, change))
      && (!Appends(env, st, log, change, response, now) ==> t == st)
      && (Unproven(env, st, log, change, response, now) <==> error == Some(Database))
  {
    hide HeadOf, Append, Leaves, LastSigned, Latest, FinalRoot, Verified, InTime, AcceptanceOk, LocalClockOk;
    TimeChecks(change, response, now);
    var log' := ValidateAndApplyKeeps(env, st, log, change, response, now);
  }

  // ---------------------------------------------------------------------
  // Which submissions a recovery confirms
  // ---------------------------------------------------------------------

  lemma {:induction false} DischargeStep(st: State, log: seq<Record>, change: Entry, response: Response, c: nat,
                                         full: seq<Record>)
    requires c in st.pending && response.changeId == |log| + 1
    requires log + [Record(change, response.oldRoot, response.newRoot)] <= full
    ensures var p, q := st.pending, Discharge(st.pending, response.changeId, change);
      && c in q && q[c].leafHash == p[c].leafHash
      && (q[c].discharged <==> p[c].discharged || (c == |log| + 1 && At(full, c, p[c].leafHash)))
  {
    var log1 := log + [Record(change, response.oldRoot, response.newRoot)];
    assert full[|log|] == log1[|log|];
  }

  // Running the tail confirms exactly the submissions it appends.
  lemma {:induction false} TailConfirms(env: Env, st: State, log: seq<Record>, applied: bool, ff: FfData, from: nat,
                                        c: nat)
    requires |ff.changes| == |ff.responses| && from <= |ff.changes| && Represents(env, st, log) && c in st.pending
    ensures PeaksMatch(st.clc)
    ensures var end := Tail(env, st, applied, ff.changes, ff.responses, from);
      end.error.None? ==>
        && c in end.st.pending
        && (end.st.pending[c].discharged <==>
            st.pending[c].discharged || (|log| < c && At(AfterTail(ff, log, from), c, st.pending[c].leafHash)))
    decreases |ff.changes| - from
  {
    hide AfterTail, Extends, Represents, Append;
    RepresentsWellFormed(env, st, log);
    RepresentsLog(env, st, log);
    if from == |ff.changes| {
      AfterTailNone(ff, log);
    } else {
      AfterTailStep(ff, log, from);
      var change, response := ff.changes[from], ff.responses[from];
      var step := StepTail(env, st, change, response);
      if step.Skipped? {
        TailConfirms(env, st, log, applied, ff, from + 1, c);
      } else if step.Stepped? {
        StepTailExtends(env, st, log, change, response, step.st);
        var record := Record(change, response.oldRoot, response.newRoot);
        var log1 := if response.changeId == |log| + 1 then log + [record] else log;
        ExtendsRepresents(env, st, log, step.st, log1);
        if response.changeId == |log| + 1 {
          AfterTailExtends(ff, log1, from + 1);
          DischargeStep(st, log, change, response, c, AfterTail(ff, log1, from + 1));
        }
        TailConfirms(env, step.st, log1, true, ff, from + 1, c);
      }
    }
  }

  lemma AfterTailNone(ff: FfData, log: seq<Record>)
    requires |ff.changes| == |ff.responses|
    ensures AfterTail(ff, log, |ff.responses|) == log
  {
  }

  lemma AfterTailExtends(ff: FfData, log: seq<Record>, from: nat)
    requires |ff.changes| == |ff.responses| && from <= |ff.responses|
    ensures log <= AfterTail(ff, log, from)
  {
  }

  /** The proof itself shows the entry at its position. */
  ghost predicate Included(env: Env, proof: FfProof, c: nat, leaf: Hash) {
    && env.verifyFf(proof.blob).Some?
    && var range := env.verifyFf(proof.blob).value;
    && 0 < c <= range.endChangeId && c in proof.expected && proof.expected[c].i == c
    && VerifyInclusion(range.endClc, proof.expected[c], leaf)
  }

  /** The recovered log has the entry, by an inclusion proof or in the tail. */
  ghost predicate Confirmed(env: Env, ff: FfData, base: seq<Record>, c: nat, leaf: Hash)
    requires |ff.changes| == |ff.responses|
  {
    || (ff.proof.Some? && Included(env, ff.proof.value, c, leaf))
    || (|base| < c && At(AfterTail(ff, base, 0), c, leaf))
  }

  lemma {:induction false} BlockConfirms(env: Env, st: State, ff: FfData, anchor: Anchor, expected: set<nat>, c: nat)
    requires ProofBlock(env, st, ff, anchor, expected).Ok? && c in st.pending && c in expected
    ensures var t := ProofBlock(env, st, ff, anchor, expected).value;
      && c in t.pending && t.pending[c].leafHash == st.pending[c].leafHash
      && (t.pending[c].discharged <==>
          st.pending[c].discharged || (ff.proof.Some? && Included(env, ff.proof.value, c, st.pending[c].leafHash)))
  {
    hide VerifyInclusion, HeadOf, WellFormed;
  }

  /** A recovery that succeeds confirms an open submission exactly when the recovered
      log has its entry, by an inclusion proof or in the tail. */
  lemma {:induction false} RecoveryConfirmsIff(env: Env, st: State, log: seq<Record>, r: Recovery, c: nat)
    returns (base: seq<Record>)
    requires Sound(env) && Represents(env, st, log) && c in st.pending && !st.pending[c].discharged && c in r.expected
    ensures PeaksMatch(st.clc)
    ensures var (t, error) := Recover(env, st, r);
      error.None? ==>
        && Base(env, st, log, r.ff, base) && Landed(env, st, r.ff, base, t) && |r.ff.changes| == |r.ff.responses|
        && c in t.pending
        && (t.pending[c].discharged <==> Confirmed(env, r.ff, base, c, st.pending[c].leafHash))
  {
    hide Represents, Sound, Recover, ProofBlock, Tail, Base, Landed, AfterTail, Included, At;
    RepresentsWellFormed(env, st, log);
    base := log;
    if Recover(env, st, r).1.None? {
      var adopted := FastForwardPasses(env, st, r);
      base := BaseOf(env, st, log, r.ff, r.expected);
      LandsOn(env, st, log, r, adopted, base);
      BlockConfirms(env, st, r.ff, AnchorOf(st), r.expected, c);
      TailConfirms(env, adopted, base, r.ff.proof.Some?, r.ff, 0, c);
    }
  }

  // ---------------------------------------------------------------------
  // Submissions
  // ---------------------------------------------------------------------

  function Registered(st: State, ack: nat, change: Entry): State {
    st.(pending := st.pending[ack := Pending(HLeaf(change), false)])
  }

  // What a recovery from `st` is run with.
  function Asked(st: State, reply: Reply): Recovery
    requires reply.Reply?
  {
    reply.recovery.(expected := Undischarged(st.pending))
  }

  predicate Recovers(env: Env, st: State, reply: Reply)
    requires PeaksMatch(st.clc)
  {
    reply.Reply? && reply.rewarmed && Recover(env, st, Asked(st, reply)).1.None?
  }

  lemma {:induction false} RecoverViaIff(env: Env, st: State, reply: Reply)
    requires PeaksMatch(st.clc)
    ensures RecoverVia(env, st, reply).1.None? <==> Recovers(env, st, reply)
    ensures Recovers(env, st, reply) ==> RecoverVia(env, st, reply).0 == Recover(env, st, Asked(st, reply)).0
  {
    hide Recover;
  }

  lemma RegisteredStands(env: Env, st: State, log: seq<Record>, ack: nat, change: Entry)
    requires Represents(env, st, log)
    ensures Represents(env, Registered(st, ack, change), log)
  {
  }

  lemma {:induction false} PendingOutcome(env: Env, st: State, log: seq<Record>, change: Entry, response: Response,
                                          now: nat, reply: Reply) returns (base: seq<Record>)
    requires Sound(env) && Represents(env, st, log)
    requires response.changeId in st.pending && st.pending[response.changeId] == Pending(HLeaf(change), false)
    ensures PeaksMatch(st.clc)
    ensures Recovers(env, st, reply) ==>
      |reply.recovery.ff.changes| == |reply.recovery.ff.responses| && Base(env, st, log, reply.recovery.ff, base)
    ensures var (t, error) := CompletePending(env, st, change, response, now, reply);
      var ack := response.changeId;
      error.None? && ack in t.pending && t.pending[ack].discharged <==>
        || Appends(env, st, log, change, response, now)
        || (&& (Ahead(st, log, change, response, now) || Behind(env, st, log, change, response, now))
            && Recovers(env, st, reply) && Confirmed(env, reply.recovery.ff, base, ack, HLeaf(change)))
  {
    hide Represents, Sound, ValidateAndApply, RecoverVia, Recover, Appends, Ahead, Behind, Confirmed, Base, Landed;
    SingleOutcome(env, st, log, change, response, now);
    RecoverViaIff(env, st, reply);
    base := log;
    if reply.Reply? { base := RecoveryConfirmsIff(env, st, log, Asked(st, reply), response.changeId); }
  }

  /** A submission that is not a no-op is reported as successful exactly when it is
      the next change and passes, or it is ahead or behind and the recovery succeeds
      and has its exact entry, by an inclusion proof or in the tail. */
  lemma {:induction false} SubmissionSucceedsIff(env: Env, st: State, log: seq<Record>, change: Entry,
                                                 response: Response, now: nat, reply: Reply)
    returns (base: seq<Record>)
    requires Sound(env) && Represents(env, st, log)
    ensures PeaksMatch(st.clc)
    ensures var at := Registered(st, response.changeId, change);
      && (Recovers(env, at, reply) ==>
            && |reply.recovery.ff.changes| == |reply.recovery.ff.responses|
            && Base(env, at, log, reply.recovery.ff, base))
      && (!NoOp(response) ==>
            (CompleteSubmitted(env, st, change, response, now, reply).1.None? <==>
              || Appends(env, at, log, change, response, now)
              || (&& (Ahead(at, log, change, response, now) || Behind(env, at, log, change, response, now))
                  && Recovers(env, at, reply)
                  && Confirmed(env, reply.recovery.ff, base, response.changeId, HLeaf(change)))))
  {
    hide Represents, Sound, CompletePending, Recovers, Appends, Ahead, Behind, Confirmed, Base;
    RepresentsWellFormed(env, st, log);
    RegisteredStands(env, st, log, response.changeId, change);
    base := PendingOutcome(env, Registered(st, response.changeId, change), log, change, response, now, reply);
  }

  /** Whatever is reported, the submission is no longer open and no other is lost. */
  lemma {:induction false} SubmissionCloses(env: Env, st: State, log: seq<Record>, change: Entry, response: Response,
                                            now: nat, reply: Reply)
    requires Sound(env) && Represents(env, st, log) && !NoOp(response)
    ensures PeaksMatch(st.clc)
    ensures CompleteSubmitted(env, st, change, response, now, reply).0.pending.Keys
         == st.pending.Keys - {response.changeId}
  {
    hide Represents, Sound, CompletePending;
    var at := Registered(st, response.changeId, change);
    RepresentsWellFormed(env, st, log);
    RegisteredStands(env, st, log, response.changeId, change);
    var log' := CompletePendingKeeps(env, at, log, change, response, now, reply);
  }

  /** A no-op is successful exactly when it passes as the next or a passed change, or
      it is ahead and the recovery succeeds. */
  lemma {:induction false} NoOpSucceedsIff(env: Env, st: State, log: seq<Record>, change: Entry, response: Response,
                                           now: nat, reply: Reply)
    requires Represents(env, st, log) && NoOp(response)
    ensures PeaksMatch(st.clc)
    ensures CompleteSubmitted(env, st, change, response, now, reply).1.None? <==>
      || Appends(env, st, log, change, response, now) || Behind(env, st, log, change, response, now)
      || (Ahead(st, log, change, response, now) && Recovers(env, st, reply))
  {
    hide Represents, ValidateAndApply, RecoverVia, Recover, Appends, Ahead, Behind, Recovers;
    SingleOutcome(env, st, log, change, response, now);
    RecoverViaIff(env, st, reply);
  }

  // ---------------------------------------------------------------------
  // Broadcasts
  // ---------------------------------------------------------------------

  /** A broadcast is applied exactly when its signature is right and it is the next
      change; it invalidates the cache exactly when its signature could only be
      verified afterwards, or the client recovered to a later position instead. */
  lemma {:induction false} BroadcastOutcomeIff(env: Env, st: State, log: seq<Record>, change: Entry, response: Response,
                                               now: nat, early: SigOutcome, retry: SigOutcome, reply: Reply)
    requires Represents(env, st, log)
    ensures PeaksMatch(st.clc)
    ensures var (t, outcome) := Broadcast(env, st, change, response, now, early, retry, reply);
      && (outcome.BroadcastApplied? <==> early.SigVerified? && Appends(env, st, log, change, response, now))
      && (outcome.CacheInvalidated? <==>
            || (early.KeyResolutionFailed? && retry.SigVerified? && Appends(env, st, log, change, response, now))
            || (&& !early.SignatureInvalid? && Ahead(st, log, change, response, now)
                && Recovers(env, st, reply) && t.changeId > st.changeId))
      && (outcome.BroadcastApplied? || (outcome.CacheInvalidated? && Appends(env, st, log, change, response, now)) ==>
            Represents(env, t, log + [Record(change, response.oldRoot, response.newRoot)]))
  {
    hide Represents, ValidateAndApply, RecoverVia, Recover, Recovers, Rollback;
    SingleOutcome(env, st, log, change, response, now);
    RecoverViaIff(env, st, reply);
    RepresentsLog(env, st, log);
    hide InTime, FinalRoot, Latest, LastSigned;
  }
}
