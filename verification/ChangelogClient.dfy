/** The client's state in the form it is kept in: one object whose fields are
    changed in place, with the fast-forward's loops and its rollback.  Each
    method does exactly what the function of module `Changelog` or
    `ChangelogRuns` says, so their theorems hold of every sequence of calls.
 */
module ChangelogClient {
  import opened Prelude
  import opened Mmr
  import opened Changelog
  import opened ChangelogRuns

  class Client {
    const uid: Option<Uid>
    const initialDc: Dc
    var dc: Dc
    var changeId: nat
    var myLast: nat
    var sigref: map<Uid, nat>
    var hwm: nat
    var clc: Clc
    var entry: Option<Entry>
    var pending: map<nat, Pending>

    function View(): State
      reads this
    {
      State(uid, initialDc, dc, changeId, myLast, sigref, hwm, clc, entry, pending)
    }

    constructor (uid: Option<Uid>, dc0: Dc)
      ensures View() == Initial(uid, dc0)
    {
      this.uid, initialDc, dc := uid, dc0, dc0;
      changeId, myLast, sigref, hwm := 0, 0, map[], 0;
      clc, entry, pending := HeadOf([HInit(dc0)]), None, map[];
    }

    method AppendEntry(leaf: Hash)
      requires PeaksMatch(clc)
      modifies this`clc
      ensures clc == Append(old(clc), leaf)
    {
      var peaks := AppendHash(clc.peaks, clc.treeSize, leaf);
      PushPeakCount(clc.peaks, clc.treeSize, leaf);
      var root := FoldPeaks(peaks);
      clc := TreeHead(root, clc.treeSize + 1, peaks);
    }

    method ApplyUpdate(change: Entry, response: Response, snapId: nat, snapLast: nat, me: Uid, newHwm: nat)
      requires PeaksMatch(clc)
      modifies this
      ensures View() == ApplyStateUpdate(old(View()), change, response, snapId, snapLast, me, newHwm)
    {
      if changeId != snapId { return; }
      if response.changeId != snapId + 1 { return; }
      dc := response.newRoot;
      changeId := snapId + 1;
      myLast := snapLast;
      sigref := sigref[change.uid := response.changeId];
      hwm := newHwm;
      AppendEntry(HLeaf(change));
      entry := Some(change);
      if change.uid == me { myLast := response.changeId; }
      if response.changeId in pending && pending[response.changeId].leafHash == HLeaf(change) {
        pending := pending[response.changeId := pending[response.changeId].(discharged := true)];
      }
    }

    method Validate(env: Env, change: Entry, response: Response, now: nat) returns (error: Option<Error>)
      requires PeaksMatch(clc)
      modifies this
      ensures (View(), error) == ValidateAndApply(env, old(View()), change, response, now)
    {
      if uid.None? { return Some(Validation); }
      var snapId, snapDc, snapLast, snapHwm := changeId, dc, myLast, hwm;
      var expectedSigRef := if change.uid in sigref then sigref[change.uid] else 0;
      if !AcceptanceOk(change, response) || !LocalClockOk(response, now) { return Some(Validation); }
      if response.changeId != snapId + 1 {
        if response.changeId > snapId { return Some(FastForwardRequired); }
        if response.tree == [] { return None; }
        var ok := env.proves(change, response.tree, response.oldRoot, response.newRoot, response.changeId);
        return if ok then None else Some(Database);
      }
      if response.oldRoot != snapDc { return Some(FastForwardRequired); }
      if !HwmOk(change.timestamp, snapHwm) { return Some(Validation); }
      if !env.proves(change, response.tree, response.oldRoot, response.newRoot, snapId + 1) { return Some(Database); }
      if change.sigRef != expectedSigRef { return Some(Validation); }
      ApplyUpdate(change, response, snapId, snapLast, uid.value, Max(snapHwm, change.timestamp));
      return None;
    }

    method SaveState() returns (saved: Saved)
      ensures saved == Save(View())
    {
      var undischarged, left := {}, pending.Keys;
      while left != {}
        invariant left <= pending.Keys
        invariant undischarged == set c | c in pending.Keys - left && !pending[c].discharged
        decreases left
      {
        var c :| c in left;
        if !pending[c].discharged { undischarged := undischarged + {c}; }
        left := left - {c};
      }
      saved := Saved(dc, changeId, myLast, sigref, hwm, clc, entry, undischarged);
    }

    method RollbackTo(saved: Saved)
      modifies this
      ensures View() == Rollback(old(View()), saved)
    {
      dc, changeId, myLast, sigref := saved.dc, saved.changeId, saved.myLast, saved.sigref;
      hwm, clc, entry := saved.hwm, saved.clc, saved.entry;
      SetFlags(saved.undischarged, false);
    }

    method SetFlags(ids: set<nat>, discharged: bool)
      modifies this`pending
      ensures pending == Flagged(old(pending), ids, discharged)
    {
      hide Flagged;
      var left := ids;
      FlaggedNone(pending, discharged);
      assert ids - left == {};
      while left != {}
        invariant left <= ids && pending == Flagged(old(pending), ids - left, discharged)
        decreases left
      {
        var c :| c in left;
        ghost var done := ids - left;
        FlaggedNext(old(pending), done, c, discharged);
        FlaggedKeys(old(pending), done, discharged);
        if c in pending { pending := pending[c := pending[c].(discharged := discharged)]; }
        left := left - {c};
        assert ids - left == done + {c};
      }
      assert ids - {} == ids;
    }

    // The submissions among `expected` that the proof itself contains.
    method CollectProven(proof: FfProof, range: Range, expected: set<nat>) returns (proven: set<nat>)
      ensures proven == ProvenExpected(View(), proof, range, expected)
    {
      var left := expected;
      proven := {};
      while left != {}
        invariant left <= expected
        invariant proven == ProvenExpected(View(), proof, range, expected - left)
        decreases left
      {
        var c :| c in left;
        if 0 < c <= range.endChangeId && c in proof.expected && c in pending {
          if proof.expected[c].i == c && VerifyInclusion(range.endClc, proof.expected[c], pending[c].leafHash) {
            proven := proven + {c};
          }
        }
        left := left - {c};
      }
      assert expected - left == expected;
    }

    method AdoptProof(env: Env, ff: FfData, anchor: Anchor, expected: set<nat>) returns (error: Option<Error>)
      requires ff.proof.Some?
      modifies this
      ensures ProofBlock(env, old(View()), ff, anchor, expected) == if error.None? then Ok(View()) else Err(error.value)
      ensures error.Some? ==> View() == old(View())
    {
      hide ProofOk, ProvenExpected, Flagged;
      var proof := ff.proof.value;
      var verified := env.verifyFf(proof.blob);
      if verified.None? { return Some(Validation); }
      var range := verified.value;
      if !ProofOk(View(), ff, proof, range, anchor) { return Some(Validation); }
      var proven := CollectProven(proof, range, expected);
      if changeId != anchor.changeId { return Some(StateAdvanced); }
      changeId, clc, hwm := range.endChangeId, range.endClc, range.hwm;
      sigref := map u | u in range.sigref :: range.sigref[u].0;
      if uid.Some? && uid.value in range.sigref { myLast := range.sigref[uid.value].0; }
      if ff.responses == [] { entry := proof.endEntry; }
      SetFlags(proven, true);
      dc := if ff.responses == [] then range.endDc else ff.responses[0].oldRoot;
      assert View() == Adopt(old(View()), ff, proof, range, expected);
      return None;
    }

    method RunTail(env: Env, ff: FfData, already: bool) returns (applied: bool, error: Option<Error>)
      requires |ff.changes| == |ff.responses| && PeaksMatch(clc)
      modifies this
      ensures TailEnd(View(), applied, error) == Tail(env, old(View()), already, ff.changes, ff.responses, 0)
    {
      applied := already;
      for k := 0 to |ff.changes|
        invariant PeaksMatch(clc)
        invariant Tail(env, View(), applied, ff.changes, ff.responses, k)
               == Tail(env, old(View()), already, ff.changes, ff.responses, 0)
      {
        var change, response := ff.changes[k], ff.responses[k];
        if uid.None? { return applied, Some(Validation); }
        var snapId, snapLast, snapHwm := changeId, myLast, hwm;
        var expectedSigRef := if change.uid in sigref then sigref[change.uid] else 0;
        if response.changeId <= snapId { continue; }
        if !AcceptanceOk(change, response) || !HwmOk(change.timestamp, snapHwm) { return applied, Some(Validation); }
        if !env.proves(change, response.tree, response.oldRoot, response.newRoot, snapId + 1) {
          return applied, Some(Database);
        }
        if change.sigRef != expectedSigRef { return applied, Some(Validation); }
        ApplyPeaks(View(), change, response);
        ApplyUpdate(change, response, snapId, snapLast, uid.value, Max(snapHwm, change.timestamp));
        applied := true;
      }
      return applied, None;
    }

    method FastForwardFrom(env: Env, ff: FfData, anchor: Anchor, expected: set<nat>, sigs: seq<bool>, sigrefs: bool)
    returns (error: Option<Error>)
      requires PeaksMatch(clc)
      modifies this
      ensures (View(), error) == FastForward(env, old(View()), ff, anchor, expected, sigs, sigrefs)
    {
      var saved := SaveState();
      var applied := false;
      if |ff.changes| != |ff.responses| { return Some(Database); }
      if !HeadIdsOk(ff, anchor.changeId) { return Some(Validation); }
      if ff.proof.Some? {
        error := AdoptProof(env, ff, anchor, expected);
        if error.Some? { return; }
        applied := true;
      }
      applied, error := RunTail(env, ff, applied);
      if error.None? { error := DeferredChecks(env, View(), ff, anchor.changeId, sigs, sigrefs); }
      if error.Some? && applied { RollbackTo(saved); }
    }

    method RecoverFrom(env: Env, reply: Reply) returns (error: Option<Error>)
      requires PeaksMatch(clc)
      modifies this
      ensures (View(), error) == RecoverVia(env, old(View()), reply)
    {
      if reply.NoReply? { return Some(Database); }
      var r := reply.recovery;
      var saved := SaveState();
      error := FastForwardFrom(env, r.ff, Anchor(changeId, entry), saved.undischarged, r.sigs, r.sigrefs);
      if error.None? && !reply.rewarmed { error := Some(Database); }
    }

    method OnBroadcast(env: Env, change: Entry, response: Response, now: nat, early: SigOutcome, retry: SigOutcome,
                       reply: Reply)
    returns (outcome: BroadcastOutcome)
      requires PeaksMatch(clc)
      modifies this
      ensures (View(), outcome) == Broadcast(env, old(View()), change, response, now, early, retry, reply)
    {
      var cid := changeId;
      if response.changeId <= cid || early.SignatureInvalid? { return BroadcastSkipped; }
      var saved := SaveState();
      var error := Validate(env, change, response, now);
      if error.None? {
        if early.SigVerified? { return BroadcastApplied; }
        if retry.SigVerified? { return CacheInvalidated; }
        RollbackTo(saved);
        return BroadcastSkipped;
      }
      if error == Some(FastForwardRequired) {
        var failed := RecoverFrom(env, reply);
        return if failed.None? && changeId > cid then CacheInvalidated else BroadcastSkipped;
      }
      return BroadcastSkipped;
    }

    method Complete(env: Env, change: Entry, response: Response, now: nat, reply: Reply) returns (error: Option<Error>)
      requires PeaksMatch(clc)
      modifies this
      ensures (View(), error) == CompleteSubmitted(env, old(View()), change, response, now, reply)
    {
      if NoOp(response) {
        error := Validate(env, change, response, now);
        if error == Some(FastForwardRequired) { error := RecoverFrom(env, reply); }
        return;
      }
      var ack := response.changeId;
      pending := pending[ack := Pending(HLeaf(change), false)];
      ValidateAdvances(env, View(), change, response, now);
      error := Validate(env, change, response, now);
      if error == Some(FastForwardRequired) || (error.None? && !pending[ack].discharged) {
        error := RecoverFrom(env, reply);
      }
      var discharged := ack in pending && pending[ack].discharged;
      pending := pending - {ack};
      if error.None? && !discharged { error := Some(Validation); }
    }

    /** One operation of a run, carried out on this object. */
    method Perform(env: Env, op: Op)
      requires PeaksMatch(clc)
      modifies this
      ensures View() == Step(env, old(View()), op)
    {
      hide ValidateAndApply, Broadcast, RecoverVia, FastForward, CompleteSubmitted;
      match op
      case SingleOp(change, response, now) =>
        var error := Validate(env, change, response, now);
      case BroadcastOp(change, response, now, early, retry, reply) =>
        var outcome := OnBroadcast(env, change, response, now, early, retry, reply);
      case RecoverOp(reply) =>
        var error := RecoverFrom(env, reply);
      case FastForwardOp(r) =>
        var error := FastForwardFrom(env, r.ff, Anchor(changeId, entry), r.expected, r.sigs, r.sigrefs);
      case SubmitOp(change, response, now, reply) =>
        var error := Complete(env, change, response, now, reply);
    }
  }

  lemma FlaggedKeys(pending: map<nat, Pending>, ids: set<nat>, discharged: bool)
    ensures Flagged(pending, ids, discharged).Keys == pending.Keys
  {
  }
}
