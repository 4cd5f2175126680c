/** Where a fast-forward leaves the client, what a completed submission
    guarantees, and what every run of the client's operations keeps. */
module ChangelogRuns {
  import opened Prelude
  import opened Mmr
  import opened Changelog

  // ---------------------------------------------------------------------
  // Which tail elements are appended
  // ---------------------------------------------------------------------

  /** The tail elements that continue position `id`, from index `from` on. */
  function Continuing(responses: seq<Response>, id: nat, from: nat): (picks: seq<nat>)
    requires from <= |responses|
    ensures forall k | 0 <= k < |picks| :: from <= picks[k] < |responses| && responses[picks[k]].changeId == id + k + 1
    ensures forall j, k | 0 <= j < k < |picks| :: picks[j] < picks[k]
    decreases |responses| - from
  {
    if from == |responses| then []
    else if responses[from].changeId == id + 1 then [from] + Continuing(responses, id + 1, from + 1)
    else Continuing(responses, id, from + 1)
  }

  function Appended(ff: FfData, picks: seq<nat>): (records: seq<Record>)
    requires |ff.changes| == |ff.responses| && forall k | 0 <= k < |picks| :: picks[k] < |ff.responses|
    ensures |records| == |picks|
  {
    seq(|picks|, k requires 0 <= k < |picks| =>
      Record(ff.changes[picks[k]], ff.responses[picks[k]].oldRoot, ff.responses[picks[k]].newRoot))
  }

  /** The log after the tail was run on `log`. */
  function AfterTail(ff: FfData, log: seq<Record>, from: nat): seq<Record>
    requires |ff.changes| == |ff.responses| && from <= |ff.responses|
  {
    log + Appended(ff, Continuing(ff.responses, |log|, from))
  }

  lemma {:induction false} AfterTailStep(ff: FfData, log: seq<Record>, from: nat)
    requires |ff.changes| == |ff.responses| && from < |ff.responses|
    ensures ff.responses[from].changeId == |log| + 1 ==>
      AfterTail(ff, log, from)
        == AfterTail(ff, log + [Record(ff.changes[from], ff.responses[from].oldRoot, ff.responses[from].newRoot)],
          from + 1)
    ensures ff.responses[from].changeId != |log| + 1 ==> AfterTail(ff, log, from) == AfterTail(ff, log, from + 1)
  {
  }

  function LastEntry(log: seq<Record>): Option<Entry> {
    if log == [] then None else Some(log[|log| - 1].entry)
  }

  /** From `a`, standing for `log`, to `b`, standing for the longer `log'`. */
  ghost predicate Extends(env: Env, a: State, log: seq<Record>, b: State, log': seq<Record>) {
    && Represents(env, b, log')
    && RaisedFor(a, b, log')
    && log <= log'
    && (b.entry == if log' == log then a.entry else LastEntry(log'))
  }

  lemma {:induction false} ExtendsTransitive(env: Env, a: State, log: seq<Record>, b: State, log1: seq<Record>,
                                             c: State, log2: seq<Record>)
    requires Extends(env, a, log, b, log1) && Extends(env, b, log1, c, log2)
    ensures Extends(env, a, log, c, log2)
  {
    hide Represents;
  }

  lemma {:induction false} StepTailFollows(env: Env, st: State, log: seq<Record>, change: Entry, response: Response)
    requires Represents(env, st, log) && PeaksMatch(st.clc) && StepTail(env, st, change, response).Stepped?
    ensures st.changeId == |log| && Follows(env, log, Record(change, response.oldRoot, response.newRoot))
  {
    assert ProvesNext(env, log, Record(change, response.oldRoot, response.newRoot), response.tree);
  }

  lemma {:induction false} StepTailExtends(env: Env, st: State, log: seq<Record>, change: Entry, response: Response,
                                           t: State)
    requires Represents(env, st, log) && PeaksMatch(st.clc)
    requires StepTail(env, st, change, response) == Stepped(t)
    ensures Extends(env, st, log, t,
                    if response.changeId == |log| + 1 then log + [Record(change, response.oldRoot, response.newRoot)]
                    else log)
  {
    hide Represents, Append, Follows;
    StepTailFollows(env, st, log, change, response);
    if response.changeId == |log| + 1 {
      var record := Record(change, response.oldRoot, response.newRoot);
      ApplyKeeps(env, st, log, change, response);
      assert (log + [record])[|log|] == record;
    }
  }

  /** A tail that was not rejected appended exactly the continuing elements. */
  lemma {:induction false} TailKeeps(env: Env, st: State, log: seq<Record>, applied: bool, ff: FfData, from: nat)
    requires |ff.changes| == |ff.responses| && from <= |ff.changes|
    requires Represents(env, st, log)
    ensures PeaksMatch(st.clc)
    ensures var end := Tail(env, st, applied, ff.changes, ff.responses, from);
      end.error.None? ==> Extends(env, st, log, end.st, AfterTail(ff, log, from))
    decreases |ff.changes| - from
  {
    hide AfterTail, Extends, Represents;
    RepresentsWellFormed(env, st, log);
    if from == |ff.changes| {
      AfterTailEnd(env, st, ff, log);
    } else {
      AfterTailStep(ff, log, from);
      var change, response := ff.changes[from], ff.responses[from];
      var step := StepTail(env, st, change, response);
      if step.Skipped? {
        RepresentsLog(env, st, log);
        TailKeeps(env, st, log, applied, ff, from + 1);
      } else if step.Stepped? {
        StepTailExtends(env, st, log, change, response, step.st);
        var record := Record(change, response.oldRoot, response.newRoot);
        var log1 := if response.changeId == |log| + 1 then log + [record] else log;
        ExtendsRepresents(env, st, log, step.st, log1);
        TailKeeps(env, step.st, log1, true, ff, from + 1);
        var end := Tail(env, step.st, true, ff.changes, ff.responses, from + 1);
        if end.error.None? {
          ExtendsTransitive(env, st, log, step.st, log1, end.st, AfterTail(ff, log1, from + 1));
        }
      }
    }
  }

  lemma RepresentsLog(env: Env, st: State, log: seq<Record>)
    requires Represents(env, st, log)
    ensures st.changeId == |log| && Verified(env, log)
  {
  }

  lemma ExtendsRepresents(env: Env, a: State, log: seq<Record>, b: State, log': seq<Record>)
    requires Extends(env, a, log, b, log')
    ensures Represents(env, b, log')
  {
  }

  lemma {:induction false} AfterTailEnd(env: Env, st: State, ff: FfData, log: seq<Record>)
    requires |ff.changes| == |ff.responses| && Represents(env, st, log)
    ensures Extends(env, st, log, st, AfterTail(ff, log, |ff.responses|))
  {
    assert AfterTail(ff, log, |ff.responses|) == log;
  }

  /** Every tail element that was appended had been taken by the server within
      the acceptance window of its timestamp. */
  lemma {:induction false} TailAccepted(env: Env, st: State, applied: bool, ff: FfData, from: nat, k: nat)
    requires |ff.changes| == |ff.responses| && from <= |ff.changes| && PeaksMatch(st.clc)
    requires Tail(env, st, applied, ff.changes, ff.responses, from).error.None?
    requires k in Continuing(ff.responses, st.changeId, from)
    ensures k < |ff.changes|
    ensures ff.changes[k].timestamp - 5 <= ff.responses[k].acceptedAt <= ff.changes[k].timestamp + 100
    decreases |ff.changes| - from
  {
    hide Append, HwmOk;
    if from < |ff.changes| && k != from {
      match StepTail(env, st, ff.changes[from], ff.responses[from])
      case Rejected(_) =>
      case Skipped => TailAccepted(env, st, applied, ff, from + 1, k);
      case Stepped(t) =>
        ApplyPeaks(st, ff.changes[from], ff.responses[from]);
        TailAccepted(env, t, true, ff, from + 1, k);
    }
  }

  // ---------------------------------------------------------------------
  // A successful fast-forward
  // ---------------------------------------------------------------------

  // What the server sent, the submissions looked for in it, and how the
  // signature checks came out.
  datatype Recovery = Recovery(ff: FfData, expected: set<nat>, sigs: seq<bool>, sigrefs: bool)

  /** One fast-forward from the client's own position, with nothing in between. */
  function Recover(env: Env, st: State, r: Recovery): (State, Option<Error>)
    requires PeaksMatch(st.clc)
  {
    FastForward(env, st, r.ff, AnchorOf(st), r.expected, r.sigs, r.sigrefs)
  }

  lemma {:induction false} MaxIdBounds(responses: seq<Response>)
    ensures forall k | 0 <= k < |responses| :: responses[k].changeId <= MaxId(responses)
  {
    if responses != [] {
      MaxIdBounds(responses[..|responses| - 1]);
    }
  }

  /** The log the tail is run on: the proven one, or the client's own. */
  ghost predicate Base(env: Env, st: State, log: seq<Record>, ff: FfData, base: seq<Record>) {
    if ff.proof.None? then base == log
    else
      && env.verifyFf(ff.proof.value.blob).Some? && Attests(env, env.verifyFf(ff.proof.value.blob).value, base)
      && |base| == ff.proof.value.endChangeId
      && Linked(st.initialDc, base)
      && (st.changeId > 0 ==> st.entry.Some? && At(base, st.changeId, HLeaf(st.entry.value)))
  }

  lemma {:induction false} BaseOf(env: Env, st: State, log: seq<Record>, ff: FfData, expected: set<nat>)
    returns (base: seq<Record>)
    requires Sound(env) && Represents(env, st, log)
    requires ProofBlock(env, st, ff, AnchorOf(st), expected).Ok?
    ensures Base(env, st, log, ff, base)
    ensures var t := ProofBlock(env, st, ff, AnchorOf(st), expected).value;
      && Represents(env, t, base)
      && RaisedFor(st, t, base)
      && t.entry == if ff.proof.Some? && ff.responses == [] then LastEntry(base) else st.entry
  {
    hide Represents, Sound, ProofBlock;
    if ff.proof.Some? {
      base := AdoptKeeps(env, st, ff, AnchorOf(st), expected);
    } else {
      base := log;
      NoProofBlock(env, st, ff, AnchorOf(st), expected);
    }
  }

  lemma NoProofBlock(env: Env, st: State, ff: FfData, anchor: Anchor, expected: set<nat>)
    requires ff.proof.None?
    ensures ProofBlock(env, st, ff, anchor, expected) == Ok(st)
  {
  }

  /** The client ended at the server's head, on a log made of the base and the
      continuing tail elements. */
  ghost predicate Landed(env: Env, st: State, ff: FfData, base: seq<Record>, t: State) {
    && |ff.changes| == |ff.responses| && ff.head.Some?
    && var log' := AfterTail(ff, base, 0);
    && Represents(env, t, log')
    && RaisedFor(st, t, log')
    && st.changeId <= t.changeId == ff.head.value.changeId == |log'|
    && env.clcPrefix(t.clc.root) == ff.head.value.clc && env.dcPrefix(t.dc) == ff.head.value.dc
    && (forall k | 0 <= k < |ff.responses| :: ff.responses[k].changeId <= |log'|)
    && (t.entry == if log' != base || (ff.proof.Some? && ff.responses == []) then LastEntry(log') else st.entry)
  }

  lemma {:induction false} FastForwardPasses(env: Env, st: State, r: Recovery) returns (t: State)
    requires PeaksMatch(st.clc) && Recover(env, st, r).1.None?
    ensures |r.ff.changes| == |r.ff.responses| && HeadIdsOk(r.ff, st.changeId)
    ensures DeferredChecks(env, Recover(env, st, r).0, r.ff, st.changeId, r.sigs, r.sigrefs).None?
    ensures ProofBlock(env, st, r.ff, AnchorOf(st), r.expected) == Ok(t)
    ensures PeaksMatch(t.clc)
    ensures var end := Tail(env, t, r.ff.proof.Some?, r.ff.changes, r.ff.responses, 0);
      end.error.None? && end.st == Recover(env, st, r).0 && HeadCheck(env, end.st, r.ff, st.changeId).None?
  {
    t := ProofBlock(env, st, r.ff, AnchorOf(st), r.expected).value;
  }

  /** The log of a fast-forward that succeeds: the proven (or own) one with the
      client's last entry where it was, then the continuing tail elements. */
  lemma {:induction false} FastForwardLands(env: Env, st: State, log: seq<Record>, r: Recovery)
    returns (base: seq<Record>)
    requires Sound(env) && Represents(env, st, log)
    ensures PeaksMatch(st.clc)
    ensures var (t, error) := Recover(env, st, r);
      error.None? ==> Base(env, st, log, r.ff, base) && Landed(env, st, r.ff, base, t)
  {
    hide Represents, Sound, Recover, ProofBlock, Tail, Base, AfterTail, RaisedFor;
    RepresentsWellFormed(env, st, log);
    base := log;
    var ff := r.ff;
    var (t, error) := Recover(env, st, r);
    if error.None? {
      var adopted := FastForwardPasses(env, st, r);
      base := BaseOf(env, st, log, ff, r.expected);
      LandsOn(env, st, log, r, adopted, base);
    }
  }

  lemma {:induction false} LandsOn(env: Env, st: State, log: seq<Record>, r: Recovery, adopted: State,
                                   base: seq<Record>)
    requires Represents(env, st, log) && PeaksMatch(st.clc) && Recover(env, st, r).1.None?
    requires ProofBlock(env, st, r.ff, AnchorOf(st), r.expected) == Ok(adopted)
    requires Base(env, st, log, r.ff, base) && Represents(env, adopted, base) && RaisedFor(st, adopted, base)
    requires adopted.entry == if r.ff.proof.Some? && r.ff.responses == [] then LastEntry(base) else st.entry
    ensures Landed(env, st, r.ff, base, Recover(env, st, r).0)
  {
    hide Represents, Recover, ProofBlock, Tail, Base, AfterTail, RaisedFor;
    var again := FastForwardPasses(env, st, r);
    var ff, t := r.ff, Recover(env, st, r).0;
    TailKeeps(env, adopted, base, ff.proof.Some?, ff, 0);
    var log' := AfterTail(ff, base, 0);
    RaisedTransitive(st, adopted, base, t, log');
    MaxIdBounds(ff.responses);
    TailBounded(ff, base);
    BaseBounded(env, st, log, ff, base);
    RepresentsLog(env, t, log');
  }

  lemma BaseBounded(env: Env, st: State, log: seq<Record>, ff: FfData, base: seq<Record>)
    requires Base(env, st, log, ff, base) && Represents(env, st, log)
    ensures |base| == if ff.proof.None? then st.changeId else ff.proof.value.endChangeId
  {
  }

  lemma {:induction false} RaisedTransitive(a: State, b: State, base: seq<Record>, c: State, log: seq<Record>)
    requires RaisedFor(a, b, base) && RaisedFor(b, c, log) && base <= log
    ensures RaisedFor(a, c, log)
  {
  }

  lemma {:induction false} TailBounded(ff: FfData, base: seq<Record>)
    requires |ff.changes| == |ff.responses|
    ensures |AfterTail(ff, base, 0)| <= Max(|base|, MaxId(ff.responses))
  {
    MaxIdBounds(ff.responses);
    var picks := Continuing(ff.responses, |base|, 0);
    if picks != [] {
      assert ff.responses[picks[|picks| - 1]].changeId == |base| + |picks|;
    }
  }

  /** Each signer's newest entry of `base` is among the supplied entries, signed. */
  ghost predicate NewestSupplied(base: seq<Record>, entries: map<nat, Entry>) {
    forall u | u in LastSigned(base) ::
      var p := LastSigned(base)[u];
      0 < p <= |base| && p in entries && entries[p] == base[p - 1].entry && entries[p].signed
  }

  lemma {:induction false} SigrefsAreNewest(env: Env, range: Range, proof: FfProof, base: seq<Record>)
    requires Attests(env, range, base) && SigrefEntriesOk(range, proof)
    ensures NewestSupplied(base, proof.sigrefEntries)
  {
    hide Verified, Linked, HeadOf, Leaves, LastSigned, Latest, FinalRoot;
    forall u | u in LastSigned(base)
      ensures var p, entries := LastSigned(base)[u], proof.sigrefEntries;
        0 < p <= |base| && p in entries && entries[p] == base[p - 1].entry && entries[p].signed
    {
      assert u in range.sigref;
    }
  }

  lemma {:induction false} NoSigners(env: Env, range: Range, base: seq<Record>)
    requires Attests(env, range, base) && range.sigref == map[]
    ensures LastSigned(base) == map[] && forall entries :: NewestSupplied(base, entries)
  {
    hide Verified, Linked, HeadOf, Leaves, LastSigned, Latest, FinalRoot;
    assert LastSigned(base).Keys == {};
  }

  /** A fast-forward succeeds only with every tail signature verified and, for
      each signer of the proven log, that signer's newest entry itself supplied
      and its signature verified. */
  lemma {:induction false} SignaturesVerified(env: Env, st: State, log: seq<Record>, r: Recovery)
    returns (base: seq<Record>)
    requires Sound(env) && Represents(env, st, log) && PeaksMatch(st.clc)
    ensures Recover(env, st, r).1.None? ==>
      && Base(env, st, log, r.ff, base) && Landed(env, st, r.ff, base, Recover(env, st, r).0)
      && AllVerified(r.sigs, |r.ff.changes|)
      && (r.ff.proof.Some? ==>
            NewestSupplied(base, r.ff.proof.value.sigrefEntries) && (LastSigned(base) != map[] ==> r.sigrefs))
  {
    hide Recover, Represents, Sound, Landed, ProofBlock, Tail, HeadCheck, Attests, SigrefEntriesOk, LastSigned, Linked,
         At, AllVerified;
    base := log;
    if Recover(env, st, r).1.None? {
      base := FastForwardLands(env, st, log, r);
      var t := FastForwardPasses(env, st, r);
      if r.ff.proof.Some? {
        var range := env.verifyFf(r.ff.proof.value.blob).value;
        if range.sigref == map[] {
          NoSigners(env, range, base);
        } else {
          SigrefsAreNewest(env, range, r.ff.proof.value, base);
        }
      }
    }
  }

  /** How an operation moves the log of a state: it adds to it, or, with a proof,
      replaces it by one that has the stored anchor entry at the same position. */
  ghost predicate Moved(st: State, log: seq<Record>, proven: bool, log': seq<Record>) {
    || log <= log'
    || (proven && |log| <= |log'| && (log != [] ==> st.entry.Some? && log'[|log| - 1].entry == st.entry.value))
  }

  lemma {:induction false} LandedMoves(env: Env, st: State, log: seq<Record>, ff: FfData, base: seq<Record>)
    requires Base(env, st, log, ff, base) && st.changeId == |log| && |ff.changes| == |ff.responses|
    ensures Moved(st, log, ff.proof.Some?, AfterTail(ff, base, 0))
  {
    hide Attests, Linked;
    assert base <= AfterTail(ff, base, 0);
  }

  /** A missing id is never passed over: a fast-forward that succeeds had a tail
      element for every position between its base and the highest tail id. */
  lemma {:induction false} NoGap(env: Env, st: State, log: seq<Record>, r: Recovery, id: nat)
    requires Sound(env) && Represents(env, st, log) && PeaksMatch(st.clc)
    requires (if r.ff.proof.Some? then r.ff.proof.value.endChangeId else st.changeId) < id <= MaxId(r.ff.responses)
    ensures Recover(env, st, r).1.None? ==> exists k | 0 <= k < |r.ff.responses| :: r.ff.responses[k].changeId == id
  {
    if Recover(env, st, r).1.None? {
      var base := FastForwardLands(env, st, log, r);
      BaseBounded(env, st, log, r.ff, base);
      hide Recover, Represents, Sound, Base;
      var picks := Continuing(r.ff.responses, |base|, 0);
      MaxIdReached(r.ff.responses);
      assert r.ff.responses[picks[id - |base| - 1]].changeId == id;
    }
  }

  lemma {:induction false} MaxIdReached(responses: seq<Response>)
    ensures MaxId(responses) > 0 ==> exists k | 0 <= k < |responses| :: responses[k].changeId == MaxId(responses)
  {
    if responses != [] {
      MaxIdReached(responses[..|responses| - 1]);
      assert responses[|responses| - 1].changeId <= MaxId(responses);
    }
  }

  // ---------------------------------------------------------------------
  // Data commitments along the tail
  // ---------------------------------------------------------------------

  /** The picked responses chain from root to root. */
  predicate Chained(root: Dc, responses: seq<Response>, picks: seq<nat>)
    requires forall k | 0 <= k < |picks| :: picks[k] < |responses|
    decreases |picks|
  {
    picks == [] ||
    (responses[picks[0]].oldRoot == root && Chained(responses[picks[0]].newRoot, responses, picks[1..]))
  }

  lemma {:induction false} LinkedAppended(dc0: Dc, ff: FfData, log: seq<Record>, picks: seq<nat>)
    requires |ff.changes| == |ff.responses| && forall k | 0 <= k < |picks| :: picks[k] < |ff.responses|
    ensures Linked(dc0, log + Appended(ff, picks)) <==>
      Linked(dc0, log) && Chained(FinalRoot(dc0, log), ff.responses, picks)
    decreases |picks|
  {
    hide Linked;
    if picks == [] {
      assert log + Appended(ff, picks) == log;
    } else {
      var record := Appended(ff, picks)[0];
      LinkedAppend(dc0, log, record);
      LinkedAppended(dc0, ff, log + [record], picks[1..]);
      assert log + Appended(ff, picks) == log + [record] + Appended(ff, picks[1..]);
    }
  }

  /** The position and the data root that the tail of `ff` starts from. */
  function TailStart(env: Env, st: State, ff: FfData): (nat, Dc)
    requires ff.proof.Some? ==> env.verifyFf(ff.proof.value.blob).Some?
  {
    match ff.proof
    case None => (st.changeId, st.dc)
    case Some(proof) => (proof.endChangeId, env.verifyFf(proof.blob).value.endDc)
  }

  lemma {:induction false} StartOfBase(env: Env, st: State, log: seq<Record>, r: Recovery, base: seq<Record>)
    requires Represents(env, st, log) && PeaksMatch(st.clc) && Recover(env, st, r).1.None? &&
      Base(env, st, log, r.ff, base)
    ensures r.ff.proof.Some? ==> env.verifyFf(r.ff.proof.value.blob).Some?
    ensures TailStart(env, st, r.ff) == (|base|, FinalRoot(st.initialDc, base))
  {
    hide Recover, Tail, HeadOf, Verified, Linked;
    var t := FastForwardPasses(env, st, r);
  }

  /** The tail checks each root step but not that they meet: after a successful
      fast-forward the log is linked exactly when the responses that continue
      where the tail starts chain from the root there. */
  lemma {:induction false} LinkedIffChained(env: Env, st: State, log: seq<Record>, r: Recovery)
    returns (base: seq<Record>)
    requires Sound(env) && Represents(env, st, log) && Linked(st.initialDc, log)
    requires PeaksMatch(st.clc) && Recover(env, st, r).1.None?
    ensures Base(env, st, log, r.ff, base) && Landed(env, st, r.ff, base, Recover(env, st, r).0)
    ensures r.ff.proof.Some? ==> env.verifyFf(r.ff.proof.value.blob).Some?
    ensures var (position, root) := TailStart(env, st, r.ff);
      Linked(st.initialDc, AfterTail(r.ff, base, 0)) <==>
      Chained(root, r.ff.responses, Continuing(r.ff.responses, position, 0))
  {
    base := FastForwardLands(env, st, log, r);
    StartOfBase(env, st, log, r, base);
    hide Recover, Represents, Sound, Landed, Linked;
    LinkedAppended(st.initialDc, r.ff, base, Continuing(r.ff.responses, |base|, 0));
  }

  // ---------------------------------------------------------------------
  // No entry is accepted twice
  // ---------------------------------------------------------------------

  lemma {:induction false} VerifiedAt(env: Env, log: seq<Record>, k: nat)
    requires Verified(env, log) && k < |log|
    ensures Follows(env, log[..k], log[k])
  {
    if k < |log| - 1 {
      VerifiedAt(env, log[..|log| - 1], k);
      assert log[..|log| - 1][..k] == log[..k];
    }
  }

  /** Each entry refers to its signer's previous one, so a verified log never
      holds the same entry at two positions. */
  lemma {:induction false} NoReplay(env: Env, log: seq<Record>, j: nat, k: nat)
    requires Verified(env, log) && j < k < |log|
    ensures log[j].entry != log[k].entry
  {
    VerifiedAt(env, log, j);
    VerifiedAt(env, log, k);
    hide Verified, LastSigned;
    var u := log[j].entry.uid;
    LastSignedIsLast(log[..j], u);
    LastSignedIsLast(log[..k], u);
    assert log[..k][j] == log[j];
  }

  // ---------------------------------------------------------------------
  // The anchor entry
  // ---------------------------------------------------------------------

  /** After a successful fast-forward the stored anchor is the entry at the
      client's position, except in exactly one case: a proof moved the client
      forward, a tail was sent with it, and none of the tail continued it. */
  lemma {:induction false} AnchorFreshIff(env: Env, st: State, log: seq<Record>, r: Recovery)
    returns (base: seq<Record>)
    requires Sound(env) && Represents(env, st, log) && st.entry == LastEntry(log)
    requires PeaksMatch(st.clc) && Recover(env, st, r).1.None?
    ensures Base(env, st, log, r.ff, base) && Landed(env, st, r.ff, base, Recover(env, st, r).0)
    ensures Recover(env, st, r).0.entry == LastEntry(AfterTail(r.ff, base, 0)) <==>
      !(r.ff.proof.Some? && r.ff.responses != []
        && st.changeId < r.ff.proof.value.endChangeId == r.ff.head.value.changeId)
  {
    hide Recover, Sound, RaisedFor, Linked, Verified, Represents;
    base := FastForwardLands(env, st, log, r);
    var ff, t := r.ff, Recover(env, st, r).0;
    var log' := AfterTail(ff, base, 0);
    RepresentsLog(env, st, log);
    RepresentsLog(env, t, log');
    assert base <= log';
    if ff.proof.Some? && ff.responses != [] && |log'| == |base| {
      assert log' == base;
      if 0 < st.changeId < |base| {
        NoReplay(env, base, st.changeId - 1, |base| - 1);
      }
    }
  }

  // ---------------------------------------------------------------------
  // Two fast-forwards that succeed and break an expected property
  // ---------------------------------------------------------------------

  function Pair(oldRoot: Dc, newRoot: Dc, id: nat): Response { Response(id, oldRoot, newRoot, [], 1, 0) }

  function Signed(sigRef: nat): Entry { Entry(1, sigRef, 0, true, 0, 0, 0) }

  // A server that proves any single change and no range.
  function TailOnly(): Env { Env((_, _, _, _, _) => true, _ => None, _ => 0, _ => 0, _ => 0) }

  /** Two tail elements whose roots do not meet (0 to 7, then 9 to 10) are both
      accepted: the state stands for a log that is not linked. */
  lemma {:induction false} UnlinkedTail() returns (log: seq<Record>, r: Recovery)
    ensures Sound(TailOnly())
    ensures var (t, error) := Recover(TailOnly(), Initial(Some(1), 0), r);
      error.None? && Represents(TailOnly(), t, log) && !Linked(0, log)
  {
    var env, st := TailOnly(), Initial(Some(1), 0);
    var ff := FfData(None, [Signed(0), Signed(1)], [Pair(0, 7, 1), Pair(9, 10, 2)], Some(ServerHead(2, 0, 0)));
    r := Recovery(ff, {}, [true, true], true);
    InitialRepresents(env, Some(1), 0);
    RepresentsWellFormed(env, st, []);
    TailOnlySucceeds(env, st, r);
    var base := LinkedIffChained(env, st, [], r);
    hide Recover, Represents, Linked;
    log := AfterTail(ff, base, 0);
    var picks := Continuing(ff.responses, 0, 0);
    assert picks[0] == 0 && picks[1] == 1 by { assert |Continuing(ff.responses, 1, 1)| == 1; }
    assert !Chained(0, ff.responses, picks) by { assert picks[1..][0] == 1; }
  }

  lemma {:induction false} TailOnlySucceeds(env: Env, st: State, r: Recovery)
    requires env == TailOnly() && st == Initial(Some(1), 0) && PeaksMatch(st.clc)
    requires r.ff == FfData(None, [Signed(0), Signed(1)], [Pair(0, 7, 1), Pair(9, 10, 2)], Some(ServerHead(2, 0, 0)))
    requires r.sigs == [true, true]
    ensures Recover(env, st, r).1.None?
  {
    var ff := r.ff;
    assert MaxId(ff.responses) == 2 by {
      assert ff.responses[..1] == [Pair(0, 7, 1)] && ff.responses[..1][..0] == [];
    }
    hide Append, HeadOf;
    ApplyPeaks(st, Signed(0), Pair(0, 7, 1));
    var st1 := ApplyStateUpdate(st, Signed(0), Pair(0, 7, 1), 0, 0, 1, 0);
    assert StepTail(env, st, Signed(0), Pair(0, 7, 1)) == Stepped(st1);
    ApplyPeaks(st1, Signed(1), Pair(9, 10, 2));
    var st2 := ApplyStateUpdate(st1, Signed(1), Pair(9, 10, 2), 1, 1, 1, 0);
    assert StepTail(env, st1, Signed(1), Pair(9, 10, 2)) == Stepped(st2);
    assert Tail(env, st2, true, ff.changes, ff.responses, 2) == TailEnd(st2, true, None);
    assert Tail(env, st1, true, ff.changes, ff.responses, 1) == TailEnd(st2, true, None);
    assert Tail(env, st, false, ff.changes, ff.responses, 0) == TailEnd(st2, true, None);
  }

  // A server that proves the one-entry log from root 0 to root 7.
  function OneEntryRange(): Range {
    Range(0, 7, HeadOf([HInit(0)]), HeadOf([HInit(0), HLeaf(Signed(0))]), 1, map[1 := (1, HLeaf(Signed(0)))], 0)
  }

  function OneEntry(): Env { Env((_, _, _, _, _) => true, _ => Some(OneEntryRange()), _ => 0, _ => 0, _ => 0) }

  /** A proof up to change 1 with a tail that repeats change 1: the client moves
      to change 1 and keeps no anchor entry for it. */
  lemma {:induction false} StaleAnchor() returns (r: Recovery)
    ensures Sound(OneEntry()) && PeaksMatch(Initial(Some(1), 0).clc)
    ensures var (t, error) := Recover(OneEntry(), Initial(Some(1), 0), r);
      error.None? && t.changeId == 1 && t.entry.None?
  {
    var env, st := OneEntry(), Initial(Some(1), 0);
    OneEntryAttested();
    InitialRepresents(env, Some(1), 0);
    RepresentsWellFormed(env, st, []);
    var proof := FfProof([], 1, map[1 := Signed(0)], None, None, None, map[]);
    var ff := FfData(Some(proof), [Signed(0)], [Pair(7, 7, 1)], Some(ServerHead(1, 0, 0)));
    r := Recovery(ff, {}, [true], true);
    var t := OneEntryAdopted(ff, proof);
    hide HeadOf, WellFormed, PopCount, Sound, ProofBlock;
    assert MaxId(ff.responses) == 1 by { assert ff.responses[..0] == []; }
    assert Tail(env, t, true, ff.changes, ff.responses, 1) == TailEnd(t, true, None);
    assert Tail(env, t, true, ff.changes, ff.responses, 0) == TailEnd(t, true, None);
  }

  lemma {:induction false} OneEntryAdopted(ff: FfData, proof: FfProof) returns (t: State)
    requires proof == FfProof([], 1, map[1 := Signed(0)], None, None, None, map[])
    requires ff == FfData(Some(proof), [Signed(0)], [Pair(7, 7, 1)], Some(ServerHead(1, 0, 0)))
    ensures var st := Initial(Some(1), 0); ProofBlock(OneEntry(), st, ff, AnchorOf(st), {}) == Ok(t)
    ensures t.changeId == 1 && t.entry.None? && t.uid == Some(1) && PeaksMatch(t.clc)
  {
    AppendExtends([HInit(0), HLeaf(Signed(0))], HInit(0));
    hide HeadOf, PopCount;
    t := Adopt(Initial(Some(1), 0), ff, proof, OneEntryRange(), {});
  }

  lemma {:induction false} OneEntryParent()
    ensures ParentsOk(OneEntry(), 0, [Record(Signed(0), 0, 7)])
  {
    var log := [Record(Signed(0), 0, 7)];
    assert ParentOk(OneEntry(), 0, log, 0);
  }

  lemma {:induction false} OneEntryAttested()
    ensures Sound(OneEntry())
  {
    hide HeadOf;
    var env, record := OneEntry(), Record(Signed(0), 0, 7);
    var log := [record];
    assert log[..|log| - 1] == [];
    assert ProvesNext(env, [], record, []);
    assert Follows(env, [], record) && Verified(env, log);
    assert Leaves(0, log) == [HInit(0), HLeaf(Signed(0))];
    assert LastSigned(log) == map[1 := 1] && Latest(log) == 0;
    LinkedAppend(0, [], record);
    OneEntryParent();
    assert Attests(env, OneEntryRange(), log);
  }

  // ---------------------------------------------------------------------
  // Broadcasts and local submissions
  // ---------------------------------------------------------------------

  // A recovery as a whole: the server may not answer, and after the
  // fast-forward the internal tables may not be readable.
  datatype Reply = NoReply | Reply(recovery: Recovery, rewarmed: bool)

  predicate Proven(reply: Reply) { reply.Reply? && reply.recovery.ff.proof.Some? }

  function RecoverVia(env: Env, st: State, reply: Reply): (State, Option<Error>)
    requires PeaksMatch(st.clc)
  {
    match reply
    case NoReply => (st, Some(Database))
    case Reply(r, rewarmed) =>
      var (t, error) := Recover(env, st, r.(expected := Undischarged(st.pending)));
      (t, if error.None? && !rewarmed then Some(Database) else error)
  }

  datatype SigOutcome = SigVerified | KeyResolutionFailed | SignatureInvalid
  datatype BroadcastOutcome = BroadcastSkipped | BroadcastApplied | CacheInvalidated

  /** `early` and `retry` are the signature check before and after the apply. */
  function Broadcast(env: Env, st: State, change: Entry, response: Response, now: nat,
                     early: SigOutcome, retry: SigOutcome, reply: Reply): (State, BroadcastOutcome)
    requires PeaksMatch(st.clc)
  {
    if response.changeId <= st.changeId || early.SignatureInvalid? then (st, BroadcastSkipped)
    else
      var (t, error) := ValidateAndApply(env, st, change, response, now);
      if error.None? then
        if early.SigVerified? then (t, BroadcastApplied)
        else if retry.SigVerified? then (t, CacheInvalidated)
        else (Rollback(t, Save(st)), BroadcastSkipped)
      else if error.value.FastForwardRequired? then
        var (u, failed) := RecoverVia(env, st, reply);
        (u, if failed.None? && u.changeId > st.changeId then CacheInvalidated else BroadcastSkipped)
      else (st, BroadcastSkipped)
  }

  function CompletePending(env: Env, st: State, change: Entry, response: Response, now: nat, reply: Reply)
    : (State, Option<Error>)
    requires PeaksMatch(st.clc) && response.changeId in st.pending
  {
    var (t, error) := ValidateAndApply(env, st, change, response, now);
    if error == Some(FastForwardRequired) then RecoverVia(env, t, reply)
    else if error.Some? || t.pending[response.changeId].discharged then (t, error)
    else
      ValidateAdvances(env, st, change, response, now);
      RecoverVia(env, t, reply)
  }

  predicate NoOp(response: Response) { response.rowsAffected == 0 && response.oldRoot == response.newRoot }

  /** Report success of an accepted submission only once its exact entry is known
      to be on the chain. */
  function CompleteSubmitted(env: Env, st: State, change: Entry, response: Response, now: nat, reply: Reply)
    : (State, Option<Error>)
    requires PeaksMatch(st.clc)
  {
    var ack := response.changeId;
    if NoOp(response) then
      var (t, error) := ValidateAndApply(env, st, change, response, now);
      if error == Some(FastForwardRequired) then RecoverVia(env, st, reply) else (t, error)
    else
      var registered := st.(pending := st.pending[ack := Pending(HLeaf(change), false)]);
      var (t, error) := CompletePending(env, registered, change, response, now, reply);
      var discharged := ack in t.pending && t.pending[ack].discharged;
      (t.(pending := t.pending - {ack}), if error.None? && !discharged then Some(Validation) else error)
  }

  lemma {:induction false} ValidateAdvances(env: Env, st: State, change: Entry, response: Response, now: nat)
    requires PeaksMatch(st.clc) && response.changeId in st.pending
    ensures var t := ValidateAndApply(env, st, change, response, now).0;
      Advanced(st, t) && PeaksMatch(t.clc)
  {
    if st.uid.Some? {
      ApplyPeaks(st, change, response);
    }
  }

  lemma {:induction false} RecoverKeeps(env: Env, st: State, log: seq<Record>, reply: Reply) returns (log': seq<Record>)
    requires Sound(env) && Represents(env, st, log)
    ensures PeaksMatch(st.clc)
    ensures var t := RecoverVia(env, st, reply).0;
      Represents(env, t, log') && RaisedFor(st, t, log') && Moved(st, log, Proven(reply), log')
  {
    hide Sound, Represents, Recover;
    RepresentsWellFormed(env, st, log);
    log' := log;
    if reply.Reply? {
      log' := FastForwardKeeps(env, st, log, reply.recovery.(expected := Undischarged(st.pending)));
    }
  }

  lemma {:induction false} FastForwardKeeps(env: Env, st: State, log: seq<Record>, r: Recovery)
    returns (log': seq<Record>)
    requires Sound(env) && Represents(env, st, log)
    ensures PeaksMatch(st.clc)
    ensures Represents(env, Recover(env, st, r).0, log') && RaisedFor(st, Recover(env, st, r).0, log')
    ensures Moved(st, log, r.ff.proof.Some?, log')
  {
    hide Sound, Represents, FastForward, Base, Moved, AfterTail;
    RepresentsLog(env, st, log);
    MovedSame(st, log, r.ff.proof.Some?);
    RepresentsWellFormed(env, st, log);
    FailedFastForwardChangesNothing(env, st, r.ff, AnchorOf(st), r.expected, r.sigs, r.sigrefs);
    log' := log;
    if Recover(env, st, r).1.None? {
      var base := FastForwardLands(env, st, log, r);
      log' := AfterTail(r.ff, base, 0);
      LandedMoves(env, st, log, r.ff, base);
    }
  }

  lemma MovedEntry(a: State, b: State, log: seq<Record>, proven: bool, log': seq<Record>)
    requires a.entry == b.entry && Moved(a, log, proven, log')
    ensures Moved(b, log, proven, log')
  {
  }

  lemma MovedSame(st: State, log: seq<Record>, proven: bool)
    ensures Moved(st, log, proven, log)
  {
  }

  lemma {:induction false} ValidateKeeps(env: Env, st: State, log: seq<Record>, change: Entry, response: Response,
                                         now: nat)
    returns (log': seq<Record>)
    requires Represents(env, st, log)
    ensures PeaksMatch(st.clc)
    ensures var (t, error) := ValidateAndApply(env, st, change, response, now);
      && Represents(env, t, log') && RaisedFor(st, t, log') && log <= log'
      && (error.Some? ==> t == st)
      && (t != st ==>
            && At(log', response.changeId, HLeaf(change))
            && t.pending == Discharge(st.pending, response.changeId, change))
  {
    hide Represents, Append;
    log' := ValidateAndApplyKeeps(env, st, log, change, response, now);
  }

  lemma {:induction false} CompletePendingKeeps(env: Env, st: State, log: seq<Record>, change: Entry,
                                                response: Response, now: nat, reply: Reply) returns (log': seq<Record>)
    requires Sound(env) && Represents(env, st, log)
    requires response.changeId in st.pending && st.pending[response.changeId] == Pending(HLeaf(change), false)
    ensures PeaksMatch(st.clc)
    ensures var (t, error) := CompletePending(env, st, change, response, now, reply);
      Represents(env, t, log') && RaisedFor(st, t, log') && Moved(st, log, Proven(reply), log')
  {
    hide Represents, Sound, ValidateAndApply, RecoverVia;
    log' := ValidateKeeps(env, st, log, change, response, now);
    var (t, error) := ValidateAndApply(env, st, change, response, now);
    if error == Some(FastForwardRequired) || (error.None? && !t.pending[response.changeId].discharged) {
      assert t == st;
      log' := RecoverKeeps(env, st, log, reply);
    }
  }

  /** A submission that is reported as successful, unless it was a no-op, is on
      the client's log: exactly the submitted entry, at the acknowledged id.
      Whatever is reported, the state stands for a verified log. */
  lemma {:induction false} CompletedEntryIsOnChain(env: Env, st: State, log: seq<Record>, change: Entry,
                                                   response: Response,
                                                   now: nat, reply: Reply) returns (log': seq<Record>)
    requires Sound(env) && Represents(env, st, log)
    ensures PeaksMatch(st.clc)
    ensures var (t, error) := CompleteSubmitted(env, st, change, response, now, reply);
      && Represents(env, t, log') && Moved(st, log, Proven(reply), log')
      && (error.None? && !NoOp(response) ==>
            0 < response.changeId <= |log'| && log'[response.changeId - 1].entry == change)
  {
    hide Sound, ValidateAndApply, RecoverVia, CompletePending;
    var ack := response.changeId;
    if NoOp(response) {
      log' := ValidateKeeps(env, st, log, change, response, now);
      if ValidateAndApply(env, st, change, response, now).1 == Some(FastForwardRequired) {
        log' := RecoverKeeps(env, st, log, reply);
      }
    } else {
      var registered := st.(pending := st.pending[ack := Pending(HLeaf(change), false)]);
      log' := CompletePendingKeeps(env, registered, log, change, response, now, reply);
      MovedEntry(registered, st, log, Proven(reply), log');
      RepresentsWellFormed(env, st, log);
    }
  }

  // ---------------------------------------------------------------------
  // Every run
  // ---------------------------------------------------------------------

  datatype Op =
    | SingleOp(change: Entry, response: Response, now: nat)
    | BroadcastOp(change: Entry, response: Response, now: nat, early: SigOutcome, retry: SigOutcome, reply: Reply)
    | RecoverOp(reply: Reply)
    | FastForwardOp(recovery: Recovery)
    | SubmitOp(change: Entry, response: Response, now: nat, reply: Reply)

  /** The operation brings a fast-forward proof. */
  predicate UsesProof(op: Op) {
    match op
    case SingleOp(_, _, _) => false
    case FastForwardOp(r) => r.ff.proof.Some?
    case _ => Proven(op.reply)
  }

  function Step(env: Env, st: State, op: Op): State
    requires PeaksMatch(st.clc)
  {
    match op
    case SingleOp(change, response, now) => ValidateAndApply(env, st, change, response, now).0
    case BroadcastOp(change, response, now, early, retry, reply) =>
      Broadcast(env, st, change, response, now, early, retry, reply).0
    case RecoverOp(reply) => RecoverVia(env, st, reply).0
    case FastForwardOp(r) => Recover(env, st, r).0
    case SubmitOp(change, response, now, reply) => CompleteSubmitted(env, st, change, response, now, reply).0
  }

  /** A broadcast whose signature is found wrong only after it was applied
      leaves no trace. */
  lemma {:induction false} RejectedBroadcastLeavesNoTrace(env: Env, st: State, change: Entry, response: Response,
                                                          now: nat, early: SigOutcome, retry: SigOutcome, reply: Reply)
    requires PeaksMatch(st.clc) && !early.SigVerified? && !retry.SigVerified?
    requires ValidateAndApply(env, st, change, response, now).1 != Some(FastForwardRequired)
    ensures Broadcast(env, st, change, response, now, early, retry, reply) == (st, BroadcastSkipped)
  {
    if ValidateAndApply(env, st, change, response, now).1.None? {
      assert Advanced(st, ValidateAndApply(env, st, change, response, now).0);
      RollbackRestores(st, ValidateAndApply(env, st, change, response, now).0);
    }
  }

  lemma {:induction false} BroadcastKeeps(env: Env, st: State, log: seq<Record>, change: Entry, response: Response,
                                          now: nat, early: SigOutcome, retry: SigOutcome, reply: Reply)
    returns (log': seq<Record>)
    requires Sound(env) && Represents(env, st, log)
    ensures PeaksMatch(st.clc)
    ensures Represents(env, Broadcast(env, st, change, response, now, early, retry, reply).0, log')
    ensures Moved(st, log, Proven(reply), log')
  {
    hide Sound, Represents, ValidateAndApply, RecoverVia;
    log' := ValidateKeeps(env, st, log, change, response, now);
    var (t, error) := ValidateAndApply(env, st, change, response, now);
    if response.changeId <= st.changeId || early.SignatureInvalid? {
      log' := log;
    } else if error.None? {
      if early.KeyResolutionFailed? && !retry.SigVerified? {
        RejectedBroadcastLeavesNoTrace(env, st, change, response, now, early, retry, reply);
        log' := log;
      }
    } else if error.value.FastForwardRequired? {
      log' := RecoverKeeps(env, st, log, reply);
    }
  }

  lemma {:induction false} StepKeeps(env: Env, st: State, log: seq<Record>, op: Op) returns (log': seq<Record>)
    requires Sound(env) && Represents(env, st, log)
    ensures PeaksMatch(st.clc)
    ensures Represents(env, Step(env, st, op), log') && Moved(st, log, UsesProof(op), log')
  {
    hide Sound, Represents, ValidateAndApply, RecoverVia, Recover, Broadcast, CompleteSubmitted;
    RepresentsWellFormed(env, st, log);
    match op
    case SingleOp(change, response, now) => log' := ValidateKeeps(env, st, log, change, response, now);
    case BroadcastOp(change, response, now, early, retry, reply) =>
      log' := BroadcastKeeps(env, st, log, change, response, now, early, retry, reply);
    case RecoverOp(reply) => log' := RecoverKeeps(env, st, log, reply);
    case FastForwardOp(r) => log' := FastForwardKeeps(env, st, log, r);
    case SubmitOp(change, response, now, reply) =>
      log' := CompletedEntryIsOnChain(env, st, log, change, response, now, reply);
  }

  function Initial(uid: Option<Uid>, dc0: Dc): State {
    State(uid, dc0, dc0, 0, 0, map[], 0, HeadOf([HInit(dc0)]), None, map[])
  }

  lemma {:induction false} InitialRepresents(env: Env, uid: Option<Uid>, dc0: Dc)
    ensures Represents(env, Initial(uid, dc0), [])
  {
    assert Leaves(dc0, []) == [HInit(dc0)];
  }

  /** The state after the operations `ops` from genesis, whatever they bring. */
  ghost function Run(env: Env, uid: Option<Uid>, dc0: Dc, ops: seq<Op>): (st: State)
    requires Sound(env)
    ensures exists log :: Represents(env, st, log)
  {
    if ops == [] then
      InitialRepresents(env, uid, dc0);
      Initial(uid, dc0)
    else
      var before := Run(env, uid, dc0, ops[..|ops| - 1]);
      var log :| Represents(env, before, log);
      var log' := NextLog(env, before, log, ops[|ops| - 1]);
      Step(env, before, ops[|ops| - 1])
  }

  ghost function NextLog(env: Env, st: State, log: seq<Record>, op: Op): (log': seq<Record>)
    requires Sound(env) && Represents(env, st, log)
    ensures PeaksMatch(st.clc) && Represents(env, Step(env, st, op), log')
  {
    assert PeaksMatch(st.clc) && exists log' :: Represents(env, Step(env, st, op), log') by {
      var log' := StepKeeps(env, st, log, op);
    }
    var log' :| Represents(env, Step(env, st, op), log');
    log'
  }

  /** Each signer maps to the position of its newest entry, and only signers do. */
  ghost predicate NewestPerSigner(sigref: map<Uid, nat>, log: seq<Record>) {
    && (forall u :: u in sigref <==> exists k | 0 <= k < |log| :: log[k].entry.uid == u)
    && (forall u | u in sigref ::
          && 1 <= sigref[u] <= |log| && log[sigref[u] - 1].entry.uid == u
          && forall k | sigref[u] <= k < |log| :: log[k].entry.uid != u)
  }

  ghost predicate Distinct(log: seq<Record>) {
    forall j, k | 0 <= j < k < |log| :: log[j].entry != log[k].entry
  }

  ghost predicate GreatestTimestamp(hwm: nat, log: seq<Record>) {
    && (forall k | 0 <= k < |log| :: log[k].entry.timestamp <= hwm)
    && (hwm == 0 || exists k | 0 <= k < |log| :: log[k].entry.timestamp == hwm)
  }

  /** Every entry was proven at its position, continues its signer's chain and
      was not too old. */
  ghost predicate EachFollows(env: Env, log: seq<Record>) {
    forall k | 0 <= k < |log| :: Follows(env, log[..k], log[k])
  }

  lemma {:induction false} SignersNewest(log: seq<Record>)
    ensures NewestPerSigner(LastSigned(log), log)
  {
    hide LastSigned;
    forall u ensures u in LastSigned(log) <==> exists k | 0 <= k < |log| :: log[k].entry.uid == u {
      LastSignedIsLast(log, u);
    }
    forall u | u in LastSigned(log)
      ensures var p := LastSigned(log)[u];
        1 <= p <= |log| && log[p - 1].entry.uid == u && forall k | p <= k < |log| :: log[k].entry.uid != u
    {
      LastSignedIsLast(log, u);
    }
  }

  lemma {:induction false} VerifiedLogs(env: Env, log: seq<Record>)
    requires Verified(env, log)
    ensures Distinct(log) && EachFollows(env, log)
  {
    hide Verified, Follows;
    forall j: nat, k: nat | j < k < |log| ensures log[j].entry != log[k].entry {
      NoReplay(env, log, j, k);
    }
    forall k: nat | k < |log| ensures Follows(env, log[..k], log[k]) {
      VerifiedAt(env, log, k);
    }
  }

  // The log of each state along a run, and how one comes from the one before.
  ghost predicate Histories(env: Env, uid: Option<Uid>, dc0: Dc, ops: seq<Op>, logs: seq<seq<Record>>)
    requires Sound(env)
  {
    && |logs| == |ops| + 1
    && (forall k | 0 <= k <= |ops| :: Represents(env, Run(env, uid, dc0, ops[..k]), logs[k]))
    && (forall k | 0 <= k < |ops| :: Moved(Run(env, uid, dc0, ops[..k]), logs[k], UsesProof(ops[k]), logs[k + 1]))
  }

  lemma {:induction false} RunStep(env: Env, uid: Option<Uid>, dc0: Dc, ops: seq<Op>)
    requires Sound(env) && ops != []
    ensures var before := Run(env, uid, dc0, ops[..|ops| - 1]);
      PeaksMatch(before.clc) && Run(env, uid, dc0, ops) == Step(env, before, ops[|ops| - 1])
  {
    hide Represents, Step, Sound;
    var before := Run(env, uid, dc0, ops[..|ops| - 1]);
    var log :| Represents(env, before, log);
    RepresentsWellFormed(env, before, log);
  }

  lemma {:induction false} HistoryNext(env: Env, uid: Option<Uid>, dc0: Dc, ops: seq<Op>, logs: seq<seq<Record>>,
                                       last: seq<Record>)
    requires Sound(env) && ops != [] && Histories(env, uid, dc0, ops[..|ops| - 1], logs)
    requires Represents(env, Run(env, uid, dc0, ops), last)
    requires Moved(Run(env, uid, dc0, ops[..|ops| - 1]), logs[|ops| - 1], UsesProof(ops[|ops| - 1]), last)
    ensures Histories(env, uid, dc0, ops, logs + [last])
  {
    hide Represents, Moved, Run, Sound, UsesProof;
    var n, before, all := |ops| - 1, ops[..|ops| - 1], logs + [last];
    assert ops[..n + 1] == ops;
    forall k | 0 <= k <= n ensures before[..k] == ops[..k] && all[k] == logs[k] {}
    forall k | 0 <= k <= |ops| ensures Represents(env, Run(env, uid, dc0, ops[..k]), all[k]) {
      if k <= n { assert before[..k] == ops[..k]; }
    }
    forall k | 0 <= k < |ops| ensures Moved(Run(env, uid, dc0, ops[..k]), all[k], UsesProof(ops[k]), all[k + 1]) {
      if k < n { assert before[..k] == ops[..k] && before[k] == ops[k] && all[k + 1] == logs[k + 1]; }
    }
  }

  /** Along every run the logs follow one another: an operation without a proof
      only adds to the log; one with a proof keeps the length and the entry of
      the stored anchor where it was. */
  lemma {:induction false} EveryRunMoves(env: Env, uid: Option<Uid>, dc0: Dc, ops: seq<Op>)
    returns (logs: seq<seq<Record>>)
    requires Sound(env)
    ensures Histories(env, uid, dc0, ops, logs)
  {
    hide Represents, Moved, Step, Sound, UsesProof;
    if ops == [] {
      InitialRepresents(env, uid, dc0);
      logs := [[]];
    } else {
      hide Run;
      var n, before := |ops| - 1, ops[..|ops| - 1];
      var earlier := EveryRunMoves(env, uid, dc0, before);
      assert before[..n] == before;
      RunStep(env, uid, dc0, ops);
      var last := StepKeeps(env, Run(env, uid, dc0, before), earlier[n], ops[n]);
      HistoryNext(env, uid, dc0, ops, earlier, last);
      logs := earlier + [last];
    }
  }

  /** What every run keeps: each state is the fold of one log of distinct entries,
      and the logs follow one another. */
  lemma {:induction false} EveryRun(env: Env, uid: Option<Uid>, dc0: Dc, ops: seq<Op>) returns (logs: seq<seq<Record>>)
    requires Sound(env)
    ensures Histories(env, uid, dc0, ops, logs)
    ensures var st, log := Run(env, uid, dc0, ops), logs[|ops|];
      && st.changeId == |log|
      && st.clc == HeadOf(Leaves(st.initialDc, log))
      && st.dc == FinalRoot(st.initialDc, log)
      && NewestPerSigner(st.sigref, log)
      && GreatestTimestamp(st.hwm, log)
      && Distinct(log) && EachFollows(env, log)
  {
    hide Run, HeadOf, Leaves, Verified, LastSigned, Latest, Sound, NewestPerSigner, Distinct, EachFollows, Moved,
         UsesProof;
    logs := EveryRunMoves(env, uid, dc0, ops);
    var log := logs[|ops|];
    assert ops[..|ops|] == ops;
    RepresentsLog(env, Run(env, uid, dc0, ops), log);
    SignersNewest(log);
    LatestTimestamp(log);
    VerifiedLogs(env, log);
  }

  /** Between two proofs nothing is ever taken back. */
  lemma {:induction false} RunExtends(env: Env, uid: Option<Uid>, dc0: Dc, ops: seq<Op>, logs: seq<seq<Record>>,
                                      i: nat, j: nat)
    requires Sound(env) && Histories(env, uid, dc0, ops, logs)
    requires i <= j <= |ops| && forall k | i <= k < j :: !UsesProof(ops[k])
    ensures logs[i] <= logs[j]
    decreases j
  {
    hide Represents, Run;
    if i < j {
      RunExtends(env, uid, dc0, ops, logs, i, j - 1);
      assert Moved(Run(env, uid, dc0, ops[..j - 1]), logs[j - 1], false, logs[j]);
    }
  }

  predicate SameEntries(a: seq<Record>, b: seq<Record>, n: nat) {
    n <= |a| && n <= |b| && forall k | 0 <= k < n :: a[k].entry == b[k].entry
  }

  /** What a fast-forward preserves beyond the anchor: the entries of the client's
      log are all still there exactly when the new log, cut at the client's old
      position, has the head the client was at. */
  lemma {:induction false} HistoryKeptIff(env: Env, st: State, log: seq<Record>, log': seq<Record>)
    requires Represents(env, st, log) && |log| <= |log'|
    ensures SameEntries(log, log', |log|) <==> HeadOf(Leaves(st.initialDc, log'[..|log|])) == st.clc
  {
    var a, b := Leaves(st.initialDc, log), Leaves(st.initialDc, log'[..|log|]);
    if SameEntries(log, log', |log|) {
      assert a == b;
    }
    if HeadOf(b) == st.clc {
      hide Represents;
      SameHead(a, b);
      forall k | 0 <= k < |log| ensures log[k].entry == log'[k].entry { assert a[k + 1] == b[k + 1]; }
    }
  }

  lemma {:induction false} SameHead(a: seq<Hash>, b: seq<Hash>)
    requires |a| == |b| > 0 && HeadOf(a).root == HeadOf(b).root
    ensures a == b
  {
    hide Peaks;
    HeadBinds(a, b);
  }

  lemma {:induction false} LatestTimestamp(log: seq<Record>)
    ensures GreatestTimestamp(Latest(log), log)
  {
    LatestIsGreatest(log);
  }
}
