/** The client's changelog position and everything that moves it: single
    changes, broadcasts with a deferred signature check, fast-forward proofs
    with a ragged tail, rollback, and completion of local submissions.

    The client stores no log.  `Represents` says which log a state stands for;
    the theorems are about that log.
 */
module Changelog {
  import opened Prelude
  import opened Mmr

  type Uid = nat
  type Dc = int          // a data commitment
  type Blob = seq<int>   // proof bytes, never looked into
  type Prefix = int      // the 16-byte prefix of a root
  type Root = int        // the bytes of a root, in an entry

  const CHANGE_EXPIRY_SECONDS := 100
  const CLOCK_SKEW_TOLERANCE_SECONDS := 5
  const CLIENT_CLOCK_TOLERANCE_SECONDS := 120
  const TIMESTAMP_HWM_TOLERANCE_SECONDS := CHANGE_EXPIRY_SECONDS + CLOCK_SKEW_TOLERANCE_SECONDS
  const MAX_PARENT_DISTANCE := 10

  datatype Result<+T> = Ok(value: T) | Err(error: Error)
  datatype Error = FastForwardRequired | StateAdvanced | StateDiverged | Validation | Database

  // A signed changelog entry.  `parentClc` is the root its signer saw at
  // `parentChange`; `body` is the rest of its bytes.
  datatype Entry = Entry(uid: Uid, sigRef: nat, timestamp: nat, signed: bool,
                         parentChange: nat, parentClc: Root, body: int)

  type Hash = Digest<Entry, Dc>
  type Clc = TreeHead<Entry, Dc>
  type Inclusion = InclusionProof<Entry, Dc>

  datatype Response = Response(changeId: nat, oldRoot: Dc, newRoot: Dc, tree: Blob, rowsAffected: nat, acceptedAt: nat)

  datatype Range = Range(startDc: Dc, endDc: Dc, startClc: Clc, endClc: Clc, endChangeId: nat,
                         sigref: map<Uid, (nat, Hash)>, hwm: nat)

  datatype FfProof = FfProof(blob: Blob, endChangeId: nat, sigrefEntries: map<nat, Entry>,
                             fromInclusion: Option<Inclusion>, endEntry: Option<Entry>, endInclusion: Option<Inclusion>,
                             expected: map<nat, Inclusion>)

  datatype ServerHead = ServerHead(changeId: nat, clc: Prefix, dc: Prefix)

  datatype FfData = FfData(proof: Option<FfProof>, changes: seq<Entry>, responses: seq<Response>,
                           head: Option<ServerHead>)

  // What the client cannot see into: the per-change proof checker, the
  // fast-forward verifier, root prefixes and the bytes of a root.
  datatype Env = Env(proves: (Entry, Blob, Dc, Dc, nat) -> bool,
                     verifyFf: Blob -> Option<Range>, clcPrefix: Hash -> Prefix, dcPrefix: Dc -> Prefix,
                     rootBytes: Hash -> Root)

  datatype Pending = Pending(leafHash: Hash, discharged: bool)

  datatype State = State(uid: Option<Uid>, initialDc: Dc, dc: Dc, changeId: nat, myLast: nat,
                         sigref: map<Uid, nat>, hwm: nat, clc: Clc, entry: Option<Entry>, pending: map<nat, Pending>)

  // ---------------------------------------------------------------------
  // Single changes
  // ---------------------------------------------------------------------

  predicate AcceptanceOk(change: Entry, response: Response) {
    && change.timestamp <= response.acceptedAt + CLOCK_SKEW_TOLERANCE_SECONDS
    && response.acceptedAt - change.timestamp <= CHANGE_EXPIRY_SECONDS
  }

  predicate LocalClockOk(response: Response, now: nat) {
    && response.acceptedAt <= now + CLIENT_CLOCK_TOLERANCE_SECONDS
    && now - response.acceptedAt <= CLIENT_CLOCK_TOLERANCE_SECONDS
  }

  predicate HwmOk(timestamp: nat, hwm: nat) {
    timestamp >= hwm || hwm - timestamp <= TIMESTAMP_HWM_TOLERANCE_SECONDS
  }

  function Max(a: nat, b: nat): nat { if a >= b then a else b }

  function ExpectedSigRef(sigref: map<Uid, nat>, uid: Uid): nat {
    if uid in sigref then sigref[uid] else 0
  }

  function Discharge(pending: map<nat, Pending>, changeId: nat, entry: Entry): map<nat, Pending> {
    if changeId in pending && pending[changeId].leafHash == HLeaf(entry)
    then pending[changeId := pending[changeId].(discharged := true)]
    else pending
  }

  /** The one place where an entry is appended.  `snapId`, `snapLast` and `hwm`
      were read earlier; the write happens only if the position is still there
      and the response is for the next position. */
  function ApplyStateUpdate(st: State, change: Entry, response: Response,
                            snapId: nat, snapLast: nat, uid: Uid, hwm: nat): State
    requires PeaksMatch(st.clc)
  {
    if st.changeId != snapId || response.changeId != snapId + 1 then st
    else
      st.(dc := response.newRoot,
          changeId := snapId + 1,
          myLast := if change.uid == uid then response.changeId else snapLast,
          sigref := st.sigref[change.uid := response.changeId],
          hwm := hwm,
          clc := Append(st.clc, HLeaf(change)),
          entry := Some(change),
          pending := Discharge(st.pending, response.changeId, change))
  }

  function ValidateAndApply(env: Env, st: State, change: Entry, response: Response, now: nat): (State, Option<Error>)
    requires PeaksMatch(st.clc)
  {
    if st.uid.None? then (st, Some(Validation))
    else if !AcceptanceOk(change, response) || !LocalClockOk(response, now) then (st, Some(Validation))
    else if response.changeId != st.changeId + 1 then
      if response.changeId > st.changeId then (st, Some(FastForwardRequired))
      else if response.tree == [] ||
        env.proves(change, response.tree, response.oldRoot, response.newRoot, response.changeId)
      then (st, None)
      else (st, Some(Database))
    else if response.oldRoot != st.dc then (st, Some(FastForwardRequired))
    else if !HwmOk(change.timestamp, st.hwm) then (st, Some(Validation))
    else if !env.proves(change, response.tree, response.oldRoot, response.newRoot, st.changeId + 1)
    then (st, Some(Database))
    else if change.sigRef != ExpectedSigRef(st.sigref, change.uid) then (st, Some(Validation))
    else
      var hwm := Max(st.hwm, change.timestamp);
      (ApplyStateUpdate(st, change, response, st.changeId, st.myLast, st.uid.value, hwm), None)
  }

  // ---------------------------------------------------------------------
  // The log a state stands for
  // ---------------------------------------------------------------------

  // An accepted entry and the data roots its proof connected.
  datatype Record = Record(entry: Entry, oldRoot: Dc, newRoot: Dc)

  function Leaves(dc0: Dc, log: seq<Record>): (leaves: seq<Hash>)
    ensures |leaves| == |log| + 1
  {
    [HInit(dc0)] + seq(|log|, k requires 0 <= k < |log| => HLeaf(log[k].entry))
  }

  function LastSigned(log: seq<Record>): map<Uid, nat> {
    if log == [] then map[]
    else LastSigned(log[..|log| - 1])[log[|log| - 1].entry.uid := |log|]
  }

  function Latest(log: seq<Record>): nat {
    if log == [] then 0 else Max(Latest(log[..|log| - 1]), log[|log| - 1].entry.timestamp)
  }

  function FinalRoot(dc0: Dc, log: seq<Record>): Dc {
    if log == [] then dc0 else log[|log| - 1].newRoot
  }

  ghost predicate ProvesNext(env: Env, log: seq<Record>, record: Record, tree: Blob) {
    env.proves(record.entry, tree, record.oldRoot, record.newRoot, |log| + 1)
  }

  /** `record` may follow `log`: its proof was checked at the right position, it
      continues its signer's chain and it is not too old. */
  ghost predicate Follows(env: Env, log: seq<Record>, record: Record) {
    && (exists tree :: ProvesNext(env, log, record, tree))
    && record.entry.sigRef == ExpectedSigRef(LastSigned(log), record.entry.uid)
    && HwmOk(record.entry.timestamp, Latest(log))
  }

  ghost predicate Verified(env: Env, log: seq<Record>) {
    log == [] || (Verified(env, log[..|log| - 1]) && Follows(env, log[..|log| - 1], log[|log| - 1]))
  }

  /** Each entry's proof starts from the root the one before ended in. */
  ghost predicate Linked(dc0: Dc, log: seq<Record>) {
    forall k | 0 <= k < |log| :: log[k].oldRoot == FinalRoot(dc0, log[..k])
  }

  ghost predicate Represents(env: Env, st: State, log: seq<Record>) {
    && st.changeId == |log|
    && st.clc == HeadOf(Leaves(st.initialDc, log))
    && st.sigref == LastSigned(log)
    && st.hwm == Latest(log)
    && st.dc == FinalRoot(st.initialDc, log)
    && (st.uid.Some? && st.uid.value in st.sigref ==> st.myLast == st.sigref[st.uid.value])
    && Verified(env, log)
  }

  /** `LastSigned` is the position of each signer's newest entry. */
  lemma {:induction false} LastSignedIsLast(log: seq<Record>, u: Uid)
    ensures u in LastSigned(log) <==> exists k | 0 <= k < |log| :: log[k].entry.uid == u
    ensures u in LastSigned(log) ==>
      var p := LastSigned(log)[u];
      1 <= p <= |log| && log[p - 1].entry.uid == u && forall k | p <= k < |log| :: log[k].entry.uid != u
  {
    if log != [] {
      LastSignedIsLast(log[..|log| - 1], u);
    }
  }

  /** `Latest` is the greatest timestamp. */
  lemma {:induction false} LatestIsGreatest(log: seq<Record>)
    ensures forall k | 0 <= k < |log| :: log[k].entry.timestamp <= Latest(log)
    ensures log != [] ==> exists k | 0 <= k < |log| :: log[k].entry.timestamp == Latest(log)
  {
    if log != [] {
      LatestIsGreatest(log[..|log| - 1]);
      assert log[|log| - 1].entry.timestamp <= Latest(log);
    }
  }

  lemma {:induction false} RepresentsWellFormed(env: Env, st: State, log: seq<Record>)
    requires Represents(env, st, log)
    ensures WellFormed(st.clc) && PeaksMatch(st.clc)
  {
    AppendExtends(Leaves(st.initialDc, log), HInit(0));
  }

  lemma {:induction false} LogAppended(dc0: Dc, log: seq<Record>, record: Record)
    ensures Leaves(dc0, log + [record]) == Leaves(dc0, log) + [HLeaf(record.entry)]
    ensures LastSigned(log + [record]) == LastSigned(log)[record.entry.uid := |log| + 1]
    ensures Latest(log + [record]) == Max(Latest(log), record.entry.timestamp)
    ensures FinalRoot(dc0, log + [record]) == record.newRoot
  {
    assert (log + [record])[..|log|] == log;
  }

  lemma {:induction false} VerifiedAppended(env: Env, log: seq<Record>, record: Record)
    requires Verified(env, log) && Follows(env, log, record)
    ensures Verified(env, log + [record])
  {
    hide Follows;
    assert (log + [record])[..|log|] == log;
  }

  /** Appending a record that may follow keeps the state the fold of its log. */
  lemma {:induction false} ApplyKeeps(env: Env, st: State, log: seq<Record>, change: Entry, response: Response)
    requires Represents(env, st, log) && st.uid.Some? && response.changeId == st.changeId + 1
    requires Follows(env, log, Record(change, response.oldRoot, response.newRoot))
    ensures WellFormed(st.clc)
    ensures var hwm := Max(st.hwm, change.timestamp);
      var t := ApplyStateUpdate(st, change, response, st.changeId, st.myLast, st.uid.value, hwm);
      Represents(env, t, log + [Record(change, response.oldRoot, response.newRoot)])
  {
    hide HeadOf, Append, Leaves, LastSigned, Latest, FinalRoot, Verified, Follows, WellFormed;
    var record := Record(change, response.oldRoot, response.newRoot);
    AppendExtends(Leaves(st.initialDc, log), HLeaf(change));
    WellFormedPeaks(st.clc);
    LogAppended(st.initialDc, log, record);
    VerifiedAppended(env, log, record);
  }

  lemma WellFormedPeaks(clc: Clc)
    requires WellFormed(clc)
    ensures PeaksMatch(clc)
  {
  }

  /** A single change either leaves the state alone or appends exactly itself,
      linked to the root the client was at. */
  lemma {:induction false} ValidateAndApplyKeeps(env: Env, st: State, log: seq<Record>, change: Entry,
                                                 response: Response, now: nat)
    returns (log': seq<Record>)
    requires Represents(env, st, log)
    ensures PeaksMatch(st.clc)
    ensures var (t, error) := ValidateAndApply(env, st, change, response, now);
      && Represents(env, t, log')
      && (t == st ==> log' == log)
      && (t != st ==>
            && error.None?
            && log' == log + [Record(change, response.oldRoot, response.newRoot)]
            && response.oldRoot == st.dc && response.changeId == |log'|
            && change.timestamp - 5 <= response.acceptedAt <= change.timestamp + 100
            && now - 120 <= response.acceptedAt <= now + 120
            && t.entry == Some(change))
      && (Linked(st.initialDc, log) ==> Linked(st.initialDc, log'))
  {
    RepresentsWellFormed(env, st, log);
    log' := log;
    var t := ValidateAndApply(env, st, change, response, now).0;
    if t != st {
      var record := Record(change, response.oldRoot, response.newRoot);
      assert ProvesNext(env, log, record, response.tree);
      ApplyKeeps(env, st, log, change, response);
      log' := log + [record];
      LinkedAppend(st.initialDc, log, record);
    }
  }

  lemma {:induction false} LinkedAppend(dc0: Dc, log: seq<Record>, record: Record)
    ensures Linked(dc0, log + [record]) <==> Linked(dc0, log) && record.oldRoot == FinalRoot(dc0, log)
  {
    var log' := log + [record];
    assert log'[..|log|] == log;
    assert forall k | 0 <= k < |log| :: log'[..k] == log[..k] && log'[k] == log[k];
    assert log'[|log|] == record;
  }

  // ---------------------------------------------------------------------
  // Fast-forward
  // ---------------------------------------------------------------------

  datatype Anchor = Anchor(changeId: nat, entry: Option<Entry>)

  function AnchorOf(st: State): Anchor { Anchor(st.changeId, st.entry) }

  function MaxId(responses: seq<Response>): nat {
    if responses == [] then 0 else Max(MaxId(responses[..|responses| - 1]), responses[|responses| - 1].changeId)
  }

  function Target(ff: FfData): nat {
    Max(if ff.proof.Some? then ff.proof.value.endChangeId else 0, MaxId(ff.responses))
  }

  predicate HeadIdsOk(ff: FfData, anchorId: nat) {
    ff.head.Some? && anchorId <= ff.head.value.changeId && Target(ff) <= ff.head.value.changeId
  }

  // The saved fields, and the submissions that were still open when saved.
  datatype Saved = Saved(dc: Dc, changeId: nat, myLast: nat, sigref: map<Uid, nat>, hwm: nat, clc: Clc,
                         entry: Option<Entry>, undischarged: set<nat>)

  function Undischarged(pending: map<nat, Pending>): set<nat> {
    set c | c in pending && !pending[c].discharged
  }

  function Save(st: State): Saved {
    Saved(st.dc, st.changeId, st.myLast, st.sigref, st.hwm, st.clc, st.entry, Undischarged(st.pending))
  }

  // The submissions with the flags of `ids` set to `discharged`.
  function Flagged(pending: map<nat, Pending>, ids: set<nat>, discharged: bool): map<nat, Pending> {
    map c | c in pending :: if c in ids then pending[c].(discharged := discharged) else pending[c]
  }

  lemma FlaggedNone(pending: map<nat, Pending>, discharged: bool)
    ensures Flagged(pending, {}, discharged) == pending
  {
  }

  lemma FlaggedNext(pending: map<nat, Pending>, ids: set<nat>, c: nat, discharged: bool)
    ensures Flagged(pending, ids + {c}, discharged)
         == var flagged := Flagged(pending, ids, discharged);
            if c in pending then flagged[c := flagged[c].(discharged := discharged)] else flagged
  {
  }

  function Rollback(st: State, saved: Saved): State {
    st.(dc := saved.dc, changeId := saved.changeId, myLast := saved.myLast, sigref := saved.sigref,
        hwm := saved.hwm, clc := saved.clc, entry := saved.entry,
        pending := Flagged(st.pending, saved.undischarged, false))
  }

  function RollbackIfApplied(st: State, saved: Saved, applied: bool): State {
    if applied then Rollback(st, saved) else st
  }

  // The client's own last entry is in the proven log, at its old position.
  predicate BranchContinues(range: Range, proof: FfProof, anchor: Anchor) {
    if anchor.changeId > 0 then
      && anchor.entry.Some? && proof.fromInclusion.Some?
      && proof.fromInclusion.value.i == anchor.changeId
      && VerifyInclusion(range.endClc, proof.fromInclusion.value, HLeaf(anchor.entry.value))
    else proof.fromInclusion.None?
  }

  // Without a tail the entry at the proof's end becomes the next anchor.
  predicate EndEntryOk(range: Range, proof: FfProof) {
    && proof.endEntry.Some? && proof.endInclusion.Some?
    && proof.endInclusion.value.i == range.endChangeId
    && VerifyInclusion(range.endClc, proof.endInclusion.value, HLeaf(proof.endEntry.value))
  }

  predicate ProofOk(st: State, ff: FfData, proof: FfProof, range: Range, anchor: Anchor) {
    && range.startDc == st.initialDc
    && range.startClc == HeadOf([HInit(st.initialDc)])
    && proof.endChangeId == range.endChangeId
    && range.endClc.treeSize == range.endChangeId + 1 && WellFormed(range.endClc)
    && BranchContinues(range, proof, anchor)
    && (ff.responses == [] ==> EndEntryOk(range, proof))
    && (ff.responses != [] ==> ff.responses[0].oldRoot == range.endDc)
  }

  // The local submissions the proof itself contains.
  function ProvenExpected(st: State, proof: FfProof, range: Range, expected: set<nat>): set<nat> {
    set c | c in expected && 0 < c <= range.endChangeId && c in proof.expected && c in st.pending
      && proof.expected[c].i == c && VerifyInclusion(range.endClc, proof.expected[c], st.pending[c].leafHash)
  }

  function Adopt(st: State, ff: FfData, proof: FfProof, range: Range, expected: set<nat>): State {
    var proven := ProvenExpected(st, proof, range, expected);
    st.(changeId := range.endChangeId,
        clc := range.endClc,
        sigref := map u | u in range.sigref :: range.sigref[u].0,
        hwm := range.hwm,
        myLast := if st.uid.Some? && st.uid.value in range.sigref then range.sigref[st.uid.value].0 else st.myLast,
        entry := if ff.responses == [] then proof.endEntry else st.entry,
        pending := Flagged(st.pending, proven, true),
        dc := if ff.responses == [] then range.endDc else ff.responses[0].oldRoot)
  }

  function ProofBlock(env: Env, st: State, ff: FfData, anchor: Anchor, expected: set<nat>): Result<State> {
    if ff.proof.None? then Ok(st)
    else
      var proof := ff.proof.value;
      var range := env.verifyFf(proof.blob);
      if range.None? then Err(Validation)
      else if !ProofOk(st, ff, proof, range.value, anchor) then Err(Validation)
      else if st.changeId != anchor.changeId then Err(StateAdvanced)
      else Ok(Adopt(st, ff, proof, range.value, expected))
  }

  // One tail element: skipped when already applied, otherwise checked and
  // handed to the append, which ignores it unless it is the next one.
  datatype TailStep = Skipped | Stepped(st: State) | Rejected(error: Error)

  function StepTail(env: Env, st: State, change: Entry, response: Response): TailStep
    requires PeaksMatch(st.clc)
  {
    if st.uid.None? then Rejected(Validation)
    else if response.changeId <= st.changeId then Skipped
    else if !AcceptanceOk(change, response) || !HwmOk(change.timestamp, st.hwm) then Rejected(Validation)
    else if !env.proves(change, response.tree, response.oldRoot, response.newRoot, st.changeId + 1)
    then Rejected(Database)
    else if change.sigRef != ExpectedSigRef(st.sigref, change.uid) then Rejected(Validation)
    else Stepped(ApplyStateUpdate(st, change, response, st.changeId, st.myLast, st.uid.value,
                                  Max(st.hwm, change.timestamp)))
  }

  datatype TailEnd = TailEnd(st: State, applied: bool, error: Option<Error>)

  function Tail(env: Env, st: State, applied: bool, changes: seq<Entry>, responses: seq<Response>, from: nat): TailEnd
    requires |changes| == |responses| && from <= |changes| && PeaksMatch(st.clc)
    decreases |changes| - from
  {
    if from == |changes| then TailEnd(st, applied, None)
    else
      match StepTail(env, st, changes[from], responses[from])
      case Rejected(e) => TailEnd(st, applied, Some(e))
      case Skipped => Tail(env, st, applied, changes, responses, from + 1)
      case Stepped(t) =>
        ApplyPeaks(st, changes[from], responses[from]);
        Tail(env, t, true, changes, responses, from + 1)
  }

  lemma {:induction false} ApplyPeaks(st: State, change: Entry, response: Response)
    requires PeaksMatch(st.clc) && st.uid.Some?
    ensures PeaksMatch(ApplyStateUpdate(st, change, response, st.changeId, st.myLast, st.uid.value,
                                        Max(st.hwm, change.timestamp)).clc)
  {
    PushPeakCount(st.clc.peaks, st.clc.treeSize, HLeaf(change));
  }

  predicate SigrefEntriesOk(range: Range, proof: FfProof) {
    forall u | u in range.sigref ::
      var (c, hash) := range.sigref[u];
      && c in proof.sigrefEntries
      && proof.sigrefEntries[c].uid == u
      && proof.sigrefEntries[c].signed
      && HLeaf(proof.sigrefEntries[c]) == hash
  }

  function HeadCheck(env: Env, st: State, ff: FfData, anchorId: nat): Option<Error> {
    if !HeadIdsOk(ff, anchorId) then Some(Validation)
    else if st.changeId < ff.head.value.changeId then Some(Validation)
    else if st.changeId == ff.head.value.changeId
      && (env.clcPrefix(st.clc.root) != ff.head.value.clc || env.dcPrefix(st.dc) != ff.head.value.dc)
    then Some(StateDiverged)
    else None
  }

  predicate AllVerified(sigs: seq<bool>, n: nat) { n <= |sigs| && forall k | 0 <= k < n :: sigs[k] }

  /** Signature checks that need the client to be at its final position: one per
      tail entry (`sigs`), and one per signer of the proven range (`sigrefs`). */
  function DeferredChecks(env: Env, st: State, ff: FfData, anchorId: nat, sigs: seq<bool>,
                          sigrefs: bool): Option<Error> {
    if !AllVerified(sigs, |ff.changes|) then Some(Validation)
    else if ff.proof.Some? && env.verifyFf(ff.proof.value.blob).Some?
      && env.verifyFf(ff.proof.value.blob).value.sigref != map[]
      && !(SigrefEntriesOk(env.verifyFf(ff.proof.value.blob).value, ff.proof.value) && sigrefs)
    then Some(Validation)
    else HeadCheck(env, st, ff, anchorId)
  }

  function FastForward(env: Env, st: State, ff: FfData, anchor: Anchor, expected: set<nat>,
                       sigs: seq<bool>, sigrefs: bool): (State, Option<Error>)
    requires PeaksMatch(st.clc)
  {
    if |ff.changes| != |ff.responses| then (st, Some(Database))
    else if !HeadIdsOk(ff, anchor.changeId) then (st, Some(Validation))
    else
      match ProofBlock(env, st, ff, anchor, expected)
      case Err(e) => (st, Some(e))
      case Ok(t) =>
        var end := Tail(env, t, ff.proof.Some?, ff.changes, ff.responses, 0);
        var error :=
          if end.error.Some? then end.error
          else DeferredChecks(env, end.st, ff, anchor.changeId, sigs, sigrefs);
        if error.Some? then (RollbackIfApplied(end.st, Save(st), end.applied), error)
        else (end.st, None)
  }

  // ---------------------------------------------------------------------
  // A failed fast-forward changes nothing
  // ---------------------------------------------------------------------

  /** `b` differs from `a` only in the saved fields and in raised discharge flags. */
  ghost predicate Advanced(a: State, b: State) {
    && b.uid == a.uid && b.initialDc == a.initialDc
    && b.pending.Keys == a.pending.Keys
    && forall c | c in a.pending ::
         b.pending[c] == a.pending[c] || b.pending[c] == a.pending[c].(discharged := true)
  }

  lemma {:induction false} RollbackRestores(a: State, b: State)
    requires Advanced(a, b)
    ensures Rollback(b, Save(a)) == a
  {
    assert Rollback(b, Save(a)).pending == a.pending;
  }

  lemma {:induction false} TailAdvances(env: Env, st: State, applied: bool, changes: seq<Entry>,
                                        responses: seq<Response>, from: nat)
    requires |changes| == |responses| && from <= |changes| && PeaksMatch(st.clc)
    ensures var end := Tail(env, st, applied, changes, responses, from);
      Advanced(st, end.st) && (applied ==> end.applied) && (!end.applied ==> end.st == st)
    decreases |changes| - from
  {
    if from < |changes| {
      match StepTail(env, st, changes[from], responses[from])
      case Rejected(e) =>
      case Skipped => TailAdvances(env, st, applied, changes, responses, from + 1);
      case Stepped(t) =>
        ApplyPeaks(st, changes[from], responses[from]);
        TailAdvances(env, t, true, changes, responses, from + 1);
    }
  }

  /** Wherever the fast-forward fails, every saved field and every discharge
      flag is as it was at entry. */
  lemma {:induction false} FailedFastForwardChangesNothing(env: Env, st: State, ff: FfData, anchor: Anchor,
                                                           expected: set<nat>, sigs: seq<bool>, sigrefs: bool)
    requires PeaksMatch(st.clc)
    ensures var (t, error) := FastForward(env, st, ff, anchor, expected, sigs, sigrefs);
      error.Some? ==> t == st
  {
    if |ff.changes| == |ff.responses| && HeadIdsOk(ff, anchor.changeId) {
      var block := ProofBlock(env, st, ff, anchor, expected);
      if block.Ok? {
        var end := Tail(env, block.value, ff.proof.Some?, ff.changes, ff.responses, 0);
        TailAdvances(env, block.value, ff.proof.Some?, ff.changes, ff.responses, 0);
        hide Tail, VerifyInclusion;
        if end.applied {
          assert Advanced(st, block.value);
          RollbackRestores(st, end.st);
        }
      }
    }
  }

  // ---------------------------------------------------------------------
  // Where a successful fast-forward ends
  // ---------------------------------------------------------------------

  /** The entry at index `k` names a root of the log not far before it. */
  ghost predicate ParentOk(env: Env, dc0: Dc, log: seq<Record>, k: nat)
    requires k < |log|
  {
    var entry := log[k].entry;
    && entry.parentChange <= k < entry.parentChange + MAX_PARENT_DISTANCE
    && entry.parentClc == env.rootBytes(HeadOf(Leaves(dc0, log[..entry.parentChange])).root)
  }

  ghost predicate ParentsOk(env: Env, dc0: Dc, log: seq<Record>) {
    forall k | 0 <= k < |log| :: ParentOk(env, dc0, log, k)
  }

  /** `log` is a log from genesis with exactly the outputs of `range`. */
  ghost predicate Attests(env: Env, range: Range, log: seq<Record>) {
    && Verified(env, log) && Linked(range.startDc, log) && ParentsOk(env, range.startDc, log)
    && range.endChangeId == |log|
    && range.endClc == HeadOf(Leaves(range.startDc, log))
    && range.endDc == FinalRoot(range.startDc, log)
    && range.hwm == Latest(log)
    && range.sigref.Keys == LastSigned(log).Keys
    && forall u | u in range.sigref ::
         range.sigref[u].0 == LastSigned(log)[u] && At(log, range.sigref[u].0, range.sigref[u].1)
  }

  /** The fast-forward verifier accepts only proofs of some log. */
  ghost predicate Sound(env: Env) {
    forall blob | env.verifyFf(blob).Some? :: exists log :: Attests(env, env.verifyFf(blob).value, log)
  }

  ghost predicate At(log: seq<Record>, c: nat, leaf: Hash) {
    0 < c <= |log| && leaf == HLeaf(log[c - 1].entry)
  }

  /** From `a` to `b` only flags of entries in `log` were raised. */
  ghost predicate RaisedFor(a: State, b: State, log: seq<Record>) {
    && Advanced(a, b)
    && forall c | c in a.pending && !a.pending[c].discharged && b.pending[c].discharged ::
         At(log, c, a.pending[c].leafHash)
  }

  lemma {:induction false} InclusionAt(env: Env, range: Range, log: seq<Record>, proof: Inclusion, leaf: Hash)
    requires Attests(env, range, log) && VerifyInclusion(range.endClc, proof, leaf)
    requires leaf.HLeaf? || proof.i > 0
    ensures At(log, proof.i, leaf)
  {
    InclusionSound(Leaves(range.startDc, log), proof, leaf);
  }

  lemma {:induction false} AdoptRaises(env: Env, st: State, ff: FfData, range: Range, log: seq<Record>,
                                       expected: set<nat>)
    requires ff.proof.Some? && Attests(env, range, log)
    ensures RaisedFor(st, Adopt(st, ff, ff.proof.value, range, expected), log)
  {
    hide VerifyInclusion, Attests;
    var proof := ff.proof.value;
    var t := Adopt(st, ff, proof, range, expected);
    forall c | c in st.pending && !st.pending[c].discharged && t.pending[c].discharged
      ensures At(log, c, st.pending[c].leafHash)
    {
      InclusionAt(env, range, log, proof.expected[c], st.pending[c].leafHash);
    }
  }

  lemma {:induction false} AdoptRepresents(env: Env, st: State, ff: FfData, range: Range, log: seq<Record>,
                                           expected: set<nat>)
    requires ff.proof.Some? && Attests(env, range, log) && range.startDc == st.initialDc
    requires ff.responses != [] ==> ff.responses[0].oldRoot == range.endDc
    ensures Represents(env, Adopt(st, ff, ff.proof.value, range, expected), log)
  {
    hide ProvenExpected, HeadOf, Leaves, LastSigned, Latest, FinalRoot, Verified, Linked;
    assert Adopt(st, ff, ff.proof.value, range, expected).sigref == LastSigned(log);
  }

  lemma {:induction false} AdoptKeeps(env: Env, st: State, ff: FfData, anchor: Anchor, expected: set<nat>)
    returns (log: seq<Record>)
    requires Sound(env) && ff.proof.Some? && ProofBlock(env, st, ff, anchor, expected).Ok?
    ensures st.changeId == anchor.changeId
    ensures |log| == ff.proof.value.endChangeId && Linked(st.initialDc, log)
    ensures env.verifyFf(ff.proof.value.blob).Some? && Attests(env, env.verifyFf(ff.proof.value.blob).value, log)
    ensures anchor.changeId > 0 ==> anchor.entry.Some? && At(log, anchor.changeId, HLeaf(anchor.entry.value))
    ensures var t := ProofBlock(env, st, ff, anchor, expected).value;
      && Represents(env, t, log)
      && RaisedFor(st, t, log)
      && (if ff.responses == [] then log != [] && t.entry == Some(log[|log| - 1].entry) else t.entry == st.entry)
  {
    hide VerifyInclusion, HeadOf, WellFormed, RaisedFor, Represents;
    var proof := ff.proof.value;
    var range := env.verifyFf(proof.blob).value;
    log :| Attests(env, range, log);
    if anchor.changeId > 0 {
      InclusionAt(env, range, log, proof.fromInclusion.value, HLeaf(anchor.entry.value));
    }
    if ff.responses == [] {
      InclusionAt(env, range, log, proof.endInclusion.value, HLeaf(proof.endEntry.value));
    }
    AdoptRaises(env, st, ff, range, log, expected);
    AdoptRepresents(env, st, ff, range, log, expected);
  }
}
