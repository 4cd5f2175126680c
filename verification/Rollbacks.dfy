/** Which states stand for a log when checks, applies, proofs and rollbacks of many
    tasks are interleaved.  A checked change is applied if the client is at the
    position it was checked at, whatever the log is by then. */
module Rollbacks {
  import opened Prelude
  import opened Mmr
  import opened Changelog
  import opened ChangelogRuns
  import opened Interleaving
  import opened Signers

  // ---------------------------------------------------------------------
  // One apply
  // ---------------------------------------------------------------------

  ghost predicate ProvedBy(env: Env, r: Ready, tree: Blob) {
    env.proves(r.change, tree, r.response.oldRoot, r.response.newRoot, r.snapId + 1)
  }

  // The change was proved at its position, for this client.
  ghost predicate Proved(env: Env, st: State, r: Ready) {
    st.uid == Some(r.me) && exists tree :: ProvedBy(env, r, tree)
  }

  predicate Lands(st: State, r: Ready) { r.snapId == st.changeId && r.response.changeId == r.snapId + 1 }

  /** What was checked and noted then holds of the state now: the signer's previous
      entry, the age of the entry, the high-water mark and the user's own last one. */
  predicate Fresh(st: State, r: Ready) {
    && r.change.sigRef == ExpectedSigRef(st.sigref, r.change.uid)
    && HwmOk(r.change.timestamp, st.hwm) && r.hwm == Max(st.hwm, r.change.timestamp)
    && (r.change.uid != r.me && r.me in st.sigref ==> r.snapLast == st.sigref[r.me])
  }

  lemma {:induction false} CheckedFresh(env: Env, st: State, log: seq<Record>, change: Entry, response: Response,
                                        now: nat, tail: bool)
    requires Represents(env, st, log) && Passes(env, st, change, response, now, tail)
    ensures var r := Checked(st, change, response, tail); Fresh(st, r) && Proved(env, st, r)
  {
    hide HeadOf, Leaves, LastSigned, Latest, Verified;
    assert ProvedBy(env, Checked(st, change, response, tail), response.tree);
  }

  lemma {:induction false} FollowsIff(env: Env, st: State, log: seq<Record>, r: Ready)
    requires Represents(env, st, log) && Proved(env, st, r) && Lands(st, r)
    ensures Follows(env, log, Record(r.change, r.response.oldRoot, r.response.newRoot)) <==>
      r.change.sigRef == ExpectedSigRef(st.sigref, r.change.uid) && HwmOk(r.change.timestamp, st.hwm)
  {
    hide HeadOf, Leaves, LastSigned, Latest, Verified;
    var tree :| ProvedBy(env, r, tree);
    assert ProvesNext(env, log, Record(r.change, r.response.oldRoot, r.response.newRoot), tree);
  }

  lemma {:induction false} VerifiedNext(env: Env, log: seq<Record>, record: Record)
    ensures Verified(env, log + [record]) <==> Verified(env, log) && Follows(env, log, record)
  {
    hide Follows;
    assert (log + [record])[..|log|] == log;
  }

  /** A checked change that lands leaves a state that stands for the longer log
      exactly when it is still fresh. */
  lemma {:induction false} CommitStandsIff(env: Env, st: State, log: seq<Record>, r: Ready)
    requires Represents(env, st, log) && Proved(env, st, r) && Lands(st, r)
    ensures PeaksMatch(st.clc)
    ensures Represents(env, Commit(st, r), log + [Record(r.change, r.response.oldRoot, r.response.newRoot)]) <==>
      Fresh(st, r)
  {
    hide HeadOf, Append, Leaves, LastSigned, Latest, FinalRoot, Verified, Follows;
    var record := Record(r.change, r.response.oldRoot, r.response.newRoot);
    RepresentsWellFormed(env, st, log);
    AppendExtends(Leaves(st.initialDc, log), HLeaf(r.change));
    LogAppended(st.initialDc, log, record);
    FollowsIff(env, st, log, r);
    VerifiedNext(env, log, record);
  }

  // ---------------------------------------------------------------------
  // Every move
  // ---------------------------------------------------------------------

  // Restoring what was saved gives a state that stands for its log.
  ghost predicate KeptStands(env: Env, st: State, kept: Kept) {
    Represents(env, Rollback(st, kept.saved), kept.log)
  }

  lemma {:induction false} KeptSame(env: Env, a: State, b: State, kept: Kept)
    requires a.uid == b.uid && a.initialDc == b.initialDc
    ensures KeptStands(env, a, kept) == KeptStands(env, b, kept)
  {
    hide HeadOf, Leaves, LastSigned, Latest, FinalRoot, Verified;
  }

  lemma {:induction false} SavedStands(env: Env, st: State, log: seq<Record>)
    ensures KeptStands(env, st, Kept(Save(st), log)) == Represents(env, st, log)
  {
    hide HeadOf, Leaves, LastSigned, Latest, FinalRoot, Verified;
  }

  /** The state, and every state a rollback may restore, stands for its log. */
  ghost predicate Standing(env: Env, g: Guarded) {
    && Represents(env, g.st, g.log)
    && (g.held.Some? ==> KeptStands(env, g.st, g.held.value))
    && (forall task | task in g.deferred :: KeptStands(env, g.st, g.deferred[task]))
    && (forall task | task in g.tasks :: Proved(env, g.st, g.tasks[task]))
  }

  // Whatever the move applies is still fresh.
  predicate Timely(g: Guarded, move: Move) {
    move.ApplyChecked? && move.task in g.tasks && Lands(g.st, g.tasks[move.task]) ==> Fresh(g.st, g.tasks[move.task])
  }

  lemma {:induction false} MoveUsers(env: Env, g: Guarded, move: Move)
    requires PeaksMatch(g.st.clc)
    ensures var h := Move1(env, g, move); h.st.uid == g.st.uid && h.st.initialDc == g.st.initialDc
  {
    hide Append, ProvenExpected, VerifyInclusion, HeadOf;
  }

  lemma {:induction false} KeptMoves(env: Env, g: Guarded, st: State)
    requires st.uid == g.st.uid && st.initialDc == g.st.initialDc
    ensures forall kept :: KeptStands(env, g.st, kept) == KeptStands(env, st, kept)
    ensures forall r :: Proved(env, g.st, r) == Proved(env, st, r)
  {
    hide KeptStands;
    forall kept ensures KeptStands(env, g.st, kept) == KeptStands(env, st, kept) { KeptSame(env, g.st, st, kept); }
  }

  lemma {:induction false} AdoptStands(env: Env, st: State, ff: FfData, anchor: Anchor, expected: set<nat>,
                                       base: seq<Record>)
    requires Accepts(env, st, ff, anchor, expected, base)
    ensures Represents(env, ProofBlock(env, st, ff, anchor, expected).value, base)
  {
    hide HeadOf, Leaves, LastSigned, Latest, FinalRoot, Verified, Linked, ParentsOk, VerifyInclusion, Represents, Adopt;
    AdoptRepresents(env, st, ff, env.verifyFf(ff.proof.value.blob).value, base, expected);
  }

  lemma {:induction false} Unlanded(st: State, r: Ready)
    requires PeaksMatch(st.clc)
    ensures Lands(st, r) <==> Commit(st, r).changeId != st.changeId
    ensures !Lands(st, r) ==> Commit(st, r) == st
  {
    hide Append;
  }

  /** One move keeps everything standing exactly when it is timely. */
  lemma {:induction false} MoveStandsIff(env: Env, g: Guarded, move: Move)
    requires Standing(env, g)
    ensures PeaksMatch(g.st.clc) && (Standing(env, Move1(env, g, move)) <==> Timely(g, move))
  {
    hide Represents, KeptStands, Proved, Fresh, Lands, Commit, Passes, Accepts, ProofBlock, Save, Rollback;
    RepresentsWellFormed(env, g.st, g.log);
    MoveUsers(env, g, move);
    KeptMoves(env, g, Move1(env, g, move).st);
    match move
    case CheckChange(task, change, response, now, tail) =>
      if Passes(env, g.st, change, response, now, tail) {
        CheckedFresh(env, g.st, g.log, change, response, now, tail);
      }
    case ApplyChecked(task) => if task in g.tasks { ApplyStandsIff(env, g, task); }
    case Begin => SavedStands(env, g.st, g.log);
    case Defer(task) => SavedStands(env, g.st, g.log);
    case AdoptRange(ff, anchor, expected, base) =>
      if Accepts(env, g.st, ff, anchor, expected, base) { AdoptStands(env, g.st, ff, anchor, expected, base); }
    case Abort => if g.held.Some? { KeptUnfold(env, g.st, g.held.value); }
    case Undo(task) => if task in g.deferred { KeptUnfold(env, g.st, g.deferred[task]); }
    case _ =>
  }

  lemma KeptUnfold(env: Env, st: State, kept: Kept)
    ensures KeptStands(env, st, kept) == Represents(env, Rollback(st, kept.saved), kept.log)
  {
  }

  lemma {:induction false} ApplyStandsIff(env: Env, g: Guarded, task: nat)
    requires Represents(env, g.st, g.log) && task in g.tasks && Proved(env, g.st, g.tasks[task])
    ensures PeaksMatch(g.st.clc)
    ensures var h := Move1(env, g, ApplyChecked(task));
      Represents(env, h.st, h.log) <==> Timely(g, ApplyChecked(task))
  {
    hide Represents, Proved, Fresh, Commit, Lands;
    RepresentsWellFormed(env, g.st, g.log);
    Unlanded(g.st, g.tasks[task]);
    if Lands(g.st, g.tasks[task]) { CommitStandsIff(env, g.st, g.log, g.tasks[task]); }
  }

  // ---------------------------------------------------------------------
  // Every run
  // ---------------------------------------------------------------------

  ghost predicate AlwaysStands(env: Env, uid: Option<Uid>, dc0: Dc, moves: seq<Move>) {
    && Standing(env, Moves(env, uid, dc0, moves))
    && (moves != [] ==> AlwaysStands(env, uid, dc0, moves[..|moves| - 1]))
  }

  ghost predicate AllTimely(env: Env, uid: Option<Uid>, dc0: Dc, moves: seq<Move>) {
    moves != [] ==>
      && AllTimely(env, uid, dc0, moves[..|moves| - 1])
      && Timely(Moves(env, uid, dc0, moves[..|moves| - 1]), moves[|moves| - 1])
  }

  lemma {:induction false} StartStands(env: Env, uid: Option<Uid>, dc0: Dc)
    ensures Standing(env, Moves(env, uid, dc0, []))
  {
    hide HeadOf;
    InitialRepresents(env, uid, dc0);
  }

  /** Over every interleaving of checks, applies, proofs and rollbacks: the client,
      and whatever a rollback may restore, stands for a verified log at every moment
      exactly when every change that is applied is still fresh then. */
  lemma {:induction false} AlwaysStandsIff(env: Env, uid: Option<Uid>, dc0: Dc, moves: seq<Move>)
    ensures AlwaysStands(env, uid, dc0, moves) <==> AllTimely(env, uid, dc0, moves)
  {
    if moves == [] {
      StartStands(env, uid, dc0);
    } else {
      hide Moves, Move1, Standing, Timely;
      var before := moves[..|moves| - 1];
      AlwaysStandsIff(env, uid, dc0, before);
      MovesStep(env, uid, dc0, moves);
      if AlwaysStands(env, uid, dc0, before) {
        MoveStandsIff(env, Moves(env, uid, dc0, before), moves[|moves| - 1]);
      }
    }
  }

  // ---------------------------------------------------------------------
  // A stale change
  // ---------------------------------------------------------------------

  // Two entries of user 2, the second on top of the first, and one of user 3.
  function Earlier(): Entry { Entry(2, 0, 0, true, 0, 0, 0) }
  function Later(): Entry { Entry(2, 1, 0, true, 0, 0, 0) }
  function Other(): Entry { Entry(3, 0, 0, true, 0, 0, 0) }

  function Turn(id: nat): Response { Response(id, 0, 0, [], 1, 0) }

  // User 2's first entry is applied before its signature is checked; the second is
  // checked on top of it; the first is undone; user 3's entry takes its place.
  function Replaced(): seq<Move> {
    [Defer(0), CheckChange(0, Earlier(), Turn(1), 0, false), ApplyChecked(0),
     CheckChange(1, Later(), Turn(2), 0, false), Undo(0),
     CheckChange(2, Other(), Turn(1), 0, false), ApplyChecked(2)]
  }

  function StaleRun(): seq<Move> { Replaced() + [ApplyChecked(1)] }

  function Waiting(): Ready { Ready(Later(), Turn(2), 1, 0, 1, 0, false) }

  lemma {:induction false} EarlierApplied()
    ensures var g := Moves(TailOnly(), Some(1), 0, Replaced()[..3]);
      && g.st.uid == Some(1) && g.st.changeId == 1 && g.st.dc == 0 && g.st.hwm == 0 && g.st.myLast == 0
      && g.st.sigref == map[2 := 1] && g.tasks == map[]
      && 0 in g.deferred && g.deferred[0] == Kept(Save(Initial(Some(1), 0)), [])
  {
    hide Tracking, HeadOf, Append;
    var env, ms := TailOnly(), Replaced();
    assert ms[..3][..2] == ms[..2] && ms[..2][..1] == ms[..1] && ms[..1][..0] == [];
    MovesStep(env, Some(1), 0, ms[..1]);
    MovesStep(env, Some(1), 0, ms[..2]);
    MovesStep(env, Some(1), 0, ms[..3]);
    CheckedApplied(env, 0, Moves(env, Some(1), 0, ms[..1]), 0, Earlier(), Turn(1));
  }

  lemma {:induction false} EarlierUndone()
    ensures var g := Moves(TailOnly(), Some(1), 0, Replaced()[..5]);
      && g.st.uid == Some(1) && g.st.changeId == 0 && g.st.dc == 0 && g.st.hwm == 0 && g.st.myLast == 0
      && g.st.sigref == map[] && g.log == [] && g.tasks == map[1 := Waiting()]
  {
    hide Tracking, HeadOf, Moves;
    var env, ms := TailOnly(), Replaced();
    EarlierApplied();
    assert ms[..5][..4] == ms[..4] && ms[..4][..3] == ms[..3];
    MovesStep(env, Some(1), 0, ms[..4]);
    MovesStep(env, Some(1), 0, ms[..5]);
  }

  lemma {:induction false} OtherApplied()
    ensures var g := Moves(TailOnly(), Some(1), 0, Replaced());
      && g.st.changeId == 1 && g.log == [Record(Other(), 0, 0)]
      && 1 in g.tasks && g.tasks[1] == Waiting()
  {
    hide Tracking, HeadOf, Moves, Append;
    var env, ms := TailOnly(), Replaced();
    EarlierUndone();
    assert ms[..7] == ms && ms[..7][..6] == ms[..6] && ms[..6][..5] == ms[..5];
    MovesStep(env, Some(1), 0, ms[..6]);
    MovesStep(env, Some(1), 0, ms);
    CheckedApplied(env, 0, Moves(env, Some(1), 0, ms[..5]), 2, Other(), Turn(1));
  }

  // No verified log has these entries: the second names a first one of its signer.
  lemma {:induction false} NotVerified(env: Env, log: seq<Record>)
    requires |log| == 2 && log[0].entry == Other() && log[1].entry == Later()
    ensures !Verified(env, log)
  {
    assert LastSigned(log[..1]) == map[3 := 1] by { assert log[..1][..0] == []; }
  }

  /** The waiting change is then applied, at the right position and on the wrong log:
      the client stands for no verified log at all. */
  lemma {:induction false} StaleApply(log: seq<Record>)
    ensures var g := Moves(TailOnly(), Some(1), 0, StaleRun());
      && g.st.changeId == 2 && g.log == [Record(Other(), 0, 0), Record(Later(), 0, 0)]
      && !Represents(TailOnly(), g.st, log)
  {
    hide Tracks, Moves, Append, Represents;
    var env, ms := TailOnly(), StaleRun();
    OtherApplied();
    assert ms[..7] == Replaced() && ms[7] == ApplyChecked(1);
    MovesStep(env, Some(1), 0, ms);
    var g := Moves(env, Some(1), 0, ms);
    StaleHead(g.st, g.log, log);
  }

  lemma {:induction false} StaleHead(st: State, own: seq<Record>, log: seq<Record>)
    requires own == [Record(Other(), 0, 0), Record(Later(), 0, 0)] && Tracks(st.initialDc, st.changeId, st.clc, own)
    ensures !Represents(TailOnly(), st, log)
  {
    if Represents(TailOnly(), st, log) {
      var a, b := Leaves(st.initialDc, own), Leaves(st.initialDc, log);
      SameHead(a, b);
      assert a[1] == b[1] && a[2] == b[2];
      NotVerified(TailOnly(), log);
    }
  }
}
