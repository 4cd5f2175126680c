/** Signers beside everything that moves the client.  A signer captures the
    client's position and root; a fast-forward holds the mutation guard from save
    to commit or rollback, and no signer captures meanwhile; single applies do not
    ask for the guard, and neither does a broadcast that is applied before its
    signature can be checked and rolled back when it turns out wrong.
 */
module Signers {
  import opened Prelude
  import opened Mmr
  import opened Changelog
  import opened ChangelogRuns
  import opened Interleaving

  datatype Captured = Captured(changeId: nat, root: Hash)

  // What was saved, and the log it stands for.
  datatype Kept = Kept(saved: Saved, log: seq<Record>)

  // `tasks` are changes that were checked and not yet applied, `held` is what the
  // fast-forward with the guard saved, `deferred` what each broadcast with an open
  // signature check did.
  datatype Guarded = Guarded(st: State, log: seq<Record>, tasks: map<nat, Ready>, held: Option<Kept>,
                             deferred: map<nat, Kept>, captured: seq<Captured>)

  datatype Move =
    // a signer reads its anchor
    | Capture
    // someone checks a change, or a fast-forward an element of its tail
    | CheckChange(task: nat, change: Entry, response: Response, now: nat, tail: bool)
    // and applies it
    | ApplyChecked(task: nat)
    // a fast-forward takes the guard and saves
    | Begin
    // it adopts its proof, of the log `base`
    | AdoptRange(ff: FfData, anchor: Anchor, expected: set<nat>, base: seq<Record>)
    // it succeeds
    | Release
    // it rolls back
    | Abort
    // a broadcast saves, to be applied unchecked
    | Defer(task: nat)
    // its signature is right
    | Settle(task: nat)
    // its signature is wrong: it rolls back
    | Undo(task: nat)

  /** The proof is accepted, and it is one of the log `base`. */
  ghost predicate Accepts(env: Env, st: State, ff: FfData, anchor: Anchor, expected: set<nat>, base: seq<Record>) {
    && ff.proof.Some? && ProofBlock(env, st, ff, anchor, expected).Ok?
    && Attests(env, env.verifyFf(ff.proof.value.blob).value, base)
  }

  ghost function Move1(env: Env, g: Guarded, move: Move): Guarded
    requires PeaksMatch(g.st.clc)
  {
    match move
    case Capture =>
      if g.held.Some? then g else g.(captured := g.captured + [Captured(g.st.changeId, g.st.clc.root)])
    case Begin => if g.held.Some? then g else g.(held := Some(Kept(Save(g.st), g.log)))
    case AdoptRange(ff, anchor, expected, base) =>
      if g.held.Some? && Accepts(env, g.st, ff, anchor, expected, base)
      then g.(st := ProofBlock(env, g.st, ff, anchor, expected).value, log := base)
      else g
    case CheckChange(task, change, response, now, tail) =>
      if Passes(env, g.st, change, response, now, tail)
      then g.(tasks := g.tasks[task := Checked(g.st, change, response, tail)])
      else g
    case ApplyChecked(task) =>
      if task !in g.tasks then g
      else
        var r := g.tasks[task];
        var t := Commit(g.st, r);
        g.(st := t, tasks := g.tasks - {task},
           log := if t.changeId == g.st.changeId then g.log
                  else g.log + [Record(r.change, r.response.oldRoot, r.response.newRoot)])
    case Release => g.(held := None)
    case Abort =>
      if g.held.None? then g
      else g.(st := Rollback(g.st, g.held.value.saved), log := g.held.value.log, held := None)
    case Defer(task) => g.(deferred := g.deferred[task := Kept(Save(g.st), g.log)])
    case Settle(task) => g.(deferred := g.deferred - {task})
    case Undo(task) =>
      if task !in g.deferred then g
      else
        var kept := g.deferred[task];
        g.(st := Rollback(g.st, kept.saved), log := kept.log, deferred := g.deferred - {task})
  }

  // ---------------------------------------------------------------------
  // States and logs
  // ---------------------------------------------------------------------

  ghost predicate Tracks(dc0: Dc, id: nat, clc: Clc, log: seq<Record>) {
    id == |log| && clc == HeadOf(Leaves(dc0, log))
  }

  ghost predicate Tracking(dc0: Dc, g: Guarded) {
    && g.st.initialDc == dc0 && Tracks(dc0, g.st.changeId, g.st.clc, g.log)
    && (g.held.Some? ==> Tracks(dc0, g.held.value.saved.changeId, g.held.value.saved.clc, g.held.value.log))
    && forall task | task in g.deferred ::
         Tracks(dc0, g.deferred[task].saved.changeId, g.deferred[task].saved.clc, g.deferred[task].log)
  }

  lemma {:induction false} TrackedPeaks(dc0: Dc, id: nat, clc: Clc, log: seq<Record>)
    requires Tracks(dc0, id, clc, log)
    ensures PeaksMatch(clc)
  {
    AppendExtends(Leaves(dc0, log), HInit(0));
  }

  lemma {:induction false} CommitTracks(dc0: Dc, st: State, log: seq<Record>, r: Ready)
    requires Tracks(dc0, st.changeId, st.clc, log)
    ensures PeaksMatch(st.clc)
    ensures var t := Commit(st, r);
      && t.initialDc == st.initialDc
      && Tracks(dc0, t.changeId, t.clc,
                if t.changeId == st.changeId then log
                else log + [Record(r.change, r.response.oldRoot, r.response.newRoot)])
  {
    hide HeadOf, Append, Leaves, LastSigned, Latest;
    TrackedPeaks(dc0, st.changeId, st.clc, log);
    AppendExtends(Leaves(dc0, log), HLeaf(r.change));
    LogAppended(dc0, log, Record(r.change, r.response.oldRoot, r.response.newRoot));
  }

  /** A proof never takes the client back: it must include the client's own last
      entry where it was. */
  lemma {:induction false} AdoptForward(env: Env, st: State, log: seq<Record>, ff: FfData, anchor: Anchor,
                                        expected: set<nat>, base: seq<Record>)
    requires Tracks(st.initialDc, st.changeId, st.clc, log) && Accepts(env, st, ff, anchor, expected, base)
    ensures var t := ProofBlock(env, st, ff, anchor, expected).value;
      && t.initialDc == st.initialDc && Tracks(st.initialDc, t.changeId, t.clc, base)
      && |log| <= |base|
      && (log != [] ==> anchor.entry.Some? && At(base, |log|, HLeaf(anchor.entry.value)))
  {
    hide HeadOf, VerifyInclusion, WellFormed, LastSigned, Latest, Verified, Linked, ProvenExpected;
    if anchor.changeId > 0 {
      InclusionAt(env, env.verifyFf(ff.proof.value.blob).value, base, ff.proof.value.fromInclusion.value,
        HLeaf(anchor.entry.value));
    }
  }

  lemma {:induction false} MoveTracks(env: Env, dc0: Dc, g: Guarded, move: Move)
    requires Tracking(dc0, g)
    ensures PeaksMatch(g.st.clc) && Tracking(dc0, Move1(env, g, move))
    ensures g.captured <= Move1(env, g, move).captured
  {
    hide Tracks, Commit, ProofBlock, Accepts, Passes;
    TrackedPeaks(dc0, g.st.changeId, g.st.clc, g.log);
    match move
    case AdoptRange(ff, anchor, expected, base) =>
      if Accepts(env, g.st, ff, anchor, expected, base) { AdoptForward(env, g.st, g.log, ff, anchor, expected, base); }
    case ApplyChecked(task) => if task in g.tasks { CommitTracks(dc0, g.st, g.log, g.tasks[task]); }
    case _ =>
  }

  ghost function Moves(env: Env, uid: Option<Uid>, dc0: Dc, moves: seq<Move>): (g: Guarded)
    ensures Tracking(dc0, g)
  {
    if moves == [] then
      InitialRepresents(env, uid, dc0);
      Guarded(Initial(uid, dc0), [], map[], None, map[], [])
    else
      var before := Moves(env, uid, dc0, moves[..|moves| - 1]);
      MoveTracks(env, dc0, before, moves[|moves| - 1]);
      Move1(env, before, moves[|moves| - 1])
  }

  // ---------------------------------------------------------------------
  // Positions
  // ---------------------------------------------------------------------

  ghost predicate Below(captured: seq<Captured>, n: nat) {
    forall k | 0 <= k < |captured| :: captured[k].changeId <= n
  }

  /** No captured position is above the client's, or above where an abort goes. */
  ghost predicate Safe(g: Guarded) {
    Below(g.captured, |g.log|) && (g.held.Some? ==> Below(g.captured, |g.held.value.log|))
  }

  // An undo goes back no further than what was captured.
  ghost predicate Quiet(g: Guarded, move: Move) {
    move.Undo? && move.task in g.deferred ==> Below(g.captured, |g.deferred[move.task].log|)
  }

  /** One move keeps captured positions safe exactly when it is quiet. */
  lemma {:induction false} MoveSafeIff(env: Env, dc0: Dc, g: Guarded, move: Move)
    requires Tracking(dc0, g) && Safe(g)
    ensures PeaksMatch(g.st.clc) && (Safe(Move1(env, g, move)) <==> Quiet(g, move))
  {
    hide Commit, ProofBlock, Accepts, Passes, HeadOf;
    MoveTracks(env, dc0, g, move);
    match move
    case AdoptRange(ff, anchor, expected, base) =>
      if Accepts(env, g.st, ff, anchor, expected, base) { AdoptForward(env, g.st, g.log, ff, anchor, expected, base); }
    case _ =>
  }

  ghost predicate AllQuiet(env: Env, uid: Option<Uid>, dc0: Dc, moves: seq<Move>) {
    moves != [] ==>
      && AllQuiet(env, uid, dc0, moves[..|moves| - 1])
      && Quiet(Moves(env, uid, dc0, moves[..|moves| - 1]), moves[|moves| - 1])
  }

  ghost predicate AlwaysSafe(env: Env, uid: Option<Uid>, dc0: Dc, moves: seq<Move>) {
    && Safe(Moves(env, uid, dc0, moves))
    && (moves != [] ==> AlwaysSafe(env, uid, dc0, moves[..|moves| - 1]))
  }

  lemma {:induction false} MovesStep(env: Env, uid: Option<Uid>, dc0: Dc, moves: seq<Move>)
    requires moves != []
    ensures var g := Moves(env, uid, dc0, moves[..|moves| - 1]);
      PeaksMatch(g.st.clc) && Moves(env, uid, dc0, moves) == Move1(env, g, moves[|moves| - 1])
  {
    hide Move1, Tracking;
    MoveTracks(env, dc0, Moves(env, uid, dc0, moves[..|moves| - 1]), moves[|moves| - 1]);
  }

  /** Over every interleaving: no signer's captured position is ever above the
      client, or above where the fast-forward under way may fall back to, exactly
      when no broadcast is undone to below a captured position. */
  lemma {:induction false} CapturedNeverRolledBackIff(env: Env, uid: Option<Uid>, dc0: Dc, moves: seq<Move>)
    ensures AlwaysSafe(env, uid, dc0, moves) <==> AllQuiet(env, uid, dc0, moves)
  {
    if moves != [] {
      hide Moves, Move1, Tracking, Safe, Quiet;
      var before := moves[..|moves| - 1];
      CapturedNeverRolledBackIff(env, uid, dc0, before);
      MovesStep(env, uid, dc0, moves);
      if AlwaysSafe(env, uid, dc0, before) {
        MoveSafeIff(env, dc0, Moves(env, uid, dc0, before), moves[|moves| - 1]);
      }
    }
  }

  /** What a signer captured is never forgotten or changed. */
  lemma {:induction false} CapturedStays(env: Env, uid: Option<Uid>, dc0: Dc, moves: seq<Move>, n: nat)
    requires n <= |moves|
    ensures Moves(env, uid, dc0, moves[..n]).captured <= Moves(env, uid, dc0, moves).captured
    decreases |moves|
  {
    hide Moves, Move1, Tracking;
    if n == |moves| {
      assert moves[..n] == moves;
    } else {
      var before := moves[..|moves| - 1];
      assert before[..n] == moves[..n];
      CapturedStays(env, uid, dc0, before, n);
      MovesStep(env, uid, dc0, moves);
      MoveTracks(env, dc0, Moves(env, uid, dc0, before), moves[|moves| - 1]);
    }
  }

  /** A change checked and applied at once: one more position. */
  lemma {:induction false} CheckedApplied(env: Env, dc0: Dc, g: Guarded, task: nat, change: Entry, response: Response)
    requires Tracking(dc0, g) && Passes(env, g.st, change, response, 0, false)
    ensures PeaksMatch(g.st.clc)
    ensures var g1 := Move1(env, g, CheckChange(task, change, response, 0, false));
      && PeaksMatch(g1.st.clc)
      && var h := Move1(env, g1, ApplyChecked(task));
      && Tracking(dc0, h)
      && h == g.(st := Commit(g.st, Checked(g.st, change, response, false)), tasks := g.tasks - {task},
                 log := g.log + [Record(change, response.oldRoot, response.newRoot)])
      && h.st.changeId == g.st.changeId + 1
  {
    hide Tracking;
    MoveTracks(env, dc0, g, CheckChange(task, change, response, 0, false));
    MoveTracks(env, dc0, Move1(env, g, CheckChange(task, change, response, 0, false)), ApplyChecked(task));
  }

  // Another user's first entry, with its response; and the moves of a broadcast of
  // it that is applied and undone, with a signer in between.
  function Theirs(): Entry { Entry(2, 0, 0, true, 0, 0, 0) }
  function TheirTurn(): Response { Response(1, 0, 0, [], 1, 0) }

  function UndoneUnderSigner(): seq<Move> {
    [Defer(0), CheckChange(0, Theirs(), TheirTurn(), 0, false), ApplyChecked(0), Capture, Undo(0)]
  }

  lemma {:induction false} TheirsApplied()
    ensures var g := Moves(TailOnly(), Some(1), 0, UndoneUnderSigner()[..3]);
      && g.st.changeId == 1 && g.held.None? && g.captured == []
      && 0 in g.deferred && g.deferred[0].log == [] && g.deferred[0].saved.changeId == 0
  {
    hide Tracking, HeadOf, Commit;
    var env, ms := TailOnly(), UndoneUnderSigner();
    assert ms[..3][..2] == ms[..2] && ms[..2][..1] == ms[..1] && ms[..1][..0] == [];
    MovesStep(env, Some(1), 0, ms[..1]);
    MovesStep(env, Some(1), 0, ms[..2]);
    MovesStep(env, Some(1), 0, ms[..3]);
    CheckedApplied(env, 0, Moves(env, Some(1), 0, ms[..1]), 0, Theirs(), TheirTurn());
  }

  /** For instance: a signer captures position 1 between the apply and the undo of
      such a broadcast, and is left above the client. */
  lemma {:induction false} SignerLeftAbove()
    ensures var g := Moves(TailOnly(), Some(1), 0, UndoneUnderSigner());
      && g.captured != [] && g.captured[0].changeId == 1 && g.st.changeId == 0
      && !AlwaysSafe(TailOnly(), Some(1), 0, UndoneUnderSigner())
  {
    hide Tracking, Moves;
    var env, ms := TailOnly(), UndoneUnderSigner();
    TheirsApplied();
    assert ms[..5] == ms && ms[..4][..3] == ms[..3];
    MovesStep(env, Some(1), 0, ms[..4]);
    MovesStep(env, Some(1), 0, ms);
    var g := Moves(env, Some(1), 0, ms);
    assert g.captured[0].changeId == 1 && |g.log| == 0;
  }

  // ---------------------------------------------------------------------
  // Roots
  // ---------------------------------------------------------------------

  /** Every captured root is the head of `log`, cut at the captured position. */
  ghost predicate Stands(captured: seq<Captured>, dc0: Dc, log: seq<Record>) {
    forall k | 0 <= k < |captured| ::
      captured[k].changeId <= |log| && captured[k].root == HeadOf(Leaves(dc0, log[..captured[k].changeId])).root
  }

  function Highest(captured: seq<Captured>): (h: nat)
    ensures forall k | 0 <= k < |captured| :: captured[k].changeId <= h
    ensures captured == [] ==> h == 0
    ensures captured != [] ==> exists k | 0 <= k < |captured| :: captured[k].changeId == h
  {
    if captured == [] then 0
    else
      var rest, last := Highest(captured[..|captured| - 1]), captured[|captured| - 1].changeId;
      assert forall k | 0 <= k < |captured| - 1 :: captured[k] == captured[..|captured| - 1][k];
      assert captured[|captured| - 1].changeId == last;
      if rest > last then rest else last
  }

  lemma {:induction false} SameLeaves(dc0: Dc, a: seq<Record>, b: seq<Record>, h: nat)
    requires h <= |a| && h <= |b|
    ensures Leaves(dc0, a[..h]) == Leaves(dc0, b[..h]) <==> SameEntries(a, b, h)
  {
    var x, y := Leaves(dc0, a[..h]), Leaves(dc0, b[..h]);
    if x == y {
      forall k | 0 <= k < h ensures a[k].entry == b[k].entry { assert x[k + 1] == y[k + 1]; }
    }
  }

  /** Captured roots that stand in one log stand in another exactly when the two
      have the same entries up to the highest captured position. */
  lemma {:induction false} StandsIff(captured: seq<Captured>, dc0: Dc, log: seq<Record>, other: seq<Record>)
    requires Stands(captured, dc0, log)
    ensures Stands(captured, dc0, other) <==> SameEntries(log, other, Highest(captured))
  {
    hide HeadOf, Leaves, Highest;
    var h := Highest(captured);
    if SameEntries(log, other, h) {
      forall k | 0 <= k < |captured|
        ensures captured[k].changeId <= |other| &&
          captured[k].root == HeadOf(Leaves(dc0, other[..captured[k].changeId])).root
      {
        SameLeaves(dc0, log, other, captured[k].changeId);
      }
    }
    if Stands(captured, dc0, other) && captured != [] {
      var k :| 0 <= k < |captured| && captured[k].changeId == h;
      SameHead(Leaves(dc0, log[..h]), Leaves(dc0, other[..h]));
      SameLeaves(dc0, log, other, h);
    }
  }

  ghost predicate Rooted(dc0: Dc, g: Guarded) {
    Stands(g.captured, dc0, g.log) && (g.held.Some? ==> Stands(g.captured, dc0, g.held.value.log))
  }

  // The move does not put other entries under a captured position.
  ghost predicate Harmless(env: Env, g: Guarded, move: Move) {
    match move
    case AdoptRange(ff, anchor, expected, base) =>
      g.held.Some? && Accepts(env, g.st, ff, anchor, expected, base) ==> SameEntries(g.log, base, Highest(g.captured))
    case Undo(task) =>
      task in g.deferred ==> SameEntries(g.log, g.deferred[task].log, Highest(g.captured))
    case _ => true
  }

  lemma {:induction false} StandsLonger(captured: seq<Captured>, dc0: Dc, log: seq<Record>, more: seq<Record>)
    requires Stands(captured, dc0, log)
    ensures Stands(captured, dc0, log + more)
  {
    hide HeadOf, Leaves;
    forall k | 0 <= k < |captured| ensures (log + more)[..captured[k].changeId] == log[..captured[k].changeId] {}
  }

  lemma {:induction false} StandsCaptured(captured: seq<Captured>, dc0: Dc, log: seq<Record>, c: Captured)
    requires Stands(captured, dc0, log) && c == Captured(|log|, HeadOf(Leaves(dc0, log)).root)
    ensures Stands(captured + [c], dc0, log)
  {
    hide HeadOf, Leaves;
    assert log[..|log|] == log;
  }

  /** One move keeps captured roots exactly when it is harmless. */
  lemma {:induction false} MoveRootedIff(env: Env, dc0: Dc, g: Guarded, move: Move)
    requires Tracking(dc0, g) && Rooted(dc0, g)
    ensures PeaksMatch(g.st.clc) && (Rooted(dc0, Move1(env, g, move)) <==> Harmless(env, g, move))
  {
    hide Commit, ProofBlock, Accepts, Passes, HeadOf, Leaves, Stands, Highest, SameEntries;
    TrackedPeaks(dc0, g.st.changeId, g.st.clc, g.log);
    match move
    case Capture => StandsCaptured(g.captured, dc0, g.log, Captured(g.st.changeId, g.st.clc.root));
    case AdoptRange(ff, anchor, expected, base) => StandsIff(g.captured, dc0, g.log, base);
    case ApplyChecked(task) =>
      if task in g.tasks {
        var r := g.tasks[task];
        StandsLonger(g.captured, dc0, g.log, [Record(r.change, r.response.oldRoot, r.response.newRoot)]);
      }
    case Undo(task) => if task in g.deferred { StandsIff(g.captured, dc0, g.log, g.deferred[task].log); }
    case _ =>
  }

  ghost predicate AllHarmless(env: Env, uid: Option<Uid>, dc0: Dc, moves: seq<Move>) {
    moves != [] ==>
      && AllHarmless(env, uid, dc0, moves[..|moves| - 1])
      && Harmless(env, Moves(env, uid, dc0, moves[..|moves| - 1]), moves[|moves| - 1])
  }

  ghost predicate AlwaysRooted(env: Env, uid: Option<Uid>, dc0: Dc, moves: seq<Move>) {
    && Rooted(dc0, Moves(env, uid, dc0, moves))
    && (moves != [] ==> AlwaysRooted(env, uid, dc0, moves[..|moves| - 1]))
  }

  /** Over every interleaving: each captured root stays the head of the client's
      log, cut at the captured position, exactly when no adopted proof and no
      undone broadcast puts another entry below a captured position. */
  lemma {:induction false} CapturedRootStaysIff(env: Env, uid: Option<Uid>, dc0: Dc, moves: seq<Move>)
    ensures AlwaysRooted(env, uid, dc0, moves) <==> AllHarmless(env, uid, dc0, moves)
  {
    if moves != [] {
      hide Moves, Move1, Tracking, Rooted, Harmless;
      var before := moves[..|moves| - 1];
      CapturedRootStaysIff(env, uid, dc0, before);
      MovesStep(env, uid, dc0, moves);
      if AlwaysRooted(env, uid, dc0, before) {
        MoveRootedIff(env, dc0, Moves(env, uid, dc0, before), moves[|moves| - 1]);
      }
    }
  }
}
