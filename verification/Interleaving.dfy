/** The client's tasks side by side: any number of them read a snapshot, check a
    change against it and apply it later. */
module Interleaving {
  import opened Prelude
  import opened Mmr
  import opened Changelog
  import opened ChangelogRuns

  // ---------------------------------------------------------------------
  // Snapshot, check, apply
  // ---------------------------------------------------------------------

  // A change that passed its checks against the state at `snapId`.
  datatype Ready = Ready(change: Entry, response: Response, snapId: nat, snapLast: nat, me: Uid, hwm: nat, tail: bool)

  // `tail` tasks are fast-forward tail elements: they are not compared with the
  // current data root, and their own id is left to the apply.
  datatype Act =
    | Snapshot(task: nat, change: Entry, response: Response, now: nat, tail: bool)
    | Apply(task: nat)

  // `log` and `ids` record every append in order.
  datatype World = World(st: State, tasks: map<nat, Ready>, log: seq<Record>, ids: seq<nat>)

  predicate Passes(env: Env, st: State, change: Entry, response: Response, now: nat, tail: bool) {
    && st.uid.Some?
    && AcceptanceOk(change, response)
    && (tail || LocalClockOk(response, now))
    && (if tail then response.changeId > st.changeId
        else response.changeId == st.changeId + 1 && response.oldRoot == st.dc)
    && HwmOk(change.timestamp, st.hwm)
    && env.proves(change, response.tree, response.oldRoot, response.newRoot, st.changeId + 1)
    && change.sigRef == ExpectedSigRef(st.sigref, change.uid)
  }

  function Checked(st: State, change: Entry, response: Response, tail: bool): Ready
    requires st.uid.Some?
  {
    Ready(change, response, st.changeId, st.myLast, st.uid.value, Max(st.hwm, change.timestamp), tail)
  }

  function Commit(st: State, r: Ready): State
    requires PeaksMatch(st.clc)
  {
    ApplyStateUpdate(st, r.change, r.response, r.snapId, r.snapLast, r.me, r.hwm)
  }

  function Next(env: Env, w: World, act: Act): World
    requires PeaksMatch(w.st.clc)
  {
    match act
    case Snapshot(task, change, response, now, tail) =>
      if Passes(env, w.st, change, response, now, tail)
      then w.(tasks := w.tasks[task := Checked(w.st, change, response, tail)])
      else w
    case Apply(task) =>
      if task !in w.tasks then w
      else
        var r := w.tasks[task];
        var st := Commit(w.st, r);
        World(st, w.tasks - {task},
              if st.changeId == w.st.changeId then w.log
              else w.log + [Record(r.change, r.response.oldRoot, r.response.newRoot)],
              if st.changeId == w.st.changeId then w.ids else w.ids + [r.response.changeId])
  }

  /** A snapshot directly followed by its apply is the sequential operation. */
  lemma {:induction false} BackToBack(env: Env, st: State, change: Entry, response: Response, now: nat)
    requires PeaksMatch(st.clc)
    ensures Passes(env, st, change, response, now, false) ==>
      ValidateAndApply(env, st, change, response, now) == (Commit(st, Checked(st, change, response, false)), None)
    ensures !Passes(env, st, change, response, now, false) ==>
      ValidateAndApply(env, st, change, response, now).0 == st
    ensures st.uid.Some? && response.changeId > st.changeId && Passes(env, st, change, response, now, true) ==>
      StepTail(env, st, change, response) == Stepped(Commit(st, Checked(st, change, response, true)))
  {
    hide Append;
  }

  /** A waiting task is behind, or everything it checked still holds. */
  ghost predicate Current(env: Env, st: State, log: seq<Record>, r: Ready) {
    && r.snapId <= st.changeId
    && (r.snapId == st.changeId && r.response.changeId == st.changeId + 1 ==>
          && st.uid.Some?
          && r == Checked(st, r.change, r.response, r.tail)
          && Follows(env, log, Record(r.change, r.response.oldRoot, r.response.newRoot)))
  }

  // Only a single change was compared with the data root.
  ghost predicate Chains(st: State, r: Ready) {
    !r.tail && r.snapId == st.changeId ==> r.response.oldRoot == st.dc
  }

  ghost predicate InOrder(ids: seq<nat>) { forall k | 0 <= k < |ids| :: ids[k] == k + 1 }

  ghost predicate Inv(env: Env, w: World) {
    && Represents(env, w.st, w.log)
    && |w.ids| == |w.log| && InOrder(w.ids)
    && forall task | task in w.tasks :: Current(env, w.st, w.log, w.tasks[task]) && Chains(w.st, w.tasks[task])
  }

  lemma {:induction false} SnapshotCurrent(env: Env, st: State, log: seq<Record>, change: Entry, response: Response,
                                           now: nat, tail: bool)
    requires Represents(env, st, log) && Passes(env, st, change, response, now, tail)
    ensures var r := Checked(st, change, response, tail); Current(env, st, log, r) && Chains(st, r)
  {
    assert ProvesNext(env, log, Record(change, response.oldRoot, response.newRoot), response.tree);
  }

  lemma {:induction false} CommitKeeps(env: Env, st: State, log: seq<Record>, r: Ready)
    requires Represents(env, st, log) && Current(env, st, log, r)
    ensures PeaksMatch(st.clc)
    ensures var t := Commit(st, r);
      && t.uid == st.uid && t.initialDc == st.initialDc
      && (t.changeId == st.changeId ==> t == st)
      && (t.changeId != st.changeId ==>
            && t.changeId == st.changeId + 1 == r.response.changeId == |log| + 1
            && r.snapId == st.changeId && t.dc == r.response.newRoot
            && Represents(env, t, log + [Record(r.change, r.response.oldRoot, r.response.newRoot)]))
  {
    hide Append, Represents, Follows;
    RepresentsLog(env, st, log);
    RepresentsWellFormed(env, st, log);
    if r.snapId == st.changeId && r.response.changeId == st.changeId + 1 {
      ApplyKeeps(env, st, log, r.change, r.response);
    }
  }

  lemma {:induction false} NextKeeps(env: Env, w: World, act: Act)
    requires Inv(env, w)
    ensures PeaksMatch(w.st.clc) && Inv(env, Next(env, w, act))
  {
    hide Represents, Follows, Commit, Passes;
    RepresentsWellFormed(env, w.st, w.log);
    match act
    case Snapshot(task, change, response, now, tail) =>
      if Passes(env, w.st, change, response, now, tail) {
        SnapshotCurrent(env, w.st, w.log, change, response, now, tail);
      }
    case Apply(task) =>
      if task in w.tasks {
        CommitKeeps(env, w.st, w.log, w.tasks[task]);
      }
  }

  ghost function Run(env: Env, uid: Option<Uid>, dc0: Dc, acts: seq<Act>): (w: World)
    ensures Inv(env, w)
  {
    if acts == [] then
      InitialRepresents(env, uid, dc0);
      World(Initial(uid, dc0), map[], [], [])
    else
      var before := Run(env, uid, dc0, acts[..|acts| - 1]);
      NextKeeps(env, before, acts[|acts| - 1]);
      Next(env, before, acts[|acts| - 1])
  }

  /** Over every interleaving, the k-th append has change id k: no id is appended
      twice and none is passed over.  The state is the fold of the appended log. */
  lemma {:induction false} EachIdOnce(env: Env, uid: Option<Uid>, dc0: Dc, acts: seq<Act>)
    ensures var w := Run(env, uid, dc0, acts);
      && Represents(env, w.st, w.log) && |w.ids| == |w.log| == w.st.changeId
      && (forall k | 0 <= k < |w.ids| :: w.ids[k] == k + 1)
  {
    var w := Run(env, uid, dc0, acts);
    hide Run;
    RepresentsLog(env, w.st, w.log);
  }

  // If the act appends a tail element, it appends to the root the client is at.
  ghost predicate Meets(env: Env, w: World, act: Act)
    requires PeaksMatch(w.st.clc)
  {
    act.Apply? && act.task in w.tasks && w.tasks[act.task].tail && Next(env, w, act).st.changeId != w.st.changeId ==>
      w.tasks[act.task].response.oldRoot == w.st.dc
  }

  // Every act of the run does.
  ghost predicate AllMeet(env: Env, uid: Option<Uid>, dc0: Dc, acts: seq<Act>) {
    acts != [] ==>
      var w := Run(env, uid, dc0, acts[..|acts| - 1]);
      && AllMeet(env, uid, dc0, acts[..|acts| - 1])
      && PeaksMatch(w.st.clc) && Meets(env, w, acts[|acts| - 1])
  }

  lemma {:induction false} RunStep(env: Env, uid: Option<Uid>, dc0: Dc, acts: seq<Act>)
    requires acts != []
    ensures var w := Run(env, uid, dc0, acts[..|acts| - 1]);
      PeaksMatch(w.st.clc) && Run(env, uid, dc0, acts) == Next(env, w, acts[|acts| - 1])
  {
    hide Next, Represents;
    var w := Run(env, uid, dc0, acts[..|acts| - 1]);
    RepresentsWellFormed(env, w.st, w.log);
  }

  /** Over every interleaving, the data commitments chain exactly when every tail
      element that was appended met the root the client was at.  Single changes
      always do, whatever tails run beside them. */
  lemma {:induction false} LinkedIffMeets(env: Env, uid: Option<Uid>, dc0: Dc, acts: seq<Act>)
    ensures var w := Run(env, uid, dc0, acts);
      w.st.initialDc == dc0 && (Linked(dc0, w.log) <==> AllMeet(env, uid, dc0, acts))
  {
    if acts == [] {
      NothingLinked(dc0);
    } else {
      hide Linked, Next, Meets, Inv, Run;
      var n, before := |acts| - 1, acts[..|acts| - 1];
      var w := Run(env, uid, dc0, before);
      RunStep(env, uid, dc0, acts);
      LinkedIffMeets(env, uid, dc0, before);
      LinkedIffStep(env, w, acts[n]);
    }
  }

  lemma NothingLinked(dc0: Dc)
    ensures Linked(dc0, [])
  {
  }

  lemma {:induction false} LinkedIffStep(env: Env, w: World, act: Act)
    requires Inv(env, w) && PeaksMatch(w.st.clc)
    ensures var w' := Next(env, w, act);
      && w'.st.initialDc == w.st.initialDc
      && (Linked(w.st.initialDc, w'.log) <==> Linked(w.st.initialDc, w.log) && Meets(env, w, act))
  {
    hide Represents, Follows, Commit, Linked;
    if act.Apply? && act.task in w.tasks {
      var r := w.tasks[act.task];
      CommitKeeps(env, w.st, w.log, r);
      LinkedAppend(w.st.initialDc, w.log, Record(r.change, r.response.oldRoot, r.response.newRoot));
      RootIsFinal(env, w.st, w.log);
    }
  }

  ghost predicate NoTails(w: World) { forall task | task in w.tasks :: !w.tasks[task].tail }

  /** Without tail tasks they always chain. */
  lemma {:induction false} AlwaysLinked(env: Env, uid: Option<Uid>, dc0: Dc, acts: seq<Act>)
    requires forall k | 0 <= k < |acts| && acts[k].Snapshot? :: !acts[k].tail
    ensures var w := Run(env, uid, dc0, acts); w.st.initialDc == dc0 && Linked(dc0, w.log) && NoTails(w)
  {
    LinkedIffMeets(env, uid, dc0, acts);
    if acts != [] {
      hide Linked, Inv, Run;
      AlwaysLinked(env, uid, dc0, acts[..|acts| - 1]);
      LinkedIffMeets(env, uid, dc0, acts[..|acts| - 1]);
      RunStep(env, uid, dc0, acts);
    }
  }

  lemma RootIsFinal(env: Env, st: State, log: seq<Record>)
    requires Represents(env, st, log)
    ensures st.dc == FinalRoot(st.initialDc, log)
  {
  }
}
