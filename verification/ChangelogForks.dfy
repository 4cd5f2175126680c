/** What a fast-forward proof keeps of the client's log: the anchor entry where it
    was, and the entries up to the one it was signed on top of.  A run shows that
    the few in between may be replaced. */
module ChangelogForks {
  import opened Prelude
  import opened Mmr
  import opened Changelog
  import opened ChangelogRuns

  /** Different roots have different bytes. */
  ghost predicate DistinctRoots(env: Env) {
    forall a, b :: env.rootBytes(a) == env.rootBytes(b) ==> a == b
  }

  /** After a successful fast-forward with a proof, the stored anchor entry is at its
      old position, and the log up to the anchor's parent, at most nine entries
      before it, is the client's own exactly when the client's log has the root
      there that the anchor was signed on top of.  An anchor signed directly on top
      of the change before it so decides about the whole log.  So does the proof's own
      head, if the proof ends where the client is. */
  lemma {:induction false} BranchKeptIff(env: Env, st: State, log: seq<Record>, r: Recovery) returns (base: seq<Record>)
    requires Sound(env) && Represents(env, st, log) && PeaksMatch(st.clc) && log != []
    requires Recover(env, st, r).1.None? && r.ff.proof.Some? && DistinctRoots(env)
    ensures Base(env, st, log, r.ff, base) && Landed(env, st, r.ff, base, Recover(env, st, r).0)
    ensures st.entry.Some? && |log| <= |base| && base[|log| - 1].entry == st.entry.value
    ensures var anchor := st.entry.value;
      && anchor.parentChange < |log| <= anchor.parentChange + 10
      && (SameEntries(log, base, anchor.parentChange) <==>
          env.rootBytes(HeadOf(Leaves(st.initialDc, log[..anchor.parentChange])).root) == anchor.parentClc)
      && (anchor.parentChange == |log| - 1 && LastEntry(log) == st.entry ==>
          (SameEntries(log, base, |log|) <==> SameEntries(log, base, anchor.parentChange)))
    ensures env.verifyFf(r.ff.proof.value.blob).Some?
    ensures r.ff.proof.value.endChangeId == st.changeId ==>
      (SameEntries(log, base, |log|) <==> env.verifyFf(r.ff.proof.value.blob).value.endClc.root == st.clc.root)
  {
    hide Recover, Represents, Landed, Base, HeadOf, Leaves, SameEntries, Sound, DistinctRoots;
    base := FastForwardLands(env, st, log, r);
    AnchorInBase(env, st, log, r, base);
    var q := st.entry.value.parentChange;
    SameRoot(st.initialDc, log, base, q);
    RootsDiffer(env, HeadOf(Leaves(st.initialDc, log[..q])).root, HeadOf(Leaves(st.initialDc, base[..q])).root);
    if q == |log| - 1 { SameNext(log, base, q); }
    if |base| == |log| { SameRoot(st.initialDc, log, base, |log|); }
    assert log[..|log|] == log && base[..|base|] == base;
  }

  lemma {:induction false} AnchorInBase(env: Env, st: State, log: seq<Record>, r: Recovery, base: seq<Record>)
    requires Represents(env, st, log) && PeaksMatch(st.clc) && log != []
    requires Recover(env, st, r).1.None? && r.ff.proof.Some? && Base(env, st, log, r.ff, base)
    ensures st.entry.Some? && |log| <= |base| && base[|log| - 1].entry == st.entry.value
    ensures ParentOk(env, st.initialDc, base, |log| - 1)
    ensures env.verifyFf(r.ff.proof.value.blob).Some? && |base| == r.ff.proof.value.endChangeId && |log| == st.changeId
    ensures env.verifyFf(r.ff.proof.value.blob).value.endClc == HeadOf(Leaves(st.initialDc, base))
    ensures st.clc == HeadOf(Leaves(st.initialDc, log))
  {
    ClientHead(env, st, log);
    hide Recover, Represents, HeadOf, Leaves, Verified, Linked, LastSigned, Latest, FinalRoot, ParentOk;
    RepresentsLog(env, st, log);
    var t := FastForwardPasses(env, st, r);
    assert ParentOk(env, st.initialDc, base, |log| - 1);
  }

  lemma ClientHead(env: Env, st: State, log: seq<Record>)
    requires Represents(env, st, log)
    ensures st.clc == HeadOf(Leaves(st.initialDc, log))
  {
  }

  lemma RootsDiffer(env: Env, a: Hash, b: Hash)
    requires DistinctRoots(env)
    ensures env.rootBytes(a) == env.rootBytes(b) <==> a == b
  {
  }

  lemma SameNext(a: seq<Record>, b: seq<Record>, n: nat)
    requires n < |a| && n < |b|
    ensures SameEntries(a, b, n + 1) <==> SameEntries(a, b, n) && a[n].entry == b[n].entry
  {
  }

  lemma {:induction false} SameRoot(dc0: Dc, a: seq<Record>, b: seq<Record>, n: nat)
    requires n <= |a| && n <= |b|
    ensures SameEntries(a, b, n) <==> HeadOf(Leaves(dc0, a[..n])).root == HeadOf(Leaves(dc0, b[..n])).root
  {
    hide HeadOf;
    var x, y := Leaves(dc0, a[..n]), Leaves(dc0, b[..n]);
    if SameEntries(a, b, n) {
      assert x == y;
    }
    if HeadOf(x).root == HeadOf(y).root {
      SameHead(x, y);
      forall k | 0 <= k < n ensures a[k].entry == b[k].entry { assert x[k + 1] == y[k + 1]; }
    }
  }

  // Two users' first entries, both signed on top of the empty log.
  function First(rb: Hash -> Root, body: int): Entry { Entry(1, 0, 0, true, 0, rb(HInit(0)), body) }
  function Second(rb: Hash -> Root): Entry { Entry(2, 0, 0, true, 0, rb(HInit(0)), 0) }

  function TwoEntries(rb: Hash -> Root, body: int): seq<Record> {
    [Record(First(rb, body), 0, 0), Record(Second(rb), 0, 0)]
  }

  function TwoLeaves(rb: Hash -> Root, body: int): seq<Hash> { [HInit(0), HLeaf(First(rb, body)), HLeaf(Second(rb))] }

  // The server proves any single change, and the log that starts with `First(rb, 1)`.
  function ProvenRange(rb: Hash -> Root): Range {
    Range(0, 0, HeadOf([HInit(0)]), HeadOf(TwoLeaves(rb, 1)), 2,
          map[1 := (1, HLeaf(First(rb, 1))), 2 := (2, HLeaf(Second(rb)))], 0)
  }

  function Forked(rb: Hash -> Root): Env {
    Env((_, _, _, _, _) => true, _ => Some(ProvenRange(rb)), _ => 0, _ => 0, rb)
  }

  lemma {:induction false} TwoVerified(rb: Hash -> Root, body: int)
    ensures var log := TwoEntries(rb, body);
      && Verified(Forked(rb), log) && Linked(0, log) && Leaves(0, log) == TwoLeaves(rb, body)
      && LastSigned(log) == map[1 := 1, 2 := 2] && Latest(log) == 0 && FinalRoot(0, log) == 0
  {
    hide HeadOf;
    var one, two := [Record(First(rb, body), 0, 0)], TwoEntries(rb, body);
    assert one[..0] == [] && two[..1] == one;
    assert ProvesNext(Forked(rb), [], one[0], []) && ProvesNext(Forked(rb), one, two[1], []);
    assert LastSigned(one) == map[1 := 1] && Latest(one) == 0;
    assert Follows(Forked(rb), [], one[0]) && Verified(Forked(rb), one) && Follows(Forked(rb), one, two[1]);
    LinkedAppend(0, [], one[0]);
    LinkedAppend(0, one, two[1]);
    assert one + [two[1]] == two && [] + [one[0]] == one;
  }

  lemma {:induction false} TwoParents(rb: Hash -> Root, body: int)
    ensures ParentsOk(Forked(rb), 0, TwoEntries(rb, body))
  {
    var log := TwoEntries(rb, body);
    assert log[..0] == [] && Leaves(0, []) == [HInit(0)];
    assert ParentOk(Forked(rb), 0, log, 0) && ParentOk(Forked(rb), 0, log, 1);
  }

  lemma {:induction false} ForkedSound(rb: Hash -> Root)
    ensures Sound(Forked(rb))
  {
    TwoVerified(rb, 1);
    TwoParents(rb, 1);
    hide HeadOf, Verified, Linked, LastSigned, Latest, Leaves, ParentsOk;
    assert Attests(Forked(rb), ProvenRange(rb), TwoEntries(rb, 1));
  }

  function Next(id: nat): Response { Response(id, 0, 0, [], 1, 0) }

  // The client is a third user; its history so far is two single changes.
  function Own(rb: Hash -> Root): seq<Op> { [SingleOp(First(rb, 0), Next(1), 0), SingleOp(Second(rb), Next(2), 0)] }

  // A proof up to change 2, with the path of the entry there.
  function Proof(rb: Hash -> Root): FfProof {
    var path := InclusionProof(2, 3, AuditPath(TwoLeaves(rb, 1), 2));
    FfProof([], 2, map[1 := First(rb, 1), 2 := Second(rb)], Some(path), Some(Second(rb)), Some(path), map[])
  }

  function Replacing(rb: Hash -> Root): Recovery {
    Recovery(FfData(Some(Proof(rb)), [], [], Some(ServerHead(2, 0, 0))), {}, [], true)
  }

  lemma {:induction false} OwnStep(rb: Hash -> Root, st: State, log: seq<Record>, change: Entry)
    requires Represents(Forked(rb), st, log) && st.uid == Some(3) && st.dc == 0 && st.initialDc == 0 && st.hwm == 0
    requires change.timestamp == 0 && change.sigRef == 0 && change.uid !in st.sigref
    ensures PeaksMatch(st.clc)
    ensures var t := ValidateAndApply(Forked(rb), st, change, Next(|log| + 1), 0).0;
      && Represents(Forked(rb), t, log + [Record(change, 0, 0)])
      && t.uid == Some(3) && t.dc == 0 && t.initialDc == 0 && t.hwm == 0 && t.entry == Some(change)
      && t.sigref == st.sigref[change.uid := |log| + 1]
  {
    hide HeadOf, Append, Verified, LastSigned, Latest, Leaves;
    RepresentsWellFormed(Forked(rb), st, log);
    var log' := ValidateAndApplyKeeps(Forked(rb), st, log, change, Next(|log| + 1), 0);
  }

  lemma {:induction false} FirstReached(rb: Hash -> Root)
    ensures Sound(Forked(rb))
    ensures var st := Run(Forked(rb), Some(3), 0, Own(rb)[..1]);
      && Represents(Forked(rb), st, [Record(First(rb, 0), 0, 0)])
      && st.uid == Some(3) && st.dc == 0 && st.initialDc == 0 && st.hwm == 0 && st.sigref == map[1 := 1]
  {
    ForkedSound(rb);
    hide Represents, Sound, ValidateAndApply, HeadOf;
    InitialRepresents(Forked(rb), Some(3), 0);
    var one, start := Own(rb)[..1], Initial(Some(3), 0);
    assert one == [SingleOp(First(rb, 0), Next(1), 0)] && one[..0] == [];
    RunStep(Forked(rb), Some(3), 0, one);
    assert Run(Forked(rb), Some(3), 0, []) == start;
    OwnStep(rb, start, [], First(rb, 0));
    assert [] + [Record(First(rb, 0), 0, 0)] == [Record(First(rb, 0), 0, 0)];
    assert map[][1 := 1] == map[1 := 1];
  }

  lemma {:induction false} OwnReached(rb: Hash -> Root)
    ensures Sound(Forked(rb))
    ensures var st := Run(Forked(rb), Some(3), 0, Own(rb));
      && Represents(Forked(rb), st, TwoEntries(rb, 0))
      && st.uid == Some(3) && st.initialDc == 0 && st.entry == Some(Second(rb))
  {
    FirstReached(rb);
    hide Represents, Sound, ValidateAndApply, Run;
    RunStep(Forked(rb), Some(3), 0, Own(rb));
    OwnStep(rb, Run(Forked(rb), Some(3), 0, Own(rb)[..1]), [Record(First(rb, 0), 0, 0)], Second(rb));
    assert [Record(First(rb, 0), 0, 0)] + [Record(Second(rb), 0, 0)] == TwoEntries(rb, 0);
  }

  lemma {:induction false} PathVerifies(rb: Hash -> Root)
    ensures var head := HeadOf(TwoLeaves(rb, 1));
      && VerifyInclusion(head, InclusionProof(2, 3, AuditPath(TwoLeaves(rb, 1), 2)), HLeaf(Second(rb)))
      && WellFormed(head) && head.treeSize == 3
  {
    hide AuditPath, VerifyInclusion, WellFormed, Peaks;
    AppendExtends(TwoLeaves(rb, 1), HInit(0));
    TreeSizeLimit();
    InclusionIff(TwoLeaves(rb, 1), InclusionProof(2, 3, AuditPath(TwoLeaves(rb, 1), 2)), HLeaf(Second(rb)));
  }

  lemma {:induction false} ReplacingAdopts(rb: Hash -> Root, st: State)
    requires st.changeId == 2 && st.entry == Some(Second(rb)) && st.initialDc == 0 && st.uid == Some(3)
    ensures ProofBlock(Forked(rb), st, Replacing(rb).ff, AnchorOf(st), {})
         == Ok(Adopt(st, Replacing(rb).ff, Proof(rb), ProvenRange(rb), {}))
  {
    hide HeadOf, AuditPath, VerifyInclusion, WellFormed, Peaks, Adopt;
    PathVerifies(rb);
  }

  lemma {:induction false} Adopted(rb: Hash -> Root, st: State)
    ensures var t := Adopt(st, Replacing(rb).ff, Proof(rb), ProvenRange(rb), {});
      t.changeId == 2 && t.clc == ProvenRange(rb).endClc && t.dc == 0 && PeaksMatch(t.clc)
  {
    AppendExtends(TwoLeaves(rb, 1), HInit(0));
  }

  lemma {:induction false} ReplacingSucceeds(rb: Hash -> Root, st: State)
    requires st.changeId == 2 && st.entry == Some(Second(rb)) && st.initialDc == 0 && st.uid == Some(3) &&
      PeaksMatch(st.clc)
    ensures Recover(Forked(rb), st, Replacing(rb)) ==
      (Adopt(st, Replacing(rb).ff, Proof(rb), ProvenRange(rb), {}), None)
  {
    hide HeadOf, AuditPath, ProofBlock, Adopt;
    ReplacingAdopts(rb, st);
    Adopted(rb, st);
    assert MaxId(Replacing(rb).ff.responses) == 0;
  }

  lemma {:induction false} Replaced(rb: Hash -> Root, st: State)
    requires st.changeId == 2 && st.initialDc == 0 && st.uid == Some(3)
    ensures var t := Adopt(st, Replacing(rb).ff, Proof(rb), ProvenRange(rb), {});
      && Represents(Forked(rb), t, TwoEntries(rb, 1)) && t.changeId == 2 && t.entry == Some(Second(rb))
      && t.clc == HeadOf(TwoLeaves(rb, 1))
  {
    TwoVerified(rb, 1);
    hide HeadOf, Verified, LastSigned, Latest, Leaves, AuditPath;
  }

  lemma {:induction false} ReplacingRun(rb: Hash -> Root, st: State)
    requires Sound(Forked(rb)) && st == Run(Forked(rb), Some(3), 0, Own(rb))
    requires Represents(Forked(rb), st, TwoEntries(rb, 0))
    requires st.uid == Some(3) && st.initialDc == 0 && st.entry == Some(Second(rb))
    ensures Run(Forked(rb), Some(3), 0, Own(rb) + [FastForwardOp(Replacing(rb))]) ==
      Adopt(st, Replacing(rb).ff, Proof(rb), ProvenRange(rb), {})
    ensures st.changeId == 2
  {
    hide Run, Recover, Represents, AuditPath, HeadOf, Adopt, Sound;
    var ops := Own(rb) + [FastForwardOp(Replacing(rb))];
    assert ops[..2] == Own(rb) && ops[2] == FastForwardOp(Replacing(rb));
    RunStep(Forked(rb), Some(3), 0, ops);
    RepresentsLog(Forked(rb), st, TwoEntries(rb, 0));
    ReplacingSucceeds(rb, st);
  }

  /** The client is at change 2; a proof leaves it at change 2 with the same anchor
      entry and another entry at change 1, whatever the bytes of roots. */
  lemma {:induction false} ProofReplacesHistory(rb: Hash -> Root)
    ensures Sound(Forked(rb))
    ensures var env, ops := Forked(rb), Own(rb);
      var st, t := Run(env, Some(3), 0, ops), Run(env, Some(3), 0, ops + [FastForwardOp(Replacing(rb))]);
      && Represents(env, st, TwoEntries(rb, 0)) && Represents(env, t, TwoEntries(rb, 1))
      && t.changeId == st.changeId && t.entry == st.entry
      && t.clc != st.clc && !SameEntries(TwoEntries(rb, 0), TwoEntries(rb, 1), 2)
  {
    hide Run, Represents, AuditPath, HeadOf, Adopt, Sound;
    OwnReached(rb);
    var st := Run(Forked(rb), Some(3), 0, Own(rb));
    ReplacingRun(rb, st);
    Replaced(rb, st);
    TwoVerified(rb, 1);
    assert TwoEntries(rb, 0)[0].entry != TwoEntries(rb, 1)[0].entry;
    HistoryKeptIff(Forked(rb), st, TwoEntries(rb, 0), TwoEntries(rb, 1));
    assert TwoEntries(rb, 1)[..2] == TwoEntries(rb, 1);
  }
}
