/** What the merge does to graphs that the worklist produced: keys of one slot decode alike, and a
    branch keeps its two successors exactly under a condition on what was decoded. */
module DecodedMerge {
  import opened Machine
  import opened Decoder
  import opened Dedupe

  // ----- Keys that share a slot -----

  lemma SameInsn(env: Env, raw: Graph, a: Key, b: Key)
    requires DecodesTo(env, Decoded(raw.order, raw.insns)) && a in raw.insns && b in raw.insns && SlotOf(a) == SlotOf(b)
    ensures InsnAt(env, a) == Some(raw.insns[a].insn) && raw.insns[a].width == a.width
    ensures raw.insns[a] == RecordOf(env, raw.insns[a].insn, a)
    ensures raw.insns[b].insn == raw.insns[a].insn && raw.insns[b].width == raw.insns[a].width
    ensures raw.insns[b].table == raw.insns[a].table
  {
  }

  /** A branch leads to the same slots, by the same edges, whatever P was saved. */
  lemma SameBranch(env: Env, insn: Insn, a: Key, b: Key, way: nat)
    requires SlotOf(a) == SlotOf(b) && IsCondBranch(insn.mnem) && way < 2
    ensures Recovered(env, insn, a).None? && Recovered(env, insn, b).None?
    ensures |Edges(env, insn, a)| == 2 && |Edges(env, insn, b)| == 2
    ensures SlotOf(Edges(env, insn, a)[way].to) == SlotOf(Edges(env, insn, b)[way].to)
    ensures Edges(env, insn, a)[way].kind == Edges(env, insn, b)[way].kind
    ensures Edges(env, insn, a)[way].to.pstack == a.pstack
    ensures Successors(env, insn, a) == Targets(Edges(env, insn, a))
  {
  }

  lemma SameGate(env: Env, a: Key, b: Key, e: Edge, f: Edge)
    requires SlotOf(a) == SlotOf(b) && SlotOf(e.to) == SlotOf(f.to) && e.kind == f.kind
    ensures Admits(env, Along(a, e)) == Admits(env, Along(b, f))
  {
  }

  lemma NextDecoded(env: Env, raw: Graph, a: Key, b: Key)
    requires DecodesTo(env, Decoded(raw.order, raw.insns)) && a in raw.insns && Accepted(env, a, b)
    ensures b in raw.insns
  {
    ReachedStep(env, a, b);
  }

  lemma AdmittedIsAccepted(env: Env, k: Key, insn: Insn, way: nat)
    requires InsnAt(env, k) == Some(insn) && way < |Edges(env, insn, k)|
    requires Admits(env, Along(k, Edges(env, insn, k)[way]))
    ensures Accepted(env, k, Edges(env, insn, k)[way].to)
  {
    assert Edges(env, insn, k)[way] in EdgesAt(env, k);
  }

  // ----- Merged branches -----

  /** No other key shares the slot of `k`. */
  ghost predicate AloneInSlot(raw: Graph, k: Key) {
    forall j :: j in raw.insns && SlotOf(j) == SlotOf(k) ==> j == k
  }

  /** Every target of every key of the slot was decoded. */
  ghost predicate TargetsDecoded(raw: Graph, k: Key) {
    forall j, s :: j in raw.insns && SlotOf(j) == SlotOf(k) && s in raw.insns[j].successors ==> s in raw.insns
  }

  /** Key `j` branches like `a`: to the same slots in the same order, each key with its own saved widths. */
  predicate BranchesLike(a: Key, j: Key, own: seq<Key>, other: seq<Key>) {
    && |own| == 2 && |other| == 2
    && own[0].pstack == a.pstack && own[1].pstack == a.pstack
    && other[0].pstack == j.pstack && other[1].pstack == j.pstack
    && SlotOf(own[0]) == SlotOf(other[0]) && SlotOf(own[1]) == SlotOf(other[1])
  }

  ghost predicate IsBranchSlot(raw: Graph, a: Key) {
    a in raw.insns &&
    forall j :: j in raw.insns && SlotOf(j) == SlotOf(a) ==>
      BranchesLike(a, j, raw.insns[a].successors, raw.insns[j].successors)
  }

  lemma SameBranches(env: Env, insn: Insn, a: Key, j: Key)
    requires SlotOf(a) == SlotOf(j) && IsCondBranch(insn.mnem)
    ensures BranchesLike(a, j, Successors(env, insn, a), Successors(env, insn, j))
  {
    SameBranch(env, insn, a, j, 0);
    SameBranch(env, insn, a, j, 1);
    SameBranch(env, insn, j, a, 0);
    SameBranch(env, insn, j, a, 1);
  }

  lemma BranchSlot(env: Env, raw: Graph, a: Key)
    requires DecodesTo(env, Decoded(raw.order, raw.insns)) && a in raw.insns && IsCondBranch(raw.insns[a].insn.mnem)
    ensures IsBranchSlot(raw, a)
  {
    forall j | j in raw.insns && SlotOf(j) == SlotOf(a)
      ensures BranchesLike(a, j, raw.insns[a].successors, raw.insns[j].successors)
    {
      SameInsn(env, raw, a, j);
      SameInsn(env, raw, j, a);
      SameBranches(env, raw.insns[a].insn, a, j);
    }
  }

  /** A decoded target of one key leads the representative to the same place. */
  lemma DecodedTargetShared(raw: Graph, r: Graph, a: Key, j: Key, s: Key)
    requires Lists(raw.order, raw.insns) && MergedFrom(raw, r) && IsBranchSlot(raw, a)
    requires j in raw.insns && SlotOf(j) == SlotOf(a) && s in raw.insns[j].successors && TargetsDecoded(raw, a)
    ensures LeadsTo(raw, a, Rep(raw, s))
  {
    var i :| 0 <= i < |raw.insns[j].successors| && raw.insns[j].successors[i] == s;
    var t := raw.insns[a].successors[i];
    assert t in raw.insns[a].successors;
    SameRep(raw, r, s, t);
  }

  /** A target of another key that was not decoded leads the representative nowhere it went before. */
  lemma StrayTargetAdded(raw: Graph, r: Graph, a: Key, j: Key, s: Key)
    requires Lists(raw.order, raw.insns) && MergedFrom(raw, r) && IsBranchSlot(raw, a)
    requires j in raw.insns && SlotOf(j) == SlotOf(a) && j != a && s in raw.insns[j].successors && s !in raw.insns
    ensures !LeadsTo(raw, a, Rep(raw, s))
  {
    OutsideStays(raw, s);
    assert s.pstack == j.pstack && j.pstack != a.pstack;
    forall t | t in raw.insns[a].successors
      ensures Rep(raw, t) != s
    {
      assert t.pstack == a.pstack;
      if t in raw.insns { RepIs(raw, r, t); } else { OutsideStays(raw, t); }
    }
  }

  /** If the representative's own target was not decoded, another key adds its target. */
  lemma StrayOwnAdded(raw: Graph, r: Graph, a: Key, j: Key, i: nat) returns (t: Key)
    requires Lists(raw.order, raw.insns) && MergedFrom(raw, r) && IsBranchSlot(raw, a)
    requires j in raw.insns && SlotOf(j) == SlotOf(a) && j != a
    requires i < 2 && i < |raw.insns[a].successors| && raw.insns[a].successors[i] !in raw.insns
    ensures t in raw.insns[j].successors && !LeadsTo(raw, a, Rep(raw, t))
  {
    var s := raw.insns[a].successors[i];
    t := raw.insns[j].successors[i];
    assert t in raw.insns[j].successors;
    if t !in raw.insns {
      StrayTargetAdded(raw, r, a, j, t);
    } else {
      forall u | u in raw.insns[a].successors
        ensures Rep(raw, u) != Rep(raw, t)
      {
        OwnTargetApart(raw, r, u, s, t);
      }
    }
  }

  lemma OwnTargetApart(raw: Graph, r: Graph, u: Key, s: Key, t: Key)
    requires Lists(raw.order, raw.insns) && MergedFrom(raw, r) && s !in raw.insns && t in raw.insns
    requires u.pstack == s.pstack && SlotOf(s) == SlotOf(t)
    ensures Rep(raw, u) != Rep(raw, t)
  {
    RepIs(raw, r, t);
    if u in raw.insns {
      assert SlotOf(u) != SlotOf(s);
      SameRep(raw, r, u, t);
    } else {
      OutsideStays(raw, u);
    }
  }

  lemma StrayAdds(raw: Graph, r: Graph, a: Key)
    requires Lists(raw.order, raw.insns) && MergedFrom(raw, r) && IsBranchSlot(raw, a)
    requires !AloneInSlot(raw, a) && !TargetsDecoded(raw, a)
    ensures exists j, s :: j in raw.insns && SlotOf(j) == SlotOf(a) && s in raw.insns[j].successors &&
                           !LeadsTo(raw, a, Rep(raw, s))
  {
    var b :| b in raw.insns && SlotOf(b) == SlotOf(a) && b != a;
    var j, s :| j in raw.insns && SlotOf(j) == SlotOf(a) && s in raw.insns[j].successors && s !in raw.insns;
    if j != a {
      StrayTargetAdded(raw, r, a, j, s);
    } else {
      var i :| 0 <= i < |raw.insns[a].successors| && raw.insns[a].successors[i] == s;
      var t := StrayOwnAdded(raw, r, a, b, i);
    }
  }

  lemma SlotKept(raw: Graph, r: Graph, a: Key)
    requires Lists(raw.order, raw.insns) && MergedFrom(raw, r) && IsBranchSlot(raw, a) && a in r.insns
    ensures |r.insns[a].successors| == 2 <==> AloneInSlot(raw, a) || TargetsDecoded(raw, a)
  {
    NoneAdded(raw, r, a);
    assert BranchesLike(a, a, raw.insns[a].successors, raw.insns[a].successors);
    if AloneInSlot(raw, a) || TargetsDecoded(raw, a) {
      forall j, s | j in raw.insns && SlotOf(j) == SlotOf(a) && s in raw.insns[j].successors
        ensures LeadsTo(raw, a, Rep(raw, s))
      {
        if TargetsDecoded(raw, a) { DecodedTargetShared(raw, r, a, j, s); }
      }
    } else {
      StrayAdds(raw, r, a);
    }
  }

  /** In a decoded graph a merged branch keeps two successors exactly when its slot has one key or every
      target of the keys of its slot was decoded. */
  lemma BranchKept(env: Env, raw: Graph, r: Graph, k: Key)
    requires DecodesTo(env, Decoded(raw.order, raw.insns)) && MergedFrom(raw, r) && k in raw.insns
    requires IsCondBranch(raw.insns[k].insn.mnem)
    ensures Rep(raw, k) in r.insns
    ensures |r.insns[Rep(raw, k)].successors| == 2 <==> AloneInSlot(raw, k) || TargetsDecoded(raw, k)
  {
    RepIs(raw, r, k);
    var a := Rep(raw, k);
    SameInsn(env, raw, k, a);
    SameInsn(env, raw, a, k);
    BranchSlot(env, raw, a);
    SlotKept(raw, r, a);
    assert AloneInSlot(raw, k) <==> AloneInSlot(raw, a);
  }

  lemma TwoAtLeast(env: Env, raw: Graph, r: Graph, k: Key)
    requires DecodesTo(env, Decoded(raw.order, raw.insns)) && MergedFrom(raw, r) && k in raw.insns
    requires IsCondBranch(raw.insns[k].insn.mnem)
    ensures Rep(raw, k) in r.insns && |r.insns[Rep(raw, k)].successors| >= 2
  {
    RepIs(raw, r, k);
    var a := Rep(raw, k);
    SameInsn(env, raw, k, a);
    SameInsn(env, raw, a, k);
    BranchSlot(env, raw, a);
    assert BranchesLike(a, a, raw.insns[a].successors, raw.insns[a].successors);
    PositionsKept(raw, r, a, 0);
  }
}
