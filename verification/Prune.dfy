/** Wrong-width variant pruning: which variants a pass may drop, the reference-taint fixpoint and
    what every sequence of passes keeps. */
module Prune {
  import opened Machine

  /** One emitted body of a function: its 24-bit entry address at one pair of operand widths. */
  datatype Variant = Variant(addr: nat, width: Width)

  /** Direct references between emitted bodies. */
  type Refs = map<Variant, set<Variant>>

  /** The cfg-declared widths of an address, or the reset width when it has none. */
  function Canon(canonical: map<nat, set<Width>>, addr: nat): set<Width> {
    if addr in canonical && canonical[addr] != {} then canonical[addr] else {Width(true, true)}
  }

  predicate IsCanonical(canonical: map<nat, set<Width>>, v: Variant) {
    v.width in Canon(canonical, v.addr)
  }

  /** A canonical variant of the same address was emitted and is not in `dirty`. */
  predicate HasCleanCanonical(canonical: map<nat, set<Width>>, emitted: set<Variant>, dirty: set<Variant>, v: Variant) {
    exists c :: c in Canon(canonical, v.addr) && Variant(v.addr, c) in emitted && Variant(v.addr, c) !in dirty
  }

  function ComputePrunable(dirty: set<Variant>, emitted: set<Variant>, canonical: map<nat, set<Width>>,
                           protected: set<Variant>): set<Variant>
  {
    set v | v in dirty && v !in protected && !IsCanonical(canonical, v) &&
            HasCleanCanonical(canonical, emitted, dirty, v)
  }

  /** The direct targets of bodies that no pass removes. */
  function ProtectedTargets(refs: Refs, canonical: map<nat, set<Width>>, dirty: set<Variant>): set<Variant> {
    set s, t | s in refs && (IsCanonical(canonical, s) || s !in dirty) && t in refs[s] :: t
  }

  // ----- Reference taint -----

  /** A reference that would not link: its bank is in the cfg set but the target has no body. */
  predicate Dangles(present: set<Variant>, banks: set<nat>, t: Variant) {
    Bank(t.addr) in banks && t !in present
  }

  /** The body carries a stub marker or names a target that would not link. */
  ghost predicate Bad(dirty: set<Variant>, refs: Refs, present: set<Variant>, banks: set<nat>, v: Variant) {
    v in dirty || (v in refs && exists t :: t in refs[v] && t.addr / 0x10000 % 0x100 in banks && t !in present)
  }

  /** A chain of direct references. */
  ghost predicate IsChain(refs: Refs, p: seq<Variant>) {
    p != [] && forall i :: 0 <= i < |p| - 1 ==> p[i] in refs && p[i + 1] in refs[p[i]]
  }

  ghost predicate LeadsToBad(dirty: set<Variant>, refs: Refs, present: set<Variant>, banks: set<nat>, v: Variant) {
    exists p :: IsChain(refs, p) && p[0] == v && Bad(dirty, refs, present, banks, p[|p| - 1])
  }

  predicate Taints(tainted: set<Variant>, present: set<Variant>, banks: set<nat>, targets: set<Variant>) {
    exists t :: t in targets && (Dangles(present, banks, t) || t in tainted)
  }

  lemma TaintsLead(dirty: set<Variant>, refs: Refs, present: set<Variant>, banks: set<nat>,
                   tainted: set<Variant>, v: Variant)
    requires v in refs && Taints(tainted, present, banks, refs[v])
    requires forall t :: t in tainted ==> LeadsToBad(dirty, refs, present, banks, t)
    ensures LeadsToBad(dirty, refs, present, banks, v)
  {
    var t :| t in refs[v] && (Dangles(present, banks, t) || t in tainted);
    if t in tainted {
      var p :| IsChain(refs, p) && p[0] == t && Bad(dirty, refs, present, banks, p[|p| - 1]);
      assert IsChain(refs, [v] + p);
    } else {
      assert IsChain(refs, [v]);
    }
  }

  lemma {:induction false} ChainTainted(dirty: set<Variant>, refs: Refs, present: set<Variant>, banks: set<nat>,
                                        tainted: set<Variant>, p: seq<Variant>)
    requires dirty <= tainted
    requires forall v :: v in refs && v !in tainted ==> !Taints(tainted, present, banks, refs[v])
    requires IsChain(refs, p) && Bad(dirty, refs, present, banks, p[|p| - 1])
    ensures p[0] in tainted
    decreases |p|
  {
    if |p| > 1 {
      assert p[0] in refs && p[0 + 1] in refs[p[0]];
      ChainTainted(dirty, refs, present, banks, tainted, p[1..]);
    }
  }

  /** Taints exactly the variants with a chain of direct references to a bad body. */
  method PropagateTaint(dirty: set<Variant>, refs: Refs, order: seq<Variant>, emitted: set<Variant>, banks: set<nat>,
                        pruned: set<Variant>)
    returns (tainted: set<Variant>)
    requires forall v :: v in order <==> v in refs
    ensures forall v :: v in tainted <==> LeadsToBad(dirty, refs, emitted - pruned, banks, v)
    ensures tainted <= dirty + refs.Keys
  {
    tainted := dirty;
    var present := emitted - pruned;
    forall v | v in dirty
      ensures LeadsToBad(dirty, refs, present, banks, v)
    {
      assert IsChain(refs, [v]);
    }
    var changed := true;
    while changed
      invariant dirty <= tainted <= dirty + refs.Keys
      invariant forall v :: v in tainted ==> LeadsToBad(dirty, refs, present, banks, v)
      invariant !changed ==> forall v :: v in refs && v !in tainted ==> !Taints(tainted, present, banks, refs[v])
      decreases (dirty + refs.Keys) - tainted, changed
    {
      ghost var before := tainted;
      tainted, changed := TaintPass(dirty, refs, order, present, banks, tainted);
    }
    forall v | LeadsToBad(dirty, refs, present, banks, v)
      ensures v in tainted
    {
      var p :| IsChain(refs, p) && p[0] == v && Bad(dirty, refs, present, banks, p[|p| - 1]);
      ChainTainted(dirty, refs, present, banks, tainted, p);
    }
  }

  method TaintPass(ghost dirty: set<Variant>, refs: Refs, order: seq<Variant>, present: set<Variant>, banks: set<nat>,
                   start: set<Variant>)
    returns (tainted: set<Variant>, changed: bool)
    requires forall v :: v in order <==> v in refs
    requires forall v :: v in start ==> LeadsToBad(dirty, refs, present, banks, v)
    ensures start <= tainted <= start + refs.Keys
    ensures changed <==> start < tainted
    ensures forall v :: v in tainted ==> LeadsToBad(dirty, refs, present, banks, v)
    ensures !changed ==> forall v :: v in refs && v !in tainted ==> !Taints(tainted, present, banks, refs[v])
  {
    tainted, changed := start, false;
    var i := 0;
    while i < |order|
      invariant 0 <= i <= |order| && start <= tainted <= start + refs.Keys
      invariant changed <==> start < tainted
      invariant !changed ==> tainted == start
      invariant forall v :: v in tainted ==> LeadsToBad(dirty, refs, present, banks, v)
      invariant !changed ==> forall j :: 0 <= j < i && order[j] !in tainted ==>
                  !Taints(tainted, present, banks, refs[order[j]])
    {
      var v := order[i];
      if v !in tainted && Taints(tainted, present, banks, refs[v]) {
        TaintsLead(dirty, refs, present, banks, tainted, v);
        tainted, changed := tainted + {v}, true;
      }
      i := i + 1;
    }
  }

  /** What the inner loop of a reference-taint pass settles on: nothing protected or canonical is
      dropped, and a survivor that could have been dropped leads to no bad body. */
  ghost predicate TaintSettled(canonical: map<nat, set<Width>>, dirty: set<Variant>, refs: Refs, emitted: set<Variant>,
                               banks: set<nat>, protected: set<Variant>, pruned: set<Variant>, dropped: set<Variant>)
  {
    && dropped !! pruned
    && (forall v :: v in dropped ==> Droppable(canonical, emitted, protected, v))
    && (forall v :: v !in pruned + dropped && v !in protected && !IsCanonical(canonical, v) &&
                    CanonicalIsSafe(canonical, dirty, refs, emitted, banks, pruned + dropped, v) ==>
          !LeadsToBad(dirty, refs, emitted - (pruned + dropped), banks, v))
  }

  /** Neither canonical nor protected, with an emitted canonical sibling. */
  ghost predicate Droppable(canonical: map<nat, set<Width>>, emitted: set<Variant>, protected: set<Variant>,
                            v: Variant) {
    v !in protected && !IsCanonical(canonical, v) &&
    exists c :: c in Canon(canonical, v.addr) && Variant(v.addr, c) in emitted
  }

  /** Some canonical variant of the address was emitted and leads to no bad body. */
  ghost predicate CanonicalIsSafe(canonical: map<nat, set<Width>>, dirty: set<Variant>, refs: Refs,
                                  emitted: set<Variant>,
                                  banks: set<nat>, gone: set<Variant>, v: Variant)
  {
    exists c :: c in Canon(canonical, v.addr) && Variant(v.addr, c) in emitted &&
                !LeadsToBad(dirty, refs, emitted - gone, banks, Variant(v.addr, c))
  }

  /** The inner loop of a reference-taint pass: taint, drop, and taint again. */
  method ReferenceTaint(canonical: map<nat, set<Width>>, dirty: set<Variant>, refs: Refs, order: seq<Variant>,
                        emitted: set<Variant>, banks: set<nat>, protected: set<Variant>, pruned: set<Variant>)
    returns (dropped: set<Variant>)
    requires forall v :: v in order <==> v in refs
    ensures TaintSettled(canonical, dirty, refs, emitted, banks, protected, pruned, dropped)
  {
    dropped := {};
    var more := true;
    while more
      invariant dropped !! pruned && dropped <= dirty + refs.Keys
      invariant forall v :: v in dropped ==> Droppable(canonical, emitted, protected, v)
      invariant !more ==> TaintSettled(canonical, dirty, refs, emitted, banks, protected, pruned, dropped)
      decreases (dirty + refs.Keys) - dropped, more
    {
      var tainted := PropagateTaint(dirty, refs, order, emitted, banks, pruned + dropped);
      var next := ComputePrunable(tainted, emitted, canonical, protected) - pruned - dropped;
      if next == {} {
        more := false;
        assert forall v :: v !in pruned + dropped ==> v !in ComputePrunable(tainted, emitted, canonical, protected);
      } else {
        dropped := dropped + next;
      }
    }
  }

  // ----- Passes -----

  /** What stays fixed over a build. */
  datatype Build = Build(canonical: map<nat, set<Width>>, banks: set<nat>, skippedRefs: Refs,
                         skippedDirty: set<Variant>, skippedEmitted: set<Variant>, linked: set<Variant>)

  /** What one emit pass observes; `stable` when it promoted and discovered nothing new. */
  datatype Observed = Observed(dirty: set<Variant>, emitted: set<Variant>, refs: Refs, stable: bool)

  datatype PruneState = PruneState(dirty: set<Variant>, emitted: set<Variant>, pruned: set<Variant>)

  function MergeRefs(a: Refs, b: Refs): Refs {
    map v | v in a.Keys + b.Keys :: (if v in a then a[v] else {}) + (if v in b then b[v] else {})
  }

  /** Variants some body that cannot go names directly. */
  function ProtectedIn(bld: Build, dirty: set<Variant>, refs: Refs): set<Variant> {
    ProtectedTargets(MergeRefs(bld.skippedRefs, refs), bld.canonical, dirty + bld.skippedDirty) + bld.linked
  }

  ghost predicate PassStep(bld: Build, s: PruneState, o: Observed, s': PruneState) {
    var dirty, emitted := s.dirty + o.dirty, s.emitted + o.emitted;
    var protected := ProtectedIn(bld, dirty, o.refs);
    var newly := ComputePrunable(dirty, emitted, bld.canonical, protected) - s.pruned;
    && s'.dirty == dirty && s'.emitted == emitted
    && if o.stable && newly == {} then
         s.pruned <= s'.pruned &&
         TaintSettled(bld.canonical, dirty, o.refs, o.emitted + bld.skippedEmitted, bld.banks, protected, s.pruned,
                      s'.pruned - s.pruned)
       else
         s'.pruned == s.pruned + newly
  }

  // ----- What a pass does, in terms of what it observes -----

  /** The widths that the cfg declares for the address of `v` include those of `v`; an address without
      declared widths has the reset width. */
  ghost predicate IsDeclared(bld: Build, v: Variant) {
    if v.addr in bld.canonical && bld.canonical[v.addr] != {} then v.width in bld.canonical[v.addr]
    else v.width == Width(true, true)
  }

  /** The body of `s`, emitted in this pass or skipped, names `t` directly. */
  ghost predicate Names(bld: Build, o: Observed, s: Variant, t: Variant) {
    (s in o.refs && t in o.refs[s]) || (s in bld.skippedRefs && t in bld.skippedRefs[s])
  }

  /** A body that no pass removes: declared, or without a stub marker. */
  ghost predicate IsPermanent(bld: Build, dirty: set<Variant>, s: Variant) {
    IsDeclared(bld, s) || (s !in dirty && s !in bld.skippedDirty)
  }

  /** Something that stays would not link without `v`. */
  ghost predicate MustLink(bld: Build, o: Observed, dirty: set<Variant>, v: Variant) {
    v in bld.linked || exists s :: Names(bld, o, s, v) && IsPermanent(bld, dirty, s)
  }

  /** A declared variant of the same address was emitted without a stub marker. */
  ghost predicate HasCleanSibling(bld: Build, s: PruneState, v: Variant) {
    exists c :: IsDeclared(bld, Variant(v.addr, c)) && Variant(v.addr, c) in s.emitted && Variant(v.addr, c) !in s.dirty
  }

  /** A stub-marked variant in undeclared widths that nothing needs, beside a clean declared one. */
  ghost predicate IsWrongWidth(bld: Build, o: Observed, s: PruneState, v: Variant) {
    v in s.dirty && !IsDeclared(bld, v) && !MustLink(bld, o, s.dirty, v) && HasCleanSibling(bld, s, v)
  }

  /** One pass: what it observed is taken up, nothing is brought back, the wrong-width variants are
      dropped, and nothing that is declared or has to link. Unless the emit is stable and shows no new
      one, exactly these are dropped. */
  ghost predicate IsPass(bld: Build, s: PruneState, o: Observed, s': PruneState) {
    && s'.dirty == s.dirty + o.dirty && s'.emitted == s.emitted + o.emitted && s.pruned <= s'.pruned
    && (forall v :: IsWrongWidth(bld, o, s', v) ==> v in s'.pruned)
    && (forall v :: v in s'.pruned && v !in s.pruned ==> !IsDeclared(bld, v) && !MustLink(bld, o, s'.dirty, v))
    && (!o.stable || (exists v :: IsWrongWidth(bld, o, s', v) && v !in s.pruned) ==>
          forall v :: v in s'.pruned ==> v in s.pruned || IsWrongWidth(bld, o, s', v))
  }

  lemma DeclaredIs(bld: Build, v: Variant)
    ensures IsCanonical(bld.canonical, v) <==> IsDeclared(bld, v)
    ensures forall c :: c in Canon(bld.canonical, v.addr) <==> IsDeclared(bld, Variant(v.addr, c))
  {
  }

  lemma ProtectedIs(bld: Build, o: Observed, dirty: set<Variant>, v: Variant)
    ensures v in ProtectedIn(bld, dirty, o.refs) <==> MustLink(bld, o, dirty, v)
  {
    var refs := MergeRefs(bld.skippedRefs, o.refs);
    forall s
      ensures (s in refs && v in refs[s]) <==> Names(bld, o, s, v)
      ensures IsCanonical(bld.canonical, s) || s !in dirty + bld.skippedDirty <==> IsPermanent(bld, dirty, s)
    {
      DeclaredIs(bld, s);
    }
  }

  lemma PrunableIs(bld: Build, o: Observed, s: PruneState, v: Variant)
    ensures v in ComputePrunable(s.dirty, s.emitted, bld.canonical, ProtectedIn(bld, s.dirty, o.refs)) <==>
            IsWrongWidth(bld, o, s, v)
  {
    DeclaredIs(bld, v);
    ProtectedIs(bld, o, s.dirty, v);
  }

  lemma PassIs(bld: Build, s: PruneState, o: Observed, s': PruneState)
    requires PassStep(bld, s, o, s')
    ensures IsPass(bld, s, o, s')
  {
    var protected := ProtectedIn(bld, s'.dirty, o.refs);
    var prunable := ComputePrunable(s'.dirty, s'.emitted, bld.canonical, protected);
    forall v
      ensures v in prunable <==> IsWrongWidth(bld, o, s', v)
      ensures v in protected <==> MustLink(bld, o, s'.dirty, v)
      ensures IsCanonical(bld.canonical, v) <==> IsDeclared(bld, v)
    {
      PrunableIs(bld, o, s', v);
      ProtectedIs(bld, o, s'.dirty, v);
      DeclaredIs(bld, v);
    }
    PassAdds(bld, s, o, s');
  }

  class Pruner {
    const bld: Build
    var state: PruneState

    constructor (bld: Build)
      ensures this.bld == bld && state == PruneState({}, {}, {})
    {
      this.bld := bld;
      state := PruneState({}, {}, {});
    }

    /** One pass of the prune loop; `done` when it ends the loop. */
    method Pass(o: Observed, order: seq<Variant>) returns (done: bool)
      requires forall v :: v in order <==> v in o.refs
      modifies this
      ensures PassStep(bld, old(state), o, state) && IsPass(bld, old(state), o, state)
      ensures done <==> o.stable && state.pruned == old(state).pruned
    {
      var s := state;
      var dirty, emitted := s.dirty + o.dirty, s.emitted + o.emitted;
      var protected := ProtectedIn(bld, dirty, o.refs);
      var newly := ComputePrunable(dirty, emitted, bld.canonical, protected) - s.pruned;
      var pruned := s.pruned + newly;
      done := false;
      if o.stable && newly == {} {
        var dropped := ReferenceTaint(bld.canonical, dirty, o.refs, order, o.emitted + bld.skippedEmitted, bld.banks,
                                      protected, s.pruned);
        assert (s.pruned + dropped) - s.pruned == dropped;
        pruned := s.pruned + dropped;
        done := dropped == {};
      }
      state := PruneState(dirty, emitted, pruned);
      PassIs(bld, s, o, state);
    }
  }

  /** A build: states joined by passes, starting with nothing pruned. */
  ghost predicate IsRun(bld: Build, obs: seq<Observed>, states: seq<PruneState>) {
    && |states| == |obs| + 1 && states[0].pruned == {}
    && forall i :: 0 <= i < |obs| ==> PassStep(bld, states[i], obs[i], states[i + 1])
  }

  /** A canonical variant of the address that has been emitted. */
  ghost predicate Keeps(bld: Build, s: PruneState, v: Variant, c: Width) {
    c in Canon(bld.canonical, v.addr) && Variant(v.addr, c) in s.emitted + bld.skippedEmitted
  }

  /** A pass removes nothing from the pruned set and adds only variants that are neither canonical
      nor protected in that pass and that keep an emitted canonical sibling. */
  lemma PassAdds(bld: Build, s: PruneState, o: Observed, s': PruneState)
    requires PassStep(bld, s, o, s')
    ensures s.pruned <= s'.pruned && s.emitted <= s'.emitted
    ensures forall v :: v in s'.pruned && v !in s.pruned ==>
              !IsCanonical(bld.canonical, v) && v !in ProtectedIn(bld, s'.dirty, o.refs) &&
              exists c :: Keeps(bld, s', v, c)
  {
    var emitted, protected := o.emitted + bld.skippedEmitted, ProtectedIn(bld, s'.dirty, o.refs);
    var newly := ComputePrunable(s'.dirty, s'.emitted, bld.canonical, protected) - s.pruned;
    forall v | v in s'.pruned && v !in s.pruned
      ensures !IsCanonical(bld.canonical, v) && v !in protected && exists c :: Keeps(bld, s', v, c)
    {
      if o.stable && newly == {} {
        assert v in s'.pruned - s.pruned;
        assert Droppable(bld.canonical, emitted, protected, v);
        var c :| c in Canon(bld.canonical, v.addr) && Variant(v.addr, c) in emitted;
        assert Keeps(bld, s', v, c);
      } else {
        assert v in newly;
        assert HasCleanCanonical(bld.canonical, s'.emitted, s'.dirty, v);
        var c :| c in Canon(bld.canonical, v.addr) && Variant(v.addr, c) in s'.emitted;
        assert Keeps(bld, s', v, c);
      }
    }
  }

  /** Over every build the pruned set only grows and never holds a canonical variant, and each
      address with a pruned variant has an emitted canonical one that no pass ever prunes. */
  lemma {:induction false} PruneNeverStrands(bld: Build, obs: seq<Observed>, states: seq<PruneState>, n: nat)
    requires IsRun(bld, obs, states) && n < |states|
    ensures forall i :: 0 <= i <= n ==> states[i].pruned <= states[n].pruned
    ensures forall v :: v in states[n].pruned ==>
              !IsCanonical(bld.canonical, v) && exists c :: Keeps(bld, states[n], v, c)
    ensures forall a, c, i :: 0 <= i <= n && c in Canon(bld.canonical, a) ==> Variant(a, c) !in states[i].pruned
  {
    if n > 0 {
      PruneNeverStrands(bld, obs, states, n - 1);
      assert PassStep(bld, states[n - 1], obs[n - 1], states[n - 1 + 1]);
      PassAdds(bld, states[n - 1], obs[n - 1], states[n]);
      forall v | v in states[n].pruned
        ensures exists c :: Keeps(bld, states[n], v, c)
      {
        if v in states[n - 1].pruned {
          var c :| Keeps(bld, states[n - 1], v, c);
          assert Keeps(bld, states[n], v, c);
        }
      }
    }
  }
}
