/** Where calls go after pruning: the survivor map and the runtime dispatch on (M, X). */
module Routing {
  import opened Machine
  import opened Prune

  type Survivors = map<nat, set<Width>>

  /** The survivor set recorded for an address or for its mirror. */
  function Recorded(valid: Survivors, addr: nat): set<Width> {
    var a := addr % 0x1000000;
    if a in valid then valid[a]
    else if HasMirror(a) && Mirror(a) in valid then valid[Mirror(a)]
    else {}
  }

  function KeepWidths(all: seq<Width>, s: set<Width>): (r: seq<Width>)
    ensures forall w :: w in r <==> w in all && w in s
  {
    if all == [] then [] else (if all[0] in s then [all[0]] else []) + KeepWidths(all[1..], s)
  }

  /** The variants a dispatch switch may name, in canonical order. */
  function ValidVariants(valid: Survivors, addr: nat): seq<Width> {
    if valid == map[] || Recorded(valid, addr) == {} then ALL_WIDTHS
    else KeepWidths(ALL_WIDTHS, Recorded(valid, addr))
  }

  /** For widths `w`, `s` comes before `t`: it has the accumulator width and `t` has not, or they agree on
      that and it has the index width and `t` has not. */
  predicate IsCloser(w: Width, s: Width, t: Width) {
    if (s.m == w.m) == (t.m == w.m) then s.x == w.x && t.x != w.x else s.m == w.m
  }

  /** A wrong accumulator width costs more than a wrong index width. */
  function Cost(s: Width, w: Width): nat {
    (if s.m == w.m then 0 else 2) + (if s.x == w.x then 0 else 1)
  }

  function Nearest(survivors: seq<Width>, w: Width): Option<Width> {
    if survivors == [] then None
    else
      var last := survivors[|survivors| - 1];
      match Nearest(survivors[..|survivors| - 1], w)
      case None => Some(last)
      case Some(best) => if Cost(last, w) < Cost(best, w) then Some(last) else Some(best)
  }

  lemma CostIs(w: Width, s: Width, t: Width)
    ensures Cost(s, w) < Cost(t, w) <==> IsCloser(w, s, t)
  {
  }

  /** The running minimum of `_nearest_survivor`. */
  method NearestSurvivor(survivors: seq<Width>, w: Width) returns (best: Option<Width>)
    ensures best == Nearest(survivors, w)
    ensures best.None? <==> survivors == []
    ensures survivors != [] ==> best.value in survivors
    ensures survivors != [] ==> forall s :: s in survivors ==> !IsCloser(w, s, best.value)
  {
    best := None;
    var i := 0;
    while i < |survivors|
      invariant 0 <= i <= |survivors| && best == Nearest(survivors[..i], w)
    {
      var s := survivors[i];
      if best.None? || Cost(s, w) < Cost(best.value, w) {
        best := Some(s);
      }
      assert survivors[..i + 1][..i] == survivors[..i];
      i := i + 1;
    }
    assert survivors[..|survivors|] == survivors;
    NearestMinimal(survivors, w);
  }

  lemma {:induction false} NearestMinimal(survivors: seq<Width>, w: Width)
    ensures Nearest(survivors, w).None? <==> survivors == []
    ensures survivors != [] ==> Nearest(survivors, w).value in survivors
    ensures forall s :: s in survivors ==> !IsCloser(w, s, Nearest(survivors, w).value)
    ensures forall s :: s in survivors ==>
              s == Nearest(survivors, w).value || IsCloser(w, Nearest(survivors, w).value, s)
    decreases |survivors|
  {
    if survivors != [] {
      var front, last := survivors[..|survivors| - 1], survivors[|survivors| - 1];
      NearestMinimal(front, w);
      if front != [] { CostIs(w, last, Nearest(front, w).value); }
      forall s | s in survivors
        ensures s in front || s == last
      {
        assert survivors == front + [last];
      }
    }
  }

  /** The variant a direct call names. */
  function ResolveVariant(valid: Survivors, addr: nat, w: Width): Width {
    var survivors := ValidVariants(valid, addr);
    if survivors == [] || w in survivors then w
    else match Nearest(survivors, w)
      case None => w
      case Some(best) => best
  }

  /** The variant the runtime switch calls when the CPU is in widths `w`; `None` when it emits no case. */
  function SwitchCase(valid: Survivors, addr: nat, w: Width): Option<Width> {
    var survivors := ValidVariants(valid, addr);
    if w in survivors then Some(w) else Nearest(survivors, w)
  }

  function SwitchDefault(valid: Survivors, addr: nat): Option<Width> {
    Nearest(ValidVariants(valid, addr), WIDE)
  }

  /** With survivors on record, every mode and the default run a survivor: the exact one if it
      survives, else one of least cost; and a direct call names the same variant as the switch. */
  lemma RoutesToSurvivor(valid: Survivors, addr: nat, w: Width)
    requires Recorded(valid, addr) != {}
    ensures var alive := Recorded(valid, addr);
            var case' := SwitchCase(valid, addr, w);
            && case'.Some? && case'.value in alive
            && (w in alive ==> case'.value == w)
            && (forall s :: s in alive && s != case'.value ==> IsCloser(w, case'.value, s))
            && ResolveVariant(valid, addr, w) == case'.value
    ensures var alive, default := Recorded(valid, addr), SwitchDefault(valid, addr);
            default.Some? && default.value in alive &&
            forall s :: s in alive && s != default.value ==> IsCloser(WIDE, default.value, s)
  {
    var survivors := ValidVariants(valid, addr);
    forall s | s in Recorded(valid, addr)
      ensures s in survivors
    {
      assert ALL_WIDTHS[WidthIndex(s)] == s;
    }
    NearestMinimal(survivors, w);
    NearestMinimal(survivors, WIDE);
  }

  /** The survivors of an address are those recorded for it or, if there is no record of it, those of
      its mirror. */
  lemma RecordedIs(valid: Survivors, a: nat)
    requires a < 0x1000000
    ensures a in valid ==> Recorded(valid, a) == valid[a]
    ensures a !in valid ==> forall m :: MirrorsOf(a, m) && m in valid ==> Recorded(valid, a) == valid[m]
    ensures a !in valid && (forall m :: MirrorsOf(a, m) ==> m !in valid) ==> Recorded(valid, a) == {}
  {
    forall m
      ensures HasMirror(a) && m == Mirror(a) <==> MirrorsOf(a, m)
    {
      MirrorIs(a, m);
    }
  }

  /** Without a record every mode runs its own variant, and so does a direct call. */
  lemma UnrecordedRoutes(valid: Survivors, addr: nat, w: Width)
    requires Recorded(valid, addr) == {}
    ensures SwitchCase(valid, addr, w) == Some(w) && ResolveVariant(valid, addr, w) == w
  {
    assert ALL_WIDTHS[WidthIndex(w)] == w;
  }

  // ----- The survivor map -----

  datatype Entry = Entry(start: nat, width: Width)

  /** The entries of one cfg bank. */
  datatype Declared = Declared(bank: nat, entries: seq<Entry>)

  /** The cfg of one bank, whose entry list a prune replaces. */
  class BankCfg {
    const bank: nat
    var entries: seq<Entry>

    constructor (bank: nat, entries: seq<Entry>)
      ensures this.bank == bank && this.entries == entries
    {
      this.bank, this.entries := bank, entries;
    }

    function Kept(pruned: set<Variant>, es: seq<Entry>): seq<Entry> {
      KeptEntries(bank, pruned, es)
    }

    function Value(): Declared
      reads this
    {
      Declared(bank, entries)
    }
  }

  function EntryAddr(bank: nat, e: Entry): nat {
    bank * 0x10000 + e.start % 0x10000
  }

  /** The entry belongs to a pruned variant of its bank. */
  predicate PrunedEntry(bank: nat, pruned: set<Variant>, e: Entry) {
    exists v :: v in pruned && Bank(v.addr) == bank && v.addr % 0x10000 == e.start % 0x10000 && v.width == e.width
  }

  function KeptEntries(bank: nat, pruned: set<Variant>, es: seq<Entry>): (r: seq<Entry>)
    ensures forall e :: e in r <==> e in es && !PrunedEntry(bank, pruned, e)
  {
    if es == [] then []
    else (if PrunedEntry(bank, pruned, es[0]) then [] else [es[0]]) + KeptEntries(bank, pruned, es[1..])
  }

  function WidthsAt(valid: Survivors, a: nat): set<Width> {
    if a in valid then valid[a] else {}
  }

  /** One of the first `n` entries of a bank declares address `a` at width `w`. */
  ghost predicate Entered(bank: nat, entries: seq<Entry>, n: nat, a: nat, w: Width)
    requires n <= |entries|
  {
    exists k :: 0 <= k < n && EntryAddr(bank, entries[k]) == a && entries[k].width == w
  }

  /** One of the first `n` banks does. */
  ghost predicate Declares(cfgs: seq<Declared>, n: nat, a: nat, w: Width)
    requires n <= |cfgs|
  {
    exists i :: 0 <= i < n && Entered(cfgs[i].bank, cfgs[i].entries, |cfgs[i].entries|, a, w)
  }

  /** Adds the entries of one bank to the survivor map, leaving preserved addresses alone. */
  method AddEntries(start: Survivors, preserved: Survivors, bank: nat, entries: seq<Entry>) returns (valid: Survivors)
    ensures forall a, w :: w in WidthsAt(valid, a) <==>
              w in WidthsAt(start, a) || (a !in preserved && Entered(bank, entries, |entries|, a, w))
  {
    valid := start;
    var j := 0;
    while j < |entries|
      invariant 0 <= j <= |entries|
      invariant forall a, w :: w in WidthsAt(valid, a) <==>
                  w in WidthsAt(start, a) || (a !in preserved && Entered(bank, entries, j, a, w))
    {
      var e := entries[j];
      var a := EntryAddr(bank, e);
      if a !in preserved {
        valid := valid[a := WidthsAt(valid, a) + {e.width}];
      }
      forall a, w
        ensures Entered(bank, entries, j + 1, a, w) <==>
                Entered(bank, entries, j, a, w) || (EntryAddr(bank, e) == a && e.width == w)
      {
        assert entries[j] == e;
      }
      j := j + 1;
    }
  }

  /** The survivor map: preserved addresses as they are, all others from the entries. */
  method BuildSurvivors(cfgs: seq<Declared>, preserved: Survivors) returns (valid: Survivors)
    ensures forall a, w :: w in WidthsAt(valid, a) <==>
              w in WidthsAt(preserved, a) || (a !in preserved && Declares(cfgs, |cfgs|, a, w))
  {
    valid := preserved;
    var i := 0;
    while i < |cfgs|
      invariant 0 <= i <= |cfgs|
      invariant forall a, w :: w in WidthsAt(valid, a) <==>
                  w in WidthsAt(preserved, a) || (a !in preserved && Declares(cfgs, i, a, w))
    {
      valid := AddEntries(valid, preserved, cfgs[i].bank, cfgs[i].entries);
      i := i + 1;
    }
  }

  /** Drops the entries of pruned variants and rebuilds the survivor map from what is left. */
  method ApplyPrune(parsed: seq<BankCfg>, pruned: set<Variant>, preserved: Survivors)
    returns (valid: Survivors, left: seq<Declared>)
    requires forall i, j :: 0 <= i < j < |parsed| ==> parsed[i] != parsed[j]
    modifies set c | c in parsed
    ensures |left| == |parsed| && forall i :: 0 <= i < |parsed| ==> left[i] == parsed[i].Value()
    ensures forall i :: 0 <= i < |parsed| ==>
              left[i] == Declared(parsed[i].bank, KeptEntries(parsed[i].bank, pruned, old(parsed[i].entries)))
    ensures forall a, w :: w in WidthsAt(valid, a) <==>
              w in WidthsAt(preserved, a) || (a !in preserved && Declares(left, |left|, a, w))
  {
    var i := 0;
    left := [];
    while i < |parsed|
      invariant 0 <= i <= |parsed| && |left| == i
      invariant forall k :: 0 <= k < i ==> left[k] == parsed[k].Value()
      invariant forall k :: 0 <= k < i ==> parsed[k].entries == parsed[k].Kept(pruned, old(parsed[k].entries))
      invariant forall k :: i <= k < |parsed| ==> parsed[k].entries == old(parsed[k].entries)
    {
      var cfg := parsed[i];
      cfg.entries := cfg.Kept(pruned, cfg.entries);
      left := left + [cfg.Value()];
      i := i + 1;
    }
    valid := BuildSurvivors(left, preserved);
  }

  /** `left` is the cfg with the entries of pruned variants taken out. */
  ghost predicate Pruned(before: seq<Declared>, left: seq<Declared>, pruned: set<Variant>) {
    && |left| == |before|
    && (forall i :: 0 <= i < |left| ==> before[i].bank < 0x100)
    && (forall i :: 0 <= i < |left| ==>
          left[i] == Declared(before[i].bank, KeptEntries(before[i].bank, pruned, before[i].entries)))
  }

  lemma KeptNotPruned(bank: nat, pruned: set<Variant>, es: seq<Entry>, a: nat, w: Width)
    requires bank < 0x100 && Entered(bank, KeptEntries(bank, pruned, es), |KeptEntries(bank, pruned, es)|, a, w)
    ensures Variant(a, w) !in pruned
  {
    var kept := KeptEntries(bank, pruned, es);
    var k :| 0 <= k < |kept| && EntryAddr(bank, kept[k]) == a && kept[k].width == w;
    var e := kept[k];
    assert e in kept;
    assert Bank(a) == bank && a % 0x10000 == e.start % 0x10000;
  }

  /** After a prune, a switch or a direct call at an address of the cfg names no pruned variant as
      long as one variant of that address is left with an entry. */
  lemma RoutesAvoidPruned(before: seq<Declared>, left: seq<Declared>, pruned: set<Variant>, preserved: Survivors,
                          valid: Survivors, a: nat, alive: Width, w: Width)
    requires Pruned(before, left, pruned)
    requires forall a, w :: w in WidthsAt(valid, a) <==>
               w in WidthsAt(preserved, a) || (a !in preserved && Declares(left, |left|, a, w))
    requires a < 0x1000000 && a !in preserved && Declares(left, |left|, a, alive)
    ensures SwitchCase(valid, a, w).Some? && Variant(a, SwitchCase(valid, a, w).value) !in pruned
    ensures ResolveVariant(valid, a, w) == SwitchCase(valid, a, w).value
  {
    assert alive in WidthsAt(valid, a);
    assert Recorded(valid, a) == WidthsAt(valid, a);
    RoutesToSurvivor(valid, a, w);
    var u := SwitchCase(valid, a, w).value;
    assert Declares(left, |left|, a, u);
    var i :| 0 <= i < |left| && Entered(left[i].bank, left[i].entries, |left[i].entries|, a, u);
    KeptNotPruned(before[i].bank, pruned, before[i].entries, a, u);
  }

  lemma SameAddr(a: nat, b: nat)
    requires a < 0x1000000 && Bank(a) == b / 0x10000 && a % 0x10000 == b % 0x10000
    ensures a == b
  {
  }

  lemma UnprunedKept(before: seq<Declared>, left: seq<Declared>, pruned: set<Variant>, a: nat, w: Width)
    requires Pruned(before, left, pruned) && forall v :: v in pruned ==> v.addr < 0x1000000
    requires Declares(before, |before|, a, w) && Variant(a, w) !in pruned
    ensures Declares(left, |left|, a, w)
  {
    var i :| 0 <= i < |before| && Entered(before[i].bank, before[i].entries, |before[i].entries|, a, w);
    var bank, es := before[i].bank, before[i].entries;
    var k :| 0 <= k < |es| && EntryAddr(bank, es[k]) == a && es[k].width == w;
    var e := es[k];
    if PrunedEntry(bank, pruned, e) {
      var v :| v in pruned && Bank(v.addr) == bank && v.addr % 0x10000 == e.start % 0x10000 && v.width == e.width;
      SameAddr(v.addr, a);
      assert false;
    }
    var kept := KeptEntries(bank, pruned, es);
    assert e in kept;
    var j :| 0 <= j < |kept| && kept[j] == e;
    assert Entered(bank, kept, |kept|, a, w);
    assert left[i] == Declared(bank, kept);
  }

  /** An address with preserved survivors routes to one of them, whatever was pruned. */
  lemma PreservedRoutes(left: seq<Declared>, preserved: Survivors, valid: Survivors, a: nat, w: Width)
    requires forall a, w :: w in WidthsAt(valid, a) <==>
               w in WidthsAt(preserved, a) || (a !in preserved && Declares(left, |left|, a, w))
    requires a < 0x1000000 && WidthsAt(preserved, a) != {}
    ensures SwitchCase(valid, a, w).Some? && SwitchCase(valid, a, w).value in preserved[a]
    ensures ResolveVariant(valid, a, w) == SwitchCase(valid, a, w).value
  {
    var alive :| alive in WidthsAt(preserved, a);
    assert alive in WidthsAt(valid, a);
    assert Recorded(valid, a) == WidthsAt(valid, a);
    RoutesToSurvivor(valid, a, w);
  }

  /** At the end of any build, an address that lost variants still routes every runtime mode, and
      every direct call: to a preserved survivor if it has some, and otherwise to a variant that was
      not pruned, provided a canonical one that was emitted still has its entry. */
  lemma EveryModeStillRoutes(bld: Build, obs: seq<Observed>, states: seq<PruneState>, before: seq<Declared>,
                             left: seq<Declared>, preserved: Survivors, valid: Survivors, v: Variant, w: Width)
    requires IsRun(bld, obs, states)
    requires var s := states[|states| - 1];
             && v in s.pruned && (forall u :: u in s.pruned ==> u.addr < 0x1000000) && Pruned(before, left, s.pruned)
             && if v.addr in preserved then preserved[v.addr] != {}
                else exists c :: Keeps(bld, s, v, c) && Declares(before, |before|, v.addr, c)
    requires forall a, w :: w in WidthsAt(valid, a) <==>
               w in WidthsAt(preserved, a) || (a !in preserved && Declares(left, |left|, a, w))
    ensures var s, case' := states[|states| - 1], SwitchCase(valid, v.addr, w);
            && case'.Some? && ResolveVariant(valid, v.addr, w) == case'.value
            && if v.addr in preserved then case'.value in preserved[v.addr]
               else Variant(v.addr, case'.value) !in s.pruned
  {
    var n := |states| - 1;
    if v.addr in preserved {
      PreservedRoutes(left, preserved, valid, v.addr, w);
    } else {
      var c :| Keeps(bld, states[n], v, c) && Declares(before, |before|, v.addr, c);
      PruneNeverStrands(bld, obs, states, n);
      UnprunedKept(before, left, states[n].pruned, v.addr, c);
      RoutesAvoidPruned(before, left, states[n].pruned, preserved, valid, v.addr, c, w);
    }
  }
}
