/** Exit-mode inference: re-deriving the exit widths of every entry, pass after pass, until a pass
    changes nothing. */
module ExitModes {
  import opened Machine
  import opened Decoder
  import opened Dedupe
  import opened ConstZFold
  import opened ExitAnalysis
  import opened ModeMachine
  import opened ExitSoundness

  const MAX_PASSES := 12

  /** A hand-written exit annotation, for all four entry widths. */
  datatype Hint = Hint(bank: nat, addr: nat, exit: Width)

  /** A recorded exit that differs from its entry widths. */
  datatype Fix = Fix(site: Site, exit: Width)

  // ----- Deriving one exit -----

  /** Decoding fails, or the exits have no common widths. */
  ghost predicate Underivable(world: World, exits: Exits, e: Entry, w: Width) {
    || (exists out :: DecodesTo(EnvFor(world, exits, e, w), out) && !out.Decoded?)
    || (exists raw, merged, folded ::
          Stages(EnvFor(world, exits, e, w), raw, merged, folded) && NoCommonExit(folded, exits))
  }

  ghost predicate NoCommonExit(folded: Graph, exits: Exits) {
    forall pair: Width :: !(CommonM(folded, exits, pair.m) && CommonX(folded, exits, pair.x))
  }

  method DecodeVariantExit(world: World, exits: Exits, e: Entry, w: Width) returns (pair: Option<Width>)
    ensures pair.Some? ==> Derives(world, exits, e, w, pair.value)
    ensures pair.None? ==> Underivable(world, exits, e, w)
  {
    var env := EnvFor(world, exits, e, w);
    var out := DecodeFunction(env);
    if !out.Decoded? {
      return None;
    }
    var raw := Graph(Seed(env).key, out.order, out.insns);
    var merged := Merge(raw);
    var folded := Fold(merged);
    assert Stages(env, raw, merged, folded);
    var m, x := Analyze(folded, exits);
    if m.None? || x.None? {
      assert NoCommonExit(folded, exits);
      return None;
    }
    return Some(Width(m.value, x.value));
  }

  // ----- One pass -----

  /** The record of an entry is a seed, or what decoding under the table derives. */
  ghost predicate Settled(world: World, exits: Exits, seeds: Exits, e: Entry, w: Width) {
    || SiteOf(e, w) in seeds
    || (if SiteOf(e, w) in exits then Derives(world, exits, e, w, exits[SiteOf(e, w)])
        else Underivable(world, exits, e, w))
  }

  ghost predicate SeedsKept(exits: Exits, seeds: Exits) {
    forall s :: s in seeds ==> s in exits && exits[s] == seeds[s]
  }

  /** Only seeds and named entries have records. */
  ghost predicate Backed(world: World, exits: Exits, seeds: Exits) {
    forall s :: s in exits ==> s in seeds || exists e :: e in world.entries && e.named && SiteOf(e, s.width) == s
  }

  ghost predicate Legal(world: World, exits: Exits, seeds: Exits) {
    SeedsKept(exits, seeds) && Backed(world, exits, seeds)
  }

  /** What `exits` says about a variant is what decoding under the table `under` gives. */
  ghost predicate Answers(world: World, under: Exits, exits: Exits, e: Entry, w: Width) {
    if SiteOf(e, w) in exits then Derives(world, under, e, w, exits[SiteOf(e, w)]) else Underivable(world, under, e, w)
  }

  ghost predicate SameBut(exits: Exits, exits': Exits, site: Site) {
    forall s :: s != site ==> (s in exits' <==> s in exits) && (s in exits ==> exits'[s] == exits[s])
  }

  /** The table before and after one variant is re-derived: seeds and unnamed entries are passed over. */
  ghost predicate Rederived(world: World, seeds: Exits, exits: Exits, exits': Exits, e: Entry, w: Width) {
    && SameBut(exits, exits', SiteOf(e, w))
    && if e.named && SiteOf(e, w) !in seeds then Answers(world, exits, exits', e, w) else exits' == exits
  }

  lemma StaysLegal(world: World, seeds: Exits, exits: Exits, exits': Exits, e: Entry, w: Width)
    requires Legal(world, exits, seeds) && e in world.entries && e.named && SiteOf(e, w) !in seeds
    requires SameBut(exits, exits', SiteOf(e, w))
    ensures Legal(world, exits', seeds)
  {
    forall s | s in exits'
      ensures s in seeds || exists e :: e in world.entries && e.named && SiteOf(e, s.width) == s
    {
      if s == SiteOf(e, w) { assert SiteOf(e, s.width) == s; }
    }
  }

  /** Stores what was derived for a site, or drops its record. */
  method Store(exits: Exits, site: Site, pair: Option<Width>) returns (exits': Exits, dirty: bool)
    ensures SameBut(exits, exits', site) && (dirty <==> exits' != exits)
    ensures if pair.Some? then site in exits' && exits'[site] == pair.value else site !in exits'
  {
    exits', dirty := exits, false;
    if pair.None? {
      if site in exits {
        exits', dirty := exits - {site}, true;
      }
    } else if site !in exits || exits[site] != pair.value {
      exits', dirty := exits[site := pair.value], true;
    }
  }

  /** Re-derives one variant; `dirty` when its record changed. */
  method Reroute(world: World, seeds: Exits, exits: Exits, e: Entry, w: Width) returns (exits': Exits, dirty: bool)
    requires Legal(world, exits, seeds) && e in world.entries
    ensures Legal(world, exits', seeds) && Rederived(world, seeds, exits, exits', e, w)
    ensures dirty <==> exits' != exits
  {
    exits', dirty := exits, false;
    var site := SiteOf(e, w);
    if e.named && site !in seeds {
      var pair := DecodeVariantExit(world, exits, e, w);
      exits', dirty := Store(exits, site, pair);
      StaysLegal(world, seeds, exits, exits', e, w);
      PairAnswers(world, seeds, exits, exits', e, w, pair);
    }
  }

  lemma PairAnswers(world: World, seeds: Exits, exits: Exits, exits': Exits, e: Entry, w: Width, pair: Option<Width>)
    requires e.named && SiteOf(e, w) !in seeds && SameBut(exits, exits', SiteOf(e, w))
    requires if pair.Some? then Derives(world, exits, e, w, pair.value) else Underivable(world, exits, e, w)
    requires if pair.Some? then SiteOf(e, w) in exits' && exits'[SiteOf(e, w)] == pair.value
             else SiteOf(e, w) !in exits'
    ensures Rederived(world, seeds, exits, exits', e, w)
  {
  }

  /** The tables of the first `n` variants of a pass, one after the other. */
  ghost predicate PassedUpTo(world: World, seeds: Exits, tables: seq<Exits>, n: nat)
    requires n <= 4 * |world.entries|
  {
    |tables| == n + 1 && forall j :: 0 <= j < n ==> StepAt(world, seeds, tables, j)
  }

  /** Step number `j` of a pass re-derives variant number `j`: entries in order, each in four widths. */
  ghost predicate StepAt(world: World, seeds: Exits, tables: seq<Exits>, j: nat) {
    && j < |tables| - 1 && j < 4 * |world.entries|
    && Rederived(world, seeds, tables[j], tables[j + 1], world.entries[j / 4], ALL_WIDTHS[j % 4])
  }

  /** The tables of a whole pass. */
  ghost predicate IsPass(world: World, seeds: Exits, tables: seq<Exits>) {
    PassedUpTo(world, seeds, tables, 4 * |world.entries|)
  }

  lemma StepGives(world: World, seeds: Exits, tables: seq<Exits>, j: nat, e: Entry, w: Width)
    requires IsPass(world, seeds, tables) && j < 4 * |world.entries|
    requires e == world.entries[j / 4] && e.named && w == ALL_WIDTHS[j % 4] && SiteOf(e, w) !in seeds
    ensures Answers(world, tables[j], tables[j + 1], e, w) && SameBut(tables[j], tables[j + 1], SiteOf(e, w))
  {
    assert StepAt(world, seeds, tables, j);
  }

  /** A pass changed some record on the way. */
  ghost predicate Changes(tables: seq<Exits>) {
    exists j :: 0 <= j < |tables| - 1 && tables[j + 1] != tables[j]
  }

  lemma PassGrows(world: World, seeds: Exits, tables: seq<Exits>, n: nat, next: Exits)
    requires n < 4 * |world.entries| && PassedUpTo(world, seeds, tables, n)
    requires Rederived(world, seeds, tables[n], next, world.entries[n / 4], ALL_WIDTHS[n % 4])
    ensures PassedUpTo(world, seeds, tables + [next], n + 1)
  {
    var more := tables + [next];
    forall j | 0 <= j < n + 1
      ensures StepAt(world, seeds, more, j)
    {
      if j < n { assert StepAt(world, seeds, tables, j) && more[j] == tables[j] && more[j + 1] == tables[j + 1]; }
    }
  }

  lemma ChangesMore(tables: seq<Exits>, next: Exits)
    requires tables != []
    ensures Changes(tables + [next]) <==> Changes(tables) || next != tables[|tables| - 1]
  {
    var more, n := tables + [next], |tables| - 1;
    if Changes(tables) {
      var j :| 0 <= j < n && tables[j + 1] != tables[j];
      assert more[j] == tables[j] && more[j + 1] == tables[j + 1];
    }
    assert more[n] == tables[n] && more[n + 1] == next;
  }

  lemma {:induction false} Unchanged(tables: seq<Exits>, j: nat)
    requires j < |tables| && !Changes(tables)
    ensures tables[j] == tables[0]
    decreases j
  {
    if j > 0 {
      Unchanged(tables, j - 1);
      assert tables[j - 1 + 1] == tables[j - 1];
    }
  }

  /** A pass that changes nothing leaves every named entry settled. */
  lemma QuietIsClean(world: World, seeds: Exits, tables: seq<Exits>)
    requires IsPass(world, seeds, tables) && !Changes(tables)
    ensures tables[|tables| - 1] == tables[0] && Clean(world, tables[0], seeds)
  {
    Unchanged(tables, |tables| - 1);
    forall i, w | 0 <= i < |world.entries| && world.entries[i].named
      ensures Settled(world, tables[0], seeds, world.entries[i], w)
    {
      var j := 4 * i + WidthIndex(w);
      assert j / 4 == i && j % 4 == WidthIndex(w);
      assert StepAt(world, seeds, tables, j);
      Unchanged(tables, j);
      Unchanged(tables, j + 1);
    }
  }

  /** Some named entry at a site, in the site's widths, has the answer that decoding gave under one of
      the tables. */
  ghost predicate Answered(world: World, tables: seq<Exits>, exits: Exits, site: Site) {
    exists e, j :: e in world.entries && e.named && SiteOf(e, site.width) == site && 0 <= j < |tables| - 1 &&
                   Answers(world, tables[j], exits, e, site.width)
  }

  /** Variant number `j` of a pass is a named entry at `site`. */
  predicate Visits(world: World, j: nat, site: Site) {
    j < 4 * |world.entries| && world.entries[j / 4].named && SiteOf(world.entries[j / 4], ALL_WIDTHS[j % 4]) == site
  }

  /** Both tables say the same about a site. */
  predicate SameAt(exits: Exits, exits': Exits, site: Site) {
    (site in exits' <==> site in exits) && (site in exits ==> exits'[site] == exits[site])
  }

  lemma StepKeeps(world: World, seeds: Exits, tables: seq<Exits>, j: nat, site: Site)
    requires IsPass(world, seeds, tables) && j < |tables| - 1 && !Visits(world, j, site)
    ensures SameAt(tables[j], tables[j + 1], site)
  {
    assert StepAt(world, seeds, tables, j);
  }

  /** What a site has when no later variant of the pass is at it. */
  lemma {:induction false} StaysSame(world: World, seeds: Exits, tables: seq<Exits>, j: nat, n: nat, site: Site)
    requires IsPass(world, seeds, tables) && j <= n < |tables|
    requires forall i: nat :: j <= i < n ==> !Visits(world, i, site)
    ensures SameAt(tables[j], tables[n], site)
    decreases n
  {
    if j < n {
      StaysSame(world, seeds, tables, j, n - 1, site);
      StepKeeps(world, seeds, tables, n - 1, site);
    }
  }

  lemma {:induction false} LastVisit(world: World, j: nat, n: nat, site: Site) returns (last: nat)
    requires j < n && Visits(world, j, site)
    ensures j <= last < n && Visits(world, last, site) && forall i: nat :: last < i < n ==> !Visits(world, i, site)
    decreases n
  {
    if Visits(world, n - 1, site) { last := n - 1; } else { last := LastVisit(world, j, n - 1, site); }
  }

  lemma VisitAnswers(world: World, seeds: Exits, tables: seq<Exits>, j: nat, exits: Exits, site: Site)
    requires IsPass(world, seeds, tables) && j < |tables| - 1 && Visits(world, j, site) && site !in seeds
    requires SameAt(tables[j + 1], exits, site)
    ensures Answered(world, tables, exits, site)
  {
    var e := world.entries[j / 4];
    assert StepAt(world, seeds, tables, j);
    assert e in world.entries && Answers(world, tables[j], exits, e, site.width);
  }

  /** After any pass, clean or not, each named unseeded variant has the record that was derived for it
      under a table of that pass, or none because none could be derived. */
  lemma PassAnswers(world: World, seeds: Exits, tables: seq<Exits>, e: Entry, w: Width)
    requires IsPass(world, seeds, tables) && e in world.entries && e.named && SiteOf(e, w) !in seeds
    ensures Answered(world, tables, tables[|tables| - 1], SiteOf(e, w))
  {
    var i :| 0 <= i < |world.entries| && world.entries[i] == e;
    var j, n := 4 * i + WidthIndex(w), |tables| - 1;
    assert j / 4 == i && j % 4 == WidthIndex(w);
    var last := LastVisit(world, j, n, SiteOf(e, w));
    StaysSame(world, seeds, tables, last + 1, n, SiteOf(e, w));
    VisitAnswers(world, seeds, tables, last, tables[n], SiteOf(e, w));
  }

  method Pass(world: World, seeds: Exits, exits: Exits) returns (exits': Exits, dirty: bool, ghost tables: seq<Exits>)
    requires Legal(world, exits, seeds)
    ensures Legal(world, exits', seeds)
    ensures IsPass(world, seeds, tables) && tables[0] == exits && tables[|tables| - 1] == exits'
    ensures dirty <==> Changes(tables)
  {
    exits', dirty, tables := exits, false, [exits];
    var j := 0;
    while j < 4 * |world.entries|
      invariant 0 <= j <= 4 * |world.entries| && Legal(world, exits', seeds)
      invariant PassedUpTo(world, seeds, tables, j) && tables[0] == exits && tables[j] == exits'
      invariant dirty <==> Changes(tables)
    {
      var next, changed := Reroute(world, seeds, exits', world.entries[j / 4], ALL_WIDTHS[j % 4]);
      PassGrows(world, seeds, tables, j, next);
      ChangesMore(tables, next);
      exits', dirty, tables := next, dirty || changed, tables + [next];
      j := j + 1;
    }
  }

  ghost predicate CleanUpTo(world: World, exits: Exits, seeds: Exits, n: nat)
    requires n <= |world.entries|
  {
    forall i, w :: 0 <= i < n && world.entries[i].named ==> Settled(world, exits, seeds, world.entries[i], w)
  }

  /** Nothing would change: every named entry is settled. */
  ghost predicate Clean(world: World, exits: Exits, seeds: Exits) {
    CleanUpTo(world, exits, seeds, |world.entries|)
  }

  lemma CleanConsistent(world: World, exits: Exits, seeds: Exits)
    requires Clean(world, exits, seeds)
    ensures Consistent(world, exits, seeds)
  {
    forall e, w | e in world.entries && e.named && SiteOf(e, w) !in seeds && SiteOf(e, w) in exits
      ensures Derives(world, exits, e, w, exits[SiteOf(e, w)])
    {
      var i :| 0 <= i < |world.entries| && world.entries[i] == e;
      assert Settled(world, exits, seeds, world.entries[i], w);
    }
  }

  // ----- Seeds -----

  function HintPc(h: Hint): nat {
    Addr24(h.bank, h.addr)
  }

  /** A hint names the bank and the offset of an address. */
  predicate IsFor(h: Hint, pc: nat) {
    pc < 0x1000000 && Bank(pc) == h.bank % 0x100 && pc % 0x10000 == h.addr % 0x10000
  }

  lemma HintPcIs(h: Hint, pc: nat)
    ensures IsFor(h, pc) <==> pc == HintPc(h)
  {
    ShortParts(h.bank % 0x100, h.addr);
    SplitAddress(pc, HintPc(h));
  }

  /** The last hint for an address. */
  function LastHint(hints: seq<Hint>, pc: nat): Option<Width> {
    if hints == [] then None
    else if IsFor(Last(hints), pc) then Some(Last(hints).exit)
    else LastHint(Rest(hints), pc)
  }

  /** The seeds are the hints, for every entry width, a later hint replacing an earlier one. */
  ghost predicate Seeds(hints: seq<Hint>, seeds: Exits) {
    forall s: Site :: LastHint(hints, s.pc) == if s in seeds then Some(seeds[s]) else None
  }

  function Broadcast(seeds: Exits, pc: nat, exit: Width): Exits {
    seeds[Site(pc, ALL_WIDTHS[0]) := exit][Site(pc, ALL_WIDTHS[1]) := exit]
         [Site(pc, ALL_WIDTHS[2]) := exit][Site(pc, ALL_WIDTHS[3]) := exit]
  }

  lemma BroadcastIs(seeds: Exits, pc: nat, exit: Width, s: Site)
    ensures s in Broadcast(seeds, pc, exit) <==> s in seeds || s.pc == pc
    ensures s in Broadcast(seeds, pc, exit) ==> Broadcast(seeds, pc, exit)[s] == if s.pc == pc then exit else seeds[s]
  {
    assert s.width == ALL_WIDTHS[0] || s.width == ALL_WIDTHS[1] || s.width == ALL_WIDTHS[2] || s.width == ALL_WIDTHS[3];
    assert s == Site(s.pc, s.width);
  }

  method SeedExits(hints: seq<Hint>) returns (seeds: Exits)
    ensures Seeds(hints, seeds)
  {
    seeds := map[];
    var i := 0;
    while i < |hints|
      invariant 0 <= i <= |hints| && Seeds(hints[..i], seeds)
    {
      var h, was := hints[i], hints[..i];
      assert Rest(hints[..i + 1]) == was && Last(hints[..i + 1]) == h;
      var next := Broadcast(seeds, HintPc(h), h.exit);
      forall s: Site
        ensures LastHint(hints[..i + 1], s.pc) == if s in next then Some(next[s]) else None
      {
        BroadcastIs(seeds, HintPc(h), h.exit, s);
        HintPcIs(h, s.pc);
        assert LastHint(was, s.pc) == if s in seeds then Some(seeds[s]) else None;
      }
      seeds := next;
      i := i + 1;
    }
    assert hints[..|hints|] == hints;
  }

  // ----- Records for the build -----

  /** The records are exactly the inferred exits that change the widths. */
  ghost predicate Emits(exits: Exits, seeds: Exits, fixes: seq<Fix>) {
    forall f :: f in fixes <==> IsRecord(exits, seeds, f)
  }

  ghost predicate IsRecord(exits: Exits, seeds: Exits, f: Fix) {
    f.site in exits && f.site !in seeds && exits[f.site] == f.exit && f.exit != f.site.width
  }

  ghost predicate RecordedUpTo(world: World, exits: Exits, seeds: Exits, n: nat, fixes: seq<Fix>)
    requires n <= 4 * |world.entries|
  {
    && (forall f :: f in fixes ==> IsRecord(exits, seeds, f))
    && (forall j, f :: 0 <= j < n && world.entries[j / 4].named ==>
          (IsRecord(exits, seeds, f) && f.site == VariantAt(world, j) ==> f in fixes))
  }

  /** Entries and widths in one sequence. */
  function VariantAt(world: World, j: nat): Site
    requires j < 4 * |world.entries|
  {
    SiteOf(world.entries[j / 4], ALL_WIDTHS[j % 4])
  }

  lemma VariantsCover(world: World, exits: Exits, seeds: Exits, f: Fix) returns (j: nat)
    requires Backed(world, exits, seeds) && IsRecord(exits, seeds, f)
    ensures j < 4 * |world.entries| && VariantAt(world, j) == f.site && world.entries[j / 4].named
  {
    var s := f.site;
    var e :| e in world.entries && e.named && SiteOf(e, s.width) == s;
    var i :| 0 <= i < |world.entries| && world.entries[i] == e;
    j := 4 * i + WidthIndex(s.width);
    assert j / 4 == i && j % 4 == WidthIndex(s.width);
  }

  method EmitRecords(world: World, exits: Exits, seeds: Exits) returns (fixes: seq<Fix>)
    requires Backed(world, exits, seeds)
    ensures Emits(exits, seeds, fixes)
  {
    fixes := [];
    var j := 0;
    while j < 4 * |world.entries|
      invariant 0 <= j <= 4 * |world.entries| && RecordedUpTo(world, exits, seeds, j, fixes)
    {
      var site := VariantAt(world, j);
      if world.entries[j / 4].named && site !in seeds && site in exits && exits[site] != site.width {
        fixes := fixes + [Fix(site, exits[site])];
      }
      j := j + 1;
    }
    AllRecorded(world, exits, seeds, fixes);
  }

  lemma AllRecorded(world: World, exits: Exits, seeds: Exits, fixes: seq<Fix>)
    requires Backed(world, exits, seeds) && RecordedUpTo(world, exits, seeds, 4 * |world.entries|, fixes)
    ensures Emits(exits, seeds, fixes)
  {
    forall f | IsRecord(exits, seeds, f)
      ensures f in fixes
    {
      var n := VariantsCover(world, exits, seeds, f);
    }
  }

  /** Passes from the seeds on, each but the last with a change. */
  ghost predicate Follow(world: World, seeds: Exits, passes: seq<seq<Exits>>) {
    && passes != [] && passes[0] != [] && passes[0][0] == seeds
    && (forall i :: 0 <= i < |passes| ==> IsPass(world, seeds, passes[i]))
    && (forall i :: 0 <= i < |passes| - 1 ==> Continues(passes[i], passes[i + 1]))
  }

  /** A pass is followed by another one only if it changed something. */
  ghost predicate Continues(tables: seq<Exits>, next: seq<Exits>) {
    next != [] && next[0] == Final(tables) && Changes(tables)
  }

  /** A whole inference goes on until a pass changes nothing or twelve are over. */
  ghost predicate Infers(world: World, seeds: Exits, passes: seq<seq<Exits>>, exits: Exits, clean: bool) {
    && Follow(world, seeds, passes) && |passes| <= 12
    && var last := passes[|passes| - 1];
       Final(last) == exits && (clean <==> !Changes(last)) && (!clean ==> |passes| == 12)
  }

  /** The table after the last step. */
  function Final(tables: seq<Exits>): Exits {
    if tables == [] then map[] else tables[|tables| - 1]
  }

  /** The passes made so far. */
  ghost predicate InfersSoFar(world: World, seeds: Exits, passes: seq<seq<Exits>>, exits: Exits, clean: bool) {
    if passes == [] then exits == seeds && !clean
    else
      var last := passes[|passes| - 1];
      Follow(world, seeds, passes) && Final(last) == exits && (clean <==> !Changes(last))
  }

  lemma OnePassMore(world: World, seeds: Exits, passes: seq<seq<Exits>>, exits: Exits, next: seq<Exits>)
    requires InfersSoFar(world, seeds, passes, exits, false) && IsPass(world, seeds, next) && next[0] == exits
    ensures InfersSoFar(world, seeds, passes + [next], Final(next), !Changes(next))
  {
    var more := passes + [next];
    forall i | 0 <= i < |more| - 1
      ensures Continues(more[i], more[i + 1])
    {
      if i < |passes| - 1 { assert Continues(passes[i], passes[i + 1]); }
    }
  }

  /** Passes from the seeds on until one is clean or twelve are over. */
  method InferExits(world: World, seeds: Exits) returns (exits: Exits, clean: bool, ghost passes: seq<seq<Exits>>)
    requires Legal(world, seeds, seeds)
    ensures Infers(world, seeds, passes, exits, clean) && Legal(world, exits, seeds)
  {
    exits, clean, passes := seeds, false, [];
    var pass := 0;
    while pass < MAX_PASSES && !clean
      invariant 0 <= pass <= MAX_PASSES && |passes| == pass && Legal(world, exits, seeds)
      invariant InfersSoFar(world, seeds, passes, exits, clean)
    {
      var next, dirty;
      ghost var tables;
      next, dirty, tables := Pass(world, seeds, exits);
      OnePassMore(world, seeds, passes, exits, tables);
      exits, clean, passes, pass := next, !dirty, passes + [tables], pass + 1;
    }
  }

  /** Clean or not, what was inferred is what the last pass derived. */
  lemma InfersAnswers(world: World, seeds: Exits, passes: seq<seq<Exits>>, exits: Exits, clean: bool)
    requires Infers(world, seeds, passes, exits, clean)
    ensures clean ==> Clean(world, exits, seeds)
    ensures forall e, w :: e in world.entries && e.named && SiteOf(e, w) !in seeds ==>
              Answered(world, passes[|passes| - 1], exits, SiteOf(e, w))
  {
    LastAnswers(world, seeds, passes[|passes| - 1], exits, clean);
  }

  lemma LastAnswers(world: World, seeds: Exits, tables: seq<Exits>, exits: Exits, clean: bool)
    requires IsPass(world, seeds, tables) && Final(tables) == exits && (clean <==> !Changes(tables))
    ensures clean ==> Clean(world, exits, seeds)
    ensures forall e, w :: e in world.entries && e.named && SiteOf(e, w) !in seeds ==>
              Answered(world, tables, exits, SiteOf(e, w))
  {
    if clean { QuietIsClean(world, seeds, tables); }
    forall e, w | e in world.entries && e.named && SiteOf(e, w) !in seeds
      ensures Answered(world, tables, exits, SiteOf(e, w))
    {
      PassAnswers(world, seeds, tables, e, w);
    }
  }

  /** Seeds the table, re-derives it until a pass is clean or twelve passes are over, and records
      the result. `clean` tells which. */
  method DetectAndRoute(world: World, hints: seq<Hint>)
    returns (exits: Exits, seeds: Exits, fixes: seq<Fix>, clean: bool, ghost passes: seq<seq<Exits>>)
    ensures Seeds(hints, seeds) && SeedsKept(exits, seeds) && Backed(world, exits, seeds)
    ensures Infers(world, seeds, passes, exits, clean)
    ensures clean ==> Clean(world, exits, seeds)
    ensures forall e, w :: e in world.entries && e.named && SiteOf(e, w) !in seeds ==>
              Answered(world, passes[|passes| - 1], exits, SiteOf(e, w))
    ensures Emits(exits, seeds, fixes)
  {
    seeds := SeedExits(hints);
    exits, clean, passes := InferExits(world, seeds);
    InfersAnswers(world, seeds, passes, exits, clean);
    fixes := EmitRecords(world, exits, seeds);
  }

  /** After a clean pass every run of a recorded function leaves in the recorded widths, and returns in
      them exactly when the RTI that may end it pulls its own. */
  lemma CleanExitsSound(world: World, exits: Exits, seeds: Exits, e: Entry, w: Width, t: Trace, out: Width)
    requires Clean(world, exits, seeds) && SeedsHold(world, exits, seeds) && NoFoldedEntries(world, exits)
    requires SiteOf(e, w) in exits && Known(world, seeds, e, w)
    requires Runs(world, exits, seeds, e, w, None, Begin(e, w), t, out) && CallsPullOwn(t)
    ensures Left(t, out) == exits[SiteOf(e, w)] && (out == exits[SiteOf(e, w)] <==> PullsOwn(t))
  {
    CleanConsistent(world, exits, seeds);
    ExitsSound(world, exits, seeds, e, w, t, out);
  }

  // ----- What the records leave out -----

  /** The widths in which a call of `pc` resumes. */
  function ResumeWidth(exits: Exits, pc: nat, w: Width): Width {
    match Alias(exits, pc, w)
    case None => w
    case Some(s) => exits[s]
  }

  /** Entry widths discovered for each address. */
  type Discovered = map<nat, set<Width>>

  /** The entry widths for which a later decode takes up a hint: the discovered ones, or 8 bits if none
      was. */
  function HintWidths(found: Discovered, pc: nat): set<Width> {
    if pc in found && found[pc] != {} then found[pc] else {NARROW}
  }

  /** The table a later decode rebuilds from hints and records. */
  function Rebuilt(exits: Exits, seeds: Exits, found: Discovered): Exits {
    map s | s in exits && TakenUp(exits, seeds, found, s) :: exits[s]
  }

  predicate TakenUp(exits: Exits, seeds: Exits, found: Discovered, s: Site) {
    s in exits && if s in seeds then s.width in HintWidths(found, s.pc) else exits[s] != s.width
  }

  /** The mirror's exit as a later decode has it, if an address has none of its own. */
  function MirrorExit(table: Exits, pc: nat, w: Width): Width {
    if pc < 0x1000000 && HasMirror(pc) && Site(Mirror(pc), w) in table then table[Site(Mirror(pc), w)] else w
  }

  /** The mirror has an exit that changes the widths and is not lost: a record, or a hint for widths
      that were discovered. */
  predicate MirrorTaken(exits: Exits, seeds: Exits, found: Discovered, pc: nat, w: Width) {
    && pc < 0x1000000 && HasMirror(pc) && Site(Mirror(pc), w) in exits && exits[Site(Mirror(pc), w)] != w
    && (Site(Mirror(pc), w) in seeds ==> w in HintWidths(found, Mirror(pc)))
  }

  /** An inferred exit that keeps the widths, while that of the mirror changes them. */
  predicate Shadowed(exits: Exits, seeds: Exits, found: Discovered, pc: nat, w: Width) {
    && Site(pc, w) in exits && Site(pc, w) !in seeds && exits[Site(pc, w)] == w
    && MirrorTaken(exits, seeds, found, pc, w)
  }

  /** A hint for widths that were not discovered, while the mirror gives something else or nothing. */
  predicate HintLost(exits: Exits, seeds: Exits, found: Discovered, pc: nat, w: Width) {
    && Site(pc, w) in exits && Site(pc, w) in seeds && w !in HintWidths(found, pc)
    && if MirrorTaken(exits, seeds, found, pc, w) then exits[Site(Mirror(pc), w)] != exits[Site(pc, w)]
       else exits[Site(pc, w)] != w
  }

  /** An address that relied on a hint for its mirror, for widths that were not discovered there. */
  predicate MirrorHintLost(exits: Exits, seeds: Exits, found: Discovered, pc: nat, w: Width) {
    && Site(pc, w) !in exits && pc < 0x1000000 && HasMirror(pc) && Site(Mirror(pc), w) in exits
    && Site(Mirror(pc), w) in seeds && w !in HintWidths(found, Mirror(pc)) && exits[Site(Mirror(pc), w)] != w
  }

  /** A call resumes otherwise under the rebuilt table exactly in these three cases. */
  lemma RecordsSuffice(exits: Exits, seeds: Exits, found: Discovered, pc: nat, w: Width)
    ensures ResumeWidth(Rebuilt(exits, seeds, found), pc, w) == ResumeWidth(exits, pc, w) <==>
            !Shadowed(exits, seeds, found, pc, w) && !HintLost(exits, seeds, found, pc, w) &&
            !MirrorHintLost(exits, seeds, found, pc, w)
  {
    ResumeIs(exits, pc, w);
    ResumeIs(Rebuilt(exits, seeds, found), pc, w);
    if pc < 0x1000000 && HasMirror(pc) {
      RebuiltIs(exits, seeds, found, Site(Mirror(pc), w));
    }
    RebuiltIs(exits, seeds, found, Site(pc, w));
  }

  lemma ResumeIs(table: Exits, pc: nat, w: Width)
    ensures ResumeWidth(table, pc, w) == if Site(pc, w) in table then table[Site(pc, w)] else MirrorExit(table, pc, w)
  {
  }

  /** A record is taken up if it changes the widths; a hint for the discovered widths of its address or, as
      long as there are none, for 8-bit entry. */
  lemma RebuiltIs(exits: Exits, seeds: Exits, found: Discovered, s: Site)
    ensures s in exits && s !in seeds ==> (s in Rebuilt(exits, seeds, found) <==> exits[s] != s.width)
    ensures s in exits && s in seeds && s.pc in found && found[s.pc] != {} ==>
              (s in Rebuilt(exits, seeds, found) <==> s.width in found[s.pc])
    ensures s in exits && s in seeds && (s.pc !in found || found[s.pc] == {}) ==>
              (s in Rebuilt(exits, seeds, found) <==> s.width == Width(true, true))
    ensures s !in exits ==> s !in Rebuilt(exits, seeds, found)
    ensures s in Rebuilt(exits, seeds, found) ==> Rebuilt(exits, seeds, found)[s] == exits[s]
  {
  }

  /** A hint for an address of which no variant was discovered yet holds for 8-bit entry only. */
  lemma HintForUndiscovered(world: World, seeds: Exits)
    requires world.entries == [] && Seeds([Hint(0, 0x8000, NARROW)], seeds)
    ensures Clean(world, seeds, seeds)
    ensures ResumeWidth(seeds, 0x8000, WIDE) == NARROW &&
            ResumeWidth(Rebuilt(seeds, seeds, map[]), 0x8000, WIDE) == WIDE
  {
    var hints := [Hint(0, 0x8000, NARROW)];
    assert Last(hints) == hints[0] && Rest(hints) == [];
    assert LastHint(hints, 0x8000) == Some(NARROW) && LastHint(hints, 0x808000) == None;
    assert Site(0x8000, WIDE).pc == 0x8000 && Site(0x808000, WIDE).pc == 0x808000;
    assert Site(0x8000, WIDE) in seeds && seeds[Site(0x8000, WIDE)] == NARROW && Site(0x808000, WIDE) !in seeds;
    RebuiltIs(seeds, seeds, map[], Site(0x8000, WIDE));
    RebuiltIs(seeds, seeds, map[], Site(0x808000, WIDE));
    ResumeIs(Rebuilt(seeds, seeds, map[]), 0x8000, WIDE);
  }
}
