/** The widths in which a decoded function returns to its caller. */
module ExitAnalysis {
  import opened Machine
  import opened Decoder

  /** Exit widths of callees, by entry address and entry widths. */
  type Exits = map<Site, Width>

  /** A dispatch that hands control to a handler, which returns to the caller of this function. */
  predicate IsDispatchEnd(r: Record<Key>) {
    r.table.Some? && r.successors == [] && r.insn.mnem in {JSL, JMP}
  }

  /** The handler a table entry names, entered in the widths of the dispatch. */
  function HandlerSite(k: Key, r: Record<Key>, entry: nat): Site
    requires r.table.Some?
  {
    Site(if r.table.value.long then entry % 0x1000000 else Addr24(Bank(k.pc), entry), r.width)
  }

  /** A JSL or JMP with a target table and no successors hands control to the handler at `entry`: a long
      entry names its bank, a short one lies in the bank of the dispatch. Zero entries are padding. */
  ghost predicate HandsTo(k: Key, r: Record<Key>, entry: nat, s: Site) {
    && r.insn.mnem in {JSL, JMP} && r.table.Some? && r.successors == [] && entry in r.table.value.entries && entry != 0
    && s.pc < 0x1000000 && s.pc % 0x10000 == entry % 0x10000 && s.width == r.width
    && Bank(s.pc) == Bank(if r.table.value.long then entry else k.pc)
  }

  lemma HandlerIs(k: Key, r: Record<Key>, entry: nat, s: Site)
    ensures HandsTo(k, r, entry, s) <==>
            IsDispatchEnd(r) && entry in r.table.value.entries && entry != 0 && s == HandlerSite(k, r, entry)
  {
    if IsDispatchEnd(r) {
      SplitAddress(s.pc, if r.table.value.long then entry % 0x1000000 else Addr24(Bank(k.pc), entry));
      LongParts(entry);
      ShortParts(Bank(k.pc), entry);
    }
  }

  /** An address is its bank and its offset. */
  lemma SplitAddress(a: nat, b: nat)
    requires b < 0x1000000
    ensures a == b <==> a < 0x1000000 && Bank(a) == Bank(b) && a % 0x10000 == b % 0x10000
  {
  }

  lemma LongParts(entry: nat)
    ensures Bank(entry % 0x1000000) == Bank(entry) && entry % 0x1000000 % 0x10000 == entry % 0x10000
  {
    var h, r := entry / 0x1000000, entry % 0x1000000;
    var q := r / 0x10000;
    DivIs(entry, 0x10000, 0x100 * h + q, r % 0x10000);
    DivIs(0x100 * h + q, 0x100, h, q);
  }

  lemma ShortParts(bank: nat, entry: nat)
    requires bank < 0x100
    ensures Addr24(bank, entry) < 0x1000000
    ensures Bank(Addr24(bank, entry)) == bank && Addr24(bank, entry) % 0x10000 == entry % 0x10000
  {
  }

  /** Control leaves the function at `k` with widths `w`: by a return, or through a handler that is
      recorded to leave so. */
  ghost predicate Leaves(exits: Exits, k: Key, r: Record<Key>, w: Width) {
    (r.insn.mnem in {RTS, RTL, RTI} && w == r.width) || exists entry, s :: HandedTo(exits, k, r, entry, s, w)
  }

  ghost predicate HandedTo(exits: Exits, k: Key, r: Record<Key>, entry: nat, s: Site, w: Width) {
    HandsTo(k, r, entry, s) && s in exits && exits[s] == w
  }

  /** Every handler that `k` hands control to has a recorded exit. */
  ghost predicate Resolved(exits: Exits, k: Key, r: Record<Key>) {
    forall entry, s :: HandsTo(k, r, entry, s) ==> s in exits
  }

  /** Both in terms of what the scan computes. */
  lemma ResolvedIs(exits: Exits, k: Key, r: Record<Key>)
    ensures Resolved(exits, k, r) <==>
            (IsDispatchEnd(r) ==>
               forall entry :: entry in r.table.value.entries && entry != 0 ==> HandlerSite(k, r, entry) in exits)
  {
    if Resolved(exits, k, r) && IsDispatchEnd(r) {
      forall entry | entry in r.table.value.entries && entry != 0
        ensures HandlerSite(k, r, entry) in exits
      {
        HandlerIs(k, r, entry, HandlerSite(k, r, entry));
      }
    }
    forall entry, s | HandsTo(k, r, entry, s)
      ensures IsDispatchEnd(r) && entry in r.table.value.entries && entry != 0 && s == HandlerSite(k, r, entry)
    {
      HandlerIs(k, r, entry, s);
    }
  }

  ghost predicate SeenLeaving(exits: Exits, k: Key, r: Record<Key>, w: Width) {
    || (IsReturn(r.insn.mnem) && w == r.width)
    || (IsDispatchEnd(r) && Handled(exits, k, r, |r.table.value.entries|, w))
  }

  lemma LeavesIs(exits: Exits, k: Key, r: Record<Key>, w: Width)
    ensures Leaves(exits, k, r, w) <==> SeenLeaving(exits, k, r, w)
  {
    if entry, s :| HandedTo(exits, k, r, entry, s, w) {
      HandlerIs(k, r, entry, s);
      var j :| 0 <= j < |r.table.value.entries| && r.table.value.entries[j] == entry;
      assert Hands(exits, k, r, j, w);
    }
    if IsDispatchEnd(r) && Handled(exits, k, r, |r.table.value.entries|, w) {
      var j :| 0 <= j < |r.table.value.entries| && Hands(exits, k, r, j, w);
      var entry := r.table.value.entries[j];
      HandlerIs(k, r, entry, HandlerSite(k, r, entry));
      assert HandedTo(exits, k, r, entry, HandlerSite(k, r, entry), w);
    }
  }

  lemma AllLeaves(exits: Exits, k: Key, r: Record<Key>)
    ensures forall w :: Leaves(exits, k, r, w) <==> SeenLeaving(exits, k, r, w)
  {
    forall w
      ensures Leaves(exits, k, r, w) <==> SeenLeaving(exits, k, r, w)
    {
      LeavesIs(exits, k, r, w);
    }
  }

  /** Entry number `j` of the table leaves with widths `w`. */
  predicate Hands(exits: Exits, k: Key, r: Record<Key>, j: nat, w: Width)
    requires r.table.Some?
  {
    var entries := r.table.value.entries;
    j < |entries| && entries[j] != 0 &&
    var s := HandlerSite(k, r, entries[j]);
    s in exits && exits[s] == w
  }

  ghost predicate Handled(exits: Exits, k: Key, r: Record<Key>, n: nat, w: Width)
    requires r.table.Some?
  {
    exists j :: 0 <= j < n && Hands(exits, k, r, j, w)
  }

  // ----- Meeting widths -----

  datatype Meet = Meet(first: Option<Width>, mAmbiguous: bool, xAmbiguous: bool)

  function Accumulate(meet: Meet, w: Width): Meet {
    match meet.first
    case None => Meet(Some(w), meet.mAmbiguous, meet.xAmbiguous)
    case Some(f) => Meet(meet.first, meet.mAmbiguous || f.m != w.m, meet.xAmbiguous || f.x != w.x)
  }

  /** What a meet says about the widths met so far. */
  ghost predicate Summary(meet: Meet, met: set<Width>) {
    match meet.first
    case None => met == {} && !meet.mAmbiguous && !meet.xAmbiguous
    case Some(f) =>
      && f in met
      && (meet.mAmbiguous <==> exists w :: w in met && w.m != f.m)
      && (meet.xAmbiguous <==> exists w :: w in met && w.x != f.x)
  }

  lemma AccumulateMeets(meet: Meet, met: set<Width>, w: Width)
    requires Summary(meet, met)
    ensures Summary(Accumulate(meet, w), met + {w})
  {
    var next := Accumulate(meet, w);
    if meet.first.Some? {
      var f := meet.first.value;
      assert w in met + {w} && f in met + {w};
      assert forall v :: v in met ==> v in met + {w};
    }
  }

  function MeetM(meet: Meet): Option<bool> {
    if meet.first.Some? && !meet.mAmbiguous then Some(meet.first.value.m) else None
  }

  function MeetX(meet: Meet): Option<bool> {
    if meet.first.Some? && !meet.xAmbiguous then Some(meet.first.value.x) else None
  }

  // ----- The scan -----

  /** The widths met at the first `n` keys. */
  ghost predicate LeavesBefore(g: Graph, exits: Exits, n: nat, w: Width)
    requires n <= |g.order| && Lists(g.order, g.insns)
  {
    exists i :: 0 <= i < n && Leaves(exits, g.order[i], g.insns[g.order[i]], w)
  }

  /** Meets the exits of the handlers of one dispatch; fails on a handler without a record. */
  method MeetHandlers(exits: Exits, k: Key, r: Record<Key>, meet: Meet, ghost met: set<Width>)
    returns (ok: bool, meet': Meet, ghost met': set<Width>)
    requires IsDispatchEnd(r) && Summary(meet, met)
    ensures ok <==> Resolved(exits, k, r)
    ensures ok ==> Summary(meet', met')
    ensures ok ==> forall w :: w in met' <==> w in met || Leaves(exits, k, r, w)
  {
    var entries := r.table.value.entries;
    AllLeaves(exits, k, r);
    ResolvedIs(exits, k, r);
    meet', met' := meet, met;
    var i := 0;
    while i < |entries|
      invariant 0 <= i <= |entries| && Summary(meet', met')
      invariant forall j :: 0 <= j < i && entries[j] != 0 ==> HandlerSite(k, r, entries[j]) in exits
      invariant forall w :: w in met' <==> w in met || Handled(exits, k, r, i, w)
    {
      if entries[i] != 0 {
        var site := HandlerSite(k, r, entries[i]);
        if site !in exits {
          return false, meet', met';
        }
        AccumulateMeets(meet', met', exits[site]);
        assert Hands(exits, k, r, i, exits[site]);
        meet', met' := Accumulate(meet', exits[site]), met' + {exits[site]};
      }
      i := i + 1;
    }
    ok := true;
  }

  /** The function can leave with widths `w`. */
  ghost predicate CanLeave(g: Graph, exits: Exits, w: Width) {
    exists k :: k in g.insns && Leaves(exits, k, g.insns[k], w)
  }

  ghost predicate AllResolved(g: Graph, exits: Exits) {
    forall k :: k in g.insns ==> Resolved(exits, k, g.insns[k])
  }

  /** The common value of a flag over all exits; none if there is no exit, an exit is unknown or
      two exits disagree. */
  ghost predicate CommonM(g: Graph, exits: Exits, b: bool) {
    AllResolved(g, exits) && (exists w :: CanLeave(g, exits, w)) && forall w :: CanLeave(g, exits, w) ==> w.m == b
  }

  ghost predicate CommonX(g: Graph, exits: Exits, b: bool) {
    AllResolved(g, exits) && (exists w :: CanLeave(g, exits, w)) && forall w :: CanLeave(g, exits, w) ==> w.x == b
  }

  lemma SummaryCommon(g: Graph, exits: Exits, meet: Meet, met: set<Width>)
    requires AllResolved(g, exits) && Summary(meet, met) && forall w :: w in met <==> CanLeave(g, exits, w)
    ensures forall b :: MeetM(meet) == Some(b) <==> CommonM(g, exits, b)
    ensures forall b :: MeetX(meet) == Some(b) <==> CommonX(g, exits, b)
  {
    if meet.first.Some? {
      assert CanLeave(g, exits, meet.first.value);
    } else {
      assert forall w :: CanLeave(g, exits, w) ==> w in met;
    }
  }

  ghost predicate Scanned(g: Graph, exits: Exits, n: nat, met: set<Width>)
    requires n <= |g.order| && Lists(g.order, g.insns)
  {
    && (forall i :: 0 <= i < n ==> Resolved(exits, g.order[i], g.insns[g.order[i]]))
    && (forall w :: w in met <==> LeavesBefore(g, exits, n, w))
  }

  lemma ScanNext(g: Graph, exits: Exits, n: nat, met: set<Width>, met': set<Width>)
    requires n < |g.order| && Lists(g.order, g.insns) && Scanned(g, exits, n, met)
    requires Resolved(exits, g.order[n], g.insns[g.order[n]])
    requires forall w :: w in met' <==> w in met || Leaves(exits, g.order[n], g.insns[g.order[n]], w)
    ensures Scanned(g, exits, n + 1, met')
  {
    forall w
      ensures w in met' <==> LeavesBefore(g, exits, n + 1, w)
    {
      if LeavesBefore(g, exits, n, w) {
        var i :| 0 <= i < n && Leaves(exits, g.order[i], g.insns[g.order[i]], w);
      }
    }
  }

  lemma ScanDone(g: Graph, exits: Exits, met: set<Width>)
    requires Lists(g.order, g.insns) && Scanned(g, exits, |g.order|, met)
    ensures AllResolved(g, exits) && forall w :: w in met <==> CanLeave(g, exits, w)
  {
    forall k | k in g.insns
      ensures exists i :: 0 <= i < |g.order| && g.order[i] == k
    {
      assert k in g.order;
    }
    forall w | CanLeave(g, exits, w)
      ensures LeavesBefore(g, exits, |g.order|, w)
    {
      var k :| k in g.insns && Leaves(exits, k, g.insns[k], w);
      var i :| 0 <= i < |g.order| && g.order[i] == k;
    }
  }

  method Analyze(g: Graph, exits: Exits) returns (m: Option<bool>, x: Option<bool>)
    requires Lists(g.order, g.insns)
    ensures forall b :: m == Some(b) <==> CommonM(g, exits, b)
    ensures forall b :: x == Some(b) <==> CommonX(g, exits, b)
  {
    var meet := Meet(None, false, false);
    ghost var met: set<Width> := {};
    var i := 0;
    while i < |g.order|
      invariant 0 <= i <= |g.order| && Summary(meet, met) && Scanned(g, exits, i, met)
    {
      var k := g.order[i];
      var r := g.insns[k];
      ghost var was := met;
      if IsReturn(r.insn.mnem) {
        AccumulateMeets(meet, met, r.width);
        meet, met := Accumulate(meet, r.width), met + {r.width};
        AllLeaves(exits, k, r);
        ResolvedIs(exits, k, r);
      } else if IsDispatchEnd(r) {
        var ok;
        ok, meet, met := MeetHandlers(exits, k, r, meet, met);
        if !ok {
          assert !AllResolved(g, exits);
          return None, None;
        }
      } else {
        AllLeaves(exits, k, r);
        ResolvedIs(exits, k, r);
      }
      ScanNext(g, exits, i, was, met);
      i := i + 1;
    }
    ScanDone(g, exits, met);
    SummaryCommon(g, exits, meet, met);
    return MeetM(meet), MeetX(meet);
  }
}
