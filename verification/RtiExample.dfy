/** Functions that end in RTI: inference records the widths before the pull. */
module RtiExample {
  import opened Machine
  import opened Decoder
  import opened Dedupe
  import opened ExitAnalysis
  import opened ModeMachine
  import opened ExitSoundness
  import opened ExitModes
  import opened Listings
  import opened Lines
  import Flags

  /** The widths after the emitted RTI has pulled P: its mirrors are those of the pulled byte. */
  function WidthsAfter(s: Flags.Emitted, pulled: Flags.Byte): Width {
    var at := Flags.PToMirrors(s.(p := pulled)).at;
    Width(at.m, at.x)
  }

  /** Of any function with an RTI that survives all stages: its common exit is what that RTI leaves in
      exactly when the pulled P has the widths that the RTI ran in. */
  lemma RtiExit(env: Env, raw: Graph, merged: Graph, folded: Graph, k: Key, pair: Width,
                s: Flags.Emitted, pulled: Flags.Byte)
    requires Stages(env, raw, merged, folded) && k in raw.insns && Rep(raw, k) in folded.insns
    requires raw.insns[k].insn.mnem == RTI
    requires CommonM(folded, env.exits, pair.m) && CommonX(folded, env.exits, pair.x)
    ensures pair == WidthsAfter(s, pulled) <==> (Flags.M in pulled <==> k.width.m) && (Flags.X in pulled <==> k.width.x)
  {
    ReturnLeaves(env, raw, merged, folded, k);
  }

  // ----- A handler -----

  const HANDLER := Entry(0, 0x8000, None, true)
  const RETURN := Insn(RTI, OtherMode, 0, 1)

  /** 8000 RTI */
  function Program(): World {
    World([HANDLER], 0x400000, (bank: nat, pc: nat, w: Width) => if pc == 0x8000 then Some(RETURN) else None, map[],
          (start: nat, site: Site, insn: Insn) => None, 12000)
  }

  function HandlerLine(w: Width): Line {
    Line([Key(0x8000, w, [])], [])
  }

  lemma HandlerIsLine(exits: Exits, w: Width)
    ensures IsLine(EnvFor(Program(), exits, HANDLER, w), HandlerLine(w))
  {
    var env, k := EnvFor(Program(), exits, HANDLER, w), Key(0x8000, w, []);
    assert Holds(env, k, RETURN);
    EndsLine(env, k, RETURN);
    FormLine(env, HandlerLine(w));
  }

  /** It may return in any widths. */
  lemma HandlerRuns(exits: Exits, seeds: Exits, w: Width, pulled: Width)
    ensures Runs(Program(), exits, seeds, HANDLER, w, None, Begin(HANDLER, w), Reload(w, pulled), pulled)
  {
    RunsReload(Program(), exits, seeds, HANDLER, w, None, Key(0x8000, w, []), RETURN, pulled);
  }

  /** A handler entered in 16-bit widths that interrupted 8-bit code: inference derives 16-bit widths,
      and it returns in 8-bit ones. */
  method RtiRecordedWrong(exits: Exits, seeds: Exits)
    ensures Derives(Program(), exits, HANDLER, WIDE, WIDE)
    ensures Runs(Program(), exits, seeds, HANDLER, WIDE, None, Begin(HANDLER, WIDE), Reload(WIDE, NARROW), NARROW)
  {
    HandlerIsLine(exits, WIDE);
    InferLine(Program(), exits, HANDLER, WIDE, HandlerLine(WIDE));
    HandlerRuns(exits, seeds, WIDE, NARROW);
  }
}
