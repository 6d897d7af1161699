/** What a decoded function takes in, read off its records: the end, sibling and ROM gates spelled out
    instruction by instruction. */
module Gates {
  import opened Machine
  import opened Decoder

  /** A decoded instruction with an edge to `k`. */
  ghost predicate Leads(env: Env, insns: Records, p: Key, e: Edge, k: Key) {
    p in insns && e in EdgesAt(env, p) && e.to == k
  }

  /** Some decoded instruction leads to `k` otherwise than by a jump. */
  ghost predicate FallenInto(env: Env, insns: Records, k: Key) {
    exists p, e :: Leads(env, insns, p, e, k) && e.kind != Jump
  }

  /** Some decoded instruction jumps to `k`, or falls into it from at or past `end`. */
  ghost predicate ReachedPast(env: Env, insns: Records, k: Key, end: nat) {
    exists p, e :: Leads(env, insns, p, e, k) && (e.kind != Fall || Pc16(p) >= end)
  }

  /** The address lies in the upper half of its bank, and its LoROM offset in the ROM. */
  predicate IsCode(env: Env, pc: nat) {
    0x8000 <= pc < 0x10000 && (env.bank % 0x80) * 0x8000 + pc < env.romSize + 0x8000
  }

  /** A decoded key is the entry, or some decoded instruction leads to it through the gates. */
  lemma CameBy(env: Env, order: seq<Key>, insns: Records, k: Key) returns (p: Key, e: Edge)
    requires DecodesTo(env, Decoded(order, insns)) && k in insns && k != Seed(env).key
    ensures Leads(env, insns, p, e, k) && Admits(env, Along(p, e))
  {
    var t :| IsTrail(env, t) && t[|t| - 1] == k;
    p := t[|t| - 2];
    TrailPrefix(env, t, |t| - 2);
    assert IsTrail(env, t[..|t| - 1]) && t[..|t| - 1][|t| - 2] == p;
    assert Accepted(env, t[|t| - 2], t[|t| - 2 + 1]);
    e :| e in EdgesAt(env, p) && e.to == k && Admits(env, Along(p, e));
  }

  lemma EntryAdmitted(env: Env, order: seq<Key>, insns: Records, k: Key)
    requires DecodesTo(env, Decoded(order, insns)) && k in insns
    ensures Admits(env, Seed(env))
  {
    var t :| IsTrail(env, t) && t[|t| - 1] == k;
  }

  /** The entry of a sibling is taken in only by falling into it. */
  lemma SiblingsFallenInto(env: Env, order: seq<Key>, insns: Records, k: Key)
    requires DecodesTo(env, Decoded(order, insns)) && k in insns
    requires env.siblings.Some? && Pc16(k) in env.siblings.value
    ensures k == Seed(env).key || FallenInto(env, insns, k)
  {
    if k != Seed(env).key {
      var p, e := CameBy(env, order, insns, k);
    }
  }

  /** Code at or past the end is taken in only through a jump, or from code that is past it already. */
  lemma PastTheEnd(env: Env, order: seq<Key>, insns: Records, k: Key)
    requires DecodesTo(env, Decoded(order, insns)) && k in insns && env.end.Some? && Pc16(k) >= env.end.value
    ensures k == Seed(env).key || ReachedPast(env, insns, k, env.end.value)
  {
    if k != Seed(env).key {
      var p, e := CameBy(env, order, insns, k);
    }
  }

  /** Only code is decoded. */
  lemma DecodedIsCode(env: Env, order: seq<Key>, insns: Records, k: Key)
    requires DecodesTo(env, Decoded(order, insns)) && k in insns
    ensures IsCode(env, Pc16(k))
  {
    EntryAdmitted(env, order, insns, k);
    if k != Seed(env).key {
      var p, e := CameBy(env, order, insns, k);
    }
  }

  /** Conversely, whatever is not excluded on these grounds is decoded. */
  lemma NothingElseLeftOut(env: Env, order: seq<Key>, insns: Records, p: Key, e: Edge)
    requires DecodesTo(env, Decoded(order, insns)) && p in insns && e in EdgesAt(env, p) && IsCode(env, Pc16(e.to))
    requires !(e.kind == Jump && env.siblings.Some? && Pc16(e.to) in env.siblings.value)
    requires !(e.kind == Fall && env.end.Some? && Pc16(p) < env.end.value <= Pc16(e.to))
    ensures e.to in insns
  {
    assert Admits(env, Along(p, e));
    assert Accepted(env, p, e.to);
    ReachedStep(env, p, e.to);
  }

  lemma SeedPc(env: Env)
    ensures Pc16(Seed(env).key) == env.start % 0x10000
  {
  }

  /** The entry is decoded exactly when it is code. */
  lemma EntryIsCode(env: Env, order: seq<Key>, insns: Records)
    requires DecodesTo(env, Decoded(order, insns))
    ensures Seed(env).key in insns <==> IsCode(env, env.start % 0x10000)
  {
    SeedPc(env);
    if IsCode(env, env.start % 0x10000) {
      assert Admits(env, Seed(env));
      ReachedSeed(env);
    }
    if Seed(env).key in insns { DecodedIsCode(env, order, insns, Seed(env).key); }
  }
}
