/** Environment ids (inc/env.h, env_alloc in kern/env.c): a slot number in the low ten bits and
    a generation above bit 12, counted per slot in a signed 32-bit word. */
module EnvIds {
  import opened Words

  const NENV: nat := 1024
  const ENVGEN: int := 4096            // 1 << ENVGENSHIFT
  const GENERATIONS: nat := 0x7_FFFF   // 2^19 - 1

  /** ENVX. For a negative id the mask of two's complement is the Euclidean remainder. */
  function EnvX(id: int): nat { id % 1024 }

  /** The id env_alloc gives to a slot whose previous id was `id`. */
  function NextId(id: int, slot: nat): int {
    var g := Int32(id + ENVGEN) / 1024 * 1024;
    (if g <= 0 then ENVGEN else g) + slot
  }

  /** The id of a slot after n allocations of it; env_init sets it to 0. */
  function IdAfter(slot: nat, n: nat): int {
    if n == 0 then 0 else NextId(IdAfter(slot, n - 1), slot)
  }

  /** The generations of a slot cycle through 1 .. 2^19 - 1. */
  lemma {:induction false} IdForm(slot: nat, n: nat)
    requires slot < NENV && n > 0
    ensures IdAfter(slot, n) == ((n - 1) % GENERATIONS + 1) * ENVGEN + slot
  {
    if n > 1 {
      IdForm(slot, n - 1);
      var g := (n - 2) % GENERATIONS + 1;
      assert (n - 1) % GENERATIONS == if g == GENERATIONS then 0 else g by { NextRemainder(n - 2); }
      NextFromGeneration(g, slot);
    }
  }

  lemma NextRemainder(m: nat)
    ensures (m + 1) % GENERATIONS == if m % GENERATIONS + 1 == GENERATIONS then 0 else m % GENERATIONS + 1
  {
  }

  lemma NextFromGeneration(g: nat, slot: nat)
    requires 1 <= g <= GENERATIONS && slot < NENV
    ensures NextId(g * ENVGEN + slot, slot) == (if g == GENERATIONS then 1 else g + 1) * ENVGEN + slot
  {
    var x := g * ENVGEN + slot + ENVGEN;
    assert x == (g + 1) * 4096 + slot;
    if g < GENERATIONS {
      assert Int32(x) == x;
      assert x / 1024 == (g + 1) * 4;
    } else {
      assert Int32(x) < 0;
    }
  }

  lemma GenerationBound(n: nat)
    requires n > 0
    ensures 1 <= (n - 1) % GENERATIONS + 1 <= GENERATIONS
  {
  }

  lemma SlotOfId(g: nat, slot: nat)
    requires 1 <= g <= GENERATIONS && slot < NENV
    ensures 0 < g * ENVGEN + slot < INT_LIMIT && EnvX(g * ENVGEN + slot) == slot
  {
    assert g * ENVGEN + slot == g * 4 * 1024 + slot;
  }

  /** Ids are positive and name their slot. */
  lemma IdNamesSlot(slot: nat, n: nat)
    requires slot < NENV && n > 0
    ensures 0 < IdAfter(slot, n) < INT_LIMIT && EnvX(IdAfter(slot, n)) == slot
  {
    IdForm(slot, n);
    var g := (n - 1) % GENERATIONS + 1;
    hide IdAfter, EnvX;
    GenerationBound(n);
    SlotOfId(g, slot);
  }

  /** An id of a slot recurs exactly every 2^19 - 1 allocations of that slot. */
  lemma IdsRecur(slot: nat, m: nat, n: nat)
    requires slot < NENV && 0 < m <= n
    ensures IdAfter(slot, m) == IdAfter(slot, n) <==> (n - m) % GENERATIONS == 0
  {
    IdForm(slot, m);
    IdForm(slot, n);
    SameRemainder(m - 1, n - 1);
  }

  lemma SameRemainder(a: nat, b: nat)
    requires a <= b
    ensures a % GENERATIONS == b % GENERATIONS <==> (b - a) % GENERATIONS == 0
  {
  }
}
