/** The StorageTester contract: pseudo-random slot writes, and an alternating read/write loop.
    Arithmetic is checked: an overflow of uint256 reverts the whole call. */
module StorageTester {
  import opened Common
  import opened LcgPeriod

  const MULTIPLIER: nat := 1664525
  const INCREMENT: nat := 1013904223
  const MARK: nat := 42
  /** The storage slot of the contract's only variable. */
  const SLOT_VARIABLE: nat := 0

  type uint256 = x: int | 0 <= x < 0x1_0000_0000_0000_0000_0000_0000_0000_0000_0000_0000_0000_0000_0000_0000_0000_0000

  /** One step; None if the checked arithmetic reverts. Masking with 0xFFFFFFFF keeps 32 bits. */
  function Lcg(prev: nat): Option<nat> {
    var next := MULTIPLIER * prev + INCREMENT;
    if next < TWO_256 then Some(next % TWO_32) else None
  }

  predicate SeedOverflows(seed: nat) {
    MULTIPLIER * seed + INCREMENT >= TWO_256
  }

  /** The slot that the i-th write (counting from 0) of a run hits. */
  function SlotAt(seed: nat, i: nat): nat {
    Orbit(MULTIPLIER, INCREMENT, TWO_32, i, (MULTIPLIER * seed + INCREMENT) % TWO_32)
  }

  function WrittenSlots(seed: nat, iterations: nat): set<nat> {
    set i: nat | i < iterations :: SlotAt(seed, i)
  }

  function Marked(storage: map<nat, nat>, slots: set<nat>): map<nat, nat> {
    map s | s in storage.Keys + slots :: if s in slots then MARK else storage[s]
  }

  function SumBelow(n: nat): nat {
    if n == 0 then 0 else SumBelow(n - 1) + (n - 1)
  }

  class StorageTester {
    /** Storage slots that were ever written; all others read as zero. */
    var storage: map<nat, nat>

    function Read(slot: nat): nat
      reads this
    {
      if slot in storage then storage[slot] else 0
    }

    method SetSlot(value: uint256)
      modifies this
      ensures storage == old(storage)[0 := value]
    {
      storage := storage[SLOT_VARIABLE := value];
    }

    /** Returns the sum of 0..iterations, or reverts if it does not fit in uint256. */
    method AlternatingReadWrite(iterations: uint256) returns (checksum: Option<nat>)
      modifies this
      ensures var sum := (iterations * iterations - iterations) / 2;
              checksum == if sum <= 0xFFFF_FFFF_FFFF_FFFF_FFFF_FFFF_FFFF_FFFF_FFFF_FFFF_FFFF_FFFF_FFFF_FFFF_FFFF_FFFF
                          then Some(sum) else None
      ensures storage == if checksum.Some? && iterations > 0 then old(storage)[0 := iterations - 1] else old(storage)
    {
      SumFormula(iterations);
      var pending := storage;
      var sum := 0;
      for i := 0 to iterations
        invariant sum == SumBelow(i) < TWO_256
        invariant storage == old(storage)
        invariant pending == if i > 0 then storage[SLOT_VARIABLE := i - 1] else storage
      {
        pending := pending[SLOT_VARIABLE := i];
        var val := pending[SLOT_VARIABLE];
        if val != i {
          return None;
        }
        SumGrows(i + 1, iterations);
        if sum + val >= TWO_256 {
          return None;
        }
        sum := sum + val;
      }
      storage := pending;
      checksum := Some(sum);
    }

    /** Writes 42 to exactly the slots of the generator's run, or reverts and changes nothing. */
    method RandomSlotWrites(iterations: uint256, seed: uint256) returns (ok: bool)
      modifies this
      ensures var next := 1664525 * seed + 1013904223;
              !ok == (iterations > 0
                      && next > 0xFFFF_FFFF_FFFF_FFFF_FFFF_FFFF_FFFF_FFFF_FFFF_FFFF_FFFF_FFFF_FFFF_FFFF_FFFF_FFFF)
      ensures !ok ==> storage == old(storage)
      ensures ok ==> forall i: nat :: i < iterations ==> SlotAt(seed, i) in storage && storage[SlotAt(seed, i)] == 42
      ensures ok ==> storage.Keys == old(storage).Keys + WrittenSlots(seed, iterations)
      ensures ok ==> forall s :: s in old(storage) && s !in WrittenSlots(seed, iterations) ==> storage[s] == old(storage)[s]
    {
      var pending := storage;
      var rng: nat := seed;
      for i := 0 to iterations
        invariant storage == old(storage)
        invariant rng == if i == 0 then seed else SlotAt(seed, i - 1)
        invariant i > 0 ==> rng < TWO_32 && !SeedOverflows(seed)
        invariant pending == Marked(storage, WrittenSlots(seed, i))
      {
        var next := Lcg(rng);
        if next.None? {
          return false;
        }
        rng := next.value;
        OneMoreSlot(seed, i);
        pending := pending[rng := MARK];
      }
      storage := pending;
      ok := true;
      forall i: nat | i < iterations ensures SlotAt(seed, i) in WrittenSlots(seed, iterations) {
      }
    }
  }

  /** The generator in numbers: each slot follows from the one before, and the first from the seed. */
  lemma SlotsFollowGenerator(seed: nat, i: nat)
    ensures SlotAt(seed, 0) == (1664525 * seed + 1013904223) % 0x1_0000_0000
    ensures SlotAt(seed, i + 1) == (1664525 * SlotAt(seed, i) + 1013904223) % 0x1_0000_0000
  {
  }

  lemma OneMoreSlot(seed: nat, i: nat)
    ensures WrittenSlots(seed, i + 1) == WrittenSlots(seed, i) + {SlotAt(seed, i)}
  {
    forall s | s in WrittenSlots(seed, i + 1) ensures s in WrittenSlots(seed, i) + {SlotAt(seed, i)} {
      var k: nat :| k < i + 1 && s == SlotAt(seed, k);
    }
    forall s | s in WrittenSlots(seed, i) ensures s in WrittenSlots(seed, i + 1) {
      var k: nat :| k < i && s == SlotAt(seed, k);
    }
  }

  lemma {:induction false} SumGrows(m: nat, n: nat)
    requires m <= n
    ensures SumBelow(m) <= SumBelow(n)
    decreases n
  {
    if m == n {
    } else {
      SumGrows(m, n - 1);
    }
  }

  lemma {:induction false} SumFormula(n: nat)
    ensures 2 * SumBelow(n) == n * n - n
    decreases n
  {
    if n == 0 {
    } else {
      SumFormula(n - 1);
      assert n * n - n == (n - 1) * (n - 1) - (n - 1) + 2 * (n - 1);
    }
  }

  // ---------------------------------------------------------------- the slots never repeat

  lemma TwoTo32()
    ensures Pow2(32) == TWO_32
  {
    assert Pow2(8) == 256;
    assert Pow2(16) == 0x1_0000;
    assert Pow2(24) == 0x100_0000;
  }

  lemma SlotIsReduced(seed: nat, i: nat)
    ensures SlotAt(seed, i) < TWO_32
  {
    OrbitIsReduced(MULTIPLIER, INCREMENT, TWO_32, i, (MULTIPLIER * seed + INCREMENT) % TWO_32);
  }

  /** Two writes hit the same slot exactly when they are a multiple of 2^32 writes apart. */
  lemma SlotsRepeatIff(seed: nat, i: nat, j: nat)
    requires i <= j
    ensures SlotAt(seed, i) == SlotAt(seed, j) <==> (j - i) % TWO_32 == 0
  {
    TwoTo32();
    FullPeriod(MULTIPLIER, INCREMENT, 32, i, j, (MULTIPLIER * seed + INCREMENT) % TWO_32);
  }

  lemma WrittenSlotsAreReduced(seed: nat, n: nat)
    ensures forall s :: s in WrittenSlots(seed, n) ==> s < TWO_32
  {
    hide SlotAt;
    forall s | s in WrittenSlots(seed, n) ensures s < TWO_32 {
      var i: nat :| i < n && s == SlotAt(seed, i);
      SlotIsReduced(seed, i);
    }
  }

  /** Write n (counting from 0) hits a new slot exactly as long as n is below 2^32. */
  lemma NextSlotIsNewIff(seed: nat, n: nat)
    ensures SlotAt(seed, n) !in WrittenSlots(seed, n) <==> n < TWO_32
  {
    hide SlotAt;
    if n < TWO_32 {
      if SlotAt(seed, n) in WrittenSlots(seed, n) {
        var i: nat :| i < n && SlotAt(seed, i) == SlotAt(seed, n);
        SlotsRepeatIff(seed, i, n);
        assert false;
      }
    } else {
      SlotsRepeatIff(seed, n - TWO_32, n);
      assert SlotAt(seed, n - TWO_32) in WrittenSlots(seed, n);
    }
  }

  lemma AddingOne(a: set<nat>, x: nat)
    ensures |a + {x}| == |a| + (if x in a then 0 else 1)
  {
    if x in a {
      assert a + {x} == a;
    }
  }

  /** The generator never repeats within 2^32 writes: for every seed and every n, n writes hit n
      distinct slots, all below 2^32, until all 2^32 of them are hit. */
  lemma {:induction false} WrittenSlotsAreDistinct(seed: nat, n: nat)
    ensures |WrittenSlots(seed, n)| == if n <= TWO_32 then n else TWO_32
    ensures forall s :: s in WrittenSlots(seed, n) ==> s < TWO_32
    decreases n
  {
    WrittenSlotsAreReduced(seed, n);
    if n == 0 {
      assert WrittenSlots(seed, n) == {};
    } else {
      hide SlotAt, WrittenSlots;
      WrittenSlotsAreDistinct(seed, n - 1);
      OneMoreSlot(seed, n - 1);
      NextSlotIsNewIff(seed, n - 1);
      AddingOne(WrittenSlots(seed, n - 1), SlotAt(seed, n - 1));
    }
  }

  /** The numbers below n. */
  function Below(n: nat): (r: set<nat>)
    ensures |r| == n
    ensures forall s: nat :: s in r <==> s < n
  {
    if n == 0 then {} else Below(n - 1) + {n - 1}
  }

  lemma SubsetOfSameSize(a: set<nat>, b: set<nat>)
    requires a <= b && |a| == |b|
    ensures a == b
  {
    assert |b - a| == |b| - |a|;
  }

  /** 2^32 writes hit every slot below 2^32, including the contract's own variable. */
  lemma FullRunHitsEverySlot(seed: nat)
    ensures forall s: nat :: s in WrittenSlots(seed, TWO_32) <==> s < TWO_32
    ensures 0 in WrittenSlots(seed, TWO_32)
  {
    var n := TWO_32;
    WrittenSlotsAreDistinct(seed, n);
    SubsetOfSameSize(WrittenSlots(seed, n), Below(n));
  }
}
