/**
 * Sizing of the embedded runtime (ERT) command queue: how many command
 * slots the queue of `cqSize` bytes is cut into, and how large each slot is.
 * The number of compute units, the largest compute-unit size, the xrt.ini
 * slot-size override and the queue size come from code outside this model
 * and are parameters here.
 */
module ErtSlots {
  import opened Common
  import opened Arith

  const MAX_SLOTS: nat := 128
  const MIN_SLOTS: nat := 16
  /** Slots are tracked by 32-bit status registers. */
  const STATUS_REGISTER_BITS: nat := 32

  function Min(a: nat, b: nat): (r: nat) { if a < b then a else b }
  function Max(a: nat, b: nat): (r: nat) { if a < b then b else a }

  /** Slots wanted: two slots per compute unit plus one reserved, clamped to [16, 128]. */
  function InitialSlots(numCus: nat): (s: nat)
    ensures MIN_SLOTS <= s <= MAX_SLOTS
    ensures MIN_SLOTS <= 2 * numCus + 1 <= MAX_SLOTS ==> s == 2 * numCus + 1
    ensures 2 * numCus + 1 < MIN_SLOTS ==> s == MIN_SLOTS
    ensures MAX_SLOTS < 2 * numCus + 1 ==> s == MAX_SLOTS
  {
    Min(MAX_SLOTS, Max(MIN_SLOTS, numCus * 2 + 1))
  }

  /** Slot size: the larger of an even share of the queue and the largest compute unit. */
  function ChosenSlotSize(cqSize: nat, numCus: nat, maxCuSize: nat): (size: nat)
    ensures size >= cqSize / InitialSlots(numCus) && size >= maxCuSize
    ensures size == cqSize / InitialSlots(numCus) || size == maxCuSize
  {
    Max(cqSize / InitialSlots(numCus), maxCuSize)
  }

  /**
   * A slot count above 16 is rounded up to the next status-register
   * boundary (32, 64, 96, 128, ...); 16 or fewer is kept.
   */
  function RoundToStatusRegister(slots: nat): (r: nat)
    ensures slots <= MIN_SLOTS ==> r == slots
    ensures MIN_SLOTS < slots ==> r % STATUS_REGISTER_BITS == 0 && slots <= r < slots + STATUS_REGISTER_BITS
  {
    if slots > MIN_SLOTS then ((slots - 1) / STATUS_REGISTER_BITS + 1) * STATUS_REGISTER_BITS else slots
  }

  /**
   * The default path divides by the chosen slot size and then by the slot
   * count it derives; nothing in the source keeps either from being zero.
   * Both are non-zero exactly when this holds.
   */
  predicate NoZeroDivisor(cqSize: nat, numCus: nat, maxCuSize: nat)
  {
    maxCuSize <= cqSize && (InitialSlots(numCus) <= cqSize || 0 < maxCuSize)
  }

  /** (slots, slot size) when no override is configured. */
  function DefaultSlots(cqSize: nat, numCus: nat, maxCuSize: nat): (r: (nat, nat))
    requires NoZeroDivisor(cqSize, numCus, maxCuSize)
    ensures r.0 > 0
  {
    var size := ChosenSlotSize(cqSize, numCus, maxCuSize);
    ChosenSlotSizeFits(cqSize, numCus, maxCuSize);
    DivisorFits(cqSize, size);
    var slots := RoundToStatusRegister(cqSize / size);
    (slots, Div(cqSize, slots))
  }

  /** Unsigned (size_t) division, which truncates. */
  function Div(a: nat, b: nat): (q: nat)
    requires 0 < b
    ensures b * q <= a < b * (q + 1)
  {
    a / b
  }

  /** The whole computation, override first; `configSlotSize == 0` means "not configured". */
  function SlotPlan(cqSize: nat, configSlotSize: nat, numCus: nat, maxCuSize: nat): (r: Result<(nat, nat)>)
    requires configSlotSize == 0 ==> NoZeroDivisor(cqSize, numCus, maxCuSize)
    ensures r.Err? <==> 0 < configSlotSize && cqSize / configSlotSize > MAX_SLOTS
    ensures r.Err? ==> r.error == InvalidSlotSize(configSlotSize)
    ensures 0 < configSlotSize && r.Ok? ==> r.value == (cqSize / configSlotSize, configSlotSize)
  {
    if configSlotSize != 0 then
      if Div(cqSize, configSlotSize) > MAX_SLOTS then Err(InvalidSlotSize(configSlotSize))
      else Ok((Div(cqSize, configSlotSize), configSlotSize))
    else
      Ok(DefaultSlots(cqSize, numCus, maxCuSize))
  }

  /** The computation as the source performs it, reassigning the slot count step by step. */
  method GetErtSlots(cqSize: nat, configSlotSize: nat, numCus: nat, maxCuSize: nat) returns (r: Result<(nat, nat)>)
    requires configSlotSize == 0 ==> NoZeroDivisor(cqSize, numCus, maxCuSize)
    ensures r == SlotPlan(cqSize, configSlotSize, numCus, maxCuSize)
    ensures 0 < configSlotSize ==> (r.Err? <==> cqSize / configSlotSize > MAX_SLOTS)
    ensures configSlotSize == 0 ==> r.Ok? && 0 < r.value.0 && r.value.0 * r.value.1 <= cqSize
  {
    if configSlotSize != 0 {
      if Div(cqSize, configSlotSize) > MAX_SLOTS {
        return Err(InvalidSlotSize(configSlotSize));
      }
      return Ok((Div(cqSize, configSlotSize), configSlotSize));
    }
    var slots := Min(MAX_SLOTS, Max(MIN_SLOTS, numCus * 2 + 1));
    assert slots == InitialSlots(numCus);
    var size := Max(Div(cqSize, slots), maxCuSize);
    assert size == ChosenSlotSize(cqSize, numCus, maxCuSize);
    ChosenSlotSizeFits(cqSize, numCus, maxCuSize);
    DivisorFits(cqSize, size);
    slots := Div(cqSize, size);
    if slots > 16 {
      var idx := (slots - 1) / 32;
      slots := (idx + 1) * 32;
    }
    assert slots == DefaultSlots(cqSize, numCus, maxCuSize).0;
    r := Ok((slots, Div(cqSize, slots)));
    DefaultSlotsFillQueue(cqSize, numCus, maxCuSize);
  }

  // ---------------------------------------------------------------------
  // Divisors of the default path

  lemma DivisorFits(cqSize: nat, size: nat)
    requires 0 < size <= cqSize
    ensures cqSize / size >= 1
  {
    DivAtLeast(cqSize, size, 1);
  }

  /** The slot size the default path divides by is positive and no larger than the queue. */
  lemma ChosenSlotSizeFits(cqSize: nat, numCus: nat, maxCuSize: nat)
    requires NoZeroDivisor(cqSize, numCus, maxCuSize)
    ensures 0 < ChosenSlotSize(cqSize, numCus, maxCuSize) <= cqSize
  {
    var s0 := InitialSlots(numCus);
    DivNoLarger(cqSize, s0);
    if s0 <= cqSize {
      DivisorFits(cqSize, s0);
    }
  }

  // ---------------------------------------------------------------------
  // Properties of the default path

  /**
   * The default path always yields a positive slot count whose slots fit in
   * the queue; a count above 16 sits on a status-register boundary; and when
   * no rounding happened the slot is at least as large as every compute unit.
   */
  lemma DefaultSlotsFillQueue(cqSize: nat, numCus: nat, maxCuSize: nat)
    requires NoZeroDivisor(cqSize, numCus, maxCuSize)
    ensures var (slots, slotSize) := DefaultSlots(cqSize, numCus, maxCuSize);
      && 0 < slots
      && slots * slotSize <= cqSize
      && (MIN_SLOTS < slots ==> slots % STATUS_REGISTER_BITS == 0)
      && (slots <= MIN_SLOTS ==> slotSize >= maxCuSize)
  {
    var size := ChosenSlotSize(cqSize, numCus, maxCuSize);
    ChosenSlotSizeFits(cqSize, numCus, maxCuSize);
    var r := DefaultSlots(cqSize, numCus, maxCuSize);
    var recomputed := Div(cqSize, size);
    assert r.0 == RoundToStatusRegister(recomputed);
    if r.0 <= MIN_SLOTS {
      QuotientOfQuotientAtLeast(cqSize, size);
      assert r.1 == cqSize / (cqSize / size);
    }
  }

  /**
   * With a queue of at least 128 * 128 bytes the default path never asks for
   * more than the 128 slots that four status registers can track.
   */
  lemma DefaultSlotsWithinStatusRegisters(cqSize: nat, numCus: nat, maxCuSize: nat)
    requires NoZeroDivisor(cqSize, numCus, maxCuSize)
    requires MAX_SLOTS * MAX_SLOTS <= cqSize
    ensures DefaultSlots(cqSize, numCus, maxCuSize).0 <= MAX_SLOTS
  {
    var s0 := InitialSlots(numCus);
    var share := cqSize / s0;
    var size := ChosenSlotSize(cqSize, numCus, maxCuSize);
    assert s0 * s0 <= MAX_SLOTS * MAX_SLOTS;
    QuotientOfQuotientAtMost(cqSize, s0);
    DivAntitone(cqSize, share, size);
    var recomputed := cqSize / size;
    assert recomputed <= s0;
    if recomputed > MIN_SLOTS {
      assert (recomputed - 1) / STATUS_REGISTER_BITS <= 3;
    }
  }

  /** Rounding up the count divides the queue more finely: a slot can end up smaller than a compute unit. */
  lemma RoundingCanShrinkSlotBelowCuSize()
    ensures SlotPlan(0x10000, 0, 10, 3000) == Ok((32, 2048))
  {
    assert InitialSlots(10) == 21;
    assert ChosenSlotSize(0x10000, 10, 3000) == 3120;
    assert Div(0x10000, 3120) == 21;
    assert RoundToStatusRegister(21) == 32;
    assert Div(0x10000, 32) == 2048;
  }

  /** Why the default path needs `NoZeroDivisor`: a compute unit larger than the queue drives the slot count to zero. */
  lemma OversizedCuLeavesNoSlot(cqSize: nat, numCus: nat, maxCuSize: nat)
    requires cqSize < maxCuSize
    ensures cqSize / ChosenSlotSize(cqSize, numCus, maxCuSize) == 0
  {
    DivOfSmaller(cqSize, ChosenSlotSize(cqSize, numCus, maxCuSize));
  }
}
