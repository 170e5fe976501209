/** Linear-hashing addresses of AutoHyperClockTable: the published length word, the home of a
    hash for a given used length, and how homes move when the table grows by one slot. */
module LinearHashing {
  import opened Arith

  const THRESHOLD_LIMIT := 0x100_0000_0000_0000 // 2^56

  function MinShift(info: nat): nat { info % 256 }

  function Threshold(info: nat): nat { info / 256 }

  function UsedLength(info: nat): nat { Pow2(MinShift(info)) + Threshold(info) }

  /** The packed 64-bit word: threshold in the upper 56 bits, minimum shift in the lower 8.
      The left shift drops whatever does not fit. */
  function EncodeLength(length: nat): (info: nat)
    requires 2 <= length < WORD
    ensures info < WORD
  {
    LogBelow64(length);
    var shift := FloorLog2(length);
    var threshold := length - Pow2(shift);
    ShiftedFits(threshold);
    (threshold * 256) % WORD + shift
  }

  lemma LogBelow64(length: nat)
    requires 1 <= length < WORD
    ensures FloorLog2(length) <= 63
  {
    Pow2At64();
    if FloorLog2(length) >= 64 {
      Pow2Mono(64, FloorLog2(length));
    }
  }

  lemma Pow2At64()
    ensures Pow2(8) == 256 && Pow2(56) == THRESHOLD_LIMIT && Pow2(64) == WORD
  {
    assert Pow2(8) == 256;
    Pow2Adds(8, 8);
    Pow2Adds(16, 16);
    Pow2Adds(16, 8);
    Pow2Adds(32, 24);
    Pow2Adds(56, 8);
  }

  /** Shifting left by eight keeps the low eight bits clear, overflow or not. */
  lemma ShiftedFits(t: nat)
    ensures (t * 256) % WORD == 256 * (t % THRESHOLD_LIMIT)
    ensures (t * 256) % WORD <= WORD - 256
  {
    var q, r := t / THRESHOLD_LIMIT, t % THRESHOLD_LIMIT;
    assert t * 256 == q * WORD + 256 * r;
    ModUnique(t * 256, WORD, q, 256 * r);
  }

  /** What the encoded word decodes to. */
  lemma Decoded(length: nat)
    requires 2 <= length < WORD
    ensures MinShift(EncodeLength(length)) == FloorLog2(length)
    ensures Threshold(EncodeLength(length)) == (length - Pow2(FloorLog2(length))) % THRESHOLD_LIMIT
  {
    LogBelow64(length);
    var shift := FloorLog2(length);
    var t := length - Pow2(shift);
    ShiftedFits(t);
    ModUnique(EncodeLength(length), 256, t % THRESHOLD_LIMIT, shift);
  }

  /** The length word round-trips exactly when the threshold fits the 56 bits left for it. */
  lemma RoundTrip(length: nat)
    requires 2 <= length < WORD
    ensures UsedLength(EncodeLength(length)) == length <==> length - Pow2(FloorLog2(length)) < THRESHOLD_LIMIT
  {
    Decoded(length);
    var t := length - Pow2(FloorLog2(length));
    assert t % THRESHOLD_LIMIT < THRESHOLD_LIMIT;
    if t < THRESHOLD_LIMIT {
      ModUnique(t, THRESHOLD_LIMIT, 0, t);
    }
  }

  /** A length whose threshold is lost: the decoded length is 2^57 rather than 2^57 + 2^56. */
  lemma RoundTripFails()
    ensures UsedLength(EncodeLength(3 * THRESHOLD_LIMIT)) == 2 * THRESHOLD_LIMIT
  {
    Pow2At64();
    assert Pow2(57) == 2 * THRESHOLD_LIMIT;
    FloorLog2Unique(3 * THRESHOLD_LIMIT, 57);
    Decoded(3 * THRESHOLD_LIMIT);
  }

  /** Home of a hash at `shift` bits. */
  function HomeAt(hash: nat, shift: nat): nat { hash % Pow2(shift) }

  /** Number of hash bits that choose the home of `hash` when `length` slots are in use. */
  function ShiftOf(length: nat, hash: nat): nat
    requires length >= 2
  {
    var s := FloorLog2(length);
    if HomeAt(hash, s) < length - Pow2(s) then s + 1 else s
  }

  function HomeOf(length: nat, hash: nat): nat
    requires length >= 2
  {
    HomeAt(hash, ShiftOf(length, hash))
  }

  /** The home and shift that the packed word selects. */
  function HomeAndShift(info: nat, hash: nat): (nat, nat)
  {
    var s := MinShift(info);
    var shift := if HomeAt(hash, s) < Threshold(info) then s + 1 else s;
    (HomeAt(hash, shift), shift)
  }

  lemma HomeAndShiftAgree(length: nat, hash: nat)
    requires 2 <= length < WORD
    requires length - Pow2(FloorLog2(length)) < THRESHOLD_LIMIT
    ensures HomeAndShift(EncodeLength(length), hash) == (HomeOf(length, hash), ShiftOf(length, hash))
  {
    Decoded(length);
    var t := length - Pow2(FloorLog2(length));
    ModUnique(t, THRESHOLD_LIMIT, 0, t);
  }

  /** Shift recorded on the chain head of slot `home` when `length` slots are in use. */
  function HeadShift(length: nat, home: nat): nat
    requires length >= 2
  {
    var s := FloorLog2(length);
    if home < length - Pow2(s) || home >= Pow2(s) then s + 1 else s
  }

  /** Every hash has its home inside the used part, under the shift recorded on that head. */
  lemma HomeInRange(length: nat, hash: nat)
    requires length >= 2
    ensures HomeOf(length, hash) < length
    ensures HeadShift(length, HomeOf(length, hash)) == ShiftOf(length, hash)
  {
    var s := FloorLog2(length);
    ModDouble(hash, Pow2(s));
  }

  /** The home that feeds slot `length` when the table grows from `length` slots. */
  function OldHome(growHome: nat): nat
    requires growHome >= 1
  {
    growHome - Pow2(FloorLog2(growHome))
  }

  /** Growing by one slot moves exactly the hashes of one old home whose next bit is set,
      and moves them to the new slot. */
  lemma GrowMoves(length: nat, hash: nat)
    requires length >= 2
    ensures HomeOf(length + 1, hash) ==
            if HomeOf(length, hash) == OldHome(length) && hash % Pow2(FloorLog2(length) + 1) != OldHome(length)
            then length else HomeOf(length, hash)
    ensures HomeOf(length, hash) == OldHome(length) <==> hash % Pow2(FloorLog2(length)) == OldHome(length)
    ensures HomeOf(length, hash) == OldHome(length) ==>
              hash % Pow2(FloorLog2(length) + 1) in {OldHome(length), length}
  {
    var s := FloorLog2(length);
    ModDouble(hash, Pow2(s));
    GrownLog(length);
    if FloorLog2(length + 1) == s + 1 {
      ModDouble(hash, Pow2(s + 1));
    }
  }

  /** Growing past a power of two turns the maximum shift into the minimum shift. */
  lemma GrownLog(length: nat)
    requires length >= 1
    ensures FloorLog2(length + 1) == if length + 1 == Pow2(FloorLog2(length) + 1) then FloorLog2(length) + 1
        else FloorLog2(length)
  {
    var s := FloorLog2(length);
    if length + 1 == Pow2(s + 1) {
      FloorLog2Unique(length + 1, s + 1);
    } else {
      FloorLog2Unique(length + 1, s);
    }
  }

  /** Only the two heads of the split change shift, and both end at the new shift. */
  lemma GrowHeadShifts(length: nat, home: nat)
    requires length >= 2 && home <= length
    ensures HeadShift(length + 1, home) ==
            if home == length || home == OldHome(length) then FloorLog2(length) + 1 else HeadShift(length, home)
    ensures HeadShift(length, OldHome(length)) == FloorLog2(length)
    ensures OldHome(length) < Pow2(FloorLog2(length)) <= length
  {
    GrownLog(length);
  }

  /** Starting from any shift no larger than the right one, the head at each intermediate home
      carries a larger shift, so stepping one bit at a time stops exactly at the right home. */
  lemma StaleHomeIsPassed(length: nat, hash: nat, shift: nat)
    requires length >= 2 && shift <= ShiftOf(length, hash)
    ensures HomeAt(hash, shift) < length
    ensures shift < ShiftOf(length, hash) <==> shift < HeadShift(length, HomeAt(hash, shift))
  {
    var s := FloorLog2(length);
    HomeInRange(length, hash);
    if shift < ShiftOf(length, hash) {
      Pow2Mono(shift, s);
    }
  }

  /** A home computed for a smaller length never uses more bits than the right one. */
  lemma LaggingShift(lagging: nat, length: nat, hash: nat)
    requires 2 <= lagging <= length
    ensures ShiftOf(lagging, hash) <= ShiftOf(length, hash)
  {
    var a, b := FloorLog2(lagging), FloorLog2(length);
    if b < a {
      Pow2Mono(b + 1, a);
      assert false;
    }
  }
}
