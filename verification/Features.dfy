/** Feature masks: a set of feature numbers, built by bit loops over unbounded integers. */
module Features {

  const MAX_FEATURE: nat := 156

  function Pow2(n: nat): nat {
    if n == 0 then 1 else 2 * Pow2(n - 1)
  }

  /** What a query for one number answers. */
  predicate Supported(features: set<nat>, f: int) {
    0 <= f <= MAX_FEATURE && f in features
  }

  /** `mask >> n`, which for a negative mask keeps the sign. */
  function ShiftRight(mask: int, n: nat): int {
    if n == 0 then mask else ShiftRight(mask, n - 1) / 2
  }

  predicate TestBit(mask: int, i: nat) {
    ShiftRight(mask, i) % 2 == 1
  }

  /** The positions of a mask's one bits. */
  function Bits(mask: nat): set<nat> {
    if mask == 0 then {}
    else (if mask % 2 == 1 then {0} else {}) + set b | b in Bits(mask / 2) :: b + 1
  }

  /** Exclusive or of two integers, one bit at a time. */
  function Xor(a: nat, b: nat): nat {
    if a == 0 && b == 0 then 0 else (a + b) % 2 + 2 * Xor(a / 2, b / 2)
  }

  function Difference(a: set<nat>, b: set<nat>): set<nat> {
    (a - b) + (b - a)
  }

  lemma {:induction false} ShiftShift(mask: int, n: nat)
    ensures ShiftRight(mask, n + 1) == ShiftRight(mask / 2, n)
  {
    if n > 0 {
      ShiftShift(mask, n - 1);
    }
  }

  /** Shifting by `n` divides by the `n`-th power of two and rounds down, and a bit is the lowest one of the
      mask so shifted. */
  lemma {:induction false} ShiftIsQuotient(mask: int, n: nat)
    ensures 0 <= mask - Pow2(n) * ShiftRight(mask, n) < Pow2(n)
    ensures TestBit(mask, n) <==> ShiftRight(mask, n) % 2 == 1
  {
    if n > 0 {
      ShiftIsQuotient(mask, n - 1);
      HalfOfQuotient(mask, Pow2(n - 1), ShiftRight(mask, n - 1));
    }
  }

  lemma HalfOfQuotient(mask: int, p: nat, s: int)
    requires 0 <= mask - p * s < p
    ensures 0 <= mask - 2 * p * (s / 2) < 2 * p
  {
    var h := s / 2;
    assert s == 2 * h || s == 2 * h + 1;
    TimesHalf(p, h);
  }

  lemma TimesHalf(p: nat, h: int)
    ensures p * (2 * h) == 2 * p * h && p * (2 * h + 1) == 2 * p * h + p
  {
  }

  lemma {:induction false} BitsAreBits(mask: nat, i: nat)
    ensures i in Bits(mask) <==> TestBit(mask, i)
  {
    if mask == 0 {
      ShiftOfZero(i);
    } else if i > 0 {
      ShiftShift(mask, i - 1);
      BitsAreBits(mask / 2, i - 1);
    }
  }

  lemma {:induction false} ShiftOfZero(n: nat)
    ensures ShiftRight(0, n) == 0
  {
    if n > 0 {
      ShiftOfZero(n - 1);
    }
  }

  lemma {:induction false} NegativeStaysNegative(mask: int, n: nat)
    requires mask < 0
    ensures ShiftRight(mask, n) < 0
  {
    if n > 0 {
      NegativeStaysNegative(mask, n - 1);
    }
  }

  lemma {:induction false} ShiftsToZero(mask: nat)
    ensures ShiftRight(mask, mask) == 0
  {
    if mask > 0 {
      ShiftsToZero(mask / 2);
      ShiftMore(mask / 2, mask / 2, mask - 1);
      ShiftShift(mask, mask - 1);
    }
  }

  lemma {:induction false} ShiftMore(mask: int, n: nat, m: nat)
    requires ShiftRight(mask, n) == 0 && n <= m
    ensures ShiftRight(mask, m) == 0
    decreases m - n
  {
    if n < m {
      ShiftMore(mask, n, m - 1);
    }
  }

  /** The loops end exactly for the masks that are not negative. */
  lemma LoopEndsIffNotNegative(mask: int)
    ensures (exists n: nat :: ShiftRight(mask, n) == 0) <==> mask >= 0
  {
    if mask >= 0 {
      ShiftsToZero(mask);
    } else {
      forall n: nat ensures ShiftRight(mask, n) != 0 {
        NegativeStaysNegative(mask, n);
      }
    }
  }

  lemma {:induction false} XorHalf(a: nat, b: nat)
    ensures Xor(a, b) % 2 == (a + b) % 2 && Xor(a, b) / 2 == Xor(a / 2, b / 2)
  {
    assert Xor(0, 0) == 0;
  }

  /** The bits of an exclusive or are the symmetric difference of the bits. */
  lemma {:induction false} XorBits(a: nat, b: nat)
    ensures Bits(Xor(a, b)) == Difference(Bits(a), Bits(b))
  {
    forall i ensures i in Bits(Xor(a, b)) <==> i in Difference(Bits(a), Bits(b)) {
      if i >= 0 {
        XorBit(a, b, i);
        BitsAreBits(Xor(a, b), i);
        BitsAreBits(a, i);
        BitsAreBits(b, i);
      }
    }
  }

  lemma ParityOfSum(a: nat, b: nat)
    ensures (a + b) % 2 == if a % 2 == b % 2 then 0 else 1
  {
    var half := a / 2 + b / 2;
    assert a + b == 2 * half + (a % 2 + b % 2);
  }

  lemma LowBit(a: nat, b: nat)
    ensures TestBit(Xor(a, b), 0) <==> TestBit(a, 0) != TestBit(b, 0)
  {
    XorHalf(a, b);
    ParityOfSum(a, b);
  }

  lemma {:induction false} XorBit(a: nat, b: nat, i: nat)
    ensures TestBit(Xor(a, b), i) <==> TestBit(a, i) != TestBit(b, i)
  {
    if i == 0 {
      LowBit(a, b);
    } else {
      XorHalf(a, b);
      ShiftShift(a, i - 1);
      ShiftShift(b, i - 1);
      ShiftShift(Xor(a, b), i - 1);
      XorBit(a / 2, b / 2, i - 1);
    }
  }

  /** The exclusive or of a base and a list of diffs. */
  function XorAll(base: nat, diffs: seq<nat>): nat {
    if diffs == [] then base else Xor(XorAll(base, diffs[..|diffs| - 1]), diffs[|diffs| - 1])
  }

  /** How many of the diffs have the bit. */
  function Flips(diffs: seq<nat>, i: nat): nat {
    if diffs == [] then 0
    else Flips(diffs[..|diffs| - 1], i) + if TestBit(diffs[|diffs| - 1], i) then 1 else 0
  }

  lemma {:induction false} FlipsConcat(a: seq<nat>, b: seq<nat>, i: nat)
    ensures Flips(a + b, i) == Flips(a, i) + Flips(b, i)
  {
    if b == [] {
      assert a + b == a;
    } else {
      FlipsConcat(a, b[..|b| - 1], i);
      assert (a + b)[..|a + b| - 1] == a + b[..|b| - 1];
    }
  }

  lemma {:induction false} FlipsAnyOrder(a: seq<nat>, b: seq<nat>, i: nat)
    requires multiset(a) == multiset(b)
    ensures Flips(a, i) == Flips(b, i)
  {
    if a == [] {
      assert |multiset(b)| == 0;
    } else {
      var n, x := |a| - 1, a[|a| - 1];
      assert a[..n] + [x] == a;
      assert x in multiset(b);
      var j :| 0 <= j < |b| && b[j] == x;
      assert b[..j] + [x] + b[j + 1..] == b;
      assert multiset(a[..n]) == multiset(a) - multiset{x};
      assert multiset(b[..j] + [x] + b[j + 1..]) == multiset(b[..j] + b[j + 1..]) + multiset{x};
      assert multiset(b[..j] + b[j + 1..]) == multiset(b) - multiset{x};
      assert multiset(a[..n]) == multiset(b[..j] + b[j + 1..]);
      FlipsAnyOrder(a[..n], b[..j] + b[j + 1..], i);
      FlipsConcat(b[..j], b[j + 1..], i);
      FlipsConcat(b[..j] + [x], b[j + 1..], i);
      assert (b[..j] + [x])[..j] == b[..j];
    }
  }

  /** A feature is on exactly when an odd number of the masks has its bit. */
  lemma {:induction false} XorAllCountsFlips(base: nat, diffs: seq<nat>, i: nat)
    ensures TestBit(XorAll(base, diffs), i)
            <==> (Flips(diffs, i) + if TestBit(base, i) then 1 else 0) % 2 == 1
  {
    if diffs != [] {
      var n := |diffs| - 1;
      XorAllCountsFlips(base, diffs[..n], i);
      XorBit(XorAll(base, diffs[..n]), diffs[n], i);
    }
  }

  lemma {:induction false} BitsDetermine(a: nat, b: nat)
    requires forall i: nat :: TestBit(a, i) == TestBit(b, i)
    ensures a == b
    decreases a + b
  {
    if a != b {
      assert TestBit(a, 0) == TestBit(b, 0);
      assert ShiftRight(a, 0) == a && ShiftRight(b, 0) == b;
      forall i: nat ensures TestBit(a / 2, i) == TestBit(b / 2, i) {
        ShiftShift(a, i);
        ShiftShift(b, i);
        assert TestBit(a, i + 1) == TestBit(b, i + 1);
      }
      BitsDetermine(a / 2, b / 2);
    }
  }

  /** The diffs may be applied in any order. */
  lemma ToggleOrderIrrelevant(base: nat, diffs: seq<nat>, diffs': seq<nat>)
    requires multiset(diffs) == multiset(diffs')
    ensures XorAll(base, diffs) == XorAll(base, diffs')
  {
    forall i: nat ensures TestBit(XorAll(base, diffs), i) == TestBit(XorAll(base, diffs'), i) {
      XorAllCountsFlips(base, diffs, i);
      XorAllCountsFlips(base, diffs', i);
      FlipsAnyOrder(diffs, diffs', i);
    }
    BitsDetermine(XorAll(base, diffs), XorAll(base, diffs'));
  }

  lemma NoBitsBeyond(mask: nat, n: nat)
    requires ShiftRight(mask, n) == 0
    ensures forall i | i in Bits(mask) :: i < n
  {
    forall i | i in Bits(mask) ensures i < n {
      BitsAreBits(mask, i);
      if n <= i {
        ShiftMore(mask, n, i);
      }
    }
  }

  function Below(bits: set<nat>, n: nat): set<nat> {
    set b | b in bits && b < n
  }

  class FeatureSet {
    var features: set<nat>

    constructor ()
      ensures features == {}
    {
      features := {};
    }

    /** A negative mask would never reach zero: see LoopEndsIffNotNegative. */
    method SetFeatures(bits: int)
      requires bits >= 0
      modifies this
      ensures features == old(features) + Bits(bits)
    {
      var index, mask := 0, bits;
      while mask != 0
        invariant mask >= 0 && mask == ShiftRight(bits, index)
        invariant features == old(features) + Below(Bits(bits), index)
        decreases mask
      {
        BitsAreBits(bits, index);
        if mask % 2 == 1 {
          features := features + {index};
        }
        index := index + 1;
        mask := mask / 2;
      }
      NoBitsBeyond(bits, index);
    }

    method ToggleFeatures(bits: int)
      requires bits >= 0
      modifies this
      ensures features == Difference(old(features), Bits(bits))
    {
      var index, mask := 0, bits;
      while mask != 0
        invariant mask >= 0 && mask == ShiftRight(bits, index)
        invariant features == Difference(old(features), Below(Bits(bits), index))
        decreases mask
      {
        BitsAreBits(bits, index);
        if mask % 2 == 1 {
          features := if index in features then features - {index} else features + {index};
        }
        index := index + 1;
        mask := mask / 2;
      }
      NoBitsBeyond(bits, index);
    }

    /** One link of the chain, for a set that holds the exclusive or of the masks so far. */
    method ToggleNext(ghost full: nat, ghost done: seq<nat>, diff: nat)
      requires features == Bits(XorAll(full, done))
      modifies this
      ensures features == Bits(XorAll(full, done + [diff]))
    {
      ToggleMeansXor(full, done, diff);
      ToggleFeatures(diff);
    }

    /** The initialisation chain: the set ends up as the exclusive or of all masks that apply, and a number
        is in it exactly if an odd number of the six masks has that bit, the plus mask taken as having none
        unless the build is a pro one. */
    method Initialise(full: nat, product: nat, device: nat, sysConfig: nat, pro: bool, plus: nat, custom: nat)
      requires features == {}
      modifies this
      ensures features == Bits(XorAll(full, DiffsApplied(product, device, sysConfig, pro, plus, custom)))
      ensures forall f: nat ::
                f in features <==> OddMasks(full, product, device, sysConfig, if pro then plus else 0, custom, f)
    {
      ghost var done := InitialiseBuild(full, product, device, sysConfig);
      if pro {
        ToggleNext(full, done, plus);
        done := done + [plus];
      }
      ToggleNext(full, done, custom);
      done := done + [custom];
      assert done == DiffsApplied(product, device, sysConfig, pro, plus, custom);
      forall f: nat
        ensures f in features <==> OddMasks(full, product, device, sysConfig, if pro then plus else 0, custom, f)
      {
        ChainIsParity(full, product, device, sysConfig, pro, plus, custom, f);
      }
    }

    /** The masks that apply to every build. */
    method InitialiseBuild(full: nat, product: nat, device: nat, sysConfig: nat) returns (ghost done: seq<nat>)
      requires features == {}
      modifies this
      ensures done == [product, device, sysConfig]
      ensures features == Bits(XorAll(full, done))
    {
      SetFeatures(full);
      done := [];
      ToggleNext(full, done, product);
      done := done + [product];
      ToggleNext(full, done, device);
      done := done + [device];
      ToggleNext(full, done, sysConfig);
      done := done + [sysConfig];
    }

    /** True exactly when every argument is a known feature that is on. */
    method IsSupport(wanted: seq<int>) returns (supported: bool)
      ensures supported <==> forall f | f in wanted :: 0 <= f <= 156 && f in features
    {
      for i := 0 to |wanted|
        invariant forall j | 0 <= j < i :: Supported(features, wanted[j])
      {
        if wanted[i] < 0 || wanted[i] > MAX_FEATURE || wanted[i] !in features {
          assert wanted[i] in wanted;
          return false;
        }
      }
      return true;
    }
  }

  function DiffsApplied(product: nat, device: nat, sysConfig: nat, pro: bool, plus: nat, custom: nat): seq<nat> {
    [product, device, sysConfig] + (if pro then [plus] else []) + [custom]
  }

  /** The bit of a mask, as a number. */
  function BitOf(mask: nat, i: nat): nat {
    if TestBit(mask, i) then 1 else 0
  }

  /** An odd number of the six masks has bit `i`. */
  predicate OddMasks(a: nat, b: nat, c: nat, d: nat, e: nat, f: nat, i: nat) {
    (BitOf(a, i) + BitOf(b, i) + BitOf(c, i) + BitOf(d, i) + BitOf(e, i) + BitOf(f, i)) % 2 == 1
  }

  lemma ToggleMeansXor(base: nat, done: seq<nat>, diff: nat)
    ensures Bits(XorAll(base, done + [diff])) == Difference(Bits(XorAll(base, done)), Bits(diff))
  {
    assert (done + [diff])[..|done|] == done;
    XorBits(XorAll(base, done), diff);
  }

  lemma FlipsOne(diffs: seq<nat>, diff: nat, i: nat)
    ensures Flips(diffs + [diff], i) == Flips(diffs, i) + BitOf(diff, i)
  {
    assert (diffs + [diff])[..|diffs|] == diffs;
  }

  lemma FlipsOfChain(product: nat, device: nat, sysConfig: nat, pro: bool, plus: nat, custom: nat, i: nat)
    ensures Flips(DiffsApplied(product, device, sysConfig, pro, plus, custom), i)
            == BitOf(product, i) + BitOf(device, i) + BitOf(sysConfig, i)
               + BitOf(if pro then plus else 0, i) + BitOf(custom, i)
  {
    FlipsOne([], product, i);
    FlipsOne([product], device, i);
    FlipsOne([product, device], sysConfig, i);
    var build := [product, device, sysConfig];
    assert [] + [product] == [product] && [product] + [device] == [product, device];
    assert [product, device] + [sysConfig] == build && build + [] == build;
    FlipsOne(build, plus, i);
    FlipsOne(build + (if pro then [plus] else []), custom, i);
    ShiftOfZero(i);
  }

  lemma ChainIsParity(full: nat, product: nat, device: nat, sysConfig: nat, pro: bool, plus: nat, custom: nat, f: nat)
    ensures f in Bits(XorAll(full, DiffsApplied(product, device, sysConfig, pro, plus, custom)))
            <==> OddMasks(full, product, device, sysConfig, if pro then plus else 0, custom, f)
  {
    var diffs := DiffsApplied(product, device, sysConfig, pro, plus, custom);
    BitsAreBits(XorAll(full, diffs), f);
    XorAllCountsFlips(full, diffs, f);
    FlipsOfChain(product, device, sysConfig, pro, plus, custom, f);
  }

  /** A query for any number, after the whole chain of initialisation: it says yes exactly to the known
      features that an odd number of the masks carries: the base, the product's, the device's, the system
      configuration's and the custom one, and on pro builds the plus one. The features higher bits stand
      for are set but cannot be asked for. */
  lemma SupportIsParity(full: nat, product: nat, device: nat, sysConfig: nat, pro: bool, plus: nat, custom: nat, f: int)
    ensures Supported(Bits(XorAll(full, DiffsApplied(product, device, sysConfig, pro, plus, custom))), f)
            <==> && 0 <= f <= 156
                 && (BitOf(full, f) + BitOf(product, f) + BitOf(device, f) + BitOf(sysConfig, f) + BitOf(custom, f)
                     + if pro then BitOf(plus, f) else 0) % 2 == 1
  {
    if 0 <= f {
      ChainIsParity(full, product, device, sysConfig, pro, plus, custom, f);
      ShiftOfZero(f);
    }
  }
}
