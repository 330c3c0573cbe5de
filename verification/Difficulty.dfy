/** Difficulty adjustment over a window of canonical blocks, in 128-bit arithmetic. */
module Difficulty {
  import opened Types

  datatype DifficultyManager = DifficultyManager(targetBlockInterval: u64, windowSize: nat) {
    /** The source panics on a window of size 0. */
    predicate Usable() {
      windowSize >= 1
    }

    /** The unchecked product of a release build wraps at 64 bits. */
    function ExpectedTime(): (r: u64)
      requires Usable()
    {
      MulNonNegative(targetBlockInterval, windowSize - 1);
      targetBlockInterval * (windowSize - 1) % TWO_TO_THE_64
    }

    /** Seconds between the first and the last block of the window, at least 1. */
    function Elapsed(blocks: seq<VeloBlock>): (r: u64)
      requires 1 <= windowSize <= |blocks|
      ensures r >= 1
    {
      var earliest := blocks[|blocks| - windowSize].header.timestamp;
      var latest := blocks[|blocks| - 1].header.timestamp;
      if latest > earliest then latest - earliest else 1
    }

    function CalculateNextTarget(blocks: seq<VeloBlock>, current: Target): Target
      requires Usable()
    {
      if |blocks| < windowSize then current
      else
        HighHalfFits(current[..16]);
        Rebuild(NextHigh(FromBytes(current[..16]), Elapsed(blocks), ExpectedTime()))
    }
  }

  /** The new high half in front of a tail of maximal bytes, capped at the maximal target. */
  function Rebuild(high: u128): Target {
    var next := ToBytes(high, 16) + MAX_TARGET[16..];
    if LexLess(MAX_TARGET, next) then MAX_TARGET else next
  }

  const MAX_TARGET: Target := [
    0xff, 0xff, 0xff, 0xff, 0xff, 0xff, 0xff, 0xff, 0xff, 0xff, 0xff, 0xff, 0xff, 0xff, 0xff, 0xff,
    0xff, 0xff, 0xff, 0xff, 0xff, 0xff, 0xff, 0xff, 0xff, 0xff, 0xff, 0xff, 0xff, 0xff, 0xff, 0xff]

  function SafeExpected(expected: u64): u64 {
    if expected < 1 then 1 else expected
  }

  /** Elapsed time clamped to a quarter and (saturating) four times the expected one. */
  function Clamped(elapsed: u64, expected: u64): (r: u64)
    requires expected >= 1
  {
    var low := expected / 4;
    var high := if expected * 4 >= TWO_TO_THE_64 then TWO_TO_THE_64 - 1 else expected * 4;
    if elapsed < low then low else if elapsed > high then high else elapsed
  }

  /** The scaled high half; an overflowing product leaves it as it was. */
  function NextHigh(high: u128, elapsed: u64, expected: u64): u128 {
    var safe := SafeExpected(expected);
    var product := high * Clamped(elapsed, safe);
    QuotientFits(product, safe);
    if product >= TWO_TO_THE_128 then high else product / safe
  }

  lemma {:induction false} QuotientFits(product: int, safe: int)
    requires product >= 0 && safe >= 1
    ensures 0 <= product / safe <= product
  {
    var q := product / safe;
    assert product == safe * q + product % safe;
    if q < 0 {
      MulLe(safe, q, -1);
    } else {
      MulLe(q, 1, safe);
    }
  }

  // Big-endian bytes

  function FromBytes(bytes: seq<byte>): (r: nat)
    ensures r < Pow256(|bytes|)
  {
    if bytes == [] then 0
    else FromBytes(bytes[..|bytes| - 1]) * 256 + bytes[|bytes| - 1]
  }

  function ToBytes(v: nat, n: nat): (r: seq<byte>)
    ensures |r| == n
  {
    if n == 0 then [] else ToBytes(v / 256, n - 1) + [v % 256]
  }

  function Pow256(n: nat): nat {
    if n == 0 then 1 else Pow256(n - 1) * 256
  }

  /** Array comparison: the first differing byte decides. */
  predicate LexLess(a: seq<byte>, b: seq<byte>)
    requires |a| == |b|
  {
    a != [] && (a[0] < b[0] || (a[0] == b[0] && LexLess(a[1..], b[1..])))
  }

  lemma {:induction false} BytesRoundTrip(v: nat, n: nat)
    requires v < Pow256(n)
    ensures FromBytes(ToBytes(v, n)) == v
  {
    if n == 0 {
    } else {
      BytesRoundTrip(v / 256, n - 1);
      assert ToBytes(v, n)[..n - 1] == ToBytes(v / 256, n - 1);
    }
  }

  lemma {:induction false} ValueRoundTrip(bytes: seq<byte>)
    ensures ToBytes(FromBytes(bytes), |bytes|) == bytes
  {
    if bytes == [] {
    } else {
      ValueRoundTrip(bytes[..|bytes| - 1]);
    }
  }

  lemma {:induction false} FromBytesFront(bytes: seq<byte>)
    requires bytes != []
    ensures FromBytes(bytes) == bytes[0] * Pow256(|bytes| - 1) + FromBytes(bytes[1..])
  {
    var n := |bytes| - 1;
    if n == 0 {
      assert bytes[..0] == [] && bytes[1..] == [];
    } else {
      FromBytesFront(bytes[..n]);
      assert bytes[..n][1..] == bytes[1..][..n - 1];
      var high, low := bytes[0] * Pow256(n - 1), FromBytes(bytes[1..n]);
      assert bytes[..n][1..] == bytes[1..n];
      assert (high + low) * 256 == high * 256 + low * 256;
      assert bytes[0] * (Pow256(n - 1) * 256) == high * 256;
    }
  }

  /** Comparing bytes compares the numbers they spell. */
  lemma {:induction false} LexOrderIsNumeric(a: seq<byte>, b: seq<byte>)
    requires |a| == |b|
    ensures LexLess(a, b) <==> FromBytes(a) < FromBytes(b)
  {
    if a == [] {
    } else {
      FromBytesFront(a);
      FromBytesFront(b);
      LexOrderIsNumeric(a[1..], b[1..]);
      LeadingByte(a[0], b[0], Pow256(|a| - 1), FromBytes(a[1..]), FromBytes(b[1..]));
    }
  }

  lemma {:induction false} LeadingByte(x: nat, y: nat, unit: nat, u: nat, v: nat)
    requires u < unit && v < unit
    ensures x < y ==> x * unit + u < y * unit + v
    ensures y < x ==> x * unit + u > y * unit + v
  {
    if x < y {
      assert (x + 1) * unit <= y * unit;
    }
    if y < x {
      assert (y + 1) * unit <= x * unit;
    }
  }

  lemma {:induction false} MaxIsGreatest(a: seq<byte>, t: seq<byte>)
    requires |a| == |t| && forall i :: 0 <= i < |a| ==> a[i] == 0xff
    ensures !LexLess(a, t)
  {
    if a == [] {
    } else {
      MaxIsGreatest(a[1..], t[1..]);
    }
  }

  // Bounds on one adjustment

  lemma {:induction false} ScaleUp(high: nat, part: nat, whole: nat, factor: nat)
    requires whole >= 1 && part <= factor * whole
    ensures high * part / whole <= factor * high
  {
    var q := high * part / whole;
    assert high * part == q * whole + high * part % whole;
    MulLe(high, part, factor * whole);
    assert high * (factor * whole) == (factor * high) * whole;
    if q > factor * high {
      MulLe(whole, factor * high + 1, q);
    }
  }

  lemma {:induction false} ScaleDown(high: nat, part: nat, whole: nat, factor: nat)
    requires whole >= 1 && factor >= 1 && factor * part >= whole
    ensures high * part / whole >= high / factor
  {
    var d, q := high / factor, high * part / whole;
    assert high == factor * d + high % factor;
    assert high * part == q * whole + high * part % whole;
    MulLe(part, factor * d, high);
    MulLe(d, whole, factor * part);
    assert part * (factor * d) == d * (factor * part);
    if q < d {
      MulLe(whole, q + 1, d);
    }
  }

  lemma {:induction false} MulNonNegative(a: nat, b: nat)
    ensures a * b >= 0
  {
  }

  lemma {:induction false} MulLe(x: nat, a: int, b: int)
    requires a <= b
    ensures x * a <= x * b
  {
  }

  /** One adjustment at most quadruples the high half of the target and keeps at least a seventh of it
      (a quarter where `QuarterKeptIff` says so); it never rises when blocks came too fast, never
      falls when they came too slowly, and stays when they came on time. */
  lemma {:induction false} AdjustmentBounds(high: u128, elapsed: u64, expected: u64)
    requires elapsed >= 1
    ensures var next := NextHigh(high, elapsed, expected);
            && high / 7 <= next <= 4 * high
            && (expected <= 3 || expected % 4 == 0 ==> high / 4 <= next)
            && (elapsed <= expected ==> next <= high)
            && (elapsed >= expected ==> next >= high)
  {
    var safe: int := SafeExpected(expected);
    var part: int := Clamped(elapsed, safe);
    assert 7 * part >= safe && part <= 4 * safe;
    ScaleUp(high, part, safe, 4);
    ScaleDown(high, part, safe, 7);
    if expected <= 3 || expected % 4 == 0 {
      ScaleDown(high, part, safe, 4);
    }
    if elapsed <= expected {
      ScaleUp(high, part, safe, 1);
    }
    if elapsed >= expected {
      ScaleDown(high, part, safe, 1);
    }
    assert 0 <= high / 7 <= high;
  }

  /** No window takes more than three quarters of the high half away. */
  ghost predicate QuarterKept(expected: u64) {
    forall high: u128, elapsed: u64 :: elapsed >= 1 ==> high / 4 <= NextHigh(high, elapsed, expected)
  }

  /** Fast blocks cut a high half of four times the expected time to four times the rounded-down quarter of it. */
  lemma {:induction false} FastestStep(expected: u64)
    requires expected >= 4
    ensures NextHigh(4 * expected, 1, expected) == 4 * (expected / 4)
  {
    var part := expected / 4;
    assert Clamped(1, expected) == part;
    assert 4 * expected * part == expected * (4 * part);
    MulLe(4 * expected, part, TWO_TO_THE_64);
    MultipleDivides(expected, 4 * part);
  }

  lemma {:induction false} MultipleDivides(d: nat, q: nat)
    requires d >= 1
    ensures d * q / d == q
  {
    ScaleUp(q, d, d, 1);
    ScaleDown(q, d, d, 1);
    assert q * d == d * q;
  }

  /** The promised quarter is kept in every window exactly when the expected time is at most three seconds or a
      multiple of four. */
  lemma {:induction false} QuarterKeptIff(expected: u64)
    ensures QuarterKept(expected) <==> expected <= 3 || expected % 4 == 0
  {
    hide NextHigh;
    if expected <= 3 || expected % 4 == 0 {
      forall high: u128, elapsed: u64 | elapsed >= 1 ensures high / 4 <= NextHigh(high, elapsed, expected) {
        AdjustmentBounds(high, elapsed, expected);
      }
    } else {
      FastestStep(expected);
      var high: u128 := 4 * expected;
      assert high / 4 == expected && NextHigh(high, 1, expected) < expected;
    }
  }

  /** A window expected to take seven seconds can leave a seventh, and the deployed one, expected to take three,
      keeps the quarter. */
  lemma {:induction false} SeventhAndQuarter()
    ensures NextHigh(28, 1, 7) == 28 / 7 < 28 / 4 && !QuarterKept(7)
    ensures QuarterKept(DifficultyManager(1, 4).ExpectedTime())
  {
    FastestStep(7);
    QuarterKeptIff(7);
    QuarterKeptIff(3);
    assert DifficultyManager(1, 4).ExpectedTime() == 3;
  }

  /** Between the clamps and without overflow the new high half is the old one times elapsed over expected,
      rounded down. */
  lemma {:induction false} ScaledExactly(high: u128, elapsed: u64, expected: u64)
    requires expected >= 1 && expected / 4 <= elapsed <= 4 * expected
    requires high * elapsed < TWO_TO_THE_128
    ensures var next := NextHigh(high, elapsed, expected);
            next * expected <= high * elapsed < (next + 1) * expected
  {
    var product, next := high * elapsed, NextHigh(high, elapsed, expected);
    assert Clamped(elapsed, expected) == elapsed;
    assert product == expected * (product / expected) + product % expected;
    assert next == product / expected;
  }

  /** `next` is `high` times `part` over `whole`, rounded down. */
  ghost predicate Scales(high: nat, part: nat, whole: nat, next: nat) {
    next * whole <= high * part < (next + 1) * whole
  }

  /** One step exactly, for every high half and every elapsed time: scaled by the elapsed time, but by no less than a
      rounded-down quarter of the expected time and no more than four times it; an overflowing product changes
      nothing. */
  lemma {:induction false} StepExactly(high: u128, elapsed: u64, expected: u64)
    requires expected >= 1
    ensures var next := NextHigh(high, elapsed, expected);
            && (elapsed < expected / 4 ==>
                  if high * (expected / 4) < TWO_TO_THE_128 then Scales(high, expected / 4, expected, next)
                  else next == high)
            && (expected / 4 <= elapsed <= 4 * expected ==>
                  if high * elapsed < TWO_TO_THE_128 then Scales(high, elapsed, expected, next) else next == high)
            && (elapsed >= 4 * expected ==>
                  next == if high * (4 * expected) < TWO_TO_THE_128 then 4 * high else high)
  {
    var part: int := Clamped(elapsed, expected);
    assert elapsed < expected / 4 ==> part == expected / 4;
    assert expected / 4 <= elapsed <= 4 * expected ==> part == elapsed;
    assert elapsed >= 4 * expected ==> part == 4 * expected;
    MulNonNegative(high, part);
    QuotientScales(high * part, expected);
    if elapsed >= 4 * expected {
      assert high * (4 * expected) == expected * (4 * high);
      MultipleDivides(expected, 4 * high);
    }
  }

  lemma {:induction false} QuotientScales(product: nat, whole: nat)
    requires whole >= 1
    ensures product / whole * whole <= product < (product / whole + 1) * whole
  {
    var q := product / whole;
    assert product == whole * q + product % whole;
    assert q * whole == whole * q && (q + 1) * whole == whole * q + whole;
  }

  /** An expected time of zero counts as one second. */
  lemma {:induction false} NoExpectedTime(high: u128, elapsed: u64)
    ensures NextHigh(high, elapsed, 0) == NextHigh(high, elapsed, 1)
  {
  }

  /** Where nothing can overflow, slower blocks never leave a smaller high half. */
  lemma {:induction false} SlowerIsEasier(high: u128, elapsed: u64, elapsed': u64, expected: u64)
    requires expected >= 1 && elapsed <= elapsed' && high * (4 * expected) < TWO_TO_THE_128
    ensures NextHigh(high, elapsed, expected) <= NextHigh(high, elapsed', expected)
  {
    var part: int, part': int := Clamped(elapsed, expected), Clamped(elapsed', expected);
    assert part <= part' <= 4 * expected;
    MulLe(high, part, part');
    MulLe(high, part', 4 * expected);
    MulNonNegative(high, part);
    QuotientGrows(high * part, high * part', expected);
  }

  lemma {:induction false} QuotientGrows(a: nat, b: nat, whole: nat)
    requires a <= b && whole >= 1
    ensures a / whole <= b / whole
  {
    QuotientScales(a, whole);
    QuotientScales(b, whole);
    var p, q := a / whole, b / whole;
    assert (q + 1) * whole == whole * (q + 1) && p * whole == whole * p;
    if p > q {
      MulLe(whole, q + 1, p);
    }
  }

  /** Rebuilding keeps the high half, and the final comparison with the maximal target never fires. */
  lemma {:induction false} RebuildKeepsHigh(high: u128)
    ensures Rebuild(high) == ToBytes(high, 16) + MAX_TARGET[16..]
    ensures FromBytes(Rebuild(high)[..16]) == high
  {
    HighHalfFits(ToBytes(high, 16));
    BytesRoundTrip(high, 16);
    var next := ToBytes(high, 16) + MAX_TARGET[16..];
    MaxIsGreatest(MAX_TARGET, next);
    assert next[..16] == ToBytes(high, 16);
  }

  /** The same bounds on whole targets, in byte order as well. */
  lemma {:induction false} NextTargetBounds(m: DifficultyManager, blocks: seq<VeloBlock>, current: Target)
    requires m.Usable() && |blocks| >= m.windowSize
    ensures var next := m.CalculateNextTarget(blocks, current);
            var high, high' := FromBytes(current[..16]), FromBytes(next[..16]);
            var elapsed, expected := m.Elapsed(blocks), m.ExpectedTime();
            && next[16..] == MAX_TARGET[16..]
            && high / 7 <= high' <= 4 * high
            && (expected <= 3 || expected % 4 == 0 ==> high / 4 <= high')
            && (elapsed <= expected ==> !LexLess(current[..16], next[..16]))
            && (elapsed >= expected ==> !LexLess(next[..16], current[..16]))
  {
    HighHalfFits(current[..16]);
    var high := FromBytes(current[..16]);
    AdjustmentBounds(high, m.Elapsed(blocks), m.ExpectedTime());
    RebuildKeepsHigh(NextHigh(high, m.Elapsed(blocks), m.ExpectedTime()));
    var next := m.CalculateNextTarget(blocks, current);
    LexOrderIsNumeric(current[..16], next[..16]);
    LexOrderIsNumeric(next[..16], current[..16]);
  }

  /** The next target exactly: too few blocks leave it alone, and otherwise its high half makes the one step and its
      tail is maximal. */
  lemma {:induction false} NextTargetExactly(m: DifficultyManager, blocks: seq<VeloBlock>, current: Target)
    requires m.Usable()
    ensures |blocks| < m.windowSize ==> m.CalculateNextTarget(blocks, current) == current
    ensures |blocks| >= m.windowSize ==>
              var next := m.CalculateNextTarget(blocks, current);
              && FromBytes(current[..16]) < TWO_TO_THE_128 && next[16..] == MAX_TARGET[16..]
              && FromBytes(next[..16]) == NextHigh(FromBytes(current[..16]), m.Elapsed(blocks), m.ExpectedTime())
  {
    hide NextHigh, Rebuild, FromBytes;
    HighHalfFits(current[..16]);
    if |blocks| >= m.windowSize {
      RebuildKeepsHigh(NextHigh(FromBytes(current[..16]), m.Elapsed(blocks), m.ExpectedTime()));
    }
  }

  lemma {:induction false} HighHalfFits(bytes: seq<byte>)
    requires |bytes| == 16
    ensures Pow256(16) == TWO_TO_THE_128 && FromBytes(bytes) < TWO_TO_THE_128
  {
    assert Pow256(4) == 0x1_0000_0000;
    assert Pow256(8) == 0x1_0000_0000_0000_0000;
    assert Pow256(12) == 0x1_0000_0000_0000_0000_0000_0000;
  }

  /** A high half that has reached zero stays there, whatever the timestamps. */
  lemma {:induction false} ZeroHighHalfIsFinal(m: DifficultyManager, blocks: seq<VeloBlock>, current: Target)
    requires m.Usable() && FromBytes(current[..16]) == 0
    ensures FromBytes(m.CalculateNextTarget(blocks, current)[..16]) == 0
  {
    if |blocks| >= m.windowSize {
      NextTargetBounds(m, blocks, current);
    }
  }

  // How the high half gets to zero

  lemma {:induction false} QuotientIsZero(product: nat, safe: nat)
    requires safe >= 1
    ensures product / safe == 0 <==> product < safe
  {
  }

  /** One adjustment reaches zero exactly when the scaled product is below the expected time. An overflowing
      product is not, and leaves a high half above zero. */
  lemma {:induction false} ReachesZeroIff(high: u128, elapsed: u64, expected: u64)
    ensures NextHigh(high, elapsed, expected) == 0 <==>
            high * Clamped(elapsed, SafeExpected(expected)) < SafeExpected(expected)
  {
    hide Clamped;
    var safe := SafeExpected(expected);
    var part: nat := Clamped(elapsed, safe);
    assert high == 0 ==> high * part == 0;
    MulNonNegative(high, part);
    QuotientIsZero(high * part, safe);
  }

  /** The high half after `n` windows in which blocks came as fast as timestamps can tell. */
  ghost function FastWindows(high: u128, expected: u64, n: nat): u128
    decreases n
  {
    hide NextHigh;
    if n == 0 then high else FastWindows(NextHigh(high, 1, expected), expected, n - 1)
  }

  lemma {:induction false} HalvedQuotient(high: nat, part: nat, expected: nat)
    requires expected >= 1 && 2 * part <= expected
    ensures 0 <= high * part <= high * expected
    ensures 2 * (high * part / expected) <= high
  {
    MulNonNegative(high, part);
    MulLe(high, part, expected);
    MulLe(high, 2 * part, expected);
    var q := high * part / expected;
    assert expected * q <= high * part;
    assert high * (2 * part) == 2 * (high * part);
    assert expected * (2 * q) == 2 * (expected * q);
    assert expected * (high + 1) == high * expected + expected;
    if 2 * q > high {
      MulLe(expected, high + 1, 2 * q);
    }
  }

  /** The product fast blocks scale by stays within 128 bits. */
  ghost predicate FastFits(high: u128, expected: u64)
    requires expected >= 1
  {
    high * Clamped(1, expected) < TWO_TO_THE_128
  }

  lemma {:induction false} FastWindowHalves(high: u128, expected: u64)
    requires expected >= 2 && FastFits(high, expected)
    ensures 2 * NextHigh(high, 1, expected) <= high
    ensures FastFits(NextHigh(high, 1, expected), expected)
  {
    var part := Clamped(1, expected);
    assert part == 1 || part == expected / 4;
    HalvedQuotient(high, part, expected);
    MulLe(part, NextHigh(high, 1, expected), high);
  }

  /** A high half below 2^n is zero for good after n windows of fast blocks, as long as the expected time is
      more than a second and the first product does not overflow. */
  lemma {:induction false} FastWindowsReachZero(high: u128, expected: u64, n: nat)
    requires expected >= 2 && FastFits(high, expected) && high < Pow2(n)
    ensures FastWindows(high, expected, n) == 0
    decreases n
  {
    if n > 0 {
      FastWindowHalves(high, expected);
      FastWindowsReachZero(NextHigh(high, 1, expected), expected, n - 1);
    }
  }

  /** Where fast blocks do not lower the high half at all, they never do. */
  lemma {:induction false} FastWindowsStand(high: u128, expected: u64, n: nat)
    requires expected <= 1 || !FastFits(high, expected)
    ensures FastWindows(high, expected, n) == high
    decreases n
  {
    hide NextHigh;
    if n > 0 {
      FastStands(high, expected);
      FastWindowsStand(high, expected, n - 1);
    }
  }

  lemma {:induction false} FastStands(high: u128, expected: u64)
    requires expected <= 1 || !FastFits(high, expected)
    ensures NextHigh(high, 1, expected) == high
  {
    if expected <= 1 {
      assert Clamped(1, 1) == 1;
    }
  }

  lemma {:induction false} Pow2Exceeds(high: nat)
    ensures high < Pow2(high)
  {
    if high > 0 {
      Pow2Exceeds(high - 1);
    }
  }

  /** Fast blocks bring the high half to zero exactly when it is zero already, or the expected time is more than a
      second and the product does not overflow. */
  lemma {:induction false} FastWindowsReachZeroIff(high: u128, expected: u64)
    ensures (exists n: nat :: FastWindows(high, expected, n) == 0) <==>
            high == 0 || (expected >= 2 && FastFits(high, expected))
  {
    hide NextHigh, FastFits;
    if high == 0 {
      assert FastWindows(high, expected, 0) == 0;
    } else if expected >= 2 && FastFits(high, expected) {
      Pow2Exceeds(high);
      FastWindowsReachZero(high, expected, high);
    } else {
      forall n: nat ensures FastWindows(high, expected, n) == high {
        FastWindowsStand(high, expected, n);
      }
    }
  }

  lemma {:induction false} BytesAreBits(n: nat)
    ensures Pow2(8 * n) == Pow256(n)
  {
    if n > 0 {
      var m := 8 * n;
      assert Pow2(m) == 4 * Pow2(m - 2) && Pow2(m - 2) == 4 * Pow2(m - 4);
      assert Pow2(m - 4) == 4 * Pow2(m - 6) && Pow2(m - 6) == 4 * Pow2(m - 8);
      BytesAreBits(n - 1);
    }
  }

  /** With the deployed parameters, four blocks a second apart, every target has lost its high half after 128 windows
      of fast blocks. */
  lemma {:induction false} DeployedTargetsReachZero(t: Target)
    ensures DifficultyManager(1, 4).ExpectedTime() == 3
    ensures FromBytes(t[..16]) < TWO_TO_THE_128 && FastWindows(FromBytes(t[..16]), 3, 128) == 0
  {
    HighHalfFits(t[..16]);
    BytesAreBits(16);
    assert Clamped(1, 3) == 1;
    FastWindowsReachZero(FromBytes(t[..16]), 3, 128);
  }
}
