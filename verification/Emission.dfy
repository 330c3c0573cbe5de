/** Block subsidies, the 95/5 split and the supply cap. */
module Emission {
  import opened Types

  /** Logical right shift. */
  function ShiftRight(x: u64, n: nat): (r: u64)
    ensures r <= x
  {
    if n == 0 then x else ShiftRight(x, n - 1) / 2
  }

  /** Miner and treasury share of an amount. The product must fit 64 bits, as it does at both call sites. */
  function ApplyDevTaxSplit(amount: u64): (r: (u64, u64))
    requires amount * DEV_TAX_PERCENTAGE < TWO_TO_THE_64
    ensures r.0 + r.1 == amount
    ensures 100 * r.1 <= 5 * amount < 100 * (r.1 + 1)
  {
    var devShare := amount * DEV_TAX_PERCENTAGE / 100;
    (amount - devShare, devShare)
  }

  /** The era reward, halved by a right shift and zero once the shift would reach the word size. */
  function EraReward(era: nat): (r: u64)
    ensures r <= INITIAL_BLOCK_REWARD
  {
    if era >= 64 then 0 else ShiftRight(INITIAL_BLOCK_REWARD, era)
  }

  /** Miner and treasury reward of a block at `height`. */
  function CalculateSubsidySplit(height: nat): (r: (u64, u64))
    ensures r.0 + r.1 == Subsidy(height)
    ensures 100 * r.1 <= 5 * Subsidy(height) < 100 * (r.1 + 1)
  {
    var era := height / BLOCKS_PER_ERA;
    if era >= 64 then (0, 0)
    else
      var totalSubsidy := ShiftRight(INITIAL_BLOCK_REWARD, era);
      if totalSubsidy == 0 then (0, 0) else ApplyDevTaxSplit(totalSubsidy)
  }

  function Subsidy(height: nat): u64 {
    EraReward(height / BLOCKS_PER_ERA)
  }

  /** Miner, treasury and burned share of the flat transaction fee. */
  function FeeDistribution(): (r: (u64, u64, u64))
    ensures r.0 + r.1 + r.2 == TRANSACTION_FEE
    ensures r == (48, 2, 50)
  {
    var burnShare := TRANSACTION_FEE / 2;
    var (minerShare, devShare) := ApplyDevTaxSplit(TRANSACTION_FEE - burnShare);
    (minerShare, devShare, burnShare)
  }

  predicate VerifyCoinbaseRewards(b: VeloBlock) {
    (b.coinbaseMinerOutput, b.coinbaseDevOutput) == CalculateSubsidySplit(b.header.height)
  }

  // Total issuance

  const SUPPLY_LIMIT: nat := 20_999_065_452_762

  /** What heights 1 to `n` pay out together, one block per height. */
  ghost function Issuance(n: nat): nat {
    if n == 0 then 0 else Issuance(n - 1) + Subsidy(n)
  }

  ghost function ErasTotal(eras: nat): nat {
    if eras == 0 then 0 else ErasTotal(eras - 1) + EraReward(eras - 1)
  }

  /** Full eras plus the part of the running one; height 0 pays nothing although its era would. */
  ghost function Emitted(era: nat, inEra: nat): nat {
    BLOCKS_PER_ERA * ErasTotal(era) + (inEra + 1) * EraReward(era)
  }

  lemma {:induction false} EmittedStep(era: nat, inEra: nat)
    ensures Emitted(era, inEra + 1) == Emitted(era, inEra) + EraReward(era)
    ensures Emitted(era + 1, 0) == Emitted(era, BLOCKS_PER_ERA - 1) + EraReward(era + 1)
  {
    assert (inEra + 2) * EraReward(era) == (inEra + 1) * EraReward(era) + EraReward(era);
    assert ErasTotal(era + 1) == ErasTotal(era) + EraReward(era);
  }

  lemma {:induction false} IssuanceClosedForm(era: nat, inEra: nat)
    requires inEra < BLOCKS_PER_ERA
    ensures Issuance(BLOCKS_PER_ERA * era + inEra) + INITIAL_BLOCK_REWARD == Emitted(era, inEra)
    decreases era, inEra
  {
    var n := BLOCKS_PER_ERA * era + inEra;
    assert n / BLOCKS_PER_ERA == era;
    if inEra > 0 {
      IssuanceClosedForm(era, inEra - 1);
      EmittedStep(era, inEra - 1);
    } else if era > 0 {
      IssuanceClosedForm(era - 1, BLOCKS_PER_ERA - 1);
      EmittedStep(era - 1, 0);
    } else {
      assert Emitted(0, 0) == EraReward(0) == INITIAL_BLOCK_REWARD;
    }
  }

  lemma {:induction false} ShiftMonotone(x: u64, m: nat, n: nat)
    requires m <= n
    ensures ShiftRight(x, n) <= ShiftRight(x, m)
    decreases n - m
  {
    if m < n {
      ShiftMonotone(x, m, n - 1);
    }
  }

  lemma {:induction false} ShiftIsQuotient(x: u64, n: nat)
    ensures ShiftRight(x, n) * Pow2(n) <= x < (ShiftRight(x, n) + 1) * Pow2(n)
  {
    if n > 0 {
      ShiftIsQuotient(x, n - 1);
      HalvingQuotient(x, ShiftRight(x, n - 1), Pow2(n - 1));
    }
  }

  lemma {:induction false} HalvingQuotient(x: nat, s: nat, p: nat)
    requires s * p <= x < (s + 1) * p
    ensures s / 2 * (2 * p) <= x < (s / 2 + 1) * (2 * p)
  {
    var q, r := s / 2, s % 2;
    assert s == 2 * q + r;
    assert s * p == 2 * (q * p) + r * p && (s + 1) * p == s * p + p;
    assert q * (2 * p) == 2 * (q * p) && (q + 1) * (2 * p) == 2 * (q * p) + 2 * p;
    assert 0 <= r * p <= p;
  }

  /** The subsidy at every height: the initial reward divided by two to the power of the era, rounded down, for the
      first 64 eras, and nothing from then on. */
  lemma {:induction false} SubsidyIsQuotient(height: nat, era: nat)
    requires BLOCKS_PER_ERA * era <= height < BLOCKS_PER_ERA * (era + 1)
    ensures era < 64 ==> Subsidy(height) * Pow2(era) <= INITIAL_BLOCK_REWARD < (Subsidy(height) + 1) * Pow2(era)
    ensures era >= 64 ==> Subsidy(height) == 0
  {
    assert height / BLOCKS_PER_ERA == era;
    ShiftIsQuotient(INITIAL_BLOCK_REWARD, era);
  }

  lemma {:induction false} RewardTable()
    ensures EraReward(16) == 1 && EraReward(17) == 0
    ensures ErasTotal(16) == 166_468 && ErasTotal(17) == 166_469
  {
    assert EraReward(0) == 83_238 && EraReward(1) == 41_619 && EraReward(2) == 20_809;
    assert EraReward(3) == 10_404 && EraReward(4) == 5_202 && EraReward(5) == 2_601;
    assert EraReward(6) == 1_300 && EraReward(7) == 650 && EraReward(8) == 325;
    assert EraReward(9) == 162 && EraReward(10) == 81 && EraReward(11) == 40;
    assert EraReward(12) == 20 && EraReward(13) == 10 && EraReward(14) == 5;
    assert EraReward(15) == 2 && EraReward(16) == 1 && EraReward(17) == 0;
    assert ErasTotal(1) == 83_238 && ErasTotal(2) == 124_857 && ErasTotal(3) == 145_666;
    assert ErasTotal(4) == 156_070 && ErasTotal(5) == 161_272 && ErasTotal(6) == 163_873;
    assert ErasTotal(7) == 165_173 && ErasTotal(8) == 165_823 && ErasTotal(9) == 166_148;
    assert ErasTotal(10) == 166_310 && ErasTotal(11) == 166_391 && ErasTotal(12) == 166_431;
    assert ErasTotal(13) == 166_451 && ErasTotal(14) == 166_461 && ErasTotal(15) == 166_466;
    assert ErasTotal(16) == 166_468 && ErasTotal(17) == 166_469;
  }

  /** The reward is at least one unit up to era 16 and nothing from era 17 on. */
  lemma {:induction false} RewardEnds(era: nat)
    ensures EraReward(era) == 0 <==> era >= 17
  {
    RewardTable();
    if era >= 17 {
      ShiftMonotone(INITIAL_BLOCK_REWARD, 17, era);
    } else {
      ShiftMonotone(INITIAL_BLOCK_REWARD, era, 16);
    }
  }

  lemma {:induction false} ErasTotalGrows(m: nat, n: nat)
    requires m <= n
    ensures ErasTotal(m) <= ErasTotal(n)
    ensures m >= 17 ==> ErasTotal(m) == ErasTotal(n)
    decreases n - m
  {
    if m < n {
      ErasTotalGrows(m, n - 1);
      RewardEnds(n - 1);
    }
  }

  lemma {:induction false} PartOfEra(total: nat, reward: nat, inEra: nat)
    requires inEra < BLOCKS_PER_ERA
    ensures BLOCKS_PER_ERA * total + (inEra + 1) * reward <= BLOCKS_PER_ERA * (total + reward)
  {
    var missing: nat := BLOCKS_PER_ERA - (inEra + 1);
    assert missing * reward >= 0;
    assert (missing + (inEra + 1)) * reward == missing * reward + (inEra + 1) * reward;
  }

  /** Within the rewarded eras only their very last block exhausts the total. */
  lemma {:induction false} RewardedEras(era: nat, inEra: nat)
    requires era <= 16 && inEra < BLOCKS_PER_ERA
    ensures Emitted(era, inEra) <= BLOCKS_PER_ERA * 166_469
    ensures Emitted(era, inEra) == BLOCKS_PER_ERA * 166_469 <==> era == 16 && inEra == BLOCKS_PER_ERA - 1
  {
    RewardTable();
    PartOfEra(ErasTotal(era), EraReward(era), inEra);
    if era < 16 {
      ErasTotalGrows(era + 1, 16);
      assert ErasTotal(era) + EraReward(era) <= 166_468;
    }
  }

  /** One block per height never pays out more than 20,999,065,452,762 base units, less than
      21,000,000 tokens of a million units, and reaches that limit exactly with the last rewarded height. */
  lemma {:induction false} SupplyCap(n: nat)
    ensures Issuance(n) <= SUPPLY_LIMIT < 21_000_000 * 1_000_000
    ensures Issuance(n) == SUPPLY_LIMIT <==> n >= 17 * BLOCKS_PER_ERA - 1
  {
    var era, inEra := n / BLOCKS_PER_ERA, n % BLOCKS_PER_ERA;
    IssuanceClosedForm(era, inEra);
    assert n == BLOCKS_PER_ERA * era + inEra;
    if era <= 16 {
      RewardedEras(era, inEra);
    } else {
      LaterEras(era, inEra);
    }
  }

  lemma {:induction false} LaterEras(era: nat, inEra: nat)
    requires era >= 17
    ensures Emitted(era, inEra) == BLOCKS_PER_ERA * 166_469
  {
    RewardEnds(era);
    RewardTable();
    ErasTotalGrows(17, era);
    assert (inEra + 1) * EraReward(era) == 0;
  }
}
