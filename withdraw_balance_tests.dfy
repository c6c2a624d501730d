/**
 * The withdraw-balance test scenarios, each run on a fresh MinerActor and
 * proved for every owner address, every policy on the owner's quota and
 * every starting epoch the scenario allows.
 *
 * The harness's own starting epoch is not part of this model: a scenario
 * whose outcome depends on it takes it as `start`, with the bound its
 * expected results imply.
 */
module WithdrawBalanceTests {
  import opened Wrappers
  import opened Addresses
  import opened MinerWithdraw

  const BIG_BALANCE: TokenAmount := 1_000_000_000_000_000_000_000_000
  const ONE_PERCENT_BALANCE: TokenAmount := BIG_BALANCE / 100
  const PERIOD_OFFSET: ChainEpoch := 100
  /** `1e18 as u64`. */
  const ONE_FIL: TokenAmount := 1_000_000_000_000_000_000

  /** The owner withdraws 1% of the balance with no debt and no beneficiary: exactly 1% leaves. */
  method HappyPathWithdrawsFunds(owner: Address, start: ChainEpoch, policy: QuotaPolicy)
    returns (r: Result<Receipt, WithdrawError>, balanceAfter: TokenAmount)
    ensures r == Success(Receipt(ONE_PERCENT_BALANCE, 0))
    ensures balanceAfter == BIG_BALANCE - ONE_PERCENT_BALANCE
  {
    var miner := new MinerActor(owner, BIG_BALANCE, start, policy);
    r := miner.Withdraw(owner, ONE_PERCENT_BALANCE);
    balanceAfter := miner.balance;
  }

  /** A fee debt above the balance aborts the owner's withdrawal and leaves balance and debt alone. */
  method FailsIfMinerCantRepayFeeDebt(owner: Address, start: ChainEpoch, policy: QuotaPolicy)
    returns (r: Result<Receipt, WithdrawError>, balanceAfter: TokenAmount, debtAfter: TokenAmount)
    ensures r == Failure(InsufficientFunds)
    ensures balanceAfter == BIG_BALANCE && debtAfter == BIG_BALANCE + ONE_FIL
  {
    var miner := new MinerActor(owner, BIG_BALANCE, start, policy);
    miner.SetFeeDebt(miner.balance + ONE_FIL);
    r := miner.Withdraw(owner, ONE_PERCENT_BALANCE);
    balanceAfter, debtAfter := miner.balance, miner.feeDebt;
  }

  /** With a fee debt of 99%, asking for the whole balance yields the 1% left after the debt, and the debt is repaid. */
  method WithdrawOnlyWhatWeCanAfterFeeDebt(owner: Address, start: ChainEpoch, policy: QuotaPolicy)
    returns (r: Result<Receipt, WithdrawError>)
    ensures r == Success(Receipt(ONE_PERCENT_BALANCE, BIG_BALANCE - ONE_PERCENT_BALANCE))
  {
    var miner := new MinerActor(owner, BIG_BALANCE, start, policy);
    var feeDebt := BIG_BALANCE - ONE_PERCENT_BALANCE;
    miner.SetFeeDebt(feeDebt);
    var requested := miner.balance;
    r := miner.Withdraw(owner, requested);
  }

  /** The owner withdraws 1; after a beneficiary is approved, the owner and then the beneficiary each withdraw 1. */
  method SuccessfullyWithdraw(owner: Address, start: ChainEpoch, policy: QuotaPolicy)
    returns (r1: Result<Receipt, WithdrawError>, r2: Result<Receipt, WithdrawError>,
             r3: Result<Receipt, WithdrawError>)
    requires owner != NewId(999)
    requires start < PERIOD_OFFSET + 100
    ensures r1 == Success(Receipt(1, 0)) && r2 == Success(Receipt(1, 0)) && r3 == Success(Receipt(1, 0))
  {
    var miner := new MinerActor(owner, BIG_BALANCE, start, policy);
    r1 := miner.Withdraw(owner, 1);
    var firstBeneficiary := NewId(999);
    miner.ApproveBeneficiary(firstBeneficiary, ONE_PERCENT_BALANCE, PERIOD_OFFSET + 100);
    r2 := miner.Withdraw(owner, 1);
    r3 := miner.Withdraw(miner.beneficiary, 1);
  }

  /** A zero request by the beneficiary succeeds and sends nothing. */
  method SuccessfullyWithdrawAllowZero(owner: Address, start: ChainEpoch, policy: QuotaPolicy)
    returns (r: Result<Receipt, WithdrawError>)
    ensures r == Success(Receipt(0, 0))
  {
    var miner := new MinerActor(owner, BIG_BALANCE, start, policy);
    var firstBeneficiary := NewId(999);
    miner.ApproveBeneficiary(firstBeneficiary, 1, PERIOD_OFFSET + 100);
    r := miner.Withdraw(firstBeneficiary, 0);
  }

  /** The beneficiary asks for 2% against a 1% quota: the quota is what it gets, and all of it is used. */
  method SuccessfullyWithdrawLimitedToQuota(owner: Address, start: ChainEpoch, policy: QuotaPolicy)
    returns (r: Result<Receipt, WithdrawError>, usedAfter: TokenAmount)
    requires owner != NewId(999)
    requires start < PERIOD_OFFSET + 100
    ensures r == Success(Receipt(ONE_PERCENT_BALANCE, 0))
    ensures usedAfter == ONE_PERCENT_BALANCE
  {
    var miner := new MinerActor(owner, BIG_BALANCE, start, policy);
    var firstBeneficiary := NewId(999);
    var quota := ONE_PERCENT_BALANCE;
    miner.ApproveBeneficiary(firstBeneficiary, quota, PERIOD_OFFSET + 100);
    r := miner.Withdraw(miner.beneficiary, ONE_PERCENT_BALANCE * 2);
    usedAfter := miner.term.usedQuota;
  }

  /** Term expired at epoch 90, current epoch 100: the beneficiary's call succeeds and sends nothing. */
  method AllowWithdrawButNoSendWhenBeneficiaryNotEfficient(owner: Address, start: ChainEpoch, policy: QuotaPolicy)
    returns (expiration: ChainEpoch, r: Result<Receipt, WithdrawError>, balanceAfter: TokenAmount)
    requires owner != NewId(999)
    ensures expiration == PERIOD_OFFSET - 10
    ensures r == Success(Receipt(0, 0))
    ensures balanceAfter == BIG_BALANCE
  {
    var miner := new MinerActor(owner, BIG_BALANCE, start, policy);
    var firstBeneficiary := NewId(999);
    var quota := ONE_PERCENT_BALANCE;
    miner.ApproveBeneficiary(firstBeneficiary, quota, PERIOD_OFFSET - 10);
    expiration := miner.term.expiration;
    miner.SetEpoch(100);
    r := miner.Withdraw(miner.beneficiary, quota);
    balanceAfter := miner.balance;
  }

  /**
   * The future beneficiary before approval and an unrelated id after it are
   * refused; the owner and the approved beneficiary then withdraw 1 each.
   * The beneficiary's withdrawal of 1 under a term expiring at epoch 90 is
   * what bounds the starting epoch.
   */
  method FailWithdrawFromNonBeneficiary(owner: Address, start: ChainEpoch, policy: QuotaPolicy)
    returns (r1: Result<Receipt, WithdrawError>, r2: Result<Receipt, WithdrawError>,
             r3: Result<Receipt, WithdrawError>, r4: Result<Receipt, WithdrawError>)
    requires owner != NewId(999) && owner != NewId(1000)
    requires start < PERIOD_OFFSET - 10
    ensures r1 == Failure(Forbidden) && r2 == Failure(Forbidden)
    ensures r3 == Success(Receipt(1, 0)) && r4 == Success(Receipt(1, 0))
  {
    var miner := new MinerActor(owner, BIG_BALANCE, start, policy);
    var firstBeneficiary := NewId(999);
    var anotherActor := NewId(1000);
    var quota := ONE_PERCENT_BALANCE;
    r1 := miner.Withdraw(firstBeneficiary, 1);
    miner.ApproveBeneficiary(firstBeneficiary, quota, PERIOD_OFFSET - 10);
    r2 := miner.Withdraw(anotherActor, 1);
    r3 := miner.Withdraw(owner, 1);
    r4 := miner.Withdraw(firstBeneficiary, 1);
  }
}
