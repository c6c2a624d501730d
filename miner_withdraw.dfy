/**
 * The miner actor's balance-withdrawal rule, as its test scenarios fix it.
 *
 * A withdrawal is asked for by a caller, for a requested amount. Only the
 * owner or the current beneficiary may ask (Forbidden otherwise). A fee debt
 * larger than the balance aborts the call (InsufficientFunds). Otherwise the
 * fee debt is repaid and the caller gets the requested amount, capped by
 * the balance left after the debt and, on the quota-bound path, by what is
 * left of the beneficiary's quota. An expired term leaves nothing of it.
 *
 * Token amounts are exact non-negative integers. Whether the owner is also
 * held to the beneficiary's quota is not decided by the scenarios: it is the
 * parameter `QuotaPolicy`, and every scenario is proved under both policies.
 */
module MinerWithdraw {
  import opened Wrappers
  import opened Addresses

  type TokenAmount = nat
  type ChainEpoch = int

  function Min(a: nat, b: nat): nat
  {
    if a <= b then a else b
  }

  /** A beneficiary's term: how much it may draw in all, how much it has drawn, until when. */
  datatype BeneficiaryTerm = BeneficiaryTerm(quota: TokenAmount, usedQuota: TokenAmount, expiration: ChainEpoch)
  {
    ghost predicate Valid()
    {
      usedQuota <= quota
    }

    /** What the term still allows at `epoch`: nothing once `epoch` has reached the expiration. */
    function Available(epoch: ChainEpoch): (r: TokenAmount)
      ensures r + usedQuota <= quota || r == 0
      ensures epoch >= expiration ==> r == 0
      ensures epoch < expiration && Valid() ==> r == quota - usedQuota
    {
      if epoch < expiration && usedQuota < quota then quota - usedQuota else 0
    }
  }

  /** The parts of the miner's state that a withdrawal reads and writes. */
  datatype MinerState = MinerState(
    balance: TokenAmount,
    feeDebt: TokenAmount,
    owner: Address,
    beneficiary: Address,
    term: BeneficiaryTerm,
    epoch: ChainEpoch)
  {
    ghost predicate Valid()
    {
      term.Valid()
    }
  }

  /** Whether the owner, too, is held to the quota while a distinct beneficiary is set. */
  datatype QuotaPolicy = OwnerExempt | OwnerBound

  /**
   * USR_FORBIDDEN, and USR_INSUFFICIENT_FUNDS with the message
   * "unlocked balance can not repay fee debt".
   */
  datatype WithdrawError = Forbidden | InsufficientFunds

  /** What a successful withdrawal did: the amount sent and the fee debt repaid. */
  datatype Receipt = Receipt(withdrawn: TokenAmount, debtRepaid: TokenAmount)

  predicate Authorized(s: MinerState, caller: Address)
  {
    caller == s.owner || caller == s.beneficiary
  }

  /** The call is held to the quota: a distinct beneficiary is set and the call is the beneficiary's (or the policy binds the owner). */
  predicate QuotaBound(s: MinerState, caller: Address, policy: QuotaPolicy)
  {
    s.beneficiary != s.owner && (caller != s.owner || policy == OwnerBound)
  }

  /**
   * The withdrawal rule on values: the receipt and the next state, or the
   * error that leaves the state as it was.
   */
  function Withdrawal(s: MinerState, caller: Address, requested: TokenAmount, policy: QuotaPolicy)
    : (r: Result<(Receipt, MinerState), WithdrawError>)
    // the error cases, in both directions
    ensures r == Failure(Forbidden) <==> !Authorized(s, caller)
    ensures r == Failure(InsufficientFunds) <==> Authorized(s, caller) && s.feeDebt > s.balance
    ensures r.Success? ==> r.value.0.debtRepaid == s.feeDebt
    // the amount sent is bounded by every cap and reaches one of them
    ensures r.Success? ==> r.value.0.withdrawn <= requested
    ensures r.Success? ==> r.value.0.withdrawn + s.feeDebt <= s.balance
    ensures r.Success? && QuotaBound(s, caller, policy) ==>
      r.value.0.withdrawn <= s.term.Available(s.epoch)
    ensures r.Success? ==>
      || r.value.0.withdrawn == requested
      || r.value.0.withdrawn == s.balance - s.feeDebt
      || (QuotaBound(s, caller, policy) && r.value.0.withdrawn == s.term.Available(s.epoch))
    // the next state: the debt and the amount leave the balance, the quota use grows by the amount
    ensures r.Success? ==> r.value.1.balance + r.value.0.withdrawn + r.value.0.debtRepaid == s.balance
    ensures r.Success? ==> r.value.1.feeDebt == 0
    ensures r.Success? ==>
      r.value.1.term.usedQuota == s.term.usedQuota + (if QuotaBound(s, caller, policy) then r.value.0.withdrawn else 0)
    ensures r.Success? ==> r.value.1 == s.(balance := r.value.1.balance, feeDebt := 0,
                                           term := s.term.(usedQuota := r.value.1.term.usedQuota))
    // the quota invariant is kept
    ensures r.Success? && s.Valid() ==> r.value.1.Valid()
  {
    if !Authorized(s, caller) then Failure(Forbidden)
    else if s.feeDebt > s.balance then Failure(InsufficientFunds)
    else
      var unlocked := Min(requested, s.balance - s.feeDebt);
      var amount := if QuotaBound(s, caller, policy) then Min(unlocked, s.term.Available(s.epoch)) else unlocked;
      var used := if QuotaBound(s, caller, policy) then s.term.usedQuota + amount else s.term.usedQuota;
      Success((Receipt(amount, s.feeDebt),
               s.(balance := s.balance - s.feeDebt - amount, feeDebt := 0, term := s.term.(usedQuota := used))))
  }

  /** The owner, on the path free of the quota, gets min(requested, balance - fee debt). */
  lemma OwnerWithdrawsUpToAvailable(s: MinerState, requested: TokenAmount, policy: QuotaPolicy)
    requires s.feeDebt <= s.balance
    requires s.beneficiary == s.owner || policy == OwnerExempt
    ensures Withdrawal(s, s.owner, requested, policy).Success?
    ensures Withdrawal(s, s.owner, requested, policy).value.0.withdrawn == Min(requested, s.balance - s.feeDebt)
    ensures Withdrawal(s, s.owner, requested, policy).value.1.term == s.term
  {
  }

  /** A beneficiary with an active term gets min(requested, balance - fee debt, quota - used). */
  lemma BeneficiaryCappedByQuota(s: MinerState, requested: TokenAmount, policy: QuotaPolicy)
    requires s.Valid() && s.feeDebt <= s.balance
    requires s.beneficiary != s.owner && s.epoch < s.term.expiration
    ensures Withdrawal(s, s.beneficiary, requested, policy).Success?
    ensures Withdrawal(s, s.beneficiary, requested, policy).value.0.withdrawn
            == Min(Min(requested, s.balance - s.feeDebt), s.term.quota - s.term.usedQuota)
  {
  }

  /** Once the term has expired, a beneficiary's call still succeeds, sends nothing and uses no quota. */
  lemma ExpiredTermSendsNothing(s: MinerState, requested: TokenAmount, policy: QuotaPolicy)
    requires s.feeDebt <= s.balance
    requires s.beneficiary != s.owner && s.epoch >= s.term.expiration
    ensures Withdrawal(s, s.beneficiary, requested, policy).Success?
    ensures Withdrawal(s, s.beneficiary, requested, policy).value.0.withdrawn == 0
    ensures Withdrawal(s, s.beneficiary, requested, policy).value.1.term == s.term
  {
  }

  /** A zero request by an authorized caller succeeds and sends nothing; without debt the state is unchanged. */
  lemma ZeroRequestIsNoOp(s: MinerState, caller: Address, policy: QuotaPolicy)
    requires Authorized(s, caller) && s.feeDebt <= s.balance
    ensures Withdrawal(s, caller, 0, policy).Success?
    ensures Withdrawal(s, caller, 0, policy).value.0.withdrawn == 0
    ensures s.feeDebt == 0 ==> Withdrawal(s, caller, 0, policy).value.1 == s
  {
  }

  /**
   * The balance the next call can withdraw is what this call left: the
   * repaid debt and the amount sent are both gone from it.
   */
  lemma AvailableAfterWithdrawal(s: MinerState, caller: Address, requested: TokenAmount, policy: QuotaPolicy)
    requires Withdrawal(s, caller, requested, policy).Success?
    ensures var (rc, s') := Withdrawal(s, caller, requested, policy).value;
      s'.feeDebt <= s'.balance && s'.balance - s'.feeDebt == s.balance - s.feeDebt - rc.withdrawn
  {
  }

  // ---------------------------------------------------------------------------
  // Successive withdrawals
  // ---------------------------------------------------------------------------

  datatype Request = Request(caller: Address, amount: TokenAmount)

  /** The result of a run of withdrawals: the final state, all that was sent, and what was sent to the beneficiary. */
  datatype Tally = Tally(final: MinerState, withdrawn: TokenAmount, toBeneficiary: TokenAmount)

  /** Successive withdrawals, each on the state the previous one left; a failed call changes nothing. */
  function Replay(s: MinerState, requests: seq<Request>, policy: QuotaPolicy): Tally
    decreases |requests|
  {
    if |requests| == 0 then Tally(s, 0, 0)
    else
      match Withdrawal(s, requests[0].caller, requests[0].amount, policy)
      case Failure(_) => Replay(s, requests[1..], policy)
      case Success((rc, next)) =>
        var t := Replay(next, requests[1..], policy);
        Tally(t.final, t.withdrawn + rc.withdrawn,
              t.toBeneficiary + (if requests[0].caller != s.owner then rc.withdrawn else 0))
  }

  /**
   * Over any run of withdrawals: the parties and the term's quota stay, the
   * used quota never passes the quota, the beneficiary never draws more than
   * the quota left at the start, and nothing beyond the balance left after
   * the debt is ever sent (nothing at all if the debt exceeds the balance).
   */
  lemma {:induction false} ReplayKeepsQuota(s: MinerState, requests: seq<Request>, policy: QuotaPolicy)
    requires s.Valid()
    ensures var t := Replay(s, requests, policy);
      && t.final.Valid()
      && t.final.owner == s.owner && t.final.beneficiary == s.beneficiary
      && t.final.term.quota == s.term.quota && t.final.term.expiration == s.term.expiration
      && (s.beneficiary != s.owner ==> s.term.usedQuota + t.toBeneficiary <= t.final.term.usedQuota)
      && (s.beneficiary == s.owner ==> t.toBeneficiary == 0)
      && (s.feeDebt <= s.balance ==> t.withdrawn + s.feeDebt <= s.balance)
      && (s.feeDebt > s.balance ==> t.withdrawn == 0)
    decreases |requests|
  {
    if |requests| > 0 {
      var r := Withdrawal(s, requests[0].caller, requests[0].amount, policy);
      if r.Success? {
        ReplayKeepsQuota(r.value.1, requests[1..], policy);
      } else {
        ReplayKeepsQuota(s, requests[1..], policy);
      }
    }
  }

  // ---------------------------------------------------------------------------
  // The actor state, updated in place
  // ---------------------------------------------------------------------------

  class MinerActor {
    var balance: TokenAmount
    var feeDebt: TokenAmount
    const owner: Address
    var beneficiary: Address
    var term: BeneficiaryTerm
    var epoch: ChainEpoch
    const policy: QuotaPolicy

    ghost predicate Valid()
      reads this
    {
      term.Valid()
    }

    ghost function State(): MinerState
      reads this
    {
      MinerState(balance, feeDebt, owner, beneficiary, term, epoch)
    }

    /** A freshly constructed miner holding `balance`: no debt, the owner is its own beneficiary. */
    constructor (owner: Address, balance: TokenAmount, epoch: ChainEpoch, policy: QuotaPolicy)
      ensures Valid() && this.policy == policy
      ensures State() == MinerState(balance, 0, owner, owner, BeneficiaryTerm(0, 0, 0), epoch)
    {
      this.balance := balance;
      this.feeDebt := 0;
      this.owner := owner;
      this.beneficiary := owner;
      this.term := BeneficiaryTerm(0, 0, 0);
      this.epoch := epoch;
      this.policy := policy;
    }

    /** Overwrite the fee debt in the stored state. */
    method SetFeeDebt(debt: TokenAmount)
      requires Valid()
      modifies this
      ensures Valid() && State() == old(State()).(feeDebt := debt)
    {
      feeDebt := debt;
    }

    /** Advance (or set) the current epoch. */
    method SetEpoch(e: ChainEpoch)
      requires Valid()
      modifies this
      ensures Valid() && State() == old(State()).(epoch := e)
    {
      epoch := e;
    }

    /** The outcome of a proposed and approved beneficiary: the new party and a fresh term with nothing used. */
    method ApproveBeneficiary(newBeneficiary: Address, quota: TokenAmount, expiration: ChainEpoch)
      requires Valid()
      modifies this
      ensures Valid()
      ensures State() == old(State()).(beneficiary := newBeneficiary, term := BeneficiaryTerm(quota, 0, expiration))
    {
      beneficiary := newBeneficiary;
      term := BeneficiaryTerm(quota, 0, expiration);
    }

    /** `withdraw_balance`: the receipt, or the error that leaves the state untouched. */
    method Withdraw(caller: Address, requested: TokenAmount) returns (r: Result<Receipt, WithdrawError>)
      requires Valid()
      modifies this
      ensures Valid()
      ensures match Withdrawal(old(State()), caller, requested, policy)
        case Failure(e) => r == Failure(e) && State() == old(State())
        case Success((rc, next)) => r == Success(rc) && State() == next
    {
      if caller != owner && caller != beneficiary {
        return Failure(Forbidden);
      }
      if feeDebt > balance {
        return Failure(InsufficientFunds);
      }
      var amount := Min(requested, balance - feeDebt);
      if beneficiary != owner && (caller != owner || policy == OwnerBound) {
        amount := Min(amount, term.Available(epoch));
        term := term.(usedQuota := term.usedQuota + amount);
      }
      var repaid := feeDebt;
      balance := balance - feeDebt - amount;
      feeDebt := 0;
      r := Success(Receipt(amount, repaid));
    }
  }
}
