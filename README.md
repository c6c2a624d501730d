# Init-state invariants and miner balance withdrawal

This project models two pieces of state logic from the built-in actors of a
Filecoin-style actor runtime and proves properties of them.

**The init actor's state invariant check** (`check_state_invariants`,
module `InitTesting`, file `init_testing.dfy`). The check reads the init
actor's state and reports problems:

- an empty network name;
- a `next_id` below the first non-singleton actor id.

It then walks every entry `(key, actor id)` of the address map in iteration
order. The visitor:

- reports an ID-protocol key twice: once by the protocol requirement and once by the ID arm of the match;
- reports an actor id below the singleton threshold;
- inserts each non-ID key into the duplicate-detection map of its namespace, which is "delegated" for delegated keys and "stable" for every other protocol;
- reports a duplicate mapping whenever the insert replaces a key, naming the new key and the replaced one;
- records every entry in the summary's address → id map.

The walk never stops early. A map that fails to load adds one load message. An error during iteration is also reported.

In the model:

- `CheckStateInvariants` is a method with the same branches.
- Its loop (`ForEachEntry`, with `VisitEntry` as the loop body) updates the two duplicate maps, the summary map and the message sequence in place.
- The loop is proved against `WalkEntries`, a fold over prefixes of the entry sequence.
- The properties are lemmas about that fold.
- Messages are the datatype `Violation`: the message kind plus the ids and keys it names.

**The miner's withdraw-balance rule** (module `MinerWithdraw`, file `miner_withdraw.dfy`; scenarios in `withdraw_balance_tests.dfy`). The miner's test scenarios pin down how a withdrawal request works:

- A caller that is neither the owner nor the current beneficiary is refused (`Forbidden`).
- A fee debt larger than the balance aborts the call (`InsufficientFunds`).
- Otherwise the debt is repaid, and the caller gets the requested amount. That amount is capped by the balance left after the debt.
- When a distinct beneficiary draws, the amount is also capped by what is left of its quota. An expired term leaves nothing: the call succeeds and sends 0.

In the model:

- `Withdrawal` is this rule as a function on a `MinerState`.
- `MinerActor` is a class whose `balance`, `feeDebt`, `beneficiary`, `term` and `epoch` fields the methods update in place. Its `Withdraw` is proved against `Withdrawal`.
- Each of the eight scenarios is a method. It builds a fresh `MinerActor` holding 10^24 and makes the scenario's calls in order. Its postconditions are the amounts and outcomes the scenario expects.
- Each scenario is proved for every owner address and for both `QuotaPolicy` values.

`wrappers.dfy` holds `Option` and `Result`. `addresses.dfy` holds the address protocols and `NewId`.

## Model

| member | source | states |
|---|---|---|
| InitTesting.CheckStateInvariants | actors/init/src/testing.rs:20-77 | The messages are the two preamble checks followed by the map's messages, in order. The summary's next id is the state's `next_id`. A failed load leaves the summary map empty. A loaded map leaves the walk's map, which holds every visited entry with its id when the keys are distinct. |
| InitTesting.ForEachEntry | actors/init/src/testing.rs:39-69 | The loop over the entries yields exactly the summary map and the messages of the fold `WalkEntries` over all entries. |
| InitTesting.VisitEntry | actors/init/src/testing.rs:40-66 | One run of the visitor closure on the three maps and the accumulator equals one `Visit` step of the fold. |
| InitTesting.SummaryKeys | actors/init/src/testing.rs:66 | The summary's keys are exactly the keys visited, whatever messages they produced. |
| InitTesting.SummaryHoldsEveryEntry | actors/init/src/testing.rs:39-69 | The walk never stops early: with distinct keys, every entry is in the summary with its own id. |
| InitTesting.TwoEntrySummary | actors/init/src/testing.rs:66 | Two entries under distinct keys leave exactly those two keys with their ids in the summary. |
| InitTesting.WalkOnlyEntryMessages | actors/init/src/testing.rs:39-69 | The walk adds only ID-key, singleton-id and duplicate-mapping messages. |
| InitTesting.VisitIdMessages | actors/init/src/testing.rs:40-48 | One visit reports its key as an ID key twice if its protocol is ID, and never reports any other key that way. |
| InitTesting.IdKeyReportedTwice | actors/init/src/testing.rs:40-48 | Over the whole walk, an ID-protocol key is reported exactly twice per entry carrying it. A key of any other protocol is never reported as an ID key. |
| InitTesting.SingletonIdsReported | actors/init/src/testing.rs:41-44 | An id below the threshold is reported once per entry mapping to it. An id at or above the threshold is never reported. |
| InitTesting.ByIdMapsStayInNamespace | actors/init/src/testing.rs:46-63 | Each duplicate-detection map holds only keys of its own namespace, so an ID key is never stored in either. |
| InitTesting.VisitDuplicateForm | actors/init/src/testing.rs:51-61 | A duplicate message added by a visit names the visit's id and key and the key stored for that id in the key's namespace. |
| InitTesting.DuplicatesStayInNamespace | actors/init/src/testing.rs:46-63 | Every duplicate message names two keys of the same namespace. A stable key and a delegated key are never reported against each other. |
| InitTesting.DuplicateCount | actors/init/src/testing.rs:51-62 | In each namespace, the map's ids are the namespace's distinct ids. The number of duplicate messages plus the number of distinct ids equals the number of the namespace's entries. |
| InitTesting.MostRecentKeyStored | actors/init/src/testing.rs:51-62 | Because `insert` replaces the stored key, each namespace map holds an id exactly when some entry of that namespace maps to it. It holds the most recent such key. |
| InitTesting.SameNamespaceDuplicate | actors/init/src/testing.rs:46-63 | Two keys of one namespace mapping to one id above the threshold produce exactly one message, naming the id, the second key and the first. |
| InitTesting.CrossNamespaceSharingAllowed | actors/init/src/testing.rs:50-63 | A stable key and a delegated key sharing an id above the threshold produce no message, in either order. |
| InitTesting.DelegatedDuplicateScenario | actors/init/src/testing.rs:50-55 | Two delegated keys mapping to one id, run through the whole check on a valid state: exactly one duplicate message, and both keys are in the summary with that id. |
| InitTesting.NetworkNameReported | actors/init/src/testing.rs:26 | "network name is empty" is among the messages if and only if the network name is empty. |
| InitTesting.NextIdReported | actors/init/src/testing.rs:27-30 | "next id is too low" is among the messages if and only if `next_id` is below the threshold. |
| InitTesting.LoadFailureReported | actors/init/src/testing.rs:73 | A load failure yields exactly one load-error message carrying its error. A loaded map yields none. |
| InitTesting.IterationErrorReported | actors/init/src/testing.rs:71 | An iteration-error message with a given text is among the messages if and only if the map loaded and its walk ended in that error. |
| MinerWithdraw.BeneficiaryTerm.Available | actors/miner/tests/withdraw_balance.rs:159-166 | What a term still allows never exceeds the unused quota. It is zero once the epoch has reached the expiration, and it is the whole unused quota before that. |
| MinerWithdraw.Withdrawal | actors/miner/tests/withdraw_balance.rs:42-73 | The call is Forbidden if and only if the caller is neither the owner nor the beneficiary. It fails with InsufficientFunds if and only if the caller is authorized and the debt exceeds the balance. On success, the amount is at most the request and at most the balance minus the debt, and within the quota on the quota-bound path. It reaches one of these caps. The debt is repaid and both leave the balance. Only the used quota changes in the term, and the quota invariant is kept. |
| MinerWithdraw.OwnerWithdrawsUpToAvailable | actors/miner/tests/withdraw_balance.rs:66-73 | The owner, off the quota path, gets min(requested, balance − fee debt), and the term is unchanged. |
| MinerWithdraw.BeneficiaryCappedByQuota | actors/miner/tests/withdraw_balance.rs:133-143 | A distinct beneficiary with an active term gets min(requested, balance − fee debt, quota − used). |
| MinerWithdraw.ExpiredTermSendsNothing | actors/miner/tests/withdraw_balance.rs:159-166 | After expiry, a beneficiary's call succeeds, sends nothing and uses no quota. |
| MinerWithdraw.ZeroRequestIsNoOp | actors/miner/tests/withdraw_balance.rs:108-121 | A zero request by an authorized caller succeeds and sends nothing. With no debt it leaves the state unchanged. |
| MinerWithdraw.AvailableAfterWithdrawal | actors/miner/tests/withdraw_balance.rs:85-96 | After a successful call, the next call's balance after debt is this call's balance after debt minus the amount sent. |
| MinerWithdraw.ReplayKeepsQuota | actors/miner/tests/withdraw_balance.rs:206-208 | Over any run of successive withdrawals, the parties, quota and expiration stay the same, and the used quota never passes the quota. The beneficiary draws no more than the quota left at the start. The total sent never exceeds the balance minus the debt, and nothing is sent while the debt exceeds the balance. |
| MinerWithdraw.MinerActor.constructor | actors/miner/tests/withdraw_balance.rs:19-22 | A freshly constructed miner holds the balance, has no debt, and the owner is its own beneficiary. |
| MinerWithdraw.MinerActor.SetFeeDebt | actors/miner/tests/withdraw_balance.rs:42-44 | Replacing the stored state changes only the fee debt. |
| MinerWithdraw.MinerActor.SetEpoch | actors/miner/tests/withdraw_balance.rs:164 | Setting the epoch changes only the epoch. |
| MinerWithdraw.MinerActor.ApproveBeneficiary | actors/miner/tests/withdraw_balance.rs:89-94 | An approved proposal installs the beneficiary and a term with the given quota and expiration and nothing used. Nothing else changes. |
| MinerWithdraw.MinerActor.Withdraw | actors/miner/tests/withdraw_balance.rs:24-31 | The in-place withdrawal returns what `Withdrawal` returns on the state before the call. A failure leaves the state untouched. Otherwise the new state is the one `Withdrawal` gives, and the quota invariant is kept. |
| WithdrawBalanceTests.HappyPathWithdrawsFunds | actors/miner/tests/withdraw_balance.rs:18-33 | The owner, with no debt and no beneficiary, gets exactly 1% of 10^24, and that 1% leaves the balance. |
| WithdrawBalanceTests.FailsIfMinerCantRepayFeeDebt | actors/miner/tests/withdraw_balance.rs:36-57 | With a debt of the balance plus 10^18, the owner's call fails with InsufficientFunds, and the balance and debt stay. |
| WithdrawBalanceTests.WithdrawOnlyWhatWeCanAfterFeeDebt | actors/miner/tests/withdraw_balance.rs:60-75 | With a debt of 99%, asking for the whole balance yields 1% sent and the whole debt repaid. |
| WithdrawBalanceTests.SuccessfullyWithdraw | actors/miner/tests/withdraw_balance.rs:78-98 | The owner's call, then after approval the owner's and the beneficiary's calls, each send exactly 1. |
| WithdrawBalanceTests.SuccessfullyWithdrawAllowZero | actors/miner/tests/withdraw_balance.rs:101-123 | The beneficiary's zero request succeeds and sends nothing. |
| WithdrawBalanceTests.SuccessfullyWithdrawLimitedToQuota | actors/miner/tests/withdraw_balance.rs:126-145 | The beneficiary asking for 2% against a 1% quota gets the 1%, and all of the quota is then used. |
| WithdrawBalanceTests.AllowWithdrawButNoSendWhenBeneficiaryNotEfficient | actors/miner/tests/withdraw_balance.rs:148-168 | The term's expiration is 90. At epoch 100 the beneficiary's call succeeds and sends nothing, and the balance is unchanged. |
| WithdrawBalanceTests.FailWithdrawFromNonBeneficiary | actors/miner/tests/withdraw_balance.rs:171-210 | The future beneficiary before approval and an unrelated id after it are both Forbidden. Then the owner and the beneficiary each get exactly 1. |

## Left out

- The content-addressed store and HAMT loading (`AddressMap::load`, `DEFAULT_CONF`) are foreign storage calls. The loaded map is the input `AddressMapSource`: the entries visited in iteration order with an optional iteration error, or a load error.
- The text of the messages and the internals of `MessageAccumulator` are not modelled. A message is a `Violation` carrying its kind and the ids, keys or error it names.
- The iteration order of the summary `HashMap` is not modelled; the summary is a Dafny `map`.
- The value of `FIRST_NON_SINGLETON_ADDR` is defined outside this code. It is the parameter `threshold`.
- The 64-bit width of `ActorID` is not modelled: no arithmetic is done on ids, so `nat` is used.
- InitTesting.SummaryHoldsEveryEntry requires distinct keys, as a persisted map has. With a repeated key, the summary keeps the last entry's id (`SummaryKeys` still holds).
- The miner actor's implementation, runtime and test harness are not modelled, and neither is the sending or burning of funds. The rule is what the scenarios fix.
- The propose/approve beneficiary protocol is reduced to its result: the new beneficiary with a fresh term of the given quota and expiration and nothing used (`ApproveBeneficiary`).
- The scenarios do not decide whether the owner is also held to the beneficiary's quota while a distinct beneficiary is set. This is the parameter `QuotaPolicy`, and every scenario is proved under both values.
- The scenarios do not decide what the fee debt is after repayment, beyond the repaid amount being reported. MinerWithdraw.Withdrawal zeroes the debt and takes it from the balance along with the amount sent. This choice fixes the balance after the scenarios that repay debt. No scenario checks the debt after a withdrawal.
- The harness's starting epoch is not shown. Scenarios whose outcome depends on it take it as `start`, with the bound the expected results imply: WithdrawBalanceTests.SuccessfullyWithdraw and WithdrawBalanceTests.SuccessfullyWithdrawLimitedToQuota need `start < 200`, and WithdrawBalanceTests.FailWithdrawFromNonBeneficiary needs `start < 90`.
- The scenarios assume the owner's address differs from the test ids 999 and 1000, as the harness's owner does.
- The exit codes and the abort message text ("unlocked balance can not repay fee debt") are reduced to the two `WithdrawError` values.
