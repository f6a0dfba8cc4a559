# zk-clob: a verified model of provable settlement

zk-clob is an exchange whose account state is committed to on chain by one Patricia root. A host assembles batches, a
guest program settles them inside a zero-knowledge proof, and a contract holds the funds, moves the root and pays out.
This project models the four parts together and proves what ties them to each other:

- **The tree.** `Keys`, `Patricia`, `PatriciaShape`, `PatriciaProofs`, `PatriciaTheorems`: the recursive root, the pruned
  multiproof, its divide-and-conquer reading and the merge loop; `PatriciaMinimal`: no shorter proof would do.
  `AccountProof`: the on-chain fold over one account.
- **The guest.** `Ledger`, `Operations`, `Validation`, `Nonces`, `Books`, `Matching`, `Trades`, `Tracker` and `Settlement`
  specify each stage as a function; `SettlementTheorems`, `SettledMatching`, `TimePriority` and `Transition` prove what a
  settled batch means, `Readiness` and `Coverage` when exactly a batch settles; `Checks` and `Engine` are the loops over
  mutable accounts, arrays and the tracker, proved to compute exactly those functions.
- **The contract.** `Contract` gives every entry point as a step, `ZkClob` is the class that performs it, `Solvency` and
  `Runs` follow the committed accounts beside the contract over every sequence of calls; `Payouts` follows each payee,
  `History` reads the state back as the record of its successful calls, and `Acceptance` says which calls go through.
- **The host.** `Host` and `AccountTree` (state and index), `Builder`, `BuilderTheorems` and `BatchBuilder`; `Admission`
  says what is admitted and built, `BuiltBatches` what the guest makes of a built batch, `Lockstep` puts host, guest and
  contract side by side.
- **The two trees not yet wired in.** `Sparse` and `SparseTree` (bit-packed bitmap), `Dense` and `DenseTree` (level table),
  with `SparseAuthentic` and `DenseAuthentic` on what their roots and accepted proofs stand for.

`Results`, `Sorting` and `Types` are shared. Hashes are a free datatype with one constructor per hash domain, so equal
digests have equal contents; nothing else is assumed about them. Keys are numbers below 2^BITS for an arbitrary fixed
BITS (160 for account ids), read from the most significant bit. Machine integers are unbounded with every check, cast
and wrap-around written out.

How the parts meet: an accepted proof carries exactly the committed accounts at its keys (`ProofIsAuthentic`) and carries
their replacement to the new root (`ProofCarriesUpdates`). With the guest's conservation law (`SettlementConserves`) this
gives the effect of a batch on the whole state (`SettlementTransition`), from which follow solvency and replay freedom
over every run of the contract (`RunsStaySolvent`, `NoncesNeverReused`) and a host that stays on the contract's root
(`HostStaysInStep`). The trades in that law are the fills of the sweep over the batch's own orders (`SettledTrades`), so
volume, priority, value and fee are stated of settled batches in the batch's own prices, sequences and numbers
(`SettledVolume`, `SettledTimePriority`, `SettledTradesRound`).
`FoldProvesMembership` and solvency together show that in escape mode every account can leave with all it holds
(`EscapeIsExact`, `ExitsAlwaysPay`), and `RunsPayWhatIsDue` that every payee is sent or owed exactly what is its own. The
contract keeps no record of what it sent; the model adds one, per payee and asset (`Contract.Holdings`), to state that.

Progress is proved beside safety. `StagesSucceedExactly` and `SettlesExactly` give the exact condition under which any
batch settles, `BuiltSettlesExactly` the same for every batch the builder can reach, in terms of what the builder knows,
`SettlesOnChainExactly` when the contract takes a settled batch, after every run, and `BuiltBatchAccepted` that it takes
whatever the host builds for it, even if every payee refuses payment. The premises of the results about accepted proofs
are not empty: `MultiproofRoundTrip` and `FoldAgrees` produce such proofs for every account set, and `IdleBatchSettles`
shows batches that build and settle over every valid state.

Assumptions made explicit in the statements: the verifier accepts only outputs of settled batches (`Runs.Sound`), a
transfer that succeeds moves the exact amount, block time does not decrease and stays below 2^64 seconds, input integers
are in the range of their types (`Settlement.Typed`), neighbouring empty hashes are linked (`Sparse.Linked`), the
empty leaf is hashed under a domain of its own (`SparseAuthentic.EmptyApart`), and, where a settlement is shown to go
through, token balances are 256-bit words (`Acceptance.HoldingsFit`).

Where code and comment differ, the model follows the code. The comment in `crates/host/src/batch_builder.rs:252-257` says
that the touched accounts are exactly those the guest ends up with. They are not when a forced withdrawal names an
account that is neither in the tree nor deposited to: every later account's rank is then one too high. `HintsExactly`
states exactly when a rank is right and `ForcedAmounts` what each request is then executed for.
`UnknownRequestStarvesOthers` shows, over every valid state, two batches that both build and settle: alone, a funded
account's request is executed in full or up to its balance; behind a request of a smaller unknown account it is executed
for zero. A second gap is in `ConfigAccepted`: the builder always touches the fee recipient, but the guest requires it
before deposits, so creating it in the same batch is refused. And `PROTOCOL.md:193-206` describes how balances leave in
escape mode; deposits that are still queued then are in no balance and no entry point pays them (`QueuedStayBehind`).

`dafny verify dfyconfig.toml` checks the whole project.

## Model

| member | source | states |
|---|---|---|
| Keys.FirstDifference | crates/core/src/trees/patricia.rs:192-194 | the scan stops at the longest shared prefix, finds no bit exactly for equal keys, and there the smaller key has a zero and the larger a one |
| Keys.SharedPrefix | crates/core/src/trees/patricia.rs:192-194 | the first differing bit is exactly the length of the shared prefix, for every pair of keys |
| Keys.BitIsShift | contracts/src/PatriciaProof.sol:131-135 | the bit of the tree is the shift-and-mask of the on-chain verifier |
| PatriciaShape.BuildIsCombine | crates/core/src/trees/patricia.rs:220-244 | the recursive build always succeeds on sorted keys and commits to what the divide-and-conquer combine makes of the leaves alone |
| PatriciaShape.BuildCanonical | crates/core/src/trees/patricia.rs:220-244 | a built tree is in the one path-compressed form and opens to exactly its accounts, in order |
| PatriciaShape.CanonicalUnique | crates/core/src/trees/patricia.rs:205-244 | the path-compressed form of an account list is unique |
| PatriciaShape.CombineSound | crates/core/src/trees/patricia.rs:281-302 | combining canonical pieces that succeeds gives the canonical commitment to their accounts together |
| PatriciaShape.CombineInvert | crates/core/src/trees/patricia.rs:281-302 | nodes of any origin that combine into a canonical commitment are themselves canonical and open to exactly its accounts |
| PatriciaShape.CombineSucceeds | crates/core/src/trees/patricia.rs:281-302 | combine never fails on nodes that stand pairwise apart |
| PatriciaProofs.SideNodesCover | crates/core/src/trees/patricia.rs:246-279 | the emitted side nodes are canonical, open to exactly the unselected accounts, and stand apart from each other and from every selected key |
| PatriciaMinimal.ProofIsShortest | crates/core/src/trees/patricia.rs:246-279 | the proof's side nodes cover exactly the unselected accounts by canonical subtrees clear of every selected key, and no such cover is shorter |
| Patricia.CollectSideNodes | crates/core/src/trees/patricia.rs:251-279 | the recursion that pushes into an output vector appends exactly the specified side nodes |
| Patricia.MergeNodes | crates/core/src/trees/patricia.rs:366-378 | the two-index loop merges leaves and side nodes by range start, a side node winning a tie |
| Patricia.ComputeRootFromProof | crates/core/src/trees/patricia.rs:342-383 | the reconstruction as written returns the specified root or error for every input |
| PatriciaTheorems.RootBindsAccounts | crates/core/src/trees/patricia.rs:311-322 | every set with distinct ids has a root, and two sets share it exactly when they have the same accounts, in any order |
| PatriciaTheorems.MultiproofRoundTrip | crates/core/src/trees/patricia.rs:220-383 | for every old set, non-empty distinct selection and new set that agrees outside it, the proof built from the old set reconstructs the canonical root of the new one |
| PatriciaTheorems.ProofIsAuthentic | crates/core/src/trees/patricia.rs:281-302 | any proof, honest or not, that reconstructs the root of a set carries exactly that set's accounts at its keys |
| PatriciaTheorems.ProofCarriesUpdates | crates/core/src/trees/patricia.rs:342-383 | the same proof run on other leaves fails or gives the canonical root of the set with just its keys replaced |
| PatriciaTheorems.HonestProofSucceeds | crates/core/src/trees/patricia.rs:342-383 | leaves at the proof's keys and side nodes that stand apart always reconstruct |
| AccountProof.CheckRanges | contracts/src/PatriciaProof.sol:42-47 | the range loop accepts exactly ordered, disjoint side nodes that do not contain the key |
| AccountProof.SortByDepth | contracts/src/PatriciaProof.sol:52-68 | the in-place selection sort arranges the side nodes deepest first and gives up exactly when two share a depth |
| AccountProof.FoldInOrder | contracts/src/PatriciaProof.sol:70-82 | the fold through the index array combines the arranged side nodes one by one |
| AccountProof.VerifyAccount | contracts/src/PatriciaProof.sol:36-85 | the verifier as written returns the specified root or rejection for every input |
| AccountProof.FoldProvesMembership | contracts/src/PatriciaProof.sol:36-106 | a fold that returns the root of a set proves that the exact account is in it, for side nodes of any origin |
| AccountProof.FoldAgrees | crates/core/src/trees/patricia.rs:404-442 | for every set and present key the on-chain fold over that key's multiproof, the general reconstruction and the root all agree |
| Ledger.DebitEffect | crates/core/src/types/account.rs:51-74 | a debit succeeds exactly when the asset is held and covers the amount, takes exactly that and keeps the balances sorted, distinct and non-zero |
| Ledger.CreditEffect | crates/core/src/types/account.rs:76-90 | a credit succeeds exactly when the new balance fits a u128, adds exactly that and keeps the balances canonical |
| Engine.AccountTable.Debit | crates/core/src/types/account.rs:51-74 | the in-place debit leaves the specified account vector or reports the specified error |
| Engine.AccountTable.Credit | crates/core/src/types/account.rs:76-90 | the in-place credit leaves the specified account vector or reports the specified error |
| Operations.LocateIsSearch | crates/core/src/settlement/deposits.rs:3-17 | for every hint the hinted search answers as binary search on the sorted list would |
| Operations.DepositsRefineAddition | crates/core/src/settlement/deposits.rs:20-36 | deposits that succeed keep the list sorted and canonical, create exactly the missing accounts at nonce zero and add per account and asset exactly what was deposited |
| Readiness.DepositsSucceedExactly | crates/core/src/settlement/deposits.rs:20-36 | deposits succeed exactly when no account outgrows a u128 in an asset and the accounts they create fit under the limit |
| Engine.AccountTable.ApplyDeposits | crates/core/src/settlement/deposits.rs:20-36 | the loop that inserts and credits in place leaves the specified accounts or the specified error |
| Operations.ForcedDrainsExactly | crates/core/src/settlement/forced_withdrawals.rs:4-28 | draining never fails and takes exactly what it reports: request by request the smaller of the amount asked for and what the earlier requests left, or zero without a matching hint |
| Engine.AccountTable.ApplyForced | crates/core/src/settlement/forced_withdrawals.rs:4-28 | the loop drains the accounts and overwrites the request array with the drained amounts |
| Operations.WithdrawalsAreExact | crates/core/src/settlement/withdrawals.rs:4-15 | a batch of withdrawals succeeds exactly when every account covers all it withdraws, and then takes exactly that |
| Engine.AccountTable.ApplyWithdrawals | crates/core/src/settlement/withdrawals.rs:4-15 | the in-place loop leaves the specified accounts or the specified error |
| Validation.ConfigAcceptedExactly | crates/core/src/settlement/validation.rs:112-155 | accepted exactly when assets have positive scales and strictly ascending ids, markets strictly ascending ids and two distinct known assets, the fee is at most one and the recipient is among the accounts |
| Validation.AccountsValidated | crates/core/src/settlement/validation.rs:158-187 | accepted exactly when strictly sorted by id with every account in canonical form |
| Validation.DepositsConsecutive | crates/core/src/settlement/validation.rs:66-85 | accepted exactly when ids run on from the cursor with known assets and positive amounts and the end fits a u64, which is then the new cursor |
| Validation.ForcedConsecutive | crates/core/src/settlement/validation.rs:95-109 | accepted exactly when ids run on from the cursor with positive amounts and the end fits a u64, whatever the asset |
| Validation.OrdersAccepted | crates/core/src/settlement/validation.rs:190-225 | accepted exactly when every order is positive, authentic, for a known market and at the position of its trader, and no two share a sequence |
| Validation.WithdrawalsAccepted | crates/core/src/settlement/validation.rs:228-247 | accepted exactly when every withdrawal is positive, authentic, of a known asset and at the position of its account |
| Checks.ValidateAccounts | crates/core/src/settlement/validation.rs:158-187 | the loops return the specified verdict, telling duplicates from mere disorder |
| Checks.ValidateOrders | crates/core/src/settlement/validation.rs:190-225 | the scan loop and the sorted-neighbour test return the specified verdict on distinct sequences |
| Checks.ValidateNonces | crates/core/src/settlement/validation.rs:250-280 | collecting, sorting and walking the runs returns the specified verdict |
| Checks.ValidateBookOrders | crates/core/src/settlement/validation.rs:282-315 | the loop over a mutable seen array returns the specified orders and marks exactly their indices |
| Checks.BuildValidatedBooks | crates/core/src/settlement/validation.rs:318-369 | the loop over books returns the specified books or the first specified error |
| Nonces.NoncesFormRuns | crates/core/src/settlement/validation.rs:250-280 | accepted exactly when each account uses the run from its next nonce, each nonce once, and the nonce after the run fits |
| Nonces.ConsumptionAdvances | crates/core/src/settlement/nonces.rs:4-35 | after acceptance consumption cannot overflow, moves every next nonce past its run and changes nothing else |
| Engine.AccountTable.ConsumeNonces | crates/core/src/settlement/nonces.rs:4-35 | the counting loops and the final loop leave the specified accounts or the specified error |
| Books.BooksAcceptedExactly | crates/core/src/settlement/validation.rs:282-369 | a proposal is accepted exactly when it lists every order in its own market and side by better price, then smaller sequence, over known markets in ascending order |
| Books.AcceptedBooksUnique | crates/core/src/settlement/validation.rs:282-369 | for fixed orders at most one list of books is accepted |
| Matching.VolumeIsMaximal | crates/core/src/settlement/matching.rs:65-119 | on priority-sorted books the traded quantity is the maximum over all prices of the smaller of demand and supply |
| Matching.NoCrossRemains | crates/core/src/settlement/matching.rs:65-119 | no buy and sell that both have unfilled quantity still cross |
| Matching.FillsRespectPriority | crates/core/src/settlement/matching.rs:74-118 | no order is overfilled and an order fills only when every better order of its side is filled completely |
| Matching.FillsAreFair | crates/core/src/settlement/matching.rs:74-118 | each fill is at the older order's price between the two limits, and two non-empty books give at most one fill less than orders |
| Trades.TradeConserves | crates/core/src/settlement/matching.rs:8-62 | a settled trade is for its fill's quantity and price between the orders' traders, at quantity times price over scale and its fee of that in ten-thousandths, each within one unit below; it moves exactly these, also when parties coincide, and conserves every asset |
| Trades.TradePays | crates/core/src/settlement/matching.rs:43-62 | the buyer gets the quantity of base and pays value and fee in quote, the seller gives and receives the same, the fee recipient gets the fee, spelled out also where recipient and party coincide; nobody and nothing else moves |
| Coverage.TradeSucceedsExactly | crates/core/src/settlement/matching.rs:8-62 | a fill settles exactly when its parties differ, quantity times price and value times fee fit a u128, the value is not zero, the buyer holds value and fee and the seller the quantity; the condition is plain arithmetic |
| Trades.MarketConserves | crates/core/src/settlement/matching.rs:65-119 | a market that matches has one trade per fill of the sweep and changes every account by exactly its trades |
| Coverage.BooksSucceedExactly | crates/core/src/settlement/matching.rs:65-146 | the books of a batch match exactly when each trade of the sweep is payable by what the trades before it leave its parties |
| Trades.BuyerNeverOverpays | crates/core/src/settlement/matching.rs:32-42 | over any split into fills a buyer pays at most limit times filled over scale, rounded down, and at most the fee on that total, rounded down |
| Trades.SellerLosesOnlyDust | crates/core/src/settlement/matching.rs:91-116 | a filled sell receives more than limit times filled over scale less one unit per fill |
| SettledMatching.SettledTrades | crates/core/src/settlement/matching.rs:65-146 | a settled batch arranged every order, its books are sorted by priority on both sides, and its trades are exactly the fills of the sweep, book by book |
| SettledMatching.SettledTradesRound | crates/core/src/settlement/matching.rs:32-42 | every trade of a settled batch is of a listed market and charges the value and the fee rounded down and no further: both within one unit below the exact quotient |
| TimePriority.SettledTimePriority | crates/core/src/types/order.rs:15-23 | in prices and sequences of the batch's own orders alone: every trade is between a buy and a sell at the older one's price, no order gets more than it asked for, one that gets anything leaves no better one short, and open orders do not cross |
| SettledMatching.SettledBook | crates/core/src/settlement/validation.rs:318-369 | each book of a settled batch holds exactly the batch's orders of its market, and the batch's trades of that market are exactly the book's fills |
| SettledMatching.SettledVolume | crates/core/src/settlement/matching.rs:65-119 | in every market a settled batch trades exactly the most that any single price could clear among the orders it was given |
| SettledMatching.SettledPriority | crates/core/src/settlement/matching.rs:74-118 | the trades of a settled batch overfill no order, fill one only when all better ones are complete, are at the older order's price between the limits, and leave no open cross |
| SettledMatching.SettledRounding | crates/core/src/settlement/matching.rs:32-116 | over the trades of a settled batch that fill one buy it pays at most limit and fee rounded down and less than a unit per trade below value and fee; each sell loses less than one unit per trade |
| Engine.AccountTable.SettleTrade | crates/core/src/settlement/matching.rs:8-62 | the checks and in-place bookings in order leave the specified accounts and trade or the specified error |
| Engine.AccountTable.MatchMarket | crates/core/src/settlement/matching.rs:65-119 | the two-index loop over mutable remaining quantities settles exactly the fills of the sweep |
| Engine.AccountTable.MatchAndSettle | crates/core/src/settlement/matching.rs:122-146 | the loop over books appends the trades of each market |
| Tracker.BalancedTrackerEmpties | crates/core/src/settlement/assets.rs:11-78 | a tracker that agrees with the accounts empties out without an error |
| Tracker.WithdrawalsTracked | crates/core/src/settlement/assets.rs:17-55 | subtracting withdrawals succeeds exactly when every asset covers its withdrawals, and then takes exactly those |
| Engine.AssetTracker.Subtract | crates/core/src/settlement/assets.rs:17-32 | zero is a no-op, a missing or short total is an error, a total that reaches zero leaves the map |
| Engine.AssetTracker.SubtractAccounts | crates/core/src/settlement/assets.rs:67-74 | the nested loops leave the specified totals or the specified error |
| SettlementTheorems.FinalCheckNeverFails | crates/core/src/settlement/mod.rs:110-117 | once the earlier stages have succeeded the tracker empties exactly |
| SettlementTheorems.SettlesExactly | crates/core/src/settlement/mod.rs:30-142 | a batch settles exactly when its stages succeed and the new accounts reconstruct; the only late error is an invalid multiproof |
| SettlementTheorems.SettlementConserves | crates/core/src/settlement/mod.rs:67-122 | per asset new total is old total plus deposits less withdrawals and drains; each account changes by its own deposits, drains, withdrawals and the batch's trades alone; each drain is the smaller of request and remaining balance, or zero without a matching hint; ids and nonces as stated |
| Readiness.ValidatedExactly | crates/core/src/settlement/mod.rs:30-73 | the untouched batch is valid exactly when it is within the numeric limits, its configuration is in order, its accounts are sorted and canonical, its deposits are next in the queue and its proof opens the root it names |
| Readiness.PreparedExactly | crates/core/src/settlement/mod.rs:78-110 | a valid batch reaches matching exactly when the tracker and the account limit have room, the forced queue is in order, every operation is accepted and every withdrawal is covered after the drains |
| Coverage.StagesSucceedExactly | crates/core/src/settlement/mod.rs:30-122 | the stages of any batch succeed exactly when it is valid and ready, its books arrange every order over known markets, and each trade is payable in turn |
| SettlementTheorems.SettlementRoots | crates/core/src/settlement/mod.rs:67-142 | the output names the roots the proof reconstructs before and after, and its batch, trades, configuration, queue and payout hashes are those of the input and its result, each in its own place |
| SettlementTheorems.OutputBinds | crates/core/src/settlement/mod.rs:67-82 | settled batches with equal batch hashes have the same domain, id, old root, configuration and order terms, equal trades hashes mean equal trades, and every other hash fixes its list |
| Engine.SettleBatch | crates/core/src/settlement/mod.rs:30-142 | the program over one mutable table and one tracker computes the specified outcome for every input |
| Transition.SettlementTransition | crates/core/src/settlement/mod.rs:67-122 | over the whole committed state, for any proof, the new root commits to the set with the selected accounts replaced, totals move by deposits, withdrawals and drains, and exactly the passed nonces are consumed |
| AccountTree.State.ReplaceAccount | crates/core/src/state.rs:35-44 | replaces exactly when the position exists and holds the same id |
| AccountTree.State.InsertAccount | crates/core/src/state.rs:46-57 | inserts exactly when the id is new and keeps the list sorted |
| AccountTree.AccountTree.New | crates/host/src/account_tree.rs:13-27 | accepts exactly lists without duplicate ids that a u32 can index, sorted and indexed by id |
| AccountTree.AccountTree.Witness | crates/host/src/account_tree.rs:37-41 | gives the touched accounts with their proof exactly for a non-empty set of ids |
| AccountTree.AccountTree.Apply | crates/host/src/account_tree.rs:43-79 | refuses duplicates before any change; otherwise leaves exactly the next state, re-indexed |
| Host.AppliedIsNext | crates/host/src/account_tree.rs:43-79 | the next state is the sorted set with the updated accounts replaced or inserted, and no other sorted list is |
| Host.WitnessOpens | crates/core/src/state.rs:69-83 | the witness of a sorted state is always built and reconstructs that state's root |
| Host.HostFollowsGuest | crates/host/src/account_tree.rs:43-79 | for every settled batch against the host's root, applying its accounts lands on the proven root with every account outside the proof unchanged and the form kept for the next batch |
| Host.WitnessedBatchSettles | crates/core/src/settlement/mod.rs:67-122 | over a host witness a batch settles as soon as its stages succeed and its deposits go to witnessed ids |
| BatchBuilder.BatchBuilder.Order | crates/host/src/batch_builder.rs:114-171 | admits or refuses an order as specified, updating sequences, nonces, touched accounts and books |
| BatchBuilder.BatchBuilder.Withdraw | crates/host/src/batch_builder.rs:173-234 | admits or refuses a withdrawal as specified, adding up earlier withdrawals in a u128 |
| BatchBuilder.BatchBuilder.ForcedWithdraw | crates/host/src/batch_builder.rs:87-112 | admits or refuses a forced withdrawal as specified, also for an account that does not exist |
| BatchBuilder.BatchBuilder.BuildBatch | crates/host/src/batch_builder.rs:236-309 | the nonce loops and the assembled batch are as specified |
| Admission.AdmitsExactly | crates/host/src/batch_builder.rs:57-234 | whatever was tried before, an operation is admitted exactly when the operations admitted so far leave room, the next queue id, a fresh sequence or nonce and the balance it takes, and its account exists or, for an order, is deposited to in the same batch |
| Admission.BuildsExactly | crates/host/src/batch_builder.rs:236-309 | whatever was tried, the batch is built exactly when the admitted orders and withdrawals of each account use its next nonces once each; it then carries exactly what was admitted, books in priority and a witness of exactly the touched accounts |
| BuilderTheorems.OrderKeeps | crates/host/src/batch_builder.rs:114-171 | an admitted order keeps the builder's invariant: nonces recorded once and sorted, every order shelved in its market and side |
| BuilderTheorems.WithdrawalKeeps | crates/host/src/batch_builder.rs:173-234 | an admitted withdrawal keeps the builder's invariant |
| BuilderTheorems.ReachableKeeps | crates/host/src/batch_builder.rs:30-234 | whatever operations are tried in whatever order, every batch a builder reaches satisfies the invariant: ids touched, queues in order, nonces recorded once, orders shelved, withdrawals covered, limits kept |
| BuiltBatches.HintsExactly | crates/host/src/batch_builder.rs:252-288 | for every reachable batch the attached rank is the account's position in the guest's list exactly when every touched account up to it exists or is deposited to |
| BuiltBatches.ForcedAmounts | crates/core/src/settlement/forced_withdrawals.rs:4-28 | a settled built batch executes each forced request for the smaller of the request and what the state and deposits leave it, or for zero behind an account that does not exist |
| BuiltBatches.DrainedExactlyWhenPresent | crates/core/src/settlement/forced_withdrawals.rs:4-28 | a request whose account still holds the asset is executed for a positive amount exactly when every touched account up to it exists or is deposited to |
| BuiltBatches.UnknownRequestStarvesOthers | crates/host/src/batch_builder.rs:87-112 | over every valid state a request of a known account settles in full or up to its balance when alone, and for zero when a smaller unknown account asked before it; both batches build and settle |
| BuiltBatches.GuestAccepts | crates/host/src/batch_builder.rs:236-309 | for every reachable batch the guest accepts root and books, accepts the operations exactly when they are signed and no unaccounted id comes before theirs, and covers the withdrawals exactly when state and deposits less drains do |
| BuiltBatches.UnforcedWithdrawalsCovered | crates/host/src/batch_builder.rs:173-234 | what the builder checks when it admits withdrawals suffices for every balance that is not also forced out |
| BuiltBatches.BuiltSettlesExactly | crates/host/src/batch_builder.rs:236-309 | a built batch settles exactly when the fee recipient exists, the queues end in range, the touched totals fit, the operations are good and covered and each trade is covered in turn; nothing else the guest checks can fail |
| BuiltBatches.ConfigAccepted | crates/core/src/settlement/validation.rs:112-155 | over a good configuration the built batch passes exactly when the fee recipient exists before the batch |
| BuiltBatches.QueuesAccepted | crates/host/src/batch_builder.rs:57-112 | built queues pass exactly when the cursor after them fits a u64 |
| BuiltBatches.BuildSettleApply | crates/host/src/account_tree.rs:37-79 | build, settle, apply: a built batch settles once its stages succeed and leaves the host on the new root, untouched accounts unchanged, with valid accounts for the next batch |
| BuiltBatches.IdleBatchSettles | crates/core/src/settlement/mod.rs:30-142 | over every valid state with the fee recipient and every good configuration a batch without operations builds, settles and keeps the root |
| ZkClob.ZkClob.Deploy | contracts/src/ZkClob.sol:38-58 | refuses a zero verifier; otherwise a fresh contract has empty queues, no pending payouts and no escapes |
| ZkClob.ZkClob.DepositToken | contracts/src/ZkClob.sol:64-78 | takes in exactly the amount and queues it, or reverts as specified with nothing changed |
| ZkClob.ZkClob.RequestForced | contracts/src/ZkClob.sol:80-89 | queues a request with its deadline, or reverts as specified |
| ZkClob.ZkClob.ActivateEscape | contracts/src/ZkClob.sol:91-99 | sets escape mode exactly when the head request is overdue |
| ZkClob.ZkClob.EscapeWithdraw | contracts/src/ZkClob.sol:101-115 | pays every balance of a proven account once, or reverts whole |
| ZkClob.ZkClob.WithdrawPending | contracts/src/ZkClob.sol:117-128 | pays a pending amount and clears it, or reverts with it intact |
| ZkClob.ZkClob.Settle | contracts/src/ZkClob.sol:130-147 | checks in order, then moves the root, cursors, batch id and payouts as specified, or reverts whole |
| ZkClob.ZkClob.ExecuteForced | contracts/src/ZkClob.sol:369-383 | pays or credits each non-zero drain in order |
| History.StateIsHistory | contracts/src/ZkClob.sol:60-147 | over every run the queues hold, id by id, the deposits and requests of the successful calls under their callers with asset, amount and deadline; cursors, batch id and root are those of the settled batches in turn; escape mode and marks are the escape calls' |
| History.ActivatesExactly | contracts/src/ZkClob.sol:80-99 | at any point of any run an activation succeeds exactly when a forced request is open and the oldest open one was called for at least the delay ago |
| History.DepositTakesIn | contracts/src/ZkClob.sol:60-78 | a deposit that goes through brings in exactly what it queues and touches no other asset, payee or pending payout |
| Acceptance.QueuesTakeExactly | contracts/src/ZkClob.sol:60-89 | after any run a deposit or forced request goes through exactly when its amount is in range, an id is left, a token transfer brings in exactly the amount and a deadline fits a uint64 |
| Acceptance.SettlesOnChainExactly | contracts/src/ZkClob.sol:130-266 | after any run the call data of a settled batch goes through exactly when it is proven, escape mode is off, the batch is next on domain, configuration, root, cursors and queue entries and names its own payouts, whichever transfers fail; the holdings cover every payout beside all pending ones |
| Runs.SettleMatches | contracts/src/ZkClob.sol:203-266 | the hashes force the call data and consumed queue entries to be the batch's own, and the truncated count to be the true one |
| Solvency.WithdrawalsFree | contracts/src/ZkClob.sol:355-367 | paid or credited, every withdrawal leaves the free holdings exactly once |
| Payouts.SettlementPays | contracts/src/ZkClob.sol:355-395 | over any settlement each payee, recipient of a withdrawal or account of a forced one, is sent exactly the payouts that go through and owed exactly those that do not |
| Payouts.ClaimIsExact | contracts/src/ZkClob.sol:117-128 | a claim sends the claimant all it is owed of the asset, clears that and touches nobody else |
| Payouts.RunsPayWhatIsDue | contracts/src/ZkClob.sol:101-147 | over every run each payee was sent or is owed exactly what settled batches withdrew to it or drained for it and what it escaped with |
| Runs.EscapeIsExact | contracts/src/ZkClob.sol:101-115 | a successful escape pays exactly the balances of a committed account that has not escaped and changes nothing else |
| Runs.ExitsAlwaysPay | contracts/src/ZkClob.sol:101-128 | at the end of every run each unescaped committed account has an accepted proof in escape mode and the holdings cover it, and every pending payout can be claimed |
| Runs.QueuedStayBehind | contracts/src/ZkClob.sol:101-128 | deposits still queued when escape mode is set are never paid out: over every further run the holdings cover them beyond all that can leave |
| Runs.StepKeeps | contracts/src/ZkClob.sol:60-147 | every call keeps the invariant and only advances the state |
| Runs.RunsStaySolvent | contracts/src/ZkClob.sol:101-147 | over every run of sound calls from a funded state holdings cover unescaped balances, unprocessed deposits and pending payouts |
| Runs.NoncesNeverReused | contracts/src/ZkClob.sol:130-147 | no run consumes an (account, nonce) pair twice |
| Runs.RunsOnlyAdvance | contracts/src/ZkClob.sol:80-147 | between any two points of a run cursors and queues only advance, entries stay, deadlines are ordered, and escape mode freezes root, batch id and cursors |
| Runs.EscapesAtMostOnce | contracts/src/ZkClob.sol:101-115 | in any run an account escapes at most once |
| Lockstep.HostStaysInStep | crates/host/src/account_tree.rs:43-79 | over every run of sound calls a host that applies each settled batch ends on the contract's root with exactly the committed accounts, ready to build |
| Lockstep.BuiltBatchAccepted | contracts/src/ZkClob.sol:130-147 | at the end of every run outside escape mode, whatever batch the host builds for the contract's queues and settles, the contract accepts whichever transfers fail, and the holdings cover every payout |
| Sparse.NodeRoundTrip | crates/core/src/trees/smt.rs:188-266 | at every node reading what the writer emitted rebuilds the node of the new tree and leaves exactly what follows |
| Sparse.SelectMeans | crates/core/src/trees/smt.rs:286-314 | the two-pointer selection pairs every key with its leaf or with none, and rejects exactly leaves at other keys |
| Sparse.SparseRoundTrip | crates/core/src/trees/smt.rs:316-353 | for every old set, distinct selection and new set that agrees elsewhere, the packed proof is consumed exactly and gives the new root |
| SparseAuthentic.SparseOpens | crates/core/src/trees/smt.rs:132-152 | along every key, right at a set bit, the root of a set leads to the value's hash or to the empty leaf |
| SparseAuthentic.SparseBinds | crates/core/src/trees/smt.rs:316-319 | two sets share a sparse root exactly when they have the same values |
| SparseAuthentic.SparseProofIsAuthentic | crates/core/src/trees/smt.rs:243-353 | any proof, honest or not, that yields the root of a set supplies exactly the set's values at its keys: membership and absence |
| SparseTree.ProofBuilder.PushBit | crates/core/src/trees/smt.rs:169-177 | sets the next bit of the byte vector and no other |
| SparseTree.ProofBuilder.BuildProof | crates/core/src/trees/smt.rs:188-208 | appends exactly the specified bits and side nodes |
| SparseTree.ProofReader.Finish | crates/core/src/trees/smt.rs:232-240 | accepts exactly when only zero padding of less than a byte and no side node is left |
| SparseTree.BuildMultiproof | crates/core/src/trees/smt.rs:321-339 | packs the specified bits and side nodes for every input, or reports the error |
| SparseTree.ComputeRootFromProof | crates/core/src/trees/smt.rs:341-353 | returns the specified root or error for every input |
| Dense.HeightLeast | crates/core/src/trees/dmt.rs:151-153 | the width is the least power of two that holds every leaf |
| DenseTree.BuildLevels | crates/core/src/trees/dmt.rs:155-177 | entry j of level k is the root of the subtree over its 2^k leaves, up to a single root |
| DenseTree.BuildSideNodes | crates/core/src/trees/dmt.rs:184-197 | the side nodes read off the table are those of the recursion |
| DenseTree.NodeReader.TreeRoot | crates/core/src/trees/dmt.rs:199-225 | the reader computes the specified root and consumes exactly the specified nodes |
| Dense.RebuildsNode | crates/core/src/trees/dmt.rs:184-225 | at every node the old side nodes with the new leaves rebuild the new subtree and leave exactly what follows |
| Dense.DenseRoundTrip | crates/core/src/trees/dmt.rs:87-225 | for any leaf count, increasing selection and replacement the proof rebuilds the new root with no side node left |
| DenseAuthentic.RootOpens | crates/core/src/trees/dmt.rs:87-94 | the root records the count and opens left to right to the leaves and then empty leaves up to the least power of two |
| DenseAuthentic.DenseBinds | crates/core/src/trees/dmt.rs:87-94 | two lists share a dense root exactly when they are the same list |
| DenseAuthentic.DenseProofsExactly | crates/core/src/trees/dmt.rs:119-225 | a proof of any origin yields the root of a list exactly when it names its length and increasing places, carries the writer's side nodes and no others, and the leaves are the list's own there |

## Left out

- SHA-256 and byte encodings: digests are free terms over the hashed content, so length prefixes and domain strings appear only as constructors.
- Signature recovery: whether a signature is good is a boolean on each order and withdrawal, fixed per batch domain.
- SP1 proving, guest input and output, the CLI, ABI decoding and the check of the public values' length.
- ERC-20 and native transfer internals, reentrancy and gas: each external call is one atomic step with a chosen outcome.
- Panics on a missing position hint of deposits, orders and withdrawals: their hint is a plain number; for forced withdrawals it is optional and the missing case is modelled.
- Standard library sorts and binary searches: sorting is insertion sort, which agrees with every sort where the source rejects ties; binary search is the position function on sorted lists.
- Events, getters, error payloads, cycle tracking, fixtures and mocks.
- The literal table of empty hashes: any table whose neighbouring heights are linked.
- Patricia subtrees and proofs of key types other than account ids: the tree is modelled over accounts.
