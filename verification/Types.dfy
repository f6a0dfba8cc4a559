/** The values the guest, the host and the contract exchange, and their digests.

    A digest is a free datatype with one constructor per hash domain, so two
    digests are equal exactly when the same content was hashed under the same
    domain: collision-freeness is constructor injectivity. */
module Types {
  import opened Keys
  import opened Results

  const U64_MAX: nat := 0xFFFF_FFFF_FFFF_FFFF
  const U128_MAX: nat := 0xFFFF_FFFF_FFFF_FFFF_FFFF_FFFF_FFFF_FFFF
  const BPS_DENOMINATOR: nat := 10_000

  /** Addresses and market identifiers only matter through their order. */
  type AccountId = Key
  type AssetId = nat
  type MarketId = nat

  datatype AssetBalance = AssetBalance(asset: AssetId, available: nat)

  datatype Account = Account(id: AccountId, balances: seq<AssetBalance>, nextNonce: nat)

  datatype Side = Buy | Sell

  /** A deposit taken from the on-chain queue; `index` is the account position
      the batch builder attaches (the guest panics when it is missing). */
  datatype Deposit = Deposit(id: nat, account: AccountId, asset: AssetId, amount: nat, index: nat)

  /** A forced withdrawal; here a missing position is handled, not a panic. */
  datatype ForcedWithdrawal =
    ForcedWithdrawal(id: nat, account: AccountId, asset: AssetId, amount: nat, index: Option<nat>)

  /** A signed, sequenced order. `authentic` is the outcome of recovering the
      signer under the batch's signing domain, which is not modelled further. */
  datatype Order = Order(market: MarketId, side: Side, price: nat, quantity: nat, nonce: nat,
                         trader: AccountId, sequence: nat, index: nat, authentic: bool)

  datatype Withdrawal = Withdrawal(account: AccountId, recipient: AccountId, asset: AssetId, amount: nat,
                                   nonce: nat, index: nat, authentic: bool)

  datatype OrderBook = OrderBook(market: MarketId, buys: seq<nat>, sells: seq<nat>)

  datatype AssetConfig = AssetConfig(id: AssetId, scale: nat)
  datatype MarketConfig = MarketConfig(id: MarketId, base: AssetId, quote: AssetId)
  datatype FeeConfig = FeeConfig(recipient: AccountId, buyerFeeBps: nat)
  datatype ExchangeConfig = ExchangeConfig(assets: seq<AssetConfig>, markets: seq<MarketConfig>, fees: FeeConfig)

  datatype Trade = Trade(market: MarketId, buyer: AccountId, seller: AccountId, price: nat, quantity: nat,
                         quoteAmount: nat, quoteFee: nat)

  /** The fields of a queue entry that are hashed on both sides of the bridge. */
  datatype QueueEntry = QueueEntry(id: nat, account: AccountId, asset: AssetId, amount: nat)

  datatype ExecutedWithdrawal =
    ExecutedWithdrawal(account: AccountId, recipient: AccountId, asset: AssetId, amount: nat, nonce: nat)

  /** Root and key range of one Patricia subtree. */
  datatype Commitment = Commitment(root: Digest, min: Key, max: Key)

  datatype Digest =
    | Opaque(bytes: nat) // a 32-byte value without a known preimage
    | EmptyTree
    | AccountHash(account: Account)
    | LeafHash(key: Key, leaf: Digest)
    | BranchHash(depth: nat, left: Commitment, right: Commitment)
    | RootHash(top: Commitment)
    | DepositsHash(deposits: seq<QueueEntry>)
    | ForcedWithdrawalsHash(requests: seq<QueueEntry>)
    | WithdrawalsHash(withdrawals: seq<ExecutedWithdrawal>)
    | TradesHash(trades: seq<Trade>)
    | ConfigHash(config: ExchangeConfig)
    | DomainHash(domain: SigningDomain)
    | BatchHash(domainHash: Digest, batchId: nat, oldRoot: Digest, configHash: Digest, orders: seq<OrderRecord>)

  datatype SigningDomain = SigningDomain(protocolVersion: nat, chainId: nat, exchange: nat)

  /** What an order contributes to the batch hash. */
  datatype OrderRecord = OrderRecord(market: MarketId, side: Side, price: nat, quantity: nat, nonce: nat,
                                     trader: AccountId, sequence: nat)

  function Min(a: nat, b: nat): nat {
    if a < b then a else b
  }

  predicate AccountBefore(a: Account, b: Account) {
    a.id < b.id
  }

  predicate KeyBefore(a: Key, b: Key) {
    a < b
  }

  ghost predicate DistinctIds(accounts: seq<Account>) {
    forall i, j :: 0 <= i < j < |accounts| ==> accounts[i].id != accounts[j].id
  }

  /** Strictly ascending by account id. */
  ghost predicate SortedById(accounts: seq<Account>) {
    forall i, j :: 0 <= i < j < |accounts| ==> accounts[i].id < accounts[j].id
  }

  ghost predicate SortedKeys(keys: seq<Key>) {
    forall i, j :: 0 <= i < j < |keys| ==> keys[i] < keys[j]
  }
}
