/** Options, results and the error values shared by the whole model. */
module Results {
  datatype Option<+T> = None | Some(value: T)

  /** The failure reasons of the guest (settlement/errors.rs), of the tree
      verifiers, of the host-side batch builder and of the contract. */
  datatype Error =
    | InvalidMultiproof
    | TooManyAccounts
    | TooManyOrders
    | TooManyDeposits
    | TooManyWithdrawals
    | TooManyForcedWithdrawals
    | TooManyAssets
    | TooManyMarkets
    | DuplicateAccount
    | DuplicateBalance
    | DuplicateAsset
    | DuplicateMarket
    | DuplicateMarketOrderBook
    | DuplicateOrderIndex
    | DuplicateSequence
    | DuplicateNonce
    | UnknownAccount
    | UnknownAsset
    | UnknownMarket
    | MissingFeeRecipient
    | MissingOrderIndex
    | EmptyOrderBook
    | ZeroAssetScale
    | ZeroBalance
    | ZeroPrice
    | ZeroQuantity
    | ZeroDepositAmount
    | ZeroWithdrawalAmount
    | ZeroForcedWithdrawalAmount
    | IdenticalMarketAssets
    | InvalidFee
    | InvalidOrderSignature
    | InvalidWithdrawalSignature
    | InvalidNonce
    | InvalidDepositCursor
    | InvalidForcedWithdrawalCursor
    | InvalidOrderIndex
    | OrderBookMarketMismatch
    | OrderBookSideMismatch
    | UnsortedAccounts
    | UnsortedAssets
    | UnsortedBalances
    | UnsortedMarkets
    | UnsortedMarketOrderBooks
    | UnsortedOrderBook
    | NonceOverflow
    | DepositCursorOverflow
    | ForcedWithdrawalCursorOverflow
    | OldStateRootMismatch
    | SelfTrade
    | InsufficientBalance
    | ArithmeticOverflow
    | TradeValueRoundsToZero
    | AssetConservationViolation
    // host-side failures (crates/host/src/error.rs)
    | AccountIndexOverflow
    | OrderIndexOverflow
    | InvalidStateProof
    // reverts of the settlement contract (IZkClob.sol)
    | ZeroVerifier
    | DepositAmountOverflow
    | InvalidToken
    | UnexpectedNativeValue
    | TokenTransferFailed
    | TokenTransferAmountMismatch
    | WrongProtocolVersion
    | WrongChain
    | WrongExchange
    | WrongConfig
    | WrongBatchId
    | StaleStateRoot
    | WrongDepositCursor
    | InvalidDepositCursorAdvance
    | WrongForcedWithdrawalCursor
    | InvalidForcedWithdrawalCursorAdvance
    | ConsumedDepositsHashMismatch
    | ConsumedForcedWithdrawalsHashMismatch
    | WithdrawalsHashMismatch
    | ForcedWithdrawalsHashMismatch
    | ProofRejected
    | EscapeModeActive
    | EscapeModeNotActive
    | AlreadyEscaped
    | InvalidEscapeProof
    | NativeEscapeWithdrawalFailed
    | NoPendingForcedWithdrawal
    | ForcedWithdrawalDeadlineNotElapsed
    | NoPendingWithdrawal
    | PendingWithdrawalTransferFailed

  /** A value or the first error met, usable with `:-`. */
  datatype Result<+T> = Ok(value: T) | Err(error: Error) {
    predicate IsFailure() {
      Err?
    }

    function PropagateFailure<U>(): Result<U>
      requires Err?
    {
      Err(error)
    }

    function Extract(): T
      requires Ok?
    {
      value
    }
  }

  /** The outcome of a plain check. */
  datatype Check = Pass | Fail(error: Error)
}
