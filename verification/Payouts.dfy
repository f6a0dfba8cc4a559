/** Who is paid: what each payee is sent or owed, over every settlement and
    every run of the contract. */
module Payouts {
  import opened Keys
  import opened Results
  import opened Types
  import opened Ledger
  import opened Operations
  import opened Settlement
  import opened SettlementTheorems
  import opened Contract
  import opened Solvency
  import opened Runs

  // ----- one settlement

  /** One payment of a settlement, and whether its transfer goes through when
      the contract holds enough. */
  datatype Payout = Payout(payee: AccountId, asset: AssetId, amount: nat, works: bool)

  predicate WorkAt(works: seq<bool>, i: nat) {
    i < |works| && works[i]
  }

  /** Withdrawals pay their recipients, forced withdrawals their accounts. */
  function PayoutsOf(m: Submission): (r: seq<Payout>)
    ensures |r| == |m.withdrawals| + |m.forced|
    ensures forall i :: 0 <= i < |m.withdrawals| ==>
              r[i] == Payout(m.withdrawals[i].recipient, m.withdrawals[i].asset, m.withdrawals[i].amount, WorkAt(m.withdrawalsWork, i))
    ensures forall i :: 0 <= i < |m.forced| ==>
              r[|m.withdrawals| + i] == Payout(m.forced[i].account, m.forced[i].asset, m.forced[i].amount, WorkAt(m.forcedWork, i))
  {
    WithdrawalPayouts(m.withdrawals, m.withdrawalsWork) + ForcedPayouts(m.forced, m.forcedWork)
  }

  function WithdrawalPayouts(withdrawals: seq<ExecutedWithdrawal>, works: seq<bool>): (r: seq<Payout>)
    ensures |r| == |withdrawals|
    ensures forall i :: 0 <= i < |r| ==>
              r[i] == Payout(withdrawals[i].recipient, withdrawals[i].asset, withdrawals[i].amount, WorkAt(works, i))
  {
    seq(|withdrawals|, i requires 0 <= i < |withdrawals| =>
      Payout(withdrawals[i].recipient, withdrawals[i].asset, withdrawals[i].amount, WorkAt(works, i)))
  }

  function ForcedPayouts(forced: seq<QueueEntry>, works: seq<bool>): (r: seq<Payout>)
    ensures |r| == |forced|
    ensures forall i :: 0 <= i < |r| ==> r[i] == Payout(forced[i].account, forced[i].asset, forced[i].amount, WorkAt(works, i))
  {
    seq(|forced|, i requires 0 <= i < |forced| => Payout(forced[i].account, forced[i].asset, forced[i].amount, WorkAt(works, i)))
  }

  /** What is left of an asset after the payouts that go through, in order. */
  function LeftOf(held: nat, payouts: seq<Payout>, asset: AssetId): nat {
    if payouts == [] then held
    else if payouts[0].asset == asset && payouts[0].works && payouts[0].amount <= held then
      LeftOf(held - payouts[0].amount, payouts[1..], asset)
    else
      LeftOf(held, payouts[1..], asset)
  }

  /** What the payouts of one asset to one payee come to: those that go through,
      and those that do not. */
  function SentTo(held: nat, payouts: seq<Payout>, payee: AccountId, asset: AssetId): nat {
    if payouts == [] then 0
    else
      var p := payouts[0];
      var goes := p.works && p.amount <= held;
      if p.asset != asset then SentTo(held, payouts[1..], payee, asset)
      else (if goes && p.payee == payee then p.amount else 0)
           + SentTo(if goes then held - p.amount else held, payouts[1..], payee, asset)
  }

  function FailedTo(held: nat, payouts: seq<Payout>, payee: AccountId, asset: AssetId): nat {
    if payouts == [] then 0
    else
      var p := payouts[0];
      var goes := p.works && p.amount <= held;
      if p.asset != asset then FailedTo(held, payouts[1..], payee, asset)
      else (if !goes && p.payee == payee then p.amount else 0)
           + FailedTo(if goes then held - p.amount else held, payouts[1..], payee, asset)
  }

  /** All payouts of one asset to one payee. */
  function PaidTo(payouts: seq<Payout>, payee: AccountId, asset: AssetId): nat {
    if payouts == [] then 0
    else (if payouts[0].payee == payee && payouts[0].asset == asset then payouts[0].amount else 0) + PaidTo(payouts[1..], payee, asset)
  }

  lemma {:induction false} SentOrFailed(held: nat, payouts: seq<Payout>, payee: AccountId, asset: AssetId)
    ensures SentTo(held, payouts, payee, asset) + FailedTo(held, payouts, payee, asset) == PaidTo(payouts, payee, asset)
    decreases |payouts|
  {
    if payouts != [] {
      var p := payouts[0];
      SentOrFailed(if p.asset == asset && p.works && p.amount <= held then held - p.amount else held, payouts[1..], payee, asset);
    }
  }

  lemma {:induction false} InTurn(held: nat, a: seq<Payout>, b: seq<Payout>, payee: AccountId, asset: AssetId)
    ensures LeftOf(held, a + b, asset) == LeftOf(LeftOf(held, a, asset), b, asset)
    ensures SentTo(held, a + b, payee, asset) == SentTo(held, a, payee, asset) + SentTo(LeftOf(held, a, asset), b, payee, asset)
    ensures FailedTo(held, a + b, payee, asset) == FailedTo(held, a, payee, asset) + FailedTo(LeftOf(held, a, asset), b, payee, asset)
    decreases |a|
  {
    if a == [] {
      assert a + b == b;
    } else {
      var p := a[0];
      assert (a + b)[1..] == a[1..] + b;
      InTurn(if p.asset == asset && p.works && p.amount <= held then held - p.amount else held, a[1..], b, payee, asset);
    }
  }

  /** One payout, sent or owed to its payee and to nobody else. */
  ghost predicate PaysOut(before: (Holdings, Pending), after: (Holdings, Pending), payouts: seq<Payout>, payee: AccountId, asset: AssetId) {
    var held := Held(before.0, asset);
    && Held(after.0, asset) == LeftOf(held, payouts, asset)
    && Sent(after.0, payee, asset) == Sent(before.0, payee, asset) + SentTo(held, payouts, payee, asset)
    && Owed(after.1, payee, asset) == Owed(before.1, payee, asset) + FailedTo(held, payouts, payee, asset)
  }

  lemma PaysOutOne(holdings: Holdings, pending: Pending, p: Payout, payee: AccountId, asset: AssetId)
    requires PayOrOwe(holdings, pending, p.payee, p.asset, p.amount, p.works).Ok?
    ensures PaysOut((holdings, pending), PayOrOwe(holdings, pending, p.payee, p.asset, p.amount, p.works).value, [p], payee, asset)
  {
    var none: seq<Payout> := [];
    assert [p][1..] == none;
  }

  lemma PaysNothing(holdings: Holdings, pending: Pending, p: Payout, payee: AccountId, asset: AssetId)
    requires p.amount == 0
    ensures PaysOut((holdings, pending), (holdings, pending), [p], payee, asset)
  {
    var none: seq<Payout> := [];
    assert [p][1..] == none;
  }

  lemma PaysInTurn(a: (Holdings, Pending), b: (Holdings, Pending), c: (Holdings, Pending), first: seq<Payout>, rest: seq<Payout>,
                   payee: AccountId, asset: AssetId)
    requires PaysOut(a, b, first, payee, asset) && PaysOut(b, c, rest, payee, asset)
    ensures PaysOut(a, c, first + rest, payee, asset)
  {
    InTurn(Held(a.0, asset), first, rest, payee, asset);
  }

  lemma {:induction false} WithdrawalsPayOut(holdings: Holdings, pending: Pending, withdrawals: seq<ExecutedWithdrawal>, works: seq<bool>,
                                             payee: AccountId, asset: AssetId)
    requires PayWithdrawals(holdings, pending, withdrawals, works).Ok?
    ensures PaysOut((holdings, pending), PayWithdrawals(holdings, pending, withdrawals, works).value,
                    WithdrawalPayouts(withdrawals, works), payee, asset)
    decreases |withdrawals|
  {
    hide PaysOut, PayOrOwe;
    var all := WithdrawalPayouts(withdrawals, works);
    if withdrawals == [] {
      PaysOutNone(holdings, pending, payee, asset);
      assert all == [];
    } else {
      var w, rest := withdrawals[0], WithdrawalPayouts(withdrawals[1..], Rest(works));
      assert all == [all[0]] + rest;
      assert all[0] == Payout(w.recipient, w.asset, w.amount, First(works));
      var next := PayOrOwe(holdings, pending, w.recipient, w.asset, w.amount, First(works)).value;
      PaysOutOne(holdings, pending, all[0], payee, asset);
      WithdrawalsPayOut(next.0, next.1, withdrawals[1..], Rest(works), payee, asset);
      PaysInTurn((holdings, pending), next, PayWithdrawals(holdings, pending, withdrawals, works).value, [all[0]], rest, payee, asset);
    }
  }

  lemma PaysOutNone(holdings: Holdings, pending: Pending, payee: AccountId, asset: AssetId)
    ensures PaysOut((holdings, pending), (holdings, pending), [], payee, asset)
  {
  }

  lemma {:induction false} ForcedPayOut(holdings: Holdings, pending: Pending, forced: seq<QueueEntry>, works: seq<bool>,
                                        payee: AccountId, asset: AssetId)
    requires PayForced(holdings, pending, forced, works).Ok?
    ensures PaysOut((holdings, pending), PayForced(holdings, pending, forced, works).value, ForcedPayouts(forced, works), payee, asset)
    decreases |forced|
  {
    hide PaysOut, PayOrOwe;
    var all := ForcedPayouts(forced, works);
    if forced == [] {
      PaysOutNone(holdings, pending, payee, asset);
      assert all == [];
    } else {
      var f, rest := forced[0], ForcedPayouts(forced[1..], Rest(works));
      assert all == [all[0]] + rest;
      if f.amount == 0 {
        PaysNothing(holdings, pending, all[0], payee, asset);
        ForcedPayOut(holdings, pending, forced[1..], Rest(works), payee, asset);
        PaysInTurn((holdings, pending), (holdings, pending), PayForced(holdings, pending, forced, works).value, [all[0]], rest, payee, asset);
      } else {
        var next := PayOrOwe(holdings, pending, f.account, f.asset, f.amount, First(works)).value;
        PaysOutOne(holdings, pending, all[0], payee, asset);
        ForcedPayOut(next.0, next.1, forced[1..], Rest(works), payee, asset);
        PaysInTurn((holdings, pending), next, PayForced(holdings, pending, forced, works).value, [all[0]], rest, payee, asset);
      }
    }
  }

  /** THEOREM (payees). Over any settlement each payee is sent exactly the
      payouts to it that go through and is owed exactly those that do not: the
      recipient of a withdrawal, the account of a forced withdrawal, in order,
      a transfer going through when it works and the contract still holds the
      amount. */
  lemma SettlementPays(p: Params, s: State, m: Submission, next: State, payee: AccountId, asset: AssetId)
    requires Settle(p, s, m) == Ok(next)
    ensures var held := Held(s.holdings, asset);
            && Sent(next.holdings, payee, asset) == Sent(s.holdings, payee, asset) + SentTo(held, PayoutsOf(m), payee, asset)
            && Owed(next.pending, payee, asset) == Owed(s.pending, payee, asset) + FailedTo(held, PayoutsOf(m), payee, asset)
            && SentTo(held, PayoutsOf(m), payee, asset) + FailedTo(held, PayoutsOf(m), payee, asset) == PaidTo(PayoutsOf(m), payee, asset)
  {
    hide PayWithdrawals, PayForced, CheckPayouts, CheckConsumed, Settle;
    var paid, left, newForced := SettleUnfold(p, s, m);
    WithdrawalsPayOut(s.holdings, s.pending, m.withdrawals, m.withdrawalsWork, payee, asset);
    ForcedPayOut(paid.0, paid.1, m.forced, m.forcedWork, payee, asset);
    PaysInTurn((s.holdings, s.pending), paid, left, WithdrawalPayouts(m.withdrawals, m.withdrawalsWork),
               ForcedPayouts(m.forced, m.forcedWork), payee, asset);
    SentOrFailed(Held(s.holdings, asset), PayoutsOf(m), payee, asset);
  }

  /** A claim sends the payee all it is owed, and nothing to anybody else. */
  lemma ClaimIsExact(s: State, claimant: AccountId, claimed: AssetId, goes: bool, next: State, payee: AccountId, asset: AssetId)
    requires WithdrawPending(s, claimant, claimed, goes) == Ok(next)
    ensures var mine := payee == claimant && asset == claimed;
            && Owed(next.pending, payee, asset) == (if mine then 0 else Owed(s.pending, payee, asset))
            && Sent(next.holdings, payee, asset) == Sent(s.holdings, payee, asset) + (if mine then Owed(s.pending, payee, asset) else 0)
            && Held(next.holdings, asset) == Held(s.holdings, asset) - (if asset == claimed then Owed(s.pending, claimant, asset) else 0)
    ensures Owed(s.pending, claimant, claimed) > 0 && next == s.(holdings := next.holdings, pending := next.pending)
  {
  }

  // ----- whole runs

  /** What withdrawals name the payee as recipient for. */
  function WithdrawnFor(withdrawals: seq<Withdrawal>, payee: AccountId, asset: AssetId): nat {
    if withdrawals == [] then 0
    else (if withdrawals[0].recipient == payee && withdrawals[0].asset == asset then withdrawals[0].amount else 0)
         + WithdrawnFor(withdrawals[1..], payee, asset)
  }

  /** What one call that succeeds entitles a payee to. */
  function EntitledBy(action: Action, payee: AccountId, asset: AssetId): nat {
    match action
    case Settlement(_, input) =>
      if Outcome(input).Ok? then WithdrawnFor(input.withdrawals, payee, asset) + Drained(Outcome(input).value.forced, payee, asset) else 0
    case Escape(account, _, _) => if account.id == payee then EntrySum(account.balances, asset) else 0
    case _ => 0
  }

  /** What the successful calls of a run entitle a payee to. */
  function Entitled(p: Params, w: World, calls: seq<Call>, payee: AccountId, asset: AssetId): nat
    decreases |calls|
  {
    if calls == [] then 0
    else (if Runs.Apply(p, w.state, calls[0]).Ok? then EntitledBy(calls[0].action, payee, asset) else 0)
         + Entitled(p, Step(p, w, calls[0]), calls[1..], payee, asset)
  }

  lemma {:induction false} PaidAppend(a: seq<Payout>, b: seq<Payout>, payee: AccountId, asset: AssetId)
    ensures PaidTo(a + b, payee, asset) == PaidTo(a, payee, asset) + PaidTo(b, payee, asset)
  {
    if a == [] {
      assert a + b == b;
    } else {
      PaidAppend(a[1..], b, payee, asset);
      assert (a + b)[1..] == a[1..] + b;
    }
  }

  lemma {:induction false} WithdrawalsPaid(withdrawals: seq<Withdrawal>, works: seq<bool>, payee: AccountId, asset: AssetId)
    ensures PaidTo(WithdrawalPayouts(Executed(withdrawals), works), payee, asset) == WithdrawnFor(withdrawals, payee, asset)
    decreases |withdrawals|
  {
    var all := WithdrawalPayouts(Executed(withdrawals), works);
    if withdrawals != [] {
      assert all[1..] == WithdrawalPayouts(Executed(withdrawals[1..]), Rest(works));
      WithdrawalsPaid(withdrawals[1..], Rest(works), payee, asset);
    }
  }

  lemma {:induction false} ForcedPaid(forced: seq<ForcedWithdrawal>, works: seq<bool>, payee: AccountId, asset: AssetId)
    ensures PaidTo(ForcedPayouts(ForcedEntries(forced), works), payee, asset) == Drained(forced, payee, asset)
    decreases |forced|
  {
    var all := ForcedPayouts(ForcedEntries(forced), works);
    if forced != [] {
      assert all[1..] == ForcedPayouts(ForcedEntries(forced[1..]), Rest(works));
      ForcedPaid(forced[1..], Rest(works), payee, asset);
    }
  }

  /** Sent and owed together. */
  function Due(s: State, payee: AccountId, asset: AssetId): nat {
    Sent(s.holdings, payee, asset) + Owed(s.pending, payee, asset)
  }

  lemma SettlementEntitles(p: Params, w: World, m: Submission, input: BatchInput, next: State, payee: AccountId, asset: AssetId)
    requires Settle(p, w.state, m) == Ok(next)
    requires m.verified ==> Typed(input) && Outcome(input).Ok? && Outcome(input).value.public == m.output
    ensures Due(next, payee, asset) == Due(w.state, payee, asset) + EntitledBy(Settlement(m, input), payee, asset)
  {
    hide PayWithdrawals, PayForced, CheckPayouts, CheckConsumed, Settle, Outcome, Typed, SentTo, FailedTo, ForcedCursor;
    SettlementPays(p, w.state, m, next, payee, asset);
    var paid, left, newForced := SettleUnfold(p, w.state, m);
    var out := Outcome(input).value;
    SettleMatches(p, w.state, m, input, out, newForced);
    PaidAppend(WithdrawalPayouts(m.withdrawals, m.withdrawalsWork), ForcedPayouts(m.forced, m.forcedWork), payee, asset);
    WithdrawalsPaid(input.withdrawals, m.withdrawalsWork, payee, asset);
    ForcedPaid(out.forced, m.forcedWork, payee, asset);
  }

  lemma {:induction false} BalancesSent(holdings: Holdings, account: AccountId, balances: seq<AssetBalance>, works: seq<bool>,
                                        payee: AccountId, asset: AssetId)
    requires PayBalances(holdings, account, balances, works).Ok?
    ensures Sent(PayBalances(holdings, account, balances, works).value, payee, asset) ==
            Sent(holdings, payee, asset) + (if account == payee then EntrySum(balances, asset) else 0)
    decreases |balances|
  {
    if balances != [] {
      if balances[0].available == 0 {
        BalancesSent(holdings, account, balances[1..], Rest(works), payee, asset);
      } else {
        var sent := Transfer(holdings, balances[0].asset, account, balances[0].available, First(works)).value;
        BalancesSent(sent, account, balances[1..], Rest(works), payee, asset);
      }
    }
  }

  /** A call moves what a payee is due by exactly what it entitles it to. */
  lemma StepEntitles(p: Params, w: World, call: Call, payee: AccountId, asset: AssetId)
    requires Sound(call)
    ensures Due(Step(p, w, call).state, payee, asset) ==
            Due(w.state, payee, asset) + (if Runs.Apply(p, w.state, call).Ok? then EntitledBy(call.action, payee, asset) else 0)
  {
    hide Outcome, Settle, EscapeWithdraw, Typed, QueueDeposit;
    if Runs.Apply(p, w.state, call).Ok? {
      var next := Runs.Apply(p, w.state, call).value;
      match call.action
      case Settlement(m, input) => SettlementEntitles(p, w, m, input, next, payee, asset);
      case Escape(account, sides, works) =>
        EscapeUnfold(w.state, account, sides, works);
        BalancesSent(w.state.holdings, account.id, account.balances, works, payee, asset);
      case NativeDeposit(sender, value) => DepositPaysNobody(w.state, sender, NATIVE, value, next, payee, asset);
      case TokenDeposit(sender, token, amount, _, _) => DepositPaysNobody(w.state, sender, token, amount, next, payee, asset);
      case _ =>
    }
  }

  lemma DepositPaysNobody(s: State, account: AccountId, deposited: AssetId, amount: nat, next: State, payee: AccountId, asset: AssetId)
    requires QueueDeposit(s.(holdings := Receive(s.holdings, deposited, amount)), account, deposited, amount) == Ok(next)
    ensures Due(next, payee, asset) == Due(s, payee, asset)
  {
  }

  lemma {:induction false} RunEntitles(p: Params, w: World, calls: seq<Call>, payee: AccountId, asset: AssetId)
    requires Proper(w.now, calls)
    ensures Due(Run(p, w, calls).state, payee, asset) == Due(w.state, payee, asset) + Entitled(p, w, calls, payee, asset)
    decreases |calls|
  {
    hide Runs.Apply, EntitledBy, Sound, Due;
    if calls != [] {
      StepEntitles(p, w, calls[0], payee, asset);
      StepTime(p, w, calls[0]);
      RunEntitles(p, Step(p, w, calls[0]), calls[1..], payee, asset);
    }
  }

  lemma StepTime(p: Params, w: World, call: Call)
    ensures Step(p, w, call).now == call.now
  {
    hide Runs.Apply, Outcome;
  }

  /** THEOREM (paid exactly what is due). Over every run of sound calls from a
      deployed contract every payee has been sent, or is owed, exactly what
      settled batches withdrew to it as recipient and drained for it, and what it
      escaped with. */
  lemma RunsPayWhatIsDue(p: Params, w: World, calls: seq<Call>, payee: AccountId, asset: AssetId)
    requires Initial(w) && Proper(w.now, calls)
    ensures Sent(Run(p, w, calls).state.holdings, payee, asset) + Owed(Run(p, w, calls).state.pending, payee, asset)
            == Entitled(p, w, calls, payee, asset)
  {
    RunEntitles(p, w, calls, payee, asset);
  }
}
