/** Building the transfer transaction (achainlightwalletapi.cpp): which balances are drawn on,
    and by how much. */
module Funding {
  import opened Wrappers
  import Amount

  type int64 = x: int | -0x8000_0000_0000_0000 <= x < 0x8000_0000_0000_0000

  /** One balance the server reports for the paying address. */
  datatype BalanceInfo = BalanceInfo(assetId: int, slateId: nat, balance: int64)

  datatype Asset = Asset(amount: int, assetId: int)

  /** Stands for the address of a withdraw condition, which is computed from these three. */
  datatype BalanceId = BalanceId(owner: string, assetId: int, slateId: nat)

  datatype Operation =
    | Withdraw(balance: BalanceId, amount: int)
    | Deposit(to: string, asset: Asset)

  const FEE: int64 := 1000

  class SignedTransaction {
    var operations: seq<Operation>
    var alpAccount: string
    var alpInportAsset: Asset

    constructor ()
      ensures operations == [] && alpAccount == "" && alpInportAsset == Asset(0, 0)
    {
      operations, alpAccount, alpInportAsset := [], "", Asset(0, 0);
    }

    method Withdraw(balance: BalanceId, amount: int64)
      modifies this`operations
      ensures operations == old(operations) + [Operation.Withdraw(balance, amount)]
    {
      operations := operations + [Operation.Withdraw(balance, amount)];
    }

    method Deposit(to: string, asset: Asset)
      modifies this`operations
      ensures operations == old(operations) + [Operation.Deposit(to, asset)]
    {
      operations := operations + [Operation.Deposit(to, asset)];
    }
  }

  // ---------- the specification: a waterfall over the positive balances ----------

  /** Sum of the positive balances among the first `n`. */
  function PosSum(b: seq<BalanceInfo>, n: nat): (s: int)
    requires n <= |b|
    ensures s >= 0
  {
    if n == 0 then 0
    else PosSum(b, n - 1) + if b[n - 1].balance > 0 then b[n - 1].balance else 0
  }

  /** Entry `i` is drawn on: it is positive, and the positive entries before it do not suffice
      (or there are none). */
  predicate Drawn(b: seq<BalanceInfo>, i: nat, need: int)
    requires i < |b|
  {
    b[i].balance > 0 && (PosSum(b, i) == 0 || PosSum(b, i) < need)
  }

  /** What entry `i` has to give: its balance or what is still needed, whichever is less; the
      last entry of the list is asked for all that is still needed. */
  function Share(b: seq<BalanceInfo>, i: nat, need: int): int
    requires i < |b|
  {
    var left := need - PosSum(b, i);
    if i == |b| - 1 || left < b[i].balance then left else b[i].balance
  }

  datatype Take = Take(entry: nat, amount: int)

  /** The withdrawals from the first `n` entries, in list order. */
  function Waterfall(b: seq<BalanceInfo>, n: nat, need: int): (t: seq<Take>)
    requires n <= |b|
    ensures |t| <= n
    ensures forall k :: 0 <= k < |t| ==> t[k].entry < n
  {
    if n == 0 then []
    else Waterfall(b, n - 1, need) + if Drawn(b, n - 1, need) then [Take(n - 1, Share(b, n - 1, need))] else []
  }

  /** The withdraw operation for a take. */
  function Withdrawal(owner: string, b: seq<BalanceInfo>, t: Take): Operation
    requires t.entry < |b|
  {
    Withdraw(BalanceId(owner, b[t.entry].assetId, b[t.entry].slateId), t.amount)
  }

  function Withdrawals(owner: string, b: seq<BalanceInfo>, t: seq<Take>): (ops: seq<Operation>)
    requires forall k :: 0 <= k < |t| ==> t[k].entry < |b|
    ensures |ops| == |t|
  {
    seq(|t|, k requires 0 <= k < |t| => Withdrawal(owner, b, t[k]))
  }

  lemma OneMoreWithdrawal(owner: string, b: seq<BalanceInfo>, t: seq<Take>, u: Take)
    requires (forall k :: 0 <= k < |t| ==> t[k].entry < |b|) && u.entry < |b|
    ensures Withdrawals(owner, b, t + [u]) == Withdrawals(owner, b, t) + [Withdrawal(owner, b, u)]
  {
  }

  /** Once the positive balances suffice, nothing more is drawn. */
  lemma {:induction false} WaterfallStops(b: seq<BalanceInfo>, m: nat, n: nat, need: int)
    requires m <= n <= |b| && PosSum(b, m) > 0 && PosSum(b, m) >= need
    ensures PosSum(b, n) > 0 && PosSum(b, n) >= need
    ensures Waterfall(b, n, need) == Waterfall(b, m, need)
  {
    if m < n {
      WaterfallStops(b, m, n - 1, need);
    }
  }

  // ---------- the code ----------

  lemma NothingTaken(owner: string, b: seq<BalanceInfo>, need: int)
    ensures PosSum(b, 0) == 0 && Waterfall(b, 0, need) == [] && Withdrawals(owner, b, []) == []
  {
  }

  lemma WaterfallNext(b: seq<BalanceInfo>, i: nat, need: int)
    requires i < |b|
    ensures PosSum(b, i + 1) == PosSum(b, i) + if b[i].balance > 0 then b[i].balance else 0
    ensures Waterfall(b, i + 1, need) ==
            Waterfall(b, i, need) + if Drawn(b, i, need) then [Take(i, Share(b, i, need))] else []
  {
  }

  /** One call of trx.withdraw for entry `i`; `t` is what has been taken since `was`. */
  method WithdrawEntry(trx: SignedTransaction, owner: string, b: seq<BalanceInfo>, i: nat, amount: int64,
                       ghost was: seq<Operation>, ghost t: seq<Take>)
    requires i < |b| && forall k :: 0 <= k < |t| ==> t[k].entry < |b|
    requires trx.operations == was + Withdrawals(owner, b, t)
    modifies trx`operations
    ensures trx.operations == was + Withdrawals(owner, b, t + [Take(i, amount)])
  {
    OneMoreWithdrawal(owner, b, t, Take(i, amount));
    var condition := BalanceId(owner, b[i].assetId, b[i].slateId);
    trx.Withdraw(condition, amount);
  }

  /** The withdrawal loop of wallet_transfer_to_address. */
  method WithdrawFrom(trx: SignedTransaction, fromAddr: string, balances: seq<BalanceInfo>, required: int64)
    modifies trx`operations
    ensures trx.operations ==
            old(trx.operations) + Withdrawals(fromAddr, balances, Waterfall(balances, |balances|, required))
  {
    hide Withdrawals, Waterfall, PosSum;
    ghost var was, t: seq<Take> := trx.operations, [];
    NothingTaken(fromAddr, balances, required);
    var actAmount: int64 := required;
    var i := 0;
    while i < |balances|
      invariant 0 <= i <= |balances|
      invariant actAmount == required - PosSum(balances, i)
      invariant PosSum(balances, i) == 0 || actAmount > 0
      invariant t == Waterfall(balances, i, required)
      invariant trx.operations == was + Withdrawals(fromAddr, balances, t)
    {
      WaterfallNext(balances, i, required);
      if balances[i].balance <= 0 {
        i := i + 1;
        continue;
      }
      ghost var u := Waterfall(balances, i + 1, required);
      if i == |balances| - 1 {
        WithdrawEntry(trx, fromAddr, balances, i, actAmount, was, t);
        t := u;
        break;
      } else {
        if actAmount >= balances[i].balance {
          WithdrawEntry(trx, fromAddr, balances, i, balances[i].balance, was, t);
          actAmount := actAmount - balances[i].balance;
          t := u;
        } else {
          WithdrawEntry(trx, fromAddr, balances, i, actAmount, was, t);
          WaterfallStops(balances, i + 1, |balances|, required);
          t := u;
          break;
        }
      }
      if actAmount <= 0 {
        WaterfallStops(balances, i + 1, |balances|, required);
        break;
      }
      i := i + 1;
    }
    assert t == Waterfall(balances, |balances|, required);
  }

  const NO_SUB_ADDRESS: string := "ffffffffffffffffffffffffffffffff"

  /** The account part of a receiver that may have a 32-character sub-account appended. */
  function PaidAccount(to: string): string {
    if |to| < 66 then to else to[..|to| - 32]
  }

  /** The whole receiver when it names a sub-account, and nothing otherwise. */
  function RecordedReceiver(to: string): string {
    if |to| < 66 || to == PaidAccount(to) + NO_SUB_ADDRESS then "" else to
  }

  lemma NoSubAddressIs()
    ensures |NO_SUB_ADDRESS| == 32 && forall k :: 0 <= k < 32 ==> NO_SUB_ADDRESS[k] == 'f'
  {
  }

  /** A receiver too short to have a sub-account appended is paid itself, and not recorded. */
  lemma PlainReceiver(to: string)
    requires |to| < 66
    ensures PaidAccount(to) == to && RecordedReceiver(to) == ""
  {
  }

  /** An account with a sub-account appended is split where they were joined, and the receiver is
      recorded unless the sub-account is the one that stands for none. */
  lemma SplitJoined(account: string, sub: string)
    requires |account| >= 34 && |sub| == 32
    ensures PaidAccount(account + sub) == account
    ensures RecordedReceiver(account + sub) == if sub == NO_SUB_ADDRESS then "" else account + sub
  {
    var to := account + sub;
    assert to[..|to| - 32] == account && to[|to| - 32..] == sub;
    if sub != NO_SUB_ADDRESS {
      assert (account + NO_SUB_ADDRESS)[|account|..] == NO_SUB_ADDRESS;
    }
  }

  method AccountSplit(original: string) returns (toAccount: string, subAccount: string)
    ensures toAccount == PaidAccount(original) && subAccount == RecordedReceiver(original)
  {
    subAccount := "";
    if |original| < 66 {
      toAccount := original;
      return;
    }
    toAccount := original[..|original| - 32];
    subAccount := original[|original| - 32..];
    assert original == toAccount + subAccount;
    if NO_SUB_ADDRESS == subAccount {
      subAccount := "";
    } else {
      subAccount := original;
    }
  }

  /** The native units that must leave the payer's balances. */
  function Required(amount: int, assetId: int): int {
    if assetId != 0 then FEE else amount + FEE
  }

  /** The operations of a transfer, in order. */
  function TransferOperations(amount: int, assetId: int, from: string, to: string, b: seq<BalanceInfo>)
    : seq<Operation>
  {
    (if assetId != 0 then [Withdraw(BalanceId(from, assetId, 0), amount)] else [])
    + Withdrawals(from, b, Waterfall(b, |b|, Required(amount, assetId)))
    + [Deposit(to, Asset(amount, assetId))]
  }

  /** The arithmetic on `amount` stays within int64, as the C++ code demands. */
  predicate Representable(amount: int, assetId: int) {
    && -0x8000_0000_0000_0000 <= amount < 0x8000_0000_0000_0000
    && (assetId == 0 ==> amount + FEE < 0x8000_0000_0000_0000)
  }

  /** wallet_transfer_to_address: nothing if a check on the typed amount fails. */
  method WalletTransferToAddress(typed: string, assetId: int, from: string, to: string, balances: seq<BalanceInfo>,
                                 platform: Amount.Platform)
    returns (result: Option<SignedTransaction>)
    requires var amount := Amount.AmountOf(typed, platform);
             amount.Some? ==> Representable(amount.value, assetId)
    ensures result.Some? <==> Amount.AmountOf(typed, platform).Some?
    ensures result.Some? ==>
              var trx, amount := result.value, Amount.AmountOf(typed, platform).value;
              && fresh(trx) && trx.operations == TransferOperations(amount, assetId, from, PaidAccount(to), balances)
              && trx.alpAccount == RecordedReceiver(to)
              && trx.alpInportAsset == if trx.alpAccount != "" then Asset(amount, assetId) else Asset(0, 0)
  {
    if !Amount.PrecisionAccepted(typed, platform.overflow) {
      return None;
    }
    var parsed := platform.stod(typed);
    if parsed.None? {
      return None;
    }
    var scaled := platform.round(parsed.value * Amount.PRECISION as real);
    var amount: int64 := platform.round(scaled + 0.5).Floor;
    var trx := BuildTransfer(amount, assetId, from, to, balances);
    return Some(trx);
  }

  /** The part of wallet_transfer_to_address that works on units. */
  method BuildTransfer(amount: int64, assetId: int, from: string, to: string, balances: seq<BalanceInfo>)
    returns (trx: SignedTransaction)
    requires Representable(amount, assetId)
    ensures fresh(trx) && trx.operations == TransferOperations(amount, assetId, from, PaidAccount(to), balances)
    ensures trx.alpAccount == RecordedReceiver(to)
    ensures trx.alpInportAsset == if trx.alpAccount != "" then Asset(amount, assetId) else Asset(0, 0)
  {
    hide Withdrawals, Waterfall;
    var effectiveAddress, subAccount := AccountSplit(to);
    trx := new SignedTransaction();
    if subAccount != "" {
      trx.alpAccount := subAccount;
      trx.alpInportAsset := Asset(amount, assetId);
    }
    var actAmount: int64 := 0;
    if assetId != 0 {
      actAmount := FEE;
      trx.Withdraw(BalanceId(from, assetId, 0), amount);
    } else {
      actAmount := amount + FEE;
    }
    WithdrawFrom(trx, from, balances, actAmount);
    trx.Deposit(effectiveAddress, Asset(amount, assetId));
  }

  /** onGetAddressBalancesFinished: only native balances are handed on, in the server's order. */
  method NativeBalances(reported: seq<BalanceInfo>) returns (v: seq<BalanceInfo>)
    ensures v == OnlyNative(reported)
  {
    hide OnlyNative;
    v := [];
    assert reported[0..] == reported;
    for i := 0 to |reported|
      invariant i <= |reported|
      invariant v + OnlyNative(reported[i..]) == OnlyNative(reported)
    {
      NextNative(v, reported, i);
      if reported[i].assetId == 0 {
        v := v + [reported[i]];
      }
    }
    NoneNative();
    assert reported[|reported|..] == [];
  }

  lemma NextNative(v: seq<BalanceInfo>, reported: seq<BalanceInfo>, i: nat)
    requires i < |reported|
    ensures v + OnlyNative(reported[i..]) ==
            (if reported[i].assetId == 0 then v + [reported[i]] else v) + OnlyNative(reported[i + 1..])
  {
    assert reported[i..][1..] == reported[i + 1..];
  }

  lemma NoneNative()
    ensures OnlyNative([]) == []
  {
  }

  function OnlyNative(reported: seq<BalanceInfo>): (v: seq<BalanceInfo>)
    ensures forall k :: 0 <= k < |v| ==> v[k].assetId == 0 && v[k] in reported
  {
    if reported == [] then []
    else (if reported[0].assetId == 0 then [reported[0]] else []) + OnlyNative(reported[1..])
  }

  /** These laws determine what is handed on: each native entry once, in order, and no other. */
  lemma {:induction false} NativeOfParts(p: seq<BalanceInfo>, q: seq<BalanceInfo>)
    ensures OnlyNative(p + q) == OnlyNative(p) + OnlyNative(q)
  {
    if p == [] {
      assert p + q == q;
    } else {
      assert (p + q)[0] == p[0] && (p + q)[1..] == p[1..] + q;
      NativeOfParts(p[1..], q);
    }
  }

  lemma NativeOfOne(x: BalanceInfo)
    ensures OnlyNative([]) == [] && OnlyNative([x]) == if x.assetId == 0 then [x] else []
  {
    assert [x][1..] == [];
  }
}
