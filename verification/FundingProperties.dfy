/** What the waterfall guarantees: exact cover, no overdraft, order, and what a transfer as a
    whole takes out of the payer's balances. */
module FundingProperties {
  import opened Funding
  import opened Wrappers
  import Amount

  function Total(t: seq<Take>): int {
    if t == [] then 0 else Total(t[..|t| - 1]) + t[|t| - 1].amount
  }

  /** The positive balances suffice, or the last entry of the list is positive and is asked for
      whatever is missing. */
  predicate Covered(b: seq<BalanceInfo>, need: int) {
    b != [] && PosSum(b, |b|) > 0 && (need <= PosSum(b, |b|) || b[|b| - 1].balance > 0)
  }

  /** How much is drawn in all: the need if it is covered, and all there is otherwise. */
  lemma TotalDrawn(b: seq<BalanceInfo>, need: int)
    ensures Total(Waterfall(b, |b|, need)) == if Covered(b, need) then need else PosSum(b, |b|)
  {
    if b != [] && b[|b| - 1].balance > 0 {
      PrefixTotal(b, |b| - 1, need);
      TotalNext(b, |b|, need);
    } else {
      PrefixTotal(b, |b|, need);
    }
  }

  lemma TotalNext(b: seq<BalanceInfo>, n: nat, need: int)
    requires 0 < n <= |b|
    ensures Total(Waterfall(b, n, need)) ==
            Total(Waterfall(b, n - 1, need)) + if Drawn(b, n - 1, need) then Share(b, n - 1, need) else 0
  {
    var t := Waterfall(b, n - 1, need);
    if Drawn(b, n - 1, need) {
      assert (t + [Take(n - 1, Share(b, n - 1, need))])[..|t|] == t;
    } else {
      assert t + [] == t;
    }
  }

  /** Without a positive last entry the total is the need, once the positive balances reach it,
      and else all of them. */
  lemma {:induction false} PrefixTotal(b: seq<BalanceInfo>, n: nat, need: int)
    requires n < |b| || (n == |b| && (n == 0 || b[n - 1].balance <= 0))
    ensures Total(Waterfall(b, n, need)) ==
            if PosSum(b, n) > 0 && need <= PosSum(b, n) then need else PosSum(b, n)
  {
    if n > 0 {
      PrefixTotal(b, n - 1, need);
      TotalNext(b, n, need);
    }
  }

  /** The draws go down the first `n` entries, one per entry, each from a positive balance; every
      one but the last empties its entry. */
  predicate Orderly(b: seq<BalanceInfo>, n: nat, t: seq<Take>)
    requires n <= |b|
  {
    && (forall k :: 0 <= k < |t| ==> t[k].entry < n && b[t[k].entry].balance > 0)
    && (forall j, k :: 0 <= j < k < |t| ==> t[j].entry < t[k].entry)
    && (forall k :: 0 <= k < |t| - 1 ==> t[k].amount == b[t[k].entry].balance)
  }

  lemma {:induction false} DrawsInOrder(b: seq<BalanceInfo>, n: nat, need: int)
    requires n <= |b|
    ensures var t := Waterfall(b, n, need); Orderly(b, n, t) && (t != [] ==> PosSum(b, n) > 0)
  {
    hide Orderly, Waterfall, PosSum;
    if n == 0 {
      NothingTaken("", b, need);
      NoDraws(b);
    } else {
      DrawsInOrder(b, n - 1, need);
      WaterfallNext(b, n - 1, need);
      var t := Waterfall(b, n - 1, need);
      if Drawn(b, n - 1, need) {
        if t != [] {
          LastDrains(b, n - 1, need);
        }
        OneMoreDraw(b, n - 1, t, Take(n - 1, Share(b, n - 1, need)));
      } else {
        assert t + [] == t;
        FewerThan(b, n - 1, t);
      }
    }
  }

  lemma NoDraws(b: seq<BalanceInfo>)
    ensures Orderly(b, 0, [])
  {
  }

  lemma OneMoreDraw(b: seq<BalanceInfo>, n: nat, t: seq<Take>, x: Take)
    requires n < |b| && Orderly(b, n, t) && x.entry == n && b[n].balance > 0
    requires forall k :: 0 <= k < |t| ==> t[k].entry < n
    requires t != [] ==> t[|t| - 1].amount == b[t[|t| - 1].entry].balance
    ensures Orderly(b, n + 1, t + [x])
  {
  }

  lemma FewerThan(b: seq<BalanceInfo>, n: nat, t: seq<Take>)
    requires n < |b| && Orderly(b, n, t)
    ensures Orderly(b, n + 1, t)
  {
  }

  /** As long as more is needed, the entry drawn last has been emptied. */
  lemma {:induction false} LastDrains(b: seq<BalanceInfo>, n: nat, need: int)
    requires n < |b| && Waterfall(b, n, need) != [] && PosSum(b, n) < need
    ensures var t := Waterfall(b, n, need); t[|t| - 1].amount == b[t[|t| - 1].entry].balance
  {
    if !Drawn(b, n - 1, need) {
      LastDrains(b, n - 1, need);
    }
  }

  predicate DrawnOn(t: seq<Take>, i: nat) { exists k :: 0 <= k < |t| && t[k].entry == i }

  /** No positive balance is passed over for a later one. */
  lemma NoneSkipped(b: seq<BalanceInfo>, need: int, i: nat, j: nat)
    requires i < j < |b| && b[i].balance > 0
    ensures var t := Waterfall(b, |b|, need); DrawnOn(t, j) ==> DrawnOn(t, i)
  {
    hide DrawnOn, Waterfall, PosSum;
    DrawnOnIff(b, |b|, need, i);
    DrawnOnIff(b, |b|, need, j);
    PosSumGrows(b, i + 1, j);
    WaterfallNext(b, i, need);
  }

  lemma {:induction false} DrawnOnIff(b: seq<BalanceInfo>, n: nat, need: int, i: nat)
    requires n <= |b| && i < |b|
    ensures DrawnOn(Waterfall(b, n, need), i) <==> i < n && Drawn(b, i, need)
  {
    if n > 0 {
      DrawnOnIff(b, n - 1, need, i);
      var t, u := Waterfall(b, n - 1, need), Waterfall(b, n, need);
      if k :| 0 <= k < |t| && t[k].entry == i {
        assert u[k] == t[k];
      }
      if i == n - 1 && Drawn(b, i, need) {
        assert u[|t|].entry == i;
      }
    }
  }

  lemma {:induction false} PosSumGrows(b: seq<BalanceInfo>, m: nat, n: nat)
    requires m <= n <= |b|
    ensures PosSum(b, m) <= PosSum(b, n)
  {
    if m < n {
      PosSumGrows(b, m, n - 1);
    }
  }

  /** A draw is positive whenever the need is. */
  lemma {:induction false} DrawsPositive(b: seq<BalanceInfo>, n: nat, need: int)
    requires n <= |b| && need > 0
    ensures forall k :: 0 <= k < |Waterfall(b, n, need)| ==> Waterfall(b, n, need)[k].amount > 0
  {
    if n > 0 {
      DrawsPositive(b, n - 1, need);
    }
  }

  ghost predicate NoOverdraft(b: seq<BalanceInfo>, t: seq<Take>)
    requires forall k :: 0 <= k < |t| ==> t[k].entry < |b|
  {
    forall k :: 0 <= k < |t| ==> t[k].amount <= b[t[k].entry].balance
  }

  /** No entry is asked for more than it holds, exactly when the positive balances suffice or
      the last entry is not positive. */
  lemma NoOverdraftIff(b: seq<BalanceInfo>, need: int)
    ensures NoOverdraft(b, Waterfall(b, |b|, need))
            <==> b == [] || b[|b| - 1].balance <= 0 || need <= PosSum(b, |b|)
  {
    if b != [] {
      WithinBalance(b, |b| - 1, need);
      var t := Waterfall(b, |b|, need);
      if b[|b| - 1].balance > 0 && PosSum(b, |b|) < need {
        assert t[|t| - 1] == Take(|b| - 1, need - PosSum(b, |b| - 1));
      }
    }
  }

  /** A single unit is asked for the unit to send and the fee. */
  lemma SingleUnitOverdrawn()
    ensures var b := [BalanceInfo(0, 0, 1)];
            && Waterfall(b, 1, Required(1, 0)) == [Take(0, 1001)]
            && !NoOverdraft(b, Waterfall(b, 1, Required(1, 0)))
  {
    var b := [BalanceInfo(0, 0, 1)];
    assert Waterfall(b, 0, 1001) == [];
    assert Waterfall(b, 1, 1001) == [Take(0, 1001)];
    NoOverdraftIff(b, 1001);
  }

  lemma {:induction false} WithinBalance(b: seq<BalanceInfo>, n: nat, need: int)
    requires n < |b|
    ensures NoOverdraft(b, Waterfall(b, n, need))
  {
    if n > 0 {
      WithinBalance(b, n - 1, need);
    }
  }

  /** A positive need is met in full and within the balances exactly when the positive balances
      reach it. */
  lemma FundedIff(b: seq<BalanceInfo>, need: int)
    requires need > 0
    ensures var t := Waterfall(b, |b|, need);
            Total(t) == need && NoOverdraft(b, t) <==> need <= PosSum(b, |b|)
  {
    TotalDrawn(b, need);
    NoOverdraftIff(b, need);
  }

  // ---------- the whole transaction ----------

  /** Units of an asset the operations withdraw, less the units they deposit. */
  function NetOut(ops: seq<Operation>, assetId: int): int {
    if ops == [] then 0
    else NetOut(ops[..|ops| - 1], assetId) +
         match ops[|ops| - 1]
         case Withdraw(id, amount) => if id.assetId == assetId then amount else 0
         case Deposit(_, asset) => if asset.assetId == assetId then -asset.amount else 0
  }

  lemma {:induction false} NetOutConcat(p: seq<Operation>, q: seq<Operation>, assetId: int)
    ensures NetOut(p + q, assetId) == NetOut(p, assetId) + NetOut(q, assetId)
  {
    if q == [] {
      assert p + q == p;
    } else {
      assert (p + q)[..|p + q| - 1] == p + q[..|q| - 1];
      NetOutConcat(p, q[..|q| - 1], assetId);
    }
  }

  lemma {:induction false} NetOutWithdrawals(owner: string, b: seq<BalanceInfo>, t: seq<Take>, assetId: int)
    requires forall k :: 0 <= k < |b| ==> b[k].assetId == 0
    requires forall k :: 0 <= k < |t| ==> t[k].entry < |b|
    ensures NetOut(Withdrawals(owner, b, t), assetId) == if assetId == 0 then Total(t) else 0
  {
    if t != [] {
      var u := t[..|t| - 1];
      NetOutWithdrawals(owner, b, u, assetId);
      assert Withdrawals(owner, b, t)[..|t| - 1] == Withdrawals(owner, b, u);
    }
  }

  /** The units of each asset that a transfer takes from the payer and gives to nobody. */
  lemma TransferNetOut(amount: int, assetId: int, from: string, to: string, b: seq<BalanceInfo>, asset: int)
    requires forall k :: 0 <= k < |b| ==> b[k].assetId == 0
    ensures var need := Required(amount, assetId);
            NetOut(TransferOperations(amount, assetId, from, to, b), asset) ==
            if asset != 0 then 0
            else (if Covered(b, need) then need else PosSum(b, |b|)) - (if assetId == 0 then amount else 0)
  {
    hide Waterfall, PosSum, Total, Withdrawals;
    var need := Required(amount, assetId);
    var t := Waterfall(b, |b|, need);
    TotalDrawn(b, need);
    NetOutWithdrawals(from, b, t, asset);
    var first := if assetId != 0 then [Withdraw(BalanceId(from, assetId, 0), amount)] else [];
    var middle, last := Withdrawals(from, b, t), [Deposit(to, Asset(amount, assetId))];
    NetOutConcat(first + middle, last, asset);
    NetOutConcat(first, middle, asset);
    NetOutOne(last[0], asset);
    if assetId != 0 {
      NetOutOne(first[0], asset);
    }
  }

  /** The operations one by one: on a transfer of another asset its withdrawal from the payer's slate
      0, then for each draw a withdrawal from the payer that names asset and slate of the entry drawn
      on, and at last the deposit. */
  lemma OperationsAt(amount: int, assetId: int, from: string, to: string, b: seq<BalanceInfo>)
    ensures var ops := TransferOperations(amount, assetId, from, to, b);
            var t := Waterfall(b, |b|, Required(amount, assetId));
            var first := if assetId == 0 then 0 else 1;
            && |ops| == first + |t| + 1
            && (assetId != 0 ==> ops[0] == Withdraw(BalanceId(from, assetId, 0), amount))
            && (forall k :: 0 <= k < |t| ==>
                  var x := b[t[k].entry];
                  ops[first + k] == Withdraw(BalanceId(from, x.assetId, x.slateId), t[k].amount))
            && ops[|ops| - 1] == Deposit(to, Asset(amount, assetId))
  {
    hide Waterfall;
  }

  /** The native units a transfer needs: the fee, and the amount if it is native. */
  lemma NeedIs(amount: int, assetId: int)
    ensures Required(amount, assetId) == 1000 + if assetId == 0 then amount else 0
  {
  }

  lemma NetOutOne(op: Operation, assetId: int)
    ensures NetOut([op], assetId) ==
            match op
            case Withdraw(id, amount) => if id.assetId == assetId then amount else 0
            case Deposit(_, asset) => if asset.assetId == assetId then -asset.amount else 0
  {
    assert [op][..0] == [];
  }

  /** A transfer costs the payer exactly the fee, in the native asset, and nothing in any other,
      exactly when the need is covered (a need of zero with nothing to draw on included). */
  lemma TransferConserves(amount: int, assetId: int, from: string, to: string, b: seq<BalanceInfo>)
    requires forall k :: 0 <= k < |b| ==> b[k].assetId == 0
    ensures var need := Required(amount, assetId);
            (forall asset ::
               NetOut(TransferOperations(amount, assetId, from, to, b), asset) == if asset == 0 then FEE else 0)
            <==> Covered(b, need) || need == PosSum(b, |b|)
  {
    hide PosSum, NetOut, TransferOperations;
    forall asset
      ensures var need := Required(amount, assetId);
              NetOut(TransferOperations(amount, assetId, from, to, b), asset) ==
              if asset != 0 then 0
              else (if Covered(b, need) then need else PosSum(b, |b|)) - (if assetId == 0 then amount else 0)
    {
      TransferNetOut(amount, assetId, from, to, b, asset);
    }
    TransferNetOut(amount, assetId, from, to, b, 0);
  }

  /** From the typed text to the transaction: an amount of at most five decimals arrives in full at
      the receiver's account and costs exactly the fee, once the need is covered. */
  lemma TypedTransfer(typed: string, assetId: int, from: string, to: string, b: seq<BalanceInfo>,
                      platform: Amount.Platform)
    requires Amount.Accurate(platform)
    requires Amount.IsAmount(typed) && 7 * Amount.Units(typed) <= 9007199254740992
    requires forall k :: 0 <= k < |b| ==> b[k].assetId == 0
    ensures var units, amount := Amount.Units(typed), Amount.AmountOf(typed, platform);
            && amount == Some(units) && Representable(units, assetId)
            && var ops := TransferOperations(units, assetId, from, PaidAccount(to), b);
            && ops != [] && ops[|ops| - 1] == Deposit(PaidAccount(to), Asset(units, assetId))
            && (|to| < 66 ==> ops[|ops| - 1] == Deposit(to, Asset(units, assetId)))
            && (Covered(b, Required(units, assetId)) <==>
                forall asset :: NetOut(ops, asset) == if asset == 0 then 1000 else 0)
  {
    hide Waterfall, Withdrawals, NetOut, PosSum, Amount.Units, Amount.AmountOf, PaidAccount;
    Amount.TypedUnits(typed, platform);
    if |to| < 66 {
      PlainReceiver(to);
    }
    var units := Amount.Units(typed);
    TransferConserves(units, assetId, from, PaidAccount(to), b);
    NothingToDrawOn(b, Required(units, assetId));
  }

  /** A positive need is not met by all there is unless it is covered. */
  lemma NothingToDrawOn(b: seq<BalanceInfo>, need: int)
    requires need > 0
    ensures need == PosSum(b, |b|) ==> Covered(b, need)
  {
  }
}
