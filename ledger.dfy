/** The portfolio ledger of the trading environment as a value
    (env/BitcoinTradingEnv.py): what `_take_action` does to it, how `step`
    advances it, what `reset` starts it from, and what `_reward` and `_done`
    read from it. The class in env.dfy holds the same data in fields that its
    methods update; its methods are proved against the functions here, and the
    lemmas here state what the source promises about them. */
module Portfolio {
  import opened Actions

  /** The `'type'` tag of a trade-log entry: "buy" or "sell". */
  datatype TradeSide = BuyTrade | SellTrade

  /** One entry of `self.trades` (lines 107-109). */
  datatype Trade = Trade(step: int, amount: real, total: real, side: TradeSide)

  /** One column of `self.account_history`: the balance after the step, then
      btc_bought, cost, btc_sold and sales (lines 114-120). */
  datatype Column = Column(balance: real, btcBought: real, cost: real, btcSold: real, sales: real)

  /** The four quantities `_take_action` computes for one action (lines 85-104). */
  datatype Fill = Fill(btcBought: real, cost: real, btcSold: real, sales: real)

  /** The state `reset` creates and `step` changes: balance, btc_held,
      current_step, net_worths, account_history (one Column per step, column 0
      being the reset state) and trades. */
  datatype Ledger = Ledger(
    balance: real,
    btcHeld: real,
    currentStep: nat,
    netWorths: seq<real>,
    accountHistory: seq<Column>,
    trades: seq<Trade>)

  predicate PositivePrices(closes: seq<real>) {
    forall i | 0 <= i < |closes| :: closes[i] > 0.0
  }

  /** `_current_price` (line 78): the close `nForecasts` bars ahead of `step`,
      plus 0.01. */
  function Price(closes: seq<real>, nForecasts: nat, step: nat): (p: real)
    requires step + nForecasts < |closes|
    ensures PositivePrices(closes) ==> p > 0.01
  {
    closes[step + nForecasts] + 0.01
  }

  /** Net worth: the balance plus the holdings marked at `price`
      (line 112). */
  function NetWorth(balance: real, held: real, price: real): real {
    balance + held * price
  }

  /** The commission a fill pays, valued at the undiscounted price: the
      fraction `commission` of the traded quantity's worth. */
  function Fee(f: Fill, price: real, commission: real): real {
    commission * price * (f.btcBought + f.btcSold)
  }

  function Min(a: real, b: real): real {
    if a <= b then a else b
  }

  /** The coins a buy gets on lines 92-93: the fraction of the balance, capped
      by what the whole balance buys at the commission-loaded price. */
  function BuyQuantity(balance: real, amount: real, price: real): real
    requires price != 0.0
  {
    Min(balance * amount / price, balance / price)
  }

  /** The trade an intent makes (lines 90-104). A buy pays the price raised by
      the commission and spends the requested fraction of the balance, capped at
      the whole balance; a sell receives the price lowered by the commission for
      the requested fraction of the holdings. */
  function FillOf(intent: Intent, balance: real, btcHeld: real, currentPrice: real, commission: real): (f: Fill)
    requires intent.side == Buy ==> currentPrice * (1.0 + commission) != 0.0
    ensures f.btcBought == 0.0 || f.btcSold == 0.0
    ensures intent.side != Buy ==> f.btcBought == 0.0 && f.cost == 0.0
    ensures intent.side != Sell ==> f.btcSold == 0.0 && f.sales == 0.0
  {
    match intent.side
    case Buy =>
      var price := currentPrice * (1.0 + commission);
      var bought := BuyQuantity(balance, intent.amount, price);
      Fill(bought, bought * price, 0.0, 0.0)
    case Sell =>
      var price := currentPrice * (1.0 - commission);
      var sold := btcHeld * intent.amount;
      Fill(0.0, 0.0, sold, sold * price)
    case Hold =>
      Fill(0.0, 0.0, 0.0, 0.0)
  }

  /** The trade-log entries one fill adds (lines 106-109): none when nothing
      was bought or sold. */
  function LogEntry(step: int, f: Fill): seq<Trade> {
    if f.btcSold > 0.0 || f.btcBought > 0.0 then
      [Trade(step,
             if f.btcSold > 0.0 then f.btcSold else f.btcBought,
             if f.btcSold > 0.0 then f.sales else f.cost,
             if f.btcSold > 0.0 then SellTrade else BuyTrade)]
    else
      []
  }

  /** The buy branch of `FillOf`, spelled out for the price `price` that
      carries the commission. */
  lemma BuyFillValue(amount: real, balance: real, btcHeld: real, currentPrice: real, commission: real, price: real)
    requires price == currentPrice * (1.0 + commission) && price != 0.0
    ensures FillOf(Intent(Buy, amount), balance, btcHeld, currentPrice, commission)
            == Fill(BuyQuantity(balance, amount, price), BuyQuantity(balance, amount, price) * price, 0.0, 0.0)
  {
  }

  /** The sell branch of `FillOf`, spelled out for the price `price` net of
      the commission. */
  lemma SellFillValue(amount: real, balance: real, btcHeld: real, currentPrice: real, commission: real, price: real)
    requires price == currentPrice * (1.0 - commission)
    ensures FillOf(Intent(Sell, amount), balance, btcHeld, currentPrice, commission)
            == Fill(0.0, 0.0, btcHeld * amount, btcHeld * amount * price)
  {
  }

  /** A buy needs a non-zero commission-adjusted price to divide by. */
  predicate CanFill(intent: Intent, currentPrice: real, commission: real) {
    intent.side == Buy ==> currentPrice * (1.0 + commission) != 0.0
  }

  /** The bookkeeping that ends every action (lines 106-120), once the
      balance and the holdings have been settled: the fill's trade-log entry if
      any, one net worth marked at the current price and one account-history
      column are appended. */
  function Record(l: Ledger, balance: real, held: real, f: Fill, currentPrice: real): Ledger {
    l.(balance := balance,
       btcHeld := held,
       netWorths := l.netWorths + [NetWorth(balance, held, currentPrice)],
       accountHistory := l.accountHistory + [Column(balance, f.btcBought, f.cost, f.btcSold, f.sales)],
       trades := l.trades + LogEntry(l.currentStep, f))
  }

  /** The ledger update of `_take_action` for a decoded intent (lines 85-120):
      a buy moves the cost from the balance into holdings, a sell the sold
      quantity from holdings into the balance, then the step is recorded. */
  function Apply(l: Ledger, intent: Intent, currentPrice: real, commission: real): Ledger
    requires CanFill(intent, currentPrice, commission)
  {
    var f := FillOf(intent, l.balance, l.btcHeld, currentPrice, commission);
    match intent.side
    case Buy => Record(l, l.balance - f.cost, l.btcHeld + f.btcBought, f, currentPrice)
    case Sell => Record(l, l.balance + f.sales, l.btcHeld - f.btcSold, f, currentPrice)
    case Hold => Record(l, l.balance, l.btcHeld, f, currentPrice)
  }

  /** `_take_action(action)` (lines 80-120) at the price `currentPrice`. */
  function Execute(l: Ledger, action: int, currentPrice: real, commission: real): Ledger
    requires CanFill(Decode(action), currentPrice, commission)
  {
    Apply(l, Decode(action), currentPrice, commission)
  }

  /** The ledger part of `step` (lines 159-162): the action, then the step
      counter moves on by one. */
  function Advance(l: Ledger, intent: Intent, currentPrice: real, commission: real): Ledger
    requires CanFill(intent, currentPrice, commission)
  {
    Apply(l, intent, currentPrice, commission).(currentStep := l.currentStep + 1)
  }

  /** The ledger `reset` builds (lines 143-155). */
  function Initial(initialBalance: real): Ledger {
    Ledger(initialBalance, 0.0, 0, [initialBalance],
           [Column(initialBalance, 0.0, 0.0, 0.0, 0.0)], [])
  }

  /** `_reward` as returned (line 134): the last net-worth delta. */
  function Reward(l: Ledger): real
    requires |l.netWorths| >= 2
  {
    l.netWorths[|l.netWorths| - 1] - l.netWorths[|l.netWorths| - 2]
  }

  /** `_done` as written (lines 139-140): a stop-loss below a tenth of the
      initial balance, or the step counter EQUAL to the last usable step. */
  predicate DoneAsWritten(l: Ledger, initialBalance: real, rows: int, nForecasts: nat)
    requires |l.netWorths| >= 1
  {
    l.netWorths[|l.netWorths| - 1] < initialBalance / 10.0
    || l.currentStep == rows - nForecasts - 1
  }

  /** `_done` with the horizon test as intended: the step counter has REACHED
      the last usable step. This is the test the model uses. */
  predicate Done(l: Ledger, initialBalance: real, rows: int, nForecasts: nat)
    requires |l.netWorths| >= 1
  {
    l.netWorths[|l.netWorths| - 1] < initialBalance / 10.0
    || l.currentStep >= rows - nForecasts - 1
  }

  // ---------------------------------------------------------------------------
  // Reference definitions of what the histories must hold

  /** Net bitcoin bought over a run of account-history columns. */
  function NetBought(h: seq<Column>): real {
    if h == [] then 0.0
    else NetBought(h[..|h| - 1]) + h[|h| - 1].btcBought - h[|h| - 1].btcSold
  }

  /** The trade log that an account history implies: column k (k >= 1) is the
      action taken at step k - 1. */
  function TradeLog(h: seq<Column>): seq<Trade> {
    if |h| <= 1 then []
    else
      var c := h[|h| - 1];
      TradeLog(h[..|h| - 1]) + LogEntry(|h| - 2, Fill(c.btcBought, c.cost, c.btcSold, c.sales))
  }

  /** What holds of the ledger between two calls of `step`: one history entry
      per step taken plus the reset entry, no negative balance or holdings, every
      balance in the account history obtained from the previous one by the
      recorded cost and sales, the holdings equal to the net bitcoin bought,
      every recorded net worth equal to balance plus holdings at that step's
      price, and the trade log equal to the one the account history implies. */
  ghost predicate Consistent(l: Ledger, closes: seq<real>, nForecasts: nat, initialBalance: real) {
    && |l.netWorths| == l.currentStep + 1
    && |l.accountHistory| == l.currentStep + 1
    && (l.currentStep == 0 || l.currentStep - 1 + nForecasts < |closes|)
    && l.balance >= 0.0
    && l.btcHeld >= 0.0
    && l.netWorths[0] == initialBalance
    && l.accountHistory[0] == Column(initialBalance, 0.0, 0.0, 0.0, 0.0)
    && l.accountHistory[l.currentStep].balance == l.balance
    && (forall k | 1 <= k < |l.accountHistory| ::
          l.accountHistory[k].balance
          == l.accountHistory[k - 1].balance - l.accountHistory[k].cost + l.accountHistory[k].sales)
    && l.btcHeld == NetBought(l.accountHistory)
    && (forall k | 1 <= k < |l.netWorths| && k - 1 + nForecasts < |closes| ::
          l.netWorths[k]
          == NetWorth(l.accountHistory[k].balance, NetBought(l.accountHistory[..k + 1]), Price(closes, nForecasts, k - 1)))
    && l.trades == TradeLog(l.accountHistory)
  }

  // ---------------------------------------------------------------------------
  // One action

  lemma DivideBelow(x: real, y: real, p: real)
    requires x <= y && p > 0.0
    ensures x / p <= y / p
  {
    assert y / p - x / p == (y - x) / p;
  }

  lemma DivMul(x: real, p: real)
    requires p != 0.0
    ensures x / p * p == x
  {
  }

  /** A buy spends exactly the requested fraction of the balance: the `min` on
      line 92 never binds, so the cost never exceeds the balance. */
  lemma BuyCostsTheFraction(amount: real, balance: real, btcHeld: real, currentPrice: real, commission: real)
    requires 0.0 < amount <= 1.0 && balance >= 0.0
    requires currentPrice > 0.0 && commission >= 0.0
    ensures var f := FillOf(Intent(Buy, amount), balance, btcHeld, currentPrice, commission);
            && f.btcBought >= 0.0
            && f.cost == balance * amount
            && 0.0 <= f.cost <= balance
  {
    var price := currentPrice * (1.0 + commission);
    assert price > 0.0;
    BuyFillValue(amount, balance, btcHeld, currentPrice, commission, price);
    var a := balance * amount / price;
    assert balance * amount <= balance;
    DivideBelow(balance * amount, balance, price);
    assert BuyQuantity(balance, amount, price) == a;
    DivMul(balance * amount, price);
  }

  /** A sell never sells more than is held, and its proceeds are the sold
      quantity at the price lowered by the commission. */
  lemma SellStaysWithinHoldings(amount: real, balance: real, btcHeld: real, currentPrice: real, commission: real)
    requires 0.0 < amount <= 1.0 && btcHeld >= 0.0
    requires currentPrice > 0.0 && 0.0 <= commission <= 1.0
    ensures var f := FillOf(Intent(Sell, amount), balance, btcHeld, currentPrice, commission);
            && 0.0 <= f.btcSold <= btcHeld
            && f.sales >= 0.0
  {
    var price := currentPrice * (1.0 - commission);
    assert price >= 0.0;
    SellFillValue(amount, balance, btcHeld, currentPrice, commission, price);
    assert btcHeld * amount <= btcHeld * 1.0;
    assert btcHeld * amount * price >= 0.0;
  }

  /** No trade spends more than the balance or sells more than the holdings. */
  lemma FillBounds(intent: Intent, balance: real, btcHeld: real, currentPrice: real, commission: real)
    requires 0.0 < intent.amount <= 1.0
    requires balance >= 0.0 && btcHeld >= 0.0
    requires currentPrice > 0.0 && 0.0 <= commission <= 1.0
    ensures var f := FillOf(intent, balance, btcHeld, currentPrice, commission);
            && 0.0 <= f.btcBought && 0.0 <= f.cost <= balance
            && 0.0 <= f.btcSold <= btcHeld && 0.0 <= f.sales
  {
    match intent.side
    case Buy =>
      assert intent == Intent(Buy, intent.amount);
      BuyCostsTheFraction(intent.amount, balance, btcHeld, currentPrice, commission);
    case Sell =>
      assert intent == Intent(Sell, intent.amount);
      SellStaysWithinHoldings(intent.amount, balance, btcHeld, currentPrice, commission);
    case Hold =>
  }

  /** No action drives the balance or the holdings below zero; a buy only
      moves balance into holdings and a sell only holdings into balance. */
  lemma ApplyKeepsLedgerNonNegative(l: Ledger, intent: Intent, currentPrice: real, commission: real)
    requires 0.0 < intent.amount <= 1.0
    requires l.balance >= 0.0 && l.btcHeld >= 0.0
    requires currentPrice > 0.0 && 0.0 <= commission <= 1.0
    ensures CanFill(intent, currentPrice, commission)
    ensures var r := Apply(l, intent, currentPrice, commission);
            && r.balance >= 0.0 && r.btcHeld >= 0.0
            && (intent.side == Buy ==> r.balance <= l.balance && r.btcHeld >= l.btcHeld)
            && (intent.side == Sell ==> r.balance >= l.balance && r.btcHeld <= l.btcHeld)
  {
    assert currentPrice * (1.0 + commission) > 0.0;
    FillBounds(intent, l.balance, l.btcHeld, currentPrice, commission);
  }

  /** A hold changes neither the balance, the holdings nor the trade log, yet
      still records a net worth and an account-history column with the
      unchanged balance and zero trade amounts. */
  lemma HoldChangesNothing(l: Ledger, intent: Intent, currentPrice: real, commission: real)
    requires intent.side == Hold
    ensures CanFill(intent, currentPrice, commission)
    ensures var r := Apply(l, intent, currentPrice, commission);
            && r.balance == l.balance && r.btcHeld == l.btcHeld && r.trades == l.trades
            && r.netWorths == l.netWorths + [NetWorth(l.balance, l.btcHeld, currentPrice)]
            && r.accountHistory == l.accountHistory + [Column(l.balance, 0.0, 0.0, 0.0, 0.0)]
  {
    var f := FillOf(intent, l.balance, l.btcHeld, currentPrice, commission);
    assert f == Fill(0.0, 0.0, 0.0, 0.0);
    assert Apply(l, intent, currentPrice, commission) == Record(l, l.balance, l.btcHeld, f, currentPrice);
  }

  /** What the shared bookkeeping records for any settled balance, holdings
      and fill. */
  lemma RecordAppends(l: Ledger, balance: real, held: real, f: Fill, currentPrice: real)
    requires f.btcBought == 0.0 || f.btcSold == 0.0
    ensures var r := Record(l, balance, held, f, currentPrice);
            && r.currentStep == l.currentStep
            && |r.netWorths| == |l.netWorths| + 1
            && r.netWorths[..|l.netWorths|] == l.netWorths
            && r.netWorths[|l.netWorths|] == NetWorth(balance, held, currentPrice)
            && r.accountHistory == l.accountHistory + [Column(balance, f.btcBought, f.cost, f.btcSold, f.sales)]
            && r.trades[..|l.trades|] == l.trades
            && (|r.trades| == |l.trades| + 1 <==> f.btcSold > 0.0 || f.btcBought > 0.0)
            && (|r.trades| == |l.trades| <==> !(f.btcSold > 0.0 || f.btcBought > 0.0))
            && (|r.trades| > |l.trades| ==>
                  var t := r.trades[|l.trades|];
                  && t.step == l.currentStep
                  && (t.side == SellTrade <==> f.btcSold > 0.0)
                  && (t.side == SellTrade ==> t.amount == f.btcSold && t.total == f.sales)
                  && (t.side == BuyTrade ==> t.amount == f.btcBought && t.total == f.cost))
  {
    var r := Record(l, balance, held, f, currentPrice);
    assert r.netWorths[..|l.netWorths|] == l.netWorths;
    assert r.trades[..|l.trades|] == l.trades;
  }

  /** Every action appends exactly one net worth (the updated balance plus the
      updated holdings at the current price) and one account-history column,
      leaves the earlier entries alone, and logs a trade exactly when something
      was bought or sold: tagged "sell" when something was sold, stamped with
      the step the action was taken at. */
  lemma ApplyRecords(l: Ledger, intent: Intent, currentPrice: real, commission: real)
    requires CanFill(intent, currentPrice, commission)
    ensures var r := Apply(l, intent, currentPrice, commission);
            var f := FillOf(intent, l.balance, l.btcHeld, currentPrice, commission);
            && r.currentStep == l.currentStep
            && |r.netWorths| == |l.netWorths| + 1
            && r.netWorths[..|l.netWorths|] == l.netWorths
            && r.netWorths[|l.netWorths|] == NetWorth(r.balance, r.btcHeld, currentPrice)
            && r.accountHistory == l.accountHistory + [Column(r.balance, f.btcBought, f.cost, f.btcSold, f.sales)]
            && r.trades[..|l.trades|] == l.trades
            && (|r.trades| == |l.trades| + 1 <==> f.btcSold > 0.0 || f.btcBought > 0.0)
            && (|r.trades| == |l.trades| <==> !(f.btcSold > 0.0 || f.btcBought > 0.0))
            && (|r.trades| > |l.trades| ==>
                  var t := r.trades[|l.trades|];
                  && t.step == l.currentStep
                  && (t.side == SellTrade <==> f.btcSold > 0.0)
                  && (t.side == SellTrade ==> t.amount == f.btcSold && t.total == f.sales)
                  && (t.side == BuyTrade ==> t.amount == f.btcBought && t.total == f.cost))
  {
    var f := FillOf(intent, l.balance, l.btcHeld, currentPrice, commission);
    match intent.side
    case Buy => RecordAppends(l, l.balance - f.cost, l.btcHeld + f.btcBought, f, currentPrice);
    case Sell => RecordAppends(l, l.balance + f.sales, l.btcHeld - f.btcSold, f, currentPrice);
    case Hold => RecordAppends(l, l.balance, l.btcHeld, f, currentPrice);
  }

  /** Whatever the side, a fill pays the price raised by the commission for
      what it buys and receives the price lowered by the commission for what it
      sells. */
  lemma FillPrices(intent: Intent, balance: real, btcHeld: real, currentPrice: real, commission: real)
    requires CanFill(intent, currentPrice, commission)
    ensures var f := FillOf(intent, balance, btcHeld, currentPrice, commission);
            && f.cost == f.btcBought * (currentPrice * (1.0 + commission))
            && f.sales == f.btcSold * (currentPrice * (1.0 - commission))
  {
  }

  lemma SettleArithmetic(l: Ledger, r: Ledger, f: Fill, price: real, commission: real)
    requires f.cost == f.btcBought * (price * (1.0 + commission))
    requires f.sales == f.btcSold * (price * (1.0 - commission))
    requires r.balance == l.balance - f.cost + f.sales
    requires r.btcHeld == l.btcHeld + f.btcBought - f.btcSold
    ensures NetWorth(r.balance, r.btcHeld, price) == NetWorth(l.balance, l.btcHeld, price) - Fee(f, price, commission)
  {
  }

  /** Trading never creates value: marked at the current price, the net worth
      after an action is the net worth before it less the commission on the
      traded quantity. With no commission every action preserves net worth. */
  lemma CommissionIsTheOnlyCost(l: Ledger, intent: Intent, currentPrice: real, commission: real)
    requires CanFill(intent, currentPrice, commission)
    ensures var r := Apply(l, intent, currentPrice, commission);
            var f := FillOf(intent, l.balance, l.btcHeld, currentPrice, commission);
            NetWorth(r.balance, r.btcHeld, currentPrice)
            == NetWorth(l.balance, l.btcHeld, currentPrice) - Fee(f, currentPrice, commission)
  {
    var f := FillOf(intent, l.balance, l.btcHeld, currentPrice, commission);
    ApplySettles(l, intent, currentPrice, commission);
    FillPrices(intent, l.balance, l.btcHeld, currentPrice, commission);
    SettleArithmetic(l, Apply(l, intent, currentPrice, commission), f, currentPrice, commission);
  }

  /** A full buy from the reset state at price 100 without commission spends
      the whole balance of 10000 on 100 coins and logs one "buy" at step 0. */
  lemma FullBuyExample()
    ensures var r := Apply(Initial(10000.0), Decode(0), 100.0, 0.0);
            && r.balance == 0.0 && r.btcHeld == 100.0
            && r.trades == [Trade(0, 100.0, 10000.0, BuyTrade)]
  {
    BuyCostsTheFraction(1.0, 10000.0, 0.0, 100.0, 0.0);
    FillPrices(Decode(0), 10000.0, 0.0, 100.0, 0.0);
    ApplySettles(Initial(10000.0), Decode(0), 100.0, 0.0);
  }

  /** A full sell of 100 coins at price 100 without commission, from a zero
      balance, turns them back into a balance of 10000 and logs one "sell". */
  lemma FullSellExample(l: Ledger)
    requires l.balance == 0.0 && l.btcHeld == 100.0
    ensures var r := Apply(l, Decode(4), 100.0, 0.0);
            && r.balance == 10000.0 && r.btcHeld == 0.0
            && r.trades == l.trades + [Trade(l.currentStep, 100.0, 10000.0, SellTrade)]
  {
    ApplySettles(l, Decode(4), 100.0, 0.0);
  }

  // ---------------------------------------------------------------------------
  // The history invariant

  lemma NetBoughtAppend(h: seq<Column>, c: Column)
    ensures NetBought(h + [c]) == NetBought(h) + c.btcBought - c.btcSold
  {
    assert (h + [c])[..|h|] == h;
  }

  lemma {:induction false} TradeLogAppend(h: seq<Column>, c: Column)
    requires |h| >= 1
    ensures TradeLog(h + [c]) == TradeLog(h) + LogEntry(|h| - 1, Fill(c.btcBought, c.cost, c.btcSold, c.sales))
  {
    assert (h + [c])[..|h|] == h;
  }

  /** `reset` produces a consistent ledger. */
  lemma InitialConsistent(closes: seq<real>, nForecasts: nat, initialBalance: real)
    requires initialBalance >= 0.0
    ensures Consistent(Initial(initialBalance), closes, nForecasts, initialBalance)
  {
    var h := Initial(initialBalance).accountHistory;
    assert h[..0] == [];
  }

  /** Whatever the side, an action moves the balance by the sales less the
      cost and the holdings by the bitcoin bought less the bitcoin sold, and
      records exactly that. */
  lemma ApplySettles(l: Ledger, intent: Intent, currentPrice: real, commission: real)
    requires CanFill(intent, currentPrice, commission)
    ensures var r := Apply(l, intent, currentPrice, commission);
            var f := FillOf(intent, l.balance, l.btcHeld, currentPrice, commission);
            && r.balance == l.balance - f.cost + f.sales
            && r.btcHeld == l.btcHeld + f.btcBought - f.btcSold
            && r.currentStep == l.currentStep
            && r.netWorths == l.netWorths + [NetWorth(r.balance, r.btcHeld, currentPrice)]
            && r.accountHistory == l.accountHistory + [Column(r.balance, f.btcBought, f.cost, f.btcSold, f.sales)]
            && r.trades == l.trades + LogEntry(l.currentStep, f)
  {
    var f := FillOf(intent, l.balance, l.btcHeld, currentPrice, commission);
    match intent.side
    case Buy =>
      assert Apply(l, intent, currentPrice, commission)
             == Record(l, l.balance - f.cost, l.btcHeld + f.btcBought, f, currentPrice);
    case Sell =>
      assert Apply(l, intent, currentPrice, commission)
             == Record(l, l.balance + f.sales, l.btcHeld - f.btcSold, f, currentPrice);
    case Hold =>
      assert Apply(l, intent, currentPrice, commission)
             == Record(l, l.balance, l.btcHeld, f, currentPrice);
  }

  /** The history invariant survives one recorded action followed by the step
      increment, stated over the recorded quantities alone. */
  lemma RecordedStepConsistent(l: Ledger, r: Ledger, f: Fill, closes: seq<real>, nForecasts: nat,
                               initialBalance: real)
    requires Consistent(l, closes, nForecasts, initialBalance)
    requires l.currentStep + nForecasts < |closes|
    requires r.balance >= 0.0 && r.btcHeld >= 0.0
    requires r.balance == l.balance - f.cost + f.sales
    requires r.btcHeld == l.btcHeld + f.btcBought - f.btcSold
    requires r.currentStep == l.currentStep + 1
    requires r.netWorths == l.netWorths + [NetWorth(r.balance, r.btcHeld, Price(closes, nForecasts, l.currentStep))]
    requires r.accountHistory == l.accountHistory + [Column(r.balance, f.btcBought, f.cost, f.btcSold, f.sales)]
    requires r.trades == l.trades + LogEntry(l.currentStep, f)
    ensures Consistent(r, closes, nForecasts, initialBalance)
  {
    var c := Column(r.balance, f.btcBought, f.cost, f.btcSold, f.sales);
    var h := l.accountHistory;
    NetBoughtAppend(h, c);
    TradeLogAppend(h, c);
    forall k | 1 <= k < |r.accountHistory|
      ensures r.accountHistory[k].balance
              == r.accountHistory[k - 1].balance - r.accountHistory[k].cost + r.accountHistory[k].sales
    {
      if k == |h| {
        assert r.accountHistory[k - 1] == h[l.currentStep];
      } else {
        assert r.accountHistory[k] == h[k] && r.accountHistory[k - 1] == h[k - 1];
      }
    }
    forall k | 1 <= k < |r.netWorths| && k - 1 + nForecasts < |closes|
      ensures r.netWorths[k]
              == NetWorth(r.accountHistory[k].balance, NetBought(r.accountHistory[..k + 1]), Price(closes, nForecasts, k - 1))
    {
      if k == |h| {
        assert r.accountHistory[..k + 1] == r.accountHistory;
      } else {
        assert r.accountHistory[..k + 1] == h[..k + 1];
        assert r.netWorths[k] == l.netWorths[k];
        assert r.accountHistory[k] == h[k];
      }
    }
  }

  /** Every `step` keeps the ledger consistent, for any action, as long as the
      price it reads is in the close table. */
  lemma AdvancePreservesConsistent(l: Ledger, intent: Intent, closes: seq<real>, nForecasts: nat,
                                   initialBalance: real, commission: real)
    requires Consistent(l, closes, nForecasts, initialBalance)
    requires 0.0 < intent.amount <= 1.0
    requires PositivePrices(closes) && 0.0 <= commission <= 1.0
    requires l.currentStep + nForecasts < |closes|
    ensures CanFill(intent, Price(closes, nForecasts, l.currentStep), commission)
    ensures Consistent(Advance(l, intent, Price(closes, nForecasts, l.currentStep), commission),
                       closes, nForecasts, initialBalance)
  {
    var p := Price(closes, nForecasts, l.currentStep);
    ApplyKeepsLedgerNonNegative(l, intent, p, commission);
    ApplySettles(l, intent, p, commission);
    var f := FillOf(intent, l.balance, l.btcHeld, p, commission);
    RecordedStepConsistent(l, Advance(l, intent, p, commission), f, closes, nForecasts, initialBalance);
  }

  /** The trade log is in step order, and every entry was made at a step
      already taken. */
  lemma {:induction false} TradeLogChronological(h: seq<Column>)
    ensures forall i | 0 <= i < |TradeLog(h)| :: 0 <= TradeLog(h)[i].step < |h| - 1
    ensures forall i, j | 0 <= i < j < |TradeLog(h)| :: TradeLog(h)[i].step < TradeLog(h)[j].step
  {
    if |h| > 1 {
      TradeLogChronological(h[..|h| - 1]);
    }
  }

  /** The trade log of a consistent ledger is strictly ordered by step, and
      every entry was made at a step already taken. */
  lemma TradesChronological(l: Ledger, closes: seq<real>, nForecasts: nat, initialBalance: real)
    requires Consistent(l, closes, nForecasts, initialBalance)
    ensures forall i | 0 <= i < |l.trades| :: 0 <= l.trades[i].step < l.currentStep
    ensures forall i, j | 0 <= i < j < |l.trades| :: l.trades[i].step < l.trades[j].step
  {
    TradeLogChronological(l.accountHistory);
  }

  // ---------------------------------------------------------------------------
  // Reward and termination

  /** The last recorded net worth is the current balance plus holdings marked
      at the price of the last step taken; after `reset` nothing is held, so
      any price will do. */
  lemma LastNetWorth(l: Ledger, closes: seq<real>, nForecasts: nat, initialBalance: real, anyPrice: real)
    requires Consistent(l, closes, nForecasts, initialBalance)
    ensures l.netWorths[l.currentStep]
            == NetWorth(l.balance, l.btcHeld,
                        if l.currentStep == 0 then anyPrice else Price(closes, nForecasts, l.currentStep - 1))
  {
    var n := l.currentStep;
    if n == 0 {
      assert l.accountHistory == [Column(initialBalance, 0.0, 0.0, 0.0, 0.0)];
      assert l.accountHistory[..0] == [];
      assert NetBought(l.accountHistory) == NetBought(l.accountHistory[..0]) + 0.0 - 0.0;
    } else {
      assert l.accountHistory[..n + 1] == l.accountHistory;
    }
  }

  lemma MarkDifference(balance: real, held: real, price: real, previous: real)
    ensures NetWorth(balance, held, price) - NetWorth(balance, held, previous) == held * (price - previous)
  {
  }

  /** A step appends the net worth before it, marked at the current price,
      less the commission on its trade. */
  lemma AdvanceAppendsNetWorth(l: Ledger, intent: Intent, currentPrice: real, commission: real)
    requires CanFill(intent, currentPrice, commission)
    ensures var f := FillOf(intent, l.balance, l.btcHeld, currentPrice, commission);
            Advance(l, intent, currentPrice, commission).netWorths
            == l.netWorths + [NetWorth(l.balance, l.btcHeld, currentPrice)
                              - Fee(f, currentPrice, commission)]
  {
    ApplySettles(l, intent, currentPrice, commission);
    CommissionIsTheOnlyCost(l, intent, currentPrice, commission);
  }

  /** The reward of a step that appended the net worth `after`, in terms of
      the ledger before it and the commission paid. */
  lemma RewardOfRecorded(l: Ledger, r: Ledger, after: real, closes: seq<real>, nForecasts: nat,
                         initialBalance: real, price: real, previous: real, fee: real)
    requires Consistent(l, closes, nForecasts, initialBalance)
    requires l.currentStep > 0 ==> previous == Price(closes, nForecasts, l.currentStep - 1)
    requires r.netWorths == l.netWorths + [after]
    requires after == NetWorth(l.balance, l.btcHeld, price) - fee
    ensures |r.netWorths| >= 2
    ensures Reward(r) == l.btcHeld * (price - previous) - fee
  {
    LastNetWorth(l, closes, nForecasts, initialBalance, previous);
    MarkDifference(l.balance, l.btcHeld, price, previous);
  }

  /** The reward of a step is the market move on the holdings carried into it
      (zero on the first step, when nothing is held) less the commission paid
      on the step's trade. */
  lemma RewardDecomposition(l: Ledger, intent: Intent, closes: seq<real>, nForecasts: nat,
                            initialBalance: real, commission: real)
    requires Consistent(l, closes, nForecasts, initialBalance)
    requires l.currentStep + nForecasts < |closes|
    requires CanFill(intent, Price(closes, nForecasts, l.currentStep), commission)
    ensures var p := Price(closes, nForecasts, l.currentStep);
            var previous := if l.currentStep == 0 then p else Price(closes, nForecasts, l.currentStep - 1);
            var f := FillOf(intent, l.balance, l.btcHeld, p, commission);
            && |Advance(l, intent, p, commission).netWorths| >= 2
            && Reward(Advance(l, intent, p, commission))
               == l.btcHeld * (p - previous) - Fee(f, p, commission)
  {
    var p := Price(closes, nForecasts, l.currentStep);
    var previous := if l.currentStep == 0 then p else Price(closes, nForecasts, l.currentStep - 1);
    var f := FillOf(intent, l.balance, l.btcHeld, p, commission);
    var fee := Fee(f, p, commission);
    AdvanceAppendsNetWorth(l, intent, p, commission);
    RewardOfRecorded(l, Advance(l, intent, p, commission), NetWorth(l.balance, l.btcHeld, p) - fee,
                     closes, nForecasts, initialBalance, p, previous, fee);
  }

  /** While the episode is not done, the price the next step reads lies inside
      the close table. */
  lemma NotDoneKeepsNextPriceInBounds(l: Ledger, initialBalance: real, closes: seq<real>, nForecasts: nat)
    requires |l.netWorths| >= 1
    requires !Done(l, initialBalance, |closes|, nForecasts)
    ensures l.currentStep + nForecasts < |closes| - 1
  {
  }

  /** The intended horizon test agrees with the one written on line 140 at
      every step up to the last usable one, which is every step an episode
      reaches when the table leaves at least one step after the reset. */
  lemma DoneAgreesWithSource(l: Ledger, initialBalance: real, rows: int, nForecasts: nat)
    requires |l.netWorths| >= 1
    requires l.currentStep <= rows - nForecasts - 1
    ensures Done(l, initialBalance, rows, nForecasts) == DoneAsWritten(l, initialBalance, rows, nForecasts)
  {
  }

  /** A step started while not done leaves the counter at most at the last
      usable step, so the written test and the intended one agree along an
      episode whose first step starts below the horizon. */
  lemma AdvanceStaysWithinHorizon(l: Ledger, intent: Intent, currentPrice: real, commission: real,
                                  initialBalance: real, rows: int, nForecasts: nat)
    requires |l.netWorths| >= 1
    requires CanFill(intent, currentPrice, commission)
    requires !Done(l, initialBalance, rows, nForecasts)
    ensures Advance(l, intent, currentPrice, commission).currentStep <= rows - nForecasts - 1
  {
  }

  /** The source's `==` horizon test misses when the table has exactly
      `nForecasts + 1` rows: one hold after `reset` leaves the counter at 1, past
      the horizon 0, `_done` still answers false, and the next step would read
      the close at index `1 + nForecasts`, outside the table. */
  lemma HorizonSkippedAsWritten(closes: seq<real>, nForecasts: nat, initialBalance: real, commission: real)
    requires |closes| == nForecasts + 1 && PositivePrices(closes)
    requires initialBalance >= 0.0 && 0.0 <= commission <= 1.0
    ensures var l := Advance(Initial(initialBalance), Decode(8), Price(closes, nForecasts, 0), commission);
            && !DoneAsWritten(l, initialBalance, |closes|, nForecasts)
            && l.currentStep + nForecasts >= |closes|
            && Done(l, initialBalance, |closes|, nForecasts)
  {
    HoldChangesNothing(Initial(initialBalance), Decode(8), Price(closes, nForecasts, 0), commission);
  }
}
