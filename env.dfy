/** The trading environment object of env/BitcoinTradingEnv.py, reduced to
    its portfolio accounting: the fields `reset` initialises and `step` updates
    in place, the price lookup, the reward and the termination test. The
    methods are proved against the value model in ledger.dfy through `State()`:
    the constructor and `Reset` establish `Valid()`, `Step` keeps it, and
    `TakeAction` equals `Execute` (it appends a net worth without moving the
    counter, so the invariant holds again only once `Step` has moved it). */
module TradingEnv {
  import opened Actions
  import opened Portfolio

  class BitcoinTradingEnv {
    /** `df['Close']`, read-only after construction. */
    const closes: seq<real>
    const initialBalance: real
    const commission: real
    const nForecasts: nat

    var balance: real
    var btcHeld: real
    var currentStep: nat
    var netWorths: seq<real>
    var accountHistory: seq<Column>
    var trades: seq<Trade>

    /** What the accounting relies on from the construction inputs: positive
        closes (a buy divides by the price), a non-negative initial balance and
        a commission between 0 and 1. */
    predicate InputsOk() {
      PositivePrices(closes) && initialBalance >= 0.0 && 0.0 <= commission <= 1.0
    }

    /** The ledger held in the fields, as a value. */
    function State(): Ledger
      reads this
    {
      Ledger(balance, btcHeld, currentStep, netWorths, accountHistory, trades)
    }

    ghost predicate Valid()
      reads this
    {
      InputsOk() && Consistent(State(), closes, nForecasts, initialBalance)
    }

    /** `_current_price` (line 78): positive whenever the closes are. */
    function CurrentPrice(): (p: real)
      reads this
      requires currentStep + nForecasts < |closes|
      ensures InputsOk() ==> p > 0.01
    {
      Price(closes, nForecasts, currentStep)
    }

    /** `_reward` as returned (line 134). */
    function Reward(): real
      reads this
      requires |netWorths| >= 2
    {
      Portfolio.Reward(State())
    }

    /** `_done` (lines 139-140), with the horizon test as intended. */
    predicate Done()
      reads this
      requires |netWorths| >= 1
    {
      Portfolio.Done(State(), initialBalance, |closes|, nForecasts)
    }

    /** Construction followed by the `reset` every episode starts with: the
        source leaves the ledger unset until `reset` is called. The defaults
        are the keyword defaults of lines 21 and 33. */
    constructor (closes: seq<real>, initialBalance: real := 10000.0, commission: real := 0.0003,
                 nForecasts: nat := 10)
      requires PositivePrices(closes) && initialBalance >= 0.0 && 0.0 <= commission <= 1.0
      ensures this.closes == closes && this.initialBalance == initialBalance
      ensures this.commission == commission && this.nForecasts == nForecasts
      ensures Valid() && State() == Initial(initialBalance)
    {
      this.closes := closes;
      this.initialBalance := initialBalance;
      this.commission := commission;
      this.nForecasts := nForecasts;
      balance := initialBalance;
      netWorths := [initialBalance];
      btcHeld := 0.0;
      currentStep := 0;
      accountHistory := [Column(initialBalance, 0.0, 0.0, 0.0, 0.0)];
      trades := [];
      new;
      InitialConsistent(closes, nForecasts, initialBalance);
    }

    /** `reset` (lines 142-155) without the observation it returns. The new
        state depends on nothing the old one held, so a second call in a row
        leaves the same state as the first. */
    method Reset()
      requires InputsOk()
      modifies this
      ensures Valid() && State() == Initial(initialBalance)
    {
      balance := initialBalance;
      netWorths := [initialBalance];
      btcHeld := 0.0;
      currentStep := 0;
      accountHistory := [Column(initialBalance, 0.0, 0.0, 0.0, 0.0)];
      trades := [];
      InitialConsistent(closes, nForecasts, initialBalance);
    }

    /** `_take_action` (lines 80-120). The price lookup on line 78 needs the
        index `current_step + n_forecasts` inside the close table. */
    method TakeAction(action: int)
      requires InputsOk()
      requires currentStep + nForecasts < |closes|
      modifies this
      ensures State() == Execute(old(State()), action, Price(closes, nForecasts, old(currentStep)), commission)
    {
      var currentPrice := CurrentPrice();
      var actionType := TypeCode(action);
      var amount := Amount(action);
      assert currentPrice * (1.0 + commission) > 0.0;
      ghost var before := State();
      ghost var intent := Decode(action);
      assert intent == Intent(if actionType == 0 then Buy else if actionType == 1 then Sell else Hold, amount);
      ghost var f := FillOf(intent, balance, btcHeld, currentPrice, commission);

      var btcBought, btcSold, cost, sales := 0.0, 0.0, 0.0, 0.0;

      if actionType == 0 {
        var price := currentPrice * (1.0 + commission);
        btcBought := BuyQuantity(balance, amount, price);
        cost := btcBought * price;
        BuyFillValue(amount, balance, btcHeld, currentPrice, commission, price);
        assert intent == Intent(Buy, amount);
        assert f == Fill(btcBought, cost, btcSold, sales);
        btcHeld := btcHeld + btcBought;
        balance := balance - cost;
      } else if actionType == 1 {
        var price := currentPrice * (1.0 - commission);
        btcSold := btcHeld * amount;
        sales := btcSold * price;
        SellFillValue(amount, balance, btcHeld, currentPrice, commission, price);
        assert intent == Intent(Sell, amount);
        assert f == Fill(btcBought, cost, btcSold, sales);
        btcHeld := btcHeld - btcSold;
        balance := balance + sales;
      } else {
        assert f == Fill(btcBought, cost, btcSold, sales);
      }


      if btcSold > 0.0 || btcBought > 0.0 {
        trades := trades + [Trade(currentStep,
                                  if btcSold > 0.0 then btcSold else btcBought,
                                  if btcSold > 0.0 then sales else cost,
                                  if btcSold > 0.0 then SellTrade else BuyTrade)];
      }

      netWorths := netWorths + [NetWorth(balance, btcHeld, currentPrice)];
      accountHistory := accountHistory + [Column(balance, btcBought, cost, btcSold, sales)];
      ApplySettles(before, intent, currentPrice, commission);
    }

    /** `step` (lines 159-168) without the observation: the action, then the
        step counter, then the reward and the termination test. The ledger stays
        consistent, the reward is the change of the last net worth, and when the
        episode is not done the next step's price is inside the close table. */
    method Step(action: int) returns (reward: real, done: bool)
      requires Valid()
      requires currentStep + nForecasts < |closes|
      modifies this
      ensures Valid()
      ensures State() == Advance(old(State()), Decode(action), Price(closes, nForecasts, old(currentStep)), commission)
      ensures currentStep == old(currentStep) + 1
      ensures |netWorths| == |old(netWorths)| + 1 && netWorths[..|old(netWorths)|] == old(netWorths)
      ensures reward == netWorths[|netWorths| - 1] - old(netWorths[|netWorths| - 1])
      ensures done <==> netWorths[|netWorths| - 1] < initialBalance / 10.0
                        || currentStep >= |closes| - nForecasts - 1
      ensures !done ==> currentStep + nForecasts < |closes|
    {
      ghost var before := State();
      AdvancePreservesConsistent(before, Decode(action), closes, nForecasts, initialBalance, commission);
      ApplyRecords(before, Decode(action), Price(closes, nForecasts, before.currentStep), commission);
      TakeAction(action);
      currentStep := currentStep + 1;
      assert State() == Advance(before, Decode(action), Price(closes, nForecasts, before.currentStep), commission);
      reward := Reward();
      done := Done();
    }
  }

  /** Two resets in a row leave the same ledger. */
  method ResetTwice(env: BitcoinTradingEnv) returns (first: Ledger, second: Ledger)
    requires env.InputsOk()
    modifies env
    ensures first == second == Initial(env.initialBalance)
  {
    env.Reset();
    first := env.State();
    env.Reset();
    second := env.State();
  }
}
