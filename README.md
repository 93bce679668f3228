# Bitcoin trading environment: the portfolio ledger

This project models the portfolio accounting of the reinforcement-learning
trading environment `BitcoinTradingEnv` in `env/BitcoinTradingEnv.py`. An
agent picks one of twelve discrete action codes at each step. The environment
decodes the code into a buy, a sell or a hold of a fraction of the balance or
of the holdings. It settles the trade at the close price `n_forecasts` bars
ahead plus 0.01, with the commission added to the price of a buy and taken
from the price of a sell. It then records:

- the new net worth (balance plus holdings at the current price);
- one account-history column (balance, bought, cost, sold, sales);
- a trade-log entry when something changed hands.

After that it moves the step counter on. It returns the change of net worth as
the reward, and it declares the episode done on a stop-loss or at the end of
the price table.

The project has three files:

- `actions.dfy` (module `Actions`) decodes an action code the way Python
  evaluates `int(action / 4)` and `1 / (action % 4 + 1)`.
- `ledger.dfy` (module `Portfolio`) is the ledger as a value:
  - what one action does (`FillOf`, `Apply`, `Execute`);
  - what a step does (`Advance`);
  - what `reset` builds (`Initial`);
  - the reward and the termination test;
  - the history invariant `Consistent`.

  Its lemmas state the properties the environment promises: no negative
  balance or holdings, a hold changes nothing, one net worth and one column
  per step, the trade-log rules, the reward decomposition and the horizon
  bound.
- `env.dfy` (module `TradingEnv`) is the class `BitcoinTradingEnv`. Its fields
  are updated in place by `Reset`, `TakeAction` and `Step`. `Reset` (and the
  constructor) establish the invariant `Valid()` and `Step` keeps it;
  `TakeAction` is proved equal to the value model's `Execute` through
  `State()`, and needs only valid construction inputs.

Amounts are mathematical reals. The close prices are a sequence of positive
reals: the `Close` column after the table has been prepared.

Two behaviours of the code are worth stating up front:

- The environment does not range-check the action code: codes -3..-1
  truncate to action type 0 and buy, and every code from 12 up holds. The
  model decodes every integer the same way.
- The comment on line 38 mentions "Sell 3/4". The code only ever trades the
  fractions 1, 1/2, 1/3 and 1/4, and `Amount` states exactly those.

## Model

| member | source | states |
|---|---|---|
| Actions.TypeCode | env/BitcoinTradingEnv.py:82 | `int(action / 4)` truncates toward zero: for a non-negative code t is the quotient with remainder in 0..3; for a negative one it rounds up; on the twelve declared codes it is 0, 1 or 2 |
| Actions.Amount | env/BitcoinTradingEnv.py:83 | the traded fraction lies in (0, 1], is one of 1, 1/2, 1/3, 1/4, and is the whole (1) exactly when the code is a multiple of 4 |
| Actions.Decode | env/BitcoinTradingEnv.py:82-98 | on codes 0..11: buy exactly for 0..3, sell exactly for 4..7, hold exactly for 8..11; codes from 12 up hold; codes -3..-1 buy; the fraction is always in (0, 1] |
| Actions.Encode | env/BitcoinTradingEnv.py:38-39 | each side and fraction index has a code among the twelve of the action space, with the fraction index as its remainder mod 4 |
| Actions.DecodeEncode | env/BitcoinTradingEnv.py:38-39 | decoding the code of a side and fraction 1/(k+1) gives back that side and that fraction |
| Actions.EncodeDecode | env/BitcoinTradingEnv.py:38-39 | every one of the twelve codes is the encoding of its decoded side and fraction: no code is left over |
| Portfolio.Price | env/BitcoinTradingEnv.py:77-78 | the current price is the close `n_forecasts` bars ahead plus 0.01, so it exceeds 0.01 when the closes are positive |
| Portfolio.FillOf | env/BitcoinTradingEnv.py:85-104 | an action never both buys and sells; a non-buy buys nothing at no cost; a non-sell sells nothing for no sales |
| Portfolio.BuyCostsTheFraction | env/BitcoinTradingEnv.py:90-94 | the `min` never binds: a buy costs exactly the requested fraction of the balance, so at most the balance, and buys a non-negative quantity |
| Portfolio.SellStaysWithinHoldings | env/BitcoinTradingEnv.py:98-101 | a sell sells between zero and the whole holdings, for non-negative proceeds |
| Portfolio.FillBounds | env/BitcoinTradingEnv.py:85-104 | for any decoded intent: the cost is within the balance, the quantity sold within the holdings, and every quantity is non-negative |
| Portfolio.ApplyKeepsLedgerNonNegative | env/BitcoinTradingEnv.py:90-104 | no action drives the balance or the holdings below zero; a buy only lowers the balance and raises the holdings, a sell the reverse |
| Portfolio.HoldChangesNothing | env/BitcoinTradingEnv.py:85-120 | a hold leaves the balance, the holdings and the trade log unchanged, yet appends a net worth and an account-history column with the unchanged balance and zero trade amounts |
| Portfolio.ApplyRecords | env/BitcoinTradingEnv.py:106-120 | every action appends exactly one net worth, equal to the new balance plus the new holdings at the current price, and one account-history column; earlier entries stay; a trade is logged exactly when something was bought or sold, at the current step, tagged "sell" exactly when something was sold, with the matching amount and total |
| Portfolio.ApplySettles | env/BitcoinTradingEnv.py:85-120 | whatever the side, the balance moves by sales less cost and the holdings by bought less sold, and the histories grow by exactly the recorded entries |
| Portfolio.FillPrices | env/BitcoinTradingEnv.py:91-101 | whatever the side, the cost is the quantity bought at the price raised by the commission and the sales the quantity sold at the price lowered by it |
| Portfolio.CommissionIsTheOnlyCost | env/BitcoinTradingEnv.py:90-112 | marked at the current price, net worth after an action is net worth before it less the commission on the traded quantity; without commission trading preserves net worth |
| Portfolio.FullBuyExample | env/BitcoinTradingEnv.py:90-109 | from the reset state with balance 10000, a full buy at price 100 without commission leaves balance 0, holdings 100 and one "buy" of 100 for 10000 at step 0 |
| Portfolio.FullSellExample | env/BitcoinTradingEnv.py:98-109 | for any ledger holding 100 with balance 0, a full sell at price 100 without commission leaves balance 10000, holdings 0 and appends one "sell" of 100 for 10000 at the current step |
| Portfolio.InitialConsistent | env/BitcoinTradingEnv.py:142-155 | the ledger `reset` builds satisfies the history invariant |
| Portfolio.AdvancePreservesConsistent | env/BitcoinTradingEnv.py:159-162 | an action followed by the step increment keeps the history invariant, for any action, while the price read is in the table: one net worth and column per step, non-negative balance and holdings, balances chained by cost and sales, holdings equal to net bitcoin bought, each net worth equal to balance plus holdings at that step's price, trade log implied by the account history |
| Portfolio.TradeLogChronological | env/BitcoinTradingEnv.py:106-109 | the trade log an account history implies is strictly ordered by step and every entry was made at a step already taken |
| Portfolio.TradesChronological | env/BitcoinTradingEnv.py:106-109 | in a consistent ledger the recorded trades are strictly ordered by step and each was made at a step already taken |
| Portfolio.LastNetWorth | env/BitcoinTradingEnv.py:111-112 | in a consistent ledger, the last net worth is the current balance plus holdings at the price of the last step taken |
| Portfolio.AdvanceAppendsNetWorth | env/BitcoinTradingEnv.py:111-112 | a step appends the previous balance and holdings marked at the current price, less the commission paid |
| Portfolio.Apply | env/BitcoinTradingEnv.py:85-120 | the ledger after one decoded action at a given price: the fill moves balance and holdings, then a net worth, a column and possibly a trade are appended; its properties are carried by `ApplySettles`, `ApplyRecords`, `ApplyKeepsLedgerNonNegative`, `HoldChangesNothing` and `CommissionIsTheOnlyCost` |
| Portfolio.Execute | env/BitcoinTradingEnv.py:80-120 | `_take_action`: `Apply` of the decoded action code; `TradingEnv.BitcoinTradingEnv.TakeAction` is proved equal to it |
| Portfolio.Advance | env/BitcoinTradingEnv.py:159-162 | the ledger part of `step`: the action, then the counter moves on by one; `AdvancePreservesConsistent` and `AdvanceAppendsNetWorth` carry its properties |
| Portfolio.Initial | env/BitcoinTradingEnv.py:143-155 | the ledger `reset` builds; `InitialConsistent` proves it satisfies the history invariant |
| Portfolio.Reward | env/BitcoinTradingEnv.py:134 | the last net worth less the one before; `RewardDecomposition` shows what it amounts to after a step |
| Portfolio.DoneAsWritten | env/BitcoinTradingEnv.py:139-140 | `_done` as written, with the `==` horizon test; `HorizonSkippedAsWritten` shows where it misses and `DoneAgreesWithSource` where it agrees with `Done` |
| Portfolio.Done | env/BitcoinTradingEnv.py:139-140 | `_done` with the horizon test as intended (`>=`); `NotDoneKeepsNextPriceInBounds`, `AdvanceStaysWithinHorizon` and `DoneAgreesWithSource` carry its properties |
| Portfolio.RewardDecomposition | env/BitcoinTradingEnv.py:134 | the reward of a step is the price move on the holdings carried into it (zero on the first step) less the commission on the step's trade |
| Portfolio.NotDoneKeepsNextPriceInBounds | env/BitcoinTradingEnv.py:138-140 | with the horizon test as intended, an episode that is not done has its next price index inside the close table |
| Portfolio.DoneAgreesWithSource | env/BitcoinTradingEnv.py:138-140 | at every step up to the last usable one, the intended termination test and the one written with `==` answer alike |
| Portfolio.AdvanceStaysWithinHorizon | env/BitcoinTradingEnv.py:138-140 | a step started while not done never moves the counter past the last usable step |
| Portfolio.HorizonSkippedAsWritten | env/BitcoinTradingEnv.py:138-140 | for any table of exactly `n_forecasts + 1` positive closes, any non-negative initial balance and any commission in [0, 1], one hold after reset leaves the counter past the table while the `==` test still says not done; the intended test says done |
| TradingEnv.BitcoinTradingEnv.CurrentPrice | env/BitcoinTradingEnv.py:77-78 | the current price exceeds 0.01 for positive closes |
| TradingEnv.BitcoinTradingEnv.Reward | env/BitcoinTradingEnv.py:122-136 | `_reward` on the fields: `Portfolio.Reward` of the current state; `Step` returns it and `RewardDecomposition` describes it |
| TradingEnv.BitcoinTradingEnv.Done | env/BitcoinTradingEnv.py:138-140 | `_done` on the fields: `Portfolio.Done` of the current state; `Step` states its value and its consequence for the next price index |
| TradingEnv.BitcoinTradingEnv.constructor | env/BitcoinTradingEnv.py:21-33 | keeps the construction inputs, with the source's defaults (initial balance 10000, commission 0.0003, 10 forecasts), and leaves the ledger in the state `reset` builds, satisfying the invariant |
| TradingEnv.BitcoinTradingEnv.Reset | env/BitcoinTradingEnv.py:142-155 | balance back to the initial balance, nothing held, step 0, net worths and account history seeded with the reset state, empty trade log; the invariant holds |
| TradingEnv.ResetTwice | env/BitcoinTradingEnv.py:142-155 | two resets in a row leave the same ledger: reset is idempotent |
| TradingEnv.BitcoinTradingEnv.TakeAction | env/BitcoinTradingEnv.py:80-120 | the fields after the in-place update are exactly the value model's `Execute` of the old ledger at the current price |
| TradingEnv.BitcoinTradingEnv.Step | env/BitcoinTradingEnv.py:159-168 | the invariant is kept; the new state is `Advance` of the old; the counter grows by one; net worths grow by one entry and keep their prefix; the reward is the last net worth less the previous one; done holds exactly on the stop-loss or when the counter is at or past the horizon; when not done, the next price index is in the table |

## Left out

- The observation (lines 45-75, and the `_next_observation` calls in `reset` and `step`): min-max scaling, the seasonal forecast and the float16 packing are numerical library calls, so `Reset` and `Step` return no observation.
- Preparing the price table at construction (lines 28-31): back-filling, indicator columns and the log-differenced series. The model takes the prepared `Close` column as its input.
- The risk ratios computed on lines 123-132: the source overwrites them on line 134, so only the net-worth delta is modelled, and the reward-strategy module is not part of this model.
- The infinity check on line 136: amounts here are exact reals, which are never infinite.
- Floating point: every amount is a mathematical real, so rounding in the balance, cost and net-worth arithmetic is not modelled.
- Python's `action / 4` goes through a float; for codes too large for a float to represent exactly, the truncation could differ. `TypeCode` is exact.
- `render` and `close` (lines 170-189), the gym action and observation spaces (lines 35-43) and the hyperparameter search in `optimize.py`: display, framework and tuning code.
- TradingEnv.BitcoinTradingEnv.constructor: the source leaves the ledger unset until the first `reset`. Here the constructor builds the reset state directly, so every object satisfies the invariant.
- TradingEnv.BitcoinTradingEnv.constructor: it requires positive closes, a non-negative initial balance and a commission between 0 and 1. The source does not check these, but a buy divides by the price, and the non-negativity properties need them.
- TradingEnv.BitcoinTradingEnv.Step: it uses the intended horizon test (see Findings). `Portfolio.DoneAsWritten` keeps the test as written, and `Portfolio.DoneAgreesWithSource` shows the two agree on every step an episode reaches when the table leaves at least one step after the reset.
- Portfolio.Price, TradingEnv.BitcoinTradingEnv.CurrentPrice, TradingEnv.BitcoinTradingEnv.TakeAction and TradingEnv.BitcoinTradingEnv.Step: they require the price index `current_step + n_forecasts` to lie inside the close table. The source raises an IndexError on line 78 when it does not; the model has no such error path and makes the index a precondition instead. `Step` promises that the next index is in bounds whenever it answers not done.
- Out-of-range action codes are decoded, not rejected, as the code does. No error path exists for them.

## Findings

| source | as written | input that shows it | evidently intended | confidence | as-written member | corrected member |
|---|---|---|---|---|---|---|
| env/BitcoinTradingEnv.py:140 | the horizon test is `current_step == len(df) - n_forecasts - 1` | a table of exactly `n_forecasts + 1` rows: the horizon is 0, the first step sets the counter to 1, `_done` answers false, and the next `step` reads the close at index `1 + n_forecasts`, past the table | the episode ends once the counter reaches the horizon (`>=`), so no step reads past the table | low: not executed; needs a degenerate table that the forecaster may not accept | Portfolio.HorizonSkippedAsWritten | Portfolio.NotDoneKeepsNextPriceInBounds |
