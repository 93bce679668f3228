/** Decoding of the discrete action code accepted by `step`
    (env/BitcoinTradingEnv.py, lines 82-83 and the branch tests on lines 90 and 98).

    The action space declares twelve codes. A code is split into an action type
    (0 = buy, 1 = sell, anything else = hold) and a fraction of the balance or of
    the holdings to trade. The source performs no range check, so the decoding is
    defined here for every integer, with Python's operators written out. */
module Actions {

  /** What the branch on the action type does: line 90 buys, line 98 sells,
      every other action type leaves the ledger alone. */
  datatype Side = Buy | Sell | Hold

  /** A decoded action: the side, and the fraction `amount` of line 83. */
  datatype Intent = Intent(side: Side, amount: real)

  /** `int(action / 4)`: true division followed by truncation toward zero. */
  function TypeCode(action: int): (t: int)
    ensures 0 <= action ==> 4 * t <= action < 4 * t + 4
    ensures action < 0 ==> 4 * t - 4 < action <= 4 * t
    ensures 0 <= action < 12 ==> t == action / 4 && 0 <= t <= 2
  {
    if action >= 0 then action / 4 else -((-action) / 4)
  }

  /** `1 / (action % 4 + 1)`; Python's `%` with a positive divisor is never
      negative, like Dafny's. */
  function Amount(action: int): (f: real)
    ensures 0.0 < f <= 1.0
    ensures f == 1.0 || f == 1.0 / 2.0 || f == 1.0 / 3.0 || f == 1.0 / 4.0
    ensures f == 1.0 <==> action % 4 == 0
  {
    1.0 / ((action % 4 + 1) as real)
  }

  /** The intent of an action code, as the branches on lines 90 and 98 read it. */
  function Decode(action: int): (i: Intent)
    ensures 0.0 < i.amount <= 1.0
    ensures 0 <= action < 12 ==>
              && (i.side == Buy <==> action < 4)
              && (i.side == Sell <==> 4 <= action < 8)
              && (i.side == Hold <==> 8 <= action)
    ensures 12 <= action ==> i.side == Hold
    ensures -4 < action < 0 ==> i.side == Buy
  {
    var t := TypeCode(action);
    Intent(if t == 0 then Buy else if t == 1 then Sell else Hold, Amount(action))
  }

  /** The code of a side with fraction 1/(k+1): the layout of the twelve codes
      described by the comment on line 38. */
  function Encode(side: Side, k: nat): (action: int)
    requires k < 4
    ensures 0 <= action < 12
    ensures action % 4 == k
  {
    match side
    case Buy => k
    case Sell => 4 + k
    case Hold => 8 + k
  }

  /** Every side and every one of the four fractions has a code, and decoding
      that code gives them back. */
  lemma DecodeEncode(side: Side, k: nat)
    requires k < 4
    ensures Decode(Encode(side, k)) == Intent(side, 1.0 / ((k + 1) as real))
  {
  }

  /** The twelve codes are exactly the encodings: none is left over. */
  lemma EncodeDecode(action: int)
    requires 0 <= action < 12
    ensures Encode(Decode(action).side, action % 4) == action
  {
  }
}
