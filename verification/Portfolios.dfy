/** Position keeping: net position, average price and profit, against the cash that really moved. */
module Portfolios {
  import opened Types

  datatype Fill = Fill(side: Side, price: Price, qty: Quantity)

  const TWO_TO_THE_63: int := 0x8000_0000_0000_0000

  predicate FitsInt64(x: int) {
    -TWO_TO_THE_63 <= x < TWO_TO_THE_63
  }

  /** In range, and not the one value that has no absolute value there. */
  predicate HasAbs(x: int) {
    -TWO_TO_THE_63 < x < TWO_TO_THE_63
  }

  /** An unsigned 64-bit value read as a signed one. */
  function AsInt64(x: uint64): int {
    if x < TWO_TO_THE_63 then x else x - TWO_TO_THE_64
  }

  /** A floating-point value converted to an integer: the fraction is dropped. */
  function Truncate(x: real): int {
    if x >= 0.0 then x.Floor else -((-x).Floor)
  }

  /** It is converted toward zero, to the nearest integer there. */
  lemma TruncateIs(x: real)
    ensures x >= 0.0 ==> 0.0 <= Truncate(x) as real <= x < Truncate(x) as real + 1.0
    ensures x <= 0.0 ==> Truncate(x) as real - 1.0 < x <= Truncate(x) as real <= 0.0
  {
  }

  predicate Whole(x: real) {
    x == x.Floor as real
  }

  /** What truncation drops: less than a unit, and nothing exactly from a whole number. */
  function Fraction(x: real): real {
    x - Truncate(x) as real
  }

  lemma FractionBound(x: real)
    ensures -1.0 < Fraction(x) < 1.0
    ensures Fraction(x) == 0.0 <==> Whole(x)
  {
    if x < 0.0 {
      if Whole(x) {
        assert -x == (-x.Floor) as real;
      }
      if Fraction(x) == 0.0 {
        assert x == (-((-x).Floor)) as real;
      }
    }
  }

  function Abs(x: int): nat {
    if x < 0 then -x else x
  }

  /** The change of the position: the quantity is read as a signed number. */
  function Signed(f: Fill): int {
    if f.side.Buy? then AsInt64(f.qty) else -AsInt64(f.qty)
  }

  /** The change is the quantity bought or sold exactly below 2^63; from there on a purchase is booked as a
      sale, of what is missing to 2^64. */
  lemma SignedIff(f: Fill)
    ensures var change := if f.side.Buy? then Signed(f) else -Signed(f);
            FitsInt64(change) && Wrap64(change) == f.qty
    ensures Signed(f) == (if f.side.Buy? then f.qty else 0 - f.qty) <==> f.qty < TWO_TO_THE_63
    ensures f.qty > TWO_TO_THE_63 ==> (Signed(f) < 0 <==> f.side.Buy?)
  {
  }

  /** The account as a value. */
  datatype Account = Account(net: int, gross: uint64, average: real, realized: int)

  const FLAT := Account(0, 0, 0.0, 0)

  /** Does this fill reduce or flip the position, rather than open or add to it? */
  predicate Closes(a: Account, f: Fill) {
    a.net != 0 && !(a.net > 0 && Signed(f) > 0) && !(a.net < 0 && Signed(f) < 0)
  }

  /** The profit on the part of a position that a fill of `q` at `p` gives up. */
  function Gain(net: int, average: real, q: int, p: real): real {
    var closed := Min(Abs(net), Abs(q)) as real;
    if net > 0 then (p - average) * closed else (average - p) * closed
  }

  /** The average price of what is left or newly opened after giving it up. */
  function AverageAfter(net: int, average: real, q: int, p: real): real {
    if Abs(q) > Abs(net) then p else if Abs(q) == Abs(net) then 0.0 else average
  }

  /** The average price of the position after adding `q` at price `p`. */
  function Blend(net: int, average: real, q: int, p: real): real
    requires net != 0
  {
    (Abs(net) as real * average + Abs(q) as real * p) / (Abs(net) + Abs(q)) as real
  }

  /** One fill: open, add at the weighted average, or realize the profit of the part given up. */
  function Book(a: Account, f: Fill): Account {
    var q, p := Signed(f), f.price as real;
    var gross := Wrap64(a.gross + f.qty * f.price);
    if a.net == 0 then
      Account(q, gross, p, a.realized)
    else if !Closes(a, f) then
      Account(a.net + q, gross, Blend(a.net, a.average, q, p), a.realized)
    else
      Account(a.net + q, gross, AverageAfter(a.net, a.average, q, p), a.realized + Truncate(Gain(a.net, a.average, q, p)))
  }

  /** What a fill realizes: nothing when it opens or adds; */
  lemma OpeningRealizes(a: Account, f: Fill)
    ensures Book(a, f).net == a.net + Signed(f)
    ensures a.net == 0 || (a.net > 0 && Signed(f) > 0) || (a.net < 0 && Signed(f) < 0) ==>
              Book(a, f).realized == a.realized
  {
  }

  /** else the integer part of the price difference times the quantity given up, for a long */
  lemma SellingRealizes(a: Account, f: Fill, given: int, gain: real)
    requires a.net > 0 && Signed(f) <= 0 && given == if -Signed(f) < a.net then -Signed(f) else a.net
    requires gain == (f.price as real - a.average) * given as real
    ensures Book(a, f).realized == a.realized + Truncate(gain)
  {
    GivenUp(a.net, a.average, Signed(f), f.price as real, given, gain);
    ClosingRealizes(a, f, gain);
  }

  /** and for a short. */
  lemma CoveringRealizes(a: Account, f: Fill, given: int, gain: real)
    requires a.net < 0 && Signed(f) >= 0 && given == if Signed(f) < -a.net then Signed(f) else -a.net
    requires gain == (a.average - f.price as real) * given as real
    ensures Book(a, f).realized == a.realized + Truncate(gain)
  {
    GivenUp(a.net, a.average, Signed(f), f.price as real, given, gain);
    ClosingRealizes(a, f, gain);
  }

  lemma ClosingRealizes(a: Account, f: Fill, gain: real)
    requires Closes(a, f) && gain == Gain(a.net, a.average, Signed(f), f.price as real)
    ensures Book(a, f).realized == a.realized + Truncate(gain)
  {
  }

  lemma GivenUp(net: int, average: real, q: int, p: real, given: int, gain: real)
    requires given == Min(Abs(net), Abs(q))
    requires gain == if net > 0 then (p - average) * given as real else (average - p) * given as real
    ensures gain == Gain(net, average, q, p)
  {
  }

  /** The average price after a fill: its price when it opens or flips the position, the weighted mean when it
      adds, nothing when the account is flat, and otherwise the same as before. */
  lemma BookAverages(a: Account, f: Fill)
    ensures var b, q, p := Book(a, f), Signed(f), f.price as real;
            && (a.net == 0 || (a.net > 0 && b.net < 0) || (a.net < 0 && b.net > 0) ==> b.average == p)
            && ((a.net > 0 && q > 0) || (a.net < 0 && q < 0) ==>
                  b.net as real * b.average == a.net as real * a.average + q as real * p)
            && (a.net != 0 && b.net == 0 ==> b.average == 0.0)
            && ((a.net > 0 && q <= 0 && b.net > 0) || (a.net < 0 && q >= 0 && b.net < 0) ==> b.average == a.average)
  {
    if a.net != 0 && !Closes(a, f) {
      AddWorth(a.net, a.average, Signed(f), f.price as real);
    }
  }

  /** Every signed 64-bit operation of `process_fill` has a defined result: the change of position and
      the new position fit; so do the absolute values, where they are taken, and their sum; and so do
      the truncated gain of a closing fill and the profit it is added to. */
  predicate Defined(a: Account, f: Fill) {
    && FitsInt64(a.net) && FitsInt64(Signed(f)) && FitsInt64(a.net + Signed(f))
    && (a.net != 0 ==> HasAbs(a.net) && HasAbs(Signed(f)))
    && (a.net != 0 && !Closes(a, f) ==> HasAbs(a.net + Signed(f)))
    && (Closes(a, f) ==>
          var booked := Truncate(Gain(a.net, a.average, Signed(f), f.price as real));
          FitsInt64(booked) && FitsInt64(a.realized + booked))
  }

  /** What the open position would gain at `mid`. */
  function OpenGain(net: int, average: real, mid: Price): real {
    if net > 0 then (mid as real - average) * net as real else (average - mid as real) * Abs(net) as real
  }

  /** The same in whole units. */
  function Unrealized(a: Account, mid: Price): int {
    if a.net == 0 then 0 else Truncate(OpenGain(a.net, a.average, mid))
  }

  /** The unrealized profit is the gain of the open position, cut toward zero: never more than the gain
      either way, never of the other sign, and less than a unit from it. */
  lemma UnrealizedIs(a: Account, mid: Price)
    ensures var gain, shown := (mid as real - a.average) * a.net as real, Unrealized(a, mid) as real;
            && (gain >= 0.0 ==> 0.0 <= shown <= gain < shown + 1.0)
            && (gain <= 0.0 ==> shown - 1.0 < gain <= shown <= 0.0)
  {
    var gain := (mid as real - a.average) * a.net as real;
    if a.net == 0 {
      assert gain == 0.0;
    } else {
      OpenGainIsProduct(a.net, a.average, mid, gain);
      TruncateIs(gain);
    }
  }

  lemma OpenGainIsProduct(net: int, average: real, mid: Price, gain: real)
    requires gain == (mid as real - average) * net as real
    ensures OpenGain(net, average, mid) == gain
  {
    var m, p := net as real, mid as real;
    OpenGainIs(net, average, mid);
    assert (p - average) * m == m * p - m * average;
  }

  class Portfolio {
    var netPosition: int
    var grossNotional: uint64
    var averageOpenPrice: real
    var realizedPnl: int
    var unrealizedPnl: int

    ghost function Value(): Account
      reads this
    {
      Account(netPosition, grossNotional, averageOpenPrice, realizedPnl)
    }

    constructor ()
      ensures Value() == FLAT
      ensures netPosition == grossNotional == realizedPnl == unrealizedPnl == 0 && averageOpenPrice == 0.0
    {
      netPosition, grossNotional, averageOpenPrice, realizedPnl, unrealizedPnl := 0, 0, 0.0, 0, 0;
    }

    method ProcessFill(side: Side, price: Price, qty: Quantity)
      requires Defined(Value(), Fill(side, price, qty))
      modifies this
      ensures Value() == Book(old(Value()), Fill(side, price, qty)) && unrealizedPnl == old(unrealizedPnl)
    {
      var fillQty := if side.Buy? then AsInt64(qty) else -AsInt64(qty);
      var fillPrice := price as real;
      grossNotional := Wrap64(grossNotional + qty * price);
      if netPosition == 0 {
        averageOpenPrice := fillPrice;
      } else if (netPosition > 0 && fillQty > 0) || (netPosition < 0 && fillQty < 0) {
        AddToPosition(fillQty, fillPrice);
      } else {
        ReduceOrFlip(fillQty, fillPrice);
      }
      netPosition := netPosition + fillQty;
    }

    method AddToPosition(fillQty: int, fillPrice: real)
      requires netPosition != 0
      modifies this`averageOpenPrice
      ensures averageOpenPrice == Blend(netPosition, old(averageOpenPrice), fillQty, fillPrice)
    {
      var totalValue := Abs(netPosition) as real * averageOpenPrice + Abs(fillQty) as real * fillPrice;
      averageOpenPrice := totalValue / (Abs(netPosition) + Abs(fillQty)) as real;
    }

    method ReduceOrFlip(fillQty: int, fillPrice: real)
      modifies this`averageOpenPrice, this`realizedPnl
      ensures realizedPnl == old(realizedPnl) + Truncate(Gain(netPosition, old(averageOpenPrice), fillQty, fillPrice))
      ensures averageOpenPrice == AverageAfter(netPosition, old(averageOpenPrice), fillQty, fillPrice)
    {
      var currentQty := Abs(netPosition);
      var reduceQty := Min(currentQty, Abs(fillQty));
      var gain: real;
      if netPosition > 0 {
        gain := (fillPrice - averageOpenPrice) * reduceQty as real;
      } else {
        gain := (averageOpenPrice - fillPrice) * reduceQty as real;
      }
      assert gain == Gain(netPosition, averageOpenPrice, fillQty, fillPrice);
      realizedPnl := realizedPnl + Truncate(gain);
      if Abs(fillQty) > currentQty {
        averageOpenPrice := fillPrice;
      } else if Abs(fillQty) == currentQty {
        averageOpenPrice := 0.0;
      }
    }

    method UpdateMarketPrice(mid: Price)
      requires HasAbs(netPosition) && FitsInt64(Unrealized(Value(), mid))
      modifies this`unrealizedPnl
      ensures unrealizedPnl == Unrealized(Value(), mid)
    {
      if netPosition == 0 {
        unrealizedPnl := 0;
        return;
      }
      var currentPrice := mid as real;
      var gain: real;
      if netPosition > 0 {
        gain := (currentPrice - averageOpenPrice) * netPosition as real;
      } else {
        gain := (averageOpenPrice - currentPrice) * Abs(netPosition) as real;
      }
      assert gain == OpenGain(netPosition, averageOpenPrice, mid);
      unrealizedPnl := Truncate(gain);
    }
  }

  // ----- Whole histories -----

  function After(fills: seq<Fill>): Account {
    if fills == [] then FLAT else Book(After(fills[..|fills| - 1]), fills[|fills| - 1])
  }

  /** Cash received less cash paid. */
  function Cash(fills: seq<Fill>): int {
    if fills == [] then 0
    else Cash(fills[..|fills| - 1]) - Signed(fills[|fills| - 1]) * fills[|fills| - 1].price
  }

  function Net(fills: seq<Fill>): int {
    if fills == [] then 0 else Net(fills[..|fills| - 1]) + Signed(fills[|fills| - 1])
  }

  function Gross(fills: seq<Fill>): int {
    if fills == [] then 0 else Gross(fills[..|fills| - 1]) + fills[|fills| - 1].qty * fills[|fills| - 1].price
  }

  /** How many fills reduced or flipped a position: each may lose a fraction of a unit. */
  function Closings(fills: seq<Fill>): nat {
    if fills == [] then 0
    else Closings(fills[..|fills| - 1]) + if Closes(After(fills[..|fills| - 1]), fills[|fills| - 1]) then 1 else 0
  }

  /** Realized profit less the cost of the open position: what should be the cash flow. */
  function Worth(a: Account): real {
    a.realized as real - a.net as real * a.average
  }

  /** What booking a fill drops: the fraction of a closing fill's gain. */
  function Dropped(a: Account, f: Fill): real {
    if Closes(a, f) then Fraction(Gain(a.net, a.average, Signed(f), f.price as real)) else 0.0
  }

  /** One fill changes the worth by the cash that moved, less exactly what is dropped. */
  lemma StepWorth(a: Account, f: Fill)
    ensures Worth(Book(a, f)) - Worth(a) + (Signed(f) * f.price) as real == -Dropped(a, f)
    ensures if Closes(a, f) then -1.0 < Dropped(a, f) < 1.0 else Dropped(a, f) == 0.0
  {
    Rescale(f);
    if a.net == 0 {
      OpenWorth(a, f);
    } else if !Closes(a, f) {
      AddStep(a, f);
    } else {
      CloseStep(a, f);
      FractionBound(Gain(a.net, a.average, Signed(f), f.price as real));
    }
  }

  /** So one fill is booked without loss exactly when it opens or adds, or closes with a gain in whole units. */
  lemma StepExactIff(a: Account, f: Fill)
    ensures Worth(Book(a, f)) - Worth(a) + (Signed(f) * f.price) as real == 0.0
       <==> !Closes(a, f) || Whole(Gain(a.net, a.average, Signed(f), f.price as real))
  {
    StepWorth(a, f);
    FractionBound(Gain(a.net, a.average, Signed(f), f.price as real));
  }

  lemma AddStep(a: Account, f: Fill)
    requires a.net != 0 && !Closes(a, f)
    ensures Worth(Book(a, f)) - Worth(a) + Signed(f) as real * f.price as real == 0.0
  {
    AddWorth(a.net, a.average, Signed(f), f.price as real);
  }

  lemma CloseStep(a: Account, f: Fill)
    requires Closes(a, f)
    ensures Worth(Book(a, f)) - Worth(a) + Signed(f) as real * f.price as real
            == -Fraction(Gain(a.net, a.average, Signed(f), f.price as real))
  {
    var gain := Gain(a.net, a.average, Signed(f), f.price as real);
    CloseWorth(a.net, a.average, Signed(f), f.price as real);
    CloseBooked(a, Book(a, f), gain, Signed(f) as real * f.price as real);
  }

  lemma CloseBooked(a: Account, b: Account, gain: real, cash: real)
    requires b.realized == a.realized + Truncate(gain)
    requires gain - b.net as real * b.average == -(a.net as real * a.average) - cash
    ensures Worth(b) - Worth(a) + cash == -Fraction(gain)
  {
    var ca, cb, t := a.net as real * a.average, b.net as real * b.average, Truncate(gain) as real;
    assert b.realized as real == a.realized as real + t;
    CloseSum(a.realized as real, t, gain, ca, cb, cash);
    assert Worth(a) == a.realized as real - ca && Worth(b) == b.realized as real - cb;
  }

  lemma CloseSum(realized: real, booked: real, gain: real, cost: real, cost': real, cash: real)
    requires gain - cost' == -cost - cash
    ensures (realized + booked - cost') - (realized - cost) + cash == -(gain - booked)
  {
  }

  lemma Rescale(f: Fill)
    ensures (Signed(f) * f.price) as real == Signed(f) as real * f.price as real
  {
  }

  lemma OpenWorth(a: Account, f: Fill)
    requires a.net == 0
    ensures Worth(Book(a, f)) - Worth(a) + (Signed(f) * f.price) as real == 0.0
  {
    Rescale(f);
  }

  lemma AddWorth(net: int, average: real, q: int, p: real)
    requires (net > 0 && q > 0) || (net < 0 && q < 0)
    ensures (net + q) as real * Blend(net, average, q, p) == net as real * average + q as real * p
  {
    var m, r := net as real, q as real;
    assert (net + q) as real == m + r;
    if net > 0 {
      assert Abs(net) as real == m && Abs(q) as real == r && (Abs(net) + Abs(q)) as real == m + r;
      Undo(m * average + r * p, m + r);
    } else {
      assert Abs(net) as real == -m && Abs(q) as real == -r && (Abs(net) + Abs(q)) as real == -(m + r);
      Negated(m, average);
      Negated(r, p);
      Undo(-(m * average + r * p), -(m + r));
    }
  }

  lemma Negated(x: real, y: real)
    ensures -x * y == -(x * y)
  {
  }

  lemma Undo(total: real, n: real)
    requires n != 0.0
    ensures n * (total / n) == total && -n * (total / n) == -total
  {
    Negated(n, total / n);
  }

  lemma CloseWorth(net: int, average: real, q: int, p: real)
    requires (net > 0 && q <= 0) || (net < 0 && q >= 0)
    ensures Gain(net, average, q, p) - (net + q) as real * AverageAfter(net, average, q, p)
            == -(net as real * average) - q as real * p
  {
    var m, r := net as real, q as real;
    assert (net + q) as real == m + r;
    GainIs(net, average, q, p);
    if Abs(q) < Abs(net) {
      assert (average - p) * r - (m + r) * average == -(m * average) - r * p;
    } else if Abs(q) == Abs(net) {
      assert r == -m && (p - average) * m == -(m * average) - r * p;
    } else {
      assert (p - average) * m - (m + r) * p == -(m * average) - r * p;
    }
  }

  /** The gain without the absolute values. */
  lemma GainIs(net: int, average: real, q: int, p: real)
    requires (net > 0 && q <= 0) || (net < 0 && q >= 0)
    ensures Gain(net, average, q, p) ==
            if Abs(q) < Abs(net) then (average - p) * q as real else (p - average) * net as real
  {
    Opposed(p - average, q as real);
    Opposed(average - p, net as real);
    if net > 0 {
      assert Abs(net) as real == net as real && Abs(q) as real == -(q as real);
    } else {
      assert Abs(net) as real == -(net as real) && Abs(q) as real == q as real;
    }
  }

  lemma Opposed(x: real, y: real)
    ensures x * -y == -x * y
  {
  }

  /** Everything a history has dropped. */
  function Lost(fills: seq<Fill>): real {
    if fills == [] then 0.0 else Lost(fills[..|fills| - 1]) + Dropped(After(fills[..|fills| - 1]), fills[|fills| - 1])
  }

  /** Over any history, worth is the cash flow less exactly what was dropped. */
  lemma {:induction false} WorthIsCashLessLost(fills: seq<Fill>)
    ensures Worth(After(fills)) == Cash(fills) as real - Lost(fills)
  {
    if fills != [] {
      var before, f := fills[..|fills| - 1], fills[|fills| - 1];
      WorthIsCashLessLost(before);
      StepWorth(After(before), f);
    }
  }

  /** Worth and cash differ by at most one unit per closing fill. */
  lemma {:induction false} PnlIdentity(fills: seq<Fill>)
    ensures var d := Worth(After(fills)) - Cash(fills) as real;
            -(Closings(fills) as real) <= d <= Closings(fills) as real
  {
    if fills != [] {
      var before, f := fills[..|fills| - 1], fills[|fills| - 1];
      PnlIdentity(before);
      StepWorth(After(before), f);
    }
  }

  /** Every closing fill has a gain in whole units. */
  ghost predicate AllWhole(fills: seq<Fill>) {
    fills == [] || (
      var before, f := After(fills[..|fills| - 1]), fills[|fills| - 1];
      && AllWhole(fills[..|fills| - 1])
      && (Closes(before, f) ==> Whole(Gain(before.net, before.average, Signed(f), f.price as real))))
  }

  /** Worth is the cash flow now and at every moment before. */
  ghost predicate AlwaysCash(fills: seq<Fill>) {
    && (fills == [] || AlwaysCash(fills[..|fills| - 1]))
    && Worth(After(fills)) == Cash(fills) as real
  }

  /** Profit less cost is the cash flow, at every moment of a history, exactly when every closing fill
      has a gain in whole units. */
  lemma {:induction false} ProfitIsCashIff(fills: seq<Fill>)
    ensures AlwaysCash(fills) <==> AllWhole(fills)
  {
    if fills != [] {
      var before, f := fills[..|fills| - 1], fills[|fills| - 1];
      ProfitIsCashIff(before);
      StepExactIff(After(before), f);
    }
  }

  /** Total profit after a price update to `mid` is cash plus the position at market, within `k` units. */
  ghost predicate MarkedWithin(a: Account, mid: Price, cash: int, k: int) {
    var total := a.realized + Unrealized(a, mid);
    var d := total as real - (cash as real + a.net as real * mid as real);
    -(k as real) <= d <= k as real
  }

  /** Right after a price update, total profit is cash plus the position at market, within one more unit. */
  lemma TotalPnl(fills: seq<Fill>, mid: Price)
    ensures MarkedWithin(After(fills), mid, Cash(fills), Closings(fills) + 1)
  {
    PnlIdentity(fills);
    MarkedToMarket(After(fills), Cash(fills), Closings(fills), mid);
  }

  lemma MarkedToMarket(a: Account, cash: int, k: nat, mid: Price)
    requires -(k as real) <= Worth(a) - cash as real <= k as real
    ensures MarkedWithin(a, mid, cash, k + 1)
  {
    UnrealizedBound(a, mid);
    Combine(a.realized as real, Unrealized(a, mid) as real, cash as real,
            a.net as real * mid as real, a.net as real * a.average, k as real);
  }

  lemma Combine(realized: real, unrealized: real, cash: real, market: real, cost: real, k: real)
    requires -k <= realized - cost - cash <= k
    requires -1.0 < market - cost - unrealized < 1.0
    ensures -(k + 1.0) <= realized + unrealized - (cash + market) <= k + 1.0
  {
  }

  lemma UnrealizedBound(a: Account, mid: Price)
    ensures -1.0 < a.net as real * mid as real - a.net as real * a.average - Unrealized(a, mid) as real < 1.0
  {
    FractionBound(OpenGain(a.net, a.average, mid));
    OpenGainIs(a.net, a.average, mid);
  }

  lemma OpenGainIs(net: int, average: real, mid: Price)
    ensures OpenGain(net, average, mid) == net as real * mid as real - net as real * average
  {
    var m, p := net as real, mid as real;
    if net > 0 {
      assert (p - average) * m == m * p - m * average;
    } else {
      assert Abs(net) as real == -m;
      assert (average - p) * -m == m * p - m * average;
    }
  }

  /** Position and notional are the plain sums of the fills, the notional in a 64-bit register. */
  lemma {:induction false} SumsOfFills(fills: seq<Fill>)
    ensures After(fills).net == Net(fills) && After(fills).gross == Wrap64(Gross(fills))
  {
    if fills != [] {
      var before, f := fills[..|fills| - 1], fills[|fills| - 1];
      SumsOfFills(before);
      WrapAdd(Gross(before), f.qty * f.price);
    }
  }

  /** A flat account has realized what its cash says, up to one unit per closing fill; and to the unit
      exactly when nothing is lost on balance. */
  lemma FlatMeansCash(fills: seq<Fill>)
    requires Net(fills) == 0
    ensures 0 - Closings(fills) <= After(fills).realized - Cash(fills) <= Closings(fills)
    ensures After(fills).realized == Cash(fills) <==> Lost(fills) == 0.0
    ensures AllWhole(fills) ==> After(fills).realized == Cash(fills)
  {
    PnlIdentity(fills);
    SumsOfFills(fills);
    WorthIsCashLessLost(fills);
    ProfitIsCashIff(fills);
  }

  ghost predicate Stands(fills: seq<Fill>, a: Account, cash: int) {
    After(fills) == a && Cash(fills) == cash
  }

  lemma ThenStands(fills: seq<Fill>, f: Fill, fills': seq<Fill>, a: Account, cash: int)
    requires Stands(fills, a, cash) && fills' == fills + [f]
    ensures Stands(fills', Book(a, f), cash - Signed(f) * f.price)
  {
    assert fills'[..|fills|] == fills;
  }

  /** The lost fractions are real: buy at 1 and at 2, sell both at 2. One unit of cash, no profit. */
  lemma TruncationLoses()
    ensures Stands([Fill(Buy, 1, 1), Fill(Buy, 2, 1), Fill(Sell, 2, 1), Fill(Sell, 2, 1)], Account(0, 7, 0.0, 0), 1)
  {
    var a, b, c := Fill(Buy, 1, 1), Fill(Buy, 2, 1), Fill(Sell, 2, 1);
    BuyTwo(a, b);
    SellTwo([a, b], c);
    assert [a, b] + [c] + [c] == [a, b, c, c];
  }

  lemma BuyTwo(a: Fill, b: Fill)
    requires a == Fill(Buy, 1, 1) && b == Fill(Buy, 2, 1)
    ensures Stands([a, b], Account(2, 3, 1.5, 0), -3)
  {
    ThenStands([], a, [a], FLAT, 0);
    assert Book(FLAT, a) == Account(1, 1, 1.0, 0);
    ThenStands([a], b, [a, b], Account(1, 1, 1.0, 0), -1);
    assert Blend(1, 1.0, 1, 2.0) == 1.5;
  }

  lemma SellTwo(fills: seq<Fill>, c: Fill)
    requires Stands(fills, Account(2, 3, 1.5, 0), -3) && c == Fill(Sell, 2, 1)
    ensures Stands(fills + [c] + [c], Account(0, 7, 0.0, 0), 1)
  {
    ThenStands(fills, c, fills + [c], Account(2, 3, 1.5, 0), -3);
    assert Gain(2, 1.5, -1, 2.0) == 0.5 && Gain(1, 1.5, -1, 2.0) == 0.5;
    ThenStands(fills + [c], c, fills + [c] + [c], Account(1, 5, 1.5, 0), -1);
  }
}
