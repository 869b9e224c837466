/** The net cost of a position against the trades that made it. */
module Positions {
  import opened Trading

  datatype Trade = Trade(side: Side, lots: nat, ticks: int)

  /** Some lots bought (positive) or sold (negative) at one price, on one side of a flat position. */
  datatype Fill = Fill(lots: int, ticks: int)

  function Signed(t: Trade): int {
    if t.side.Buy? then t.lots else -(t.lots as int)
  }

  function NetLots(ts: seq<Trade>): int {
    if ts == [] then 0 else NetLots(ts[..|ts| - 1]) + Signed(ts[|ts| - 1])
  }

  function Lots(ts: seq<Trade>, side: Side): int {
    if ts == [] then 0
    else Lots(ts[..|ts| - 1], side) + if ts[|ts| - 1].side == side then ts[|ts| - 1].lots else 0
  }

  function TradedCost(ts: seq<Trade>, side: Side): int {
    if ts == [] then 0
    else TradedCost(ts[..|ts| - 1], side)
         + if ts[|ts| - 1].side == side then Cost(ts[|ts| - 1].lots, ts[|ts| - 1].ticks) else 0
  }

  /** A trade against a position of `net` lots. One that takes the position through flat has a closing and an opening
      part. */
  function Parts(net: int, t: Trade): seq<Fill> {
    var after := net + Signed(t);
    if net < 0 < after || after < 0 < net then [Fill(-net, t.ticks), Fill(after, t.ticks)]
    else [Fill(Signed(t), t.ticks)]
  }

  function Fills(ts: seq<Trade>): seq<Fill> {
    if ts == [] then [] else Fills(ts[..|ts| - 1]) + Parts(NetLots(ts[..|ts| - 1]), ts[|ts| - 1])
  }

  function Net(fs: seq<Fill>): int {
    if fs == [] then 0 else Net(fs[..|fs| - 1]) + fs[|fs| - 1].lots
  }

  function SignedCost(fs: seq<Fill>): int {
    if fs == [] then 0 else SignedCost(fs[..|fs| - 1]) + Cost(fs[|fs| - 1].lots, fs[|fs| - 1].ticks)
  }

  /** How many fills had been made when the position was last flat. */
  function LastFlat(fs: seq<Fill>): (n: nat)
    ensures n <= |fs|
  {
    if Net(fs) == 0 then |fs| else LastFlat(fs[..|fs| - 1])
  }

  /** The signed cost of the trades since the position was last flat. */
  function NetCost(ts: seq<Trade>): int {
    OpenCost(Fills(ts))
  }

  /** LastFlat is what it says: flat then, and never since. */
  lemma {:induction false} LastFlatMeaning(fs: seq<Fill>)
    ensures Net(fs[..LastFlat(fs)]) == 0
    ensures forall n :: LastFlat(fs) < n <= |fs| ==> Net(fs[..n]) != 0
    decreases |fs|
  {
    assert fs[..|fs|] == fs;
    if Net(fs) != 0 {
      var f := fs[..|fs| - 1];
      LastFlatMeaning(f);
      assert fs[..LastFlat(f)] == f[..LastFlat(f)];
      forall n | LastFlat(fs) < n <= |fs| ensures Net(fs[..n]) != 0 {
        if n < |fs| { assert fs[..n] == f[..n]; }
      }
    }
  }

  lemma Last<T>(s: seq<T>, x: T)
    ensures (s + [x])[..|s + [x]| - 1] == s && (s + [x])[|s + [x]| - 1] == x
  {
  }

  /** One more fill: the cost since flat grows by the fill's cost, or starts again from nothing. */
  lemma {:induction false} OneMoreFill(fs: seq<Fill>, x: Fill)
    ensures Net(fs + [x]) == Net(fs) + x.lots
    ensures OpenCost(fs + [x]) == if Net(fs + [x]) == 0 then 0 else OpenCost(fs) + Cost(x.lots, x.ticks)
  {
    var z := fs + [x];
    Last(fs, x);
    if Net(z) != 0 {
      var tail := fs[LastFlat(fs)..];
      assert z[LastFlat(z)..] == tail + [x];
      Last(tail, x);
    }
  }

  /** The fills add up to the trades. */
  lemma {:induction false} FillsAddUp(ts: seq<Trade>)
    ensures Net(Fills(ts)) == NetLots(ts)
    decreases |ts|
  {
    if ts != [] {
      var before, t := ts[..|ts| - 1], ts[|ts| - 1];
      FillsAddUp(before);
      PartsAdded(Fills(before), t);
    }
  }

  /** The cost since the position was last flat. */
  function OpenCost(fs: seq<Fill>): int {
    SignedCost(fs[LastFlat(fs)..])
  }

  lemma {:induction false} CrossingParts(fs: seq<Fill>, t: Trade, after: int)
    requires after == Net(fs) + Signed(t) && (Net(fs) < 0 < after || after < 0 < Net(fs))
    ensures var z := fs + Parts(Net(fs), t); Net(z) == after && OpenCost(z) == Cost(after, t.ticks)
    ensures LastFlat(fs + Parts(Net(fs), t)) == |fs| + 1
  {
    var closing, opening := Fill(-Net(fs), t.ticks), Fill(after, t.ticks);
    OneMoreFill(fs, closing);
    OneMoreFill(fs + [closing], opening);
    assert fs + Parts(Net(fs), t) == (fs + [closing]) + [opening];
    Last(fs + [closing], opening);
  }

  /** What a trade does to the net lots and to the cost since flat. */
  lemma {:induction false} PartsAdded(fs: seq<Fill>, t: Trade)
    ensures var z, after := fs + Parts(Net(fs), t), Net(fs) + Signed(t);
      && Net(z) == after
      && OpenCost(z) ==
           (if after == 0 then 0
            else if Net(fs) < 0 < after || after < 0 < Net(fs) then Cost(after, t.ticks)
            else OpenCost(fs) + Cost(Signed(t), t.ticks))
  {
    var net, after := Net(fs), Net(fs) + Signed(t);
    if net < 0 < after || after < 0 < net {
      CrossingParts(fs, t, after);
    } else {
      OneMoreFill(fs, Fill(Signed(t), t.ticks));
    }
  }

  /** One more trade on the history. */
  lemma {:induction false} NetCostStep(ts: seq<Trade>, t: Trade)
    ensures var net, after := NetLots(ts), NetLots(ts) + Signed(t);
      && NetLots(ts + [t]) == after
      && NetCost(ts + [t]) ==
           (if after == 0 then 0
            else if net < 0 < after || after < 0 < net then Cost(after, t.ticks)
            else NetCost(ts) + Cost(Signed(t), t.ticks))
  {
    Last(ts, t);
    FillsAddUp(ts);
    PartsAdded(Fills(ts), t);
  }

  /** No lots, no cost. */
  lemma {:induction false} FlatCostsNothing(ts: seq<Trade>)
    requires NetLots(ts) == 0
    ensures NetCost(ts) == 0
  {
    FillsAddUp(ts);
  }

  lemma CostAdds(a: int, b: int, p: int)
    ensures Cost(a + b, p) == Cost(a, p) + Cost(b, p)
  {
  }

  lemma AtPrice(p: int, a: int, b: int)
    ensures p * a + Cost(b, p) == p * (a + b) && Cost(a + b, p) == p * (a + b)
  {
  }

  /** When all prices are p, the net cost is the net lots at p. */
  lemma {:induction false} OnePrice(ts: seq<Trade>, p: int)
    requires forall i :: 0 <= i < |ts| ==> ts[i].ticks == p
    ensures NetCost(ts) == p * NetLots(ts)
    decreases |ts|
  {
    if ts == [] {
      assert NetCost(ts) == 0;
    } else {
      var before, t := ts[..|ts| - 1], ts[|ts| - 1];
      OnePrice(before, p);
      NetCostStep(before, t);
      assert ts == before + [t];
      AtPrice(p, NetLots(before), Signed(t));
    }
  }

  /** Fills never take the position through flat, so since it was last flat it has been on one side only. */
  lemma {:induction false} OneSideSinceFlat(ts: seq<Trade>, n: nat)
    requires LastFlat(Fills(ts)) < n <= |Fills(ts)|
    ensures Net(Fills(ts)[..n]) > 0 <==> NetLots(ts) > 0
    ensures Net(Fills(ts)[..n]) < 0 <==> NetLots(ts) < 0
    ensures NetLots(ts) != 0
    decreases |ts|
  {
    var fs, before, t := Fills(ts), ts[..|ts| - 1], ts[|ts| - 1];
    var f := Fills(before);
    FillsAddUp(ts);
    if n == |fs| {
      assert fs[..n] == fs;
    } else {
      FillsAddUp(before);
      NoPartIsCut(f, t, n);
      assert fs[..n] == f[..n];
      PrefixFlat(f, fs);
      OneSideSinceFlat(before, n);
    }
  }

  /** A place since the last flat, but before the last fill, is before the last trade, which has one part. */
  lemma {:induction false} NoPartIsCut(f: seq<Fill>, t: Trade, n: nat)
    requires var fs := f + Parts(Net(f), t); LastFlat(fs) < n < |fs|
    ensures n <= |f| && |Parts(Net(f), t)| == 1
    ensures !(Net(f) < 0 < Net(f) + Signed(t)) && !(Net(f) + Signed(t) < 0 < Net(f))
  {
    var after := Net(f) + Signed(t);
    if Net(f) < 0 < after || after < 0 < Net(f) {
      CrossingParts(f, t, after);
    }
  }

  lemma {:induction false} PrefixFlat(f: seq<Fill>, fs: seq<Fill>)
    requires f <= fs && LastFlat(fs) <= |f|
    ensures LastFlat(fs) == LastFlat(f)
    decreases |fs|
  {
    if |f| < |fs| {
      PrefixFlat(f, fs[..|fs| - 1]);
    } else {
      assert f == fs;
    }
  }

  /** A buy on the history, case by case. */
  lemma {:induction false} BuyStep(ts: seq<Trade>, lots: nat, ticks: int)
    ensures var z, net := ts + [Trade(Side.Buy, lots, ticks)], NetLots(ts) + lots;
      && NetLots(z) == net
      && NetCost(z) == (if net < 0 || net >= lots then NetCost(ts) + Cost(lots, ticks)
                        else if net > 0 then Cost(net, ticks) else 0)
      && Lots(z, Side.Buy) == Lots(ts, Side.Buy) + lots && Lots(z, Side.Sell) == Lots(ts, Side.Sell)
      && TradedCost(z, Side.Buy) == TradedCost(ts, Side.Buy) + Cost(lots, ticks)
      && TradedCost(z, Side.Sell) == TradedCost(ts, Side.Sell)
  {
    var t := Trade(Side.Buy, lots, ticks);
    NetCostStep(ts, t);
    Last(ts, t);
    if NetLots(ts) == 0 { FlatCostsNothing(ts); }
  }

  /** A sell on the history, case by case. */
  lemma {:induction false} SellStep(ts: seq<Trade>, lots: nat, ticks: int)
    ensures var z, net := ts + [Trade(Side.Sell, lots, ticks)], NetLots(ts) - lots;
      && NetLots(z) == net
      && NetCost(z) == (if net > 0 || net <= 0 - lots then NetCost(ts) - Cost(lots, ticks)
                        else if net < 0 then Cost(net, ticks) else 0)
      && Lots(z, Side.Sell) == Lots(ts, Side.Sell) + lots && Lots(z, Side.Buy) == Lots(ts, Side.Buy)
      && TradedCost(z, Side.Sell) == TradedCost(ts, Side.Sell) + Cost(lots, ticks)
      && TradedCost(z, Side.Buy) == TradedCost(ts, Side.Buy)
  {
    var t := Trade(Side.Sell, lots, ticks);
    NetCostStep(ts, t);
    Last(ts, t);
    CostAdds(lots, 0 - lots, ticks);
    if NetLots(ts) == 0 { FlatCostsNothing(ts); }
  }

  class Posn {
    var buyLots: int
    var buyCost: int
    var sellLots: int
    var sellCost: int
    var netCost: int
    ghost var history: seq<Trade>

    ghost predicate Valid()
      reads this
    {
      && buyLots == Lots(history, Side.Buy) && buyCost == TradedCost(history, Side.Buy)
      && sellLots == Lots(history, Side.Sell) && sellCost == TradedCost(history, Side.Sell)
      && CurrentNet() == NetLots(history) && netCost == NetCost(history)
    }

    function CurrentNet(): int
      reads this
    {
      buyLots - sellLots
    }

    constructor ()
      ensures Valid() && history == []
    {
      buyLots, buyCost, sellLots, sellCost, netCost, history := 0, 0, 0, 0, 0, [];
    }

    method AddBuy(lots: nat, ticks: int)
      requires Valid()
      modifies this
      ensures Valid() && history == old(history) + [Trade(Side.Buy, lots, ticks)]
      ensures buyLots == old(buyLots) + lots && buyCost == old(buyCost) + lots * ticks
      ensures sellLots == old(sellLots) && sellCost == old(sellCost)
      ensures var net := old(buyLots) - old(sellLots);
        netCost == if net == 0 then lots * ticks
                   else if net > 0 || net + lots < 0 then old(netCost) + lots * ticks
                   else (net + lots) * ticks
    {
      hide NetCost, NetLots, Lots, TradedCost;
      if CurrentNet() == 0 { FlatCostsNothing(history); }
      var cost := Cost(lots, ticks);
      var net: int := CurrentNet() + lots;
      buyLots := buyLots + lots;
      buyCost := buyCost + cost;
      if net < 0 || net >= lots {
        netCost := netCost + cost;
      } else if net > 0 {
        assert net < lots;
        netCost := Cost(net, ticks);
      } else {
        assert net == 0;
        netCost := 0;
      }
      BuyStep(history, lots, ticks);
      history := history + [Trade(Side.Buy, lots, ticks)];
    }

    method AddSell(lots: nat, ticks: int)
      requires Valid()
      modifies this
      ensures Valid() && history == old(history) + [Trade(Side.Sell, lots, ticks)]
      ensures sellLots == old(sellLots) + lots && sellCost == old(sellCost) + lots * ticks
      ensures buyLots == old(buyLots) && buyCost == old(buyCost)
      ensures var net := old(buyLots) - old(sellLots);
        netCost == if net == 0 then 0 - lots * ticks
                   else if net < 0 || net - lots > 0 then old(netCost) - lots * ticks
                   else (net - lots) * ticks
    {
      hide NetCost, NetLots, Lots, TradedCost;
      if CurrentNet() == 0 { FlatCostsNothing(history); }
      var cost := Cost(lots, ticks);
      var net: int := CurrentNet() - lots;
      sellLots := sellLots + lots;
      sellCost := sellCost + cost;
      if net > 0 || net <= 0 - lots {
        netCost := netCost - cost;
      } else if net < 0 {
        assert net > 0 - lots;
        netCost := Cost(net, ticks);
      } else {
        assert net == 0;
        netCost := 0;
      }
      SellStep(history, lots, ticks);
      history := history + [Trade(Side.Sell, lots, ticks)];
    }

    method AddTrade(side: Side, lots: nat, ticks: int)
      requires Valid()
      modifies this
      ensures Valid() && history == old(history) + [Trade(side, lots, ticks)]
    {
      if side == Side.Buy {
        AddBuy(lots, ticks);
      } else {
        AddSell(lots, ticks);
      }
    }
  }
}
