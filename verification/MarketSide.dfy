/** The classes of one side of the order book. */
module Book {
  import opened BookSpec
  import opened Trading

  datatype State = New | Revise | Cancel | Trade

  /** Lower keys have priority: the highest bid, the lowest offer. */
  function ComposeKey(side: Side, ticks: int): int {
    if side.Buy? then -ticks else ticks
  }

  // ---------------------------------------------------------------- orders

  /** The mutable part of an order, apart from its level. */
  datatype OrderData = OrderData(
    state: State, lots: int, resd: int, exec: int, cost: int, lastLots: int, lastTicks: int, modified: int)

  function Created(d: OrderData, now: int): OrderData {
    d.(state := New, resd := d.lots, exec := 0, cost := 0, modified := now)
  }

  function Revised(d: OrderData, lots: int, now: int): OrderData {
    d.(state := Revise, lots := lots, resd := d.resd - (d.lots - lots), modified := now)
  }

  function Cancelled(d: OrderData, now: int): OrderData {
    d.(state := Cancel, resd := 0, modified := now)
  }

  function Traded(d: OrderData, lots: int, ticks: int, now: int): OrderData {
    d.(state := Trade, resd := d.resd - lots, exec := d.exec + lots, cost := d.cost + Cost(lots, ticks),
       lastLots := lots, lastTicks := ticks, modified := now)
  }

  datatype Op = Take(lots: int, now: int) | ReviseTo(lots: int, now: int) | CancelAt(now: int)

  /** What the code asserts before each operation on a listed order. */
  predicate Asserted(d: OrderData, minLots: int, op: Op) {
    match op
    case Take(lots, _) => 0 <= lots <= d.resd
    case ReviseTo(lots, _) => lots > 0 && d.exec <= lots <= d.lots && minLots <= lots
    case CancelAt(_) => true
  }

  function Outcome(d: OrderData, ticks: int, op: Op): OrderData {
    match op
    case Take(lots, now) => Traded(d, lots, ticks, now)
    case ReviseTo(lots, now) => Revised(d, lots, now)
    case CancelAt(now) => Cancelled(d, now)
  }

  predicate AllAsserted(d: OrderData, ticks: int, minLots: int, ops: seq<Op>)
    decreases |ops|
  {
    ops == [] || (Asserted(d, minLots, ops[0]) && AllAsserted(Outcome(d, ticks, ops[0]), ticks, minLots, ops[1..]))
  }

  function AfterAll(d: OrderData, ticks: int, ops: seq<Op>): OrderData
    decreases |ops|
  {
    if ops == [] then d else AfterAll(Outcome(d, ticks, ops[0]), ticks, ops[1..])
  }

  /** Residual and executed lots make up the order, unless it was cancelled. */
  predicate Conserved(d: OrderData) {
    0 <= d.exec && 0 <= d.resd && d.resd + d.exec == d.lots
  }

  /** Over every run of takes and revisions: residual plus executed lots equal the order's lots, executed lots never
      fall, and the executed cost is the executed lots at the order's price. Asserting the bounds of a revision is then
      enough to keep the residual from going negative. */
  lemma {:induction false} OrderRun(d: OrderData, ticks: int, minLots: int, ops: seq<Op>)
    requires Conserved(d) && d.cost == d.exec * ticks
    requires AllAsserted(d, ticks, minLots, ops) && forall i :: 0 <= i < |ops| ==> !ops[i].CancelAt?
    ensures var z := AfterAll(d, ticks, ops);
      Conserved(z) && d.exec <= z.exec && z.lots <= d.lots && z.cost == z.exec * ticks
    decreases |ops|
  {
    if ops != [] {
      var m := Outcome(d, ticks, ops[0]);
      if ops[0].Take? { assert (d.exec + ops[0].lots) * ticks == d.exec * ticks + ops[0].lots * ticks; }
      OrderRun(m, ticks, minLots, ops[1..]);
    }
  }

  class Order {
    const side: Side
    const ticks: int
    const minLots: int
    var level: Level?
    var state: State
    var lots: int
    var resdLots: int
    var execLots: int
    var execCost: int
    var lastLots: int
    var lastTicks: int
    var modified: int

    function Key(): int {
      ComposeKey(side, ticks)
    }

    function Data(): OrderData
      reads this
    {
      OrderData(state, lots, resdLots, execLots, execCost, lastLots, lastTicks, modified)
    }

    constructor (side: Side, lots: int, ticks: int, minLots: int, created: int)
      ensures this.side == side && this.ticks == ticks && this.minLots == minLots && level == null
      ensures Data() == OrderData(New, lots, lots, 0, 0, 0, 0, created)
    {
      this.side, this.ticks, this.minLots, level := side, ticks, minLots, null;
      state, this.lots, resdLots, execLots, execCost := New, lots, lots, 0, 0;
      lastLots, lastTicks, modified := 0, 0, created;
    }

    method Create(now: int)
      requires lots > 0 && lots >= minLots
      modifies this`state, this`resdLots, this`execLots, this`execCost, this`modified
      ensures Data() == Created(old(Data()), now)
      ensures Data() == OrderData(New, lots, lots, 0, 0, lastLots, lastTicks, now)
    {
      state := New;
      resdLots := lots;
      execLots := 0;
      execCost := 0;
      modified := now;
    }

    method Revise(newLots: int, now: int)
      requires newLots > 0 && execLots <= newLots <= lots && minLots <= newLots
      modifies this`state, this`lots, this`resdLots, this`modified
      ensures Data() == Revised(old(Data()), newLots, now)
      ensures var left := old(resdLots) - (old(lots) - newLots);
        Data() == OrderData(State.Revise, newLots, left, execLots, execCost, lastLots, lastTicks, now)
    {
      var delta := lots - newLots;
      state := State.Revise;
      lots := newLots;
      resdLots := resdLots - delta;
      modified := now;
    }

    method Cancel(now: int)
      modifies this`state, this`resdLots, this`modified
      ensures Data() == Cancelled(old(Data()), now)
      ensures Data() == OrderData(State.Cancel, lots, 0, execLots, execCost, lastLots, lastTicks, now)
    {
      state := State.Cancel;
      resdLots := 0;
      modified := now;
    }

    method Trade(takenLots: int, lastTicks: int, now: int)
      modifies this`state, this`resdLots, this`execLots, this`execCost, this`lastLots, this`lastTicks, this`modified
      ensures Data() == Traded(old(Data()), takenLots, lastTicks, now)
      ensures Data() == OrderData(State.Trade, lots, old(resdLots) - takenLots, old(execLots) + takenLots,
                                  old(execCost) + takenLots * lastTicks, takenLots, lastTicks, now)
    {
      state := State.Trade;
      resdLots := resdLots - takenLots;
      execLots := execLots + takenLots;
      execCost := execCost + Cost(takenLots, lastTicks);
      lastLots := takenLots;
      this.lastTicks := lastTicks;
      modified := now;
    }
  }

  // ---------------------------------------------------------------- levels

  class Level {
    const key: int
    const ticks: int
    ghost const side: Side             // of the order that the level was made for
    var firstOrder: Order
    var lots: int
    var count: int

    constructor (first: Order)
      ensures key == first.Key() && ticks == first.ticks && side == first.side
      ensures firstOrder == first && lots == first.resdLots && count == 1
    {
      side := first.side;
      firstOrder := first;
      key := ComposeKey(first.side, first.ticks);
      ticks := first.ticks;
      lots := first.resdLots;
      count := 1;
    }

    method AddOrder(order: Order)
      modifies this`lots, this`count
      ensures lots == old(lots) + order.resdLots && count == old(count) + 1
    {
      lots := lots + order.resdLots;
      count := count + 1;
    }

    method Reduce(delta: int)
      modifies this`lots
      ensures lots == old(lots) - delta
    {
      lots := lots - delta;
    }

    method SubOrder(order: Order)
      modifies this`lots, this`count
      ensures lots == old(lots) - order.resdLots && count == old(count) - 1
    {
      lots := lots - order.resdLots;
      count := count - 1;
    }
  }

  ghost predicate MadeFor(l: Level, o: Order) {
    l.key == o.Key() && l.ticks == o.ticks && l.side == o.side
  }

  /** The level objects are as `vs` says. */
  ghost predicate Shows(ls: seq<Level>, vs: seq<LevelView<Order>>)
    reads ls
  {
    && |vs| == |ls|
    && forall i :: 0 <= i < |ls| ==> vs[i] == LevelView(ls[i].key, ls[i].lots, ls[i].count, ls[i].firstOrder)
  }

  /** The order objects are as `es` says. */
  ghost predicate Lists(os: seq<Order>, es: seq<Entry>)
    reads os
  {
    |es| == |os| && forall i :: 0 <= i < |os| ==> es[i] == EntryOf(os[i])
  }

  ghost function EntryOf(o: Order): Entry
    reads o
  {
    Entry(o.Key(), o.resdLots)
  }

  /** The place of x in s. */
  ghost function Where<T>(s: seq<T>, x: T): (i: nat)
    requires x in s
    ensures i < |s| && s[i] == x
  {
    var i :| 0 <= i < |s| && s[i] == x;
    i
  }

  // ---------------------------------------------------------------- the side

  class MarketSide {
    var levels: seq<Level>
    var orders: seq<Order>
    ghost var book: Book<Order>        // the side on values
    ghost var known: set<Order>        // every order this side has ever been given
    ghost var sides: set<Side>         // and their sides

    /** The level set and the order list are the ones of `book`. */
    ghost predicate Holds()
      reads this, levels, orders
    {
      Shows(levels, book.levels) && orders == book.orders && Lists(orders, book.entries)
    }

    /** A listed order points at its level, and an order points at a level exactly when it is listed. A level's key says
        its price. */
    ghost predicate Linked()
      reads this, levels, orders, known
    {
      && (forall l :: l in levels ==> l.key == ComposeKey(l.side, l.ticks) && l.side in sides)
      && (forall o :: o in known ==> o.side in sides)
      && (forall o :: o in orders ==> o in known && o.level in levels && o.level.key == o.Key())
      && (forall o :: o in known ==> (o.level != null <==> o in orders))
    }

    ghost predicate Valid()
      reads this, levels, orders, known
    {
      Holds() && Linked() && BookOk(book)
    }

    constructor ()
      ensures Valid() && book == Book([], [], []) && known == {} && sides == {}
    {
      levels, orders, known, book, sides := [], [], {}, Book([], [], []), {};
    }

    method FindHint(side: Side, ticks: int, ghost vs: seq<LevelView<Order>>) returns (i: nat, found: bool)
      requires Shows(levels, vs) && Ordered(vs)
      ensures i == PlaceOf(vs, ComposeKey(side, ticks)) && At(vs, i, ComposeKey(side, ticks))
      ensures found == FoundAt(vs, i, ComposeKey(side, ticks))
    {
      var key := ComposeKey(side, ticks);
      i := 0;
      while i < |levels| && levels[i].key < key
        invariant i <= |levels| && forall j :: 0 <= j < i ==> vs[j].key < key
      {
        i := i + 1;
      }
      found := i < |levels| && levels[i].key == key;
      assert forall j :: i <= j < |vs| ==> vs[j].key >= vs[i].key;
      PlaceIs(vs, i, key);
    }

    /** emplace_hint: a new level in front of place i. */
    method EmplaceLevel(order: Order, i: nat, ghost vs: seq<LevelView<Order>>)
      requires Shows(levels, vs) && i <= |levels|
      modifies this`levels
      ensures Shows(levels, Spliced(vs, i, LevelView(order.Key(), order.resdLots, 1, order)))
      ensures forall l :: l in old(levels) ==> l in levels
      ensures forall l :: l in levels ==> l in old(levels) || MadeFor(l, order)
    {
      var l := new Level(order);
      SplicedParts(levels, i, l);
      SplicedParts(vs, i, LevelView(order.Key(), order.resdLots, 1, order));
      levels := Spliced(levels, i, l);
    }

    method CountOrder(order: Order, i: nat, ghost vs: seq<LevelView<Order>>)
      requires Shows(levels, vs) && Ordered(vs) && i < |levels|
      modifies levels
      ensures Shows(levels, vs[i := vs[i].(lots := vs[i].lots + order.resdLots, count := vs[i].count + 1)])
    {
      LevelsDistinct(levels, vs);
      levels[i].AddOrder(order);
    }

    /** Finds or makes the level of an order, and counts the order there. */
    method InsertLevel(order: Order, ghost vs: seq<LevelView<Order>>) returns (i: nat)
      requires Shows(levels, vs) && Ordered(vs)
      modifies this`levels, order`level, levels
      ensures i == PlaceOf(vs, order.Key())
      ensures Shows(levels, Joined(vs, i, FoundAt(vs, i, order.Key()), EntryOf(order), order))
      ensures i < |levels| && order.level == levels[i] && levels[i].key == order.Key()
      ensures forall l :: l in old(levels) ==> l in levels
      ensures forall l :: l in levels ==> l in old(levels) || MadeFor(l, order)
    {
      var found;
      i, found := FindHint(order.side, order.ticks, vs);
      if !found {
        EmplaceLevel(order, i, vs);
      } else {
        CountOrder(order, i, vs);
      }
      assert Shows(levels, Joined(vs, i, found, EntryOf(order), order));
      JoinedOrdered(vs, i, found, EntryOf(order), order);
      order.level := levels[i];
    }

    /** Puts an order in front of the next level's first order, or at the back. */
    method PlaceOrder(order: Order, i: nat, ghost b: Book<Order>)
      requires BookOk(b) && b.orders == orders && i == PlaceOf(b.levels, order.Key())
      requires Shows(levels, Joined(b.levels, i, FoundAt(b.levels, i, order.Key()), EntryOf(order), order))
      modifies this`orders
      ensures orders == Spliced(b.orders, Upper(b.entries, order.Key()), order)
    {
      ghost var e, found := EntryOf(order), FoundAt(b.levels, i, order.Key());
      PlaceFound(b.levels, e.key);
      var p := |orders|;
      if i + 1 < |levels| {
        var next := levels[i + 1].firstOrder;
        FirstIsListed(b, i, found, e, order);
        p :| 0 <= p < |orders| && orders[p] == next;
      }
      NextFirstIsUpper(b.levels, i, found, b.orders, b.entries, e, order, p);
      orders := Spliced(orders, p, order);
    }

    /** The level set and the list after an insertion, and the new order's pointer. */
    method Enter(order: Order)
      requires Holds() && BookOk(book)
      modifies this`levels, this`orders, this`book, order`level, levels
      ensures Holds() && book == Inserted(old(book), order, EntryOf(order))
      ensures order.level != null && order.level in levels && order.level.key == order.Key()
      ensures forall l :: l in old(levels) ==> l in levels
      ensures forall l :: l in levels ==> l in old(levels) || MadeFor(l, order)
    {
      ghost var b, e := book, EntryOf(order);
      var i := InsertLevel(order, b.levels);
      PlaceOrder(order, i, b);
      ListsSpliced(b.orders, b.entries, Upper(b.entries, e.key), order);
      book := Inserted(b, order, e);
    }

    method EnterRight(order: Order)
      requires Holds() && BookOk(book) && order !in orders && order.resdLots > 0
      modifies this`levels, this`orders, this`book, order`level, levels
      ensures Holds() && BookOk(book) && book == Inserted(old(book), order, EntryOf(order))
      ensures order.level != null && order.level in levels && order.level.key == order.Key()
      ensures forall l :: l in old(levels) ==> l in levels
      ensures forall l :: l in levels ==> l in old(levels) || MadeFor(l, order)
    {
      InsertedKeeps(book, order, EntryOf(order));
      Enter(order);
    }

    method InsertOrder(order: Order)
      requires Valid() && order.level == null
      requires order.ticks != 0 && order.resdLots > 0 && order.execLots <= order.lots && order.lots > 0
      requires order.minLots >= 0
      modifies this, order`level, levels
      ensures Valid() && known == old(known) + {order} && sides == old(sides) + {order.side} && order.level != null
      ensures book == Inserted(old(book), order, EntryOf(order))
      ensures var p := Upper(old(book).entries, order.Key());
        && p <= |old(orders)| && orders == old(orders)[..p] + [order] + old(orders)[p..]
        && (forall i :: 0 <= i < p && old(orders)[i].side == order.side ==>
              if order.side.Buy? then old(orders)[i].ticks >= order.ticks else old(orders)[i].ticks <= order.ticks)
        && (forall i :: p <= i < |old(orders)| && old(orders)[i].side == order.side ==>
              if order.side.Buy? then old(orders)[i].ticks < order.ticks else old(orders)[i].ticks > order.ticks)
    {
      hide BookOk, Shows, Lists, PlaceOf, Upper;
      InsertedMembers(book, order, EntryOf(order));
      BehindItsPrice(order);
      EnterRight(order);
      known, sides := known + {order}, sides + {order.side};
      forall o | o in orders ensures o in known && o.level in levels && o.level.key == o.Key() {
        if o != order { assert o in old(orders); }
      }
      forall o | o in known ensures o.level != null <==> o in orders {
        if o != order { assert o in orders <==> o in old(orders); }
      }
    }

    // -------------------------------------------------------------- price and time

    /** Where a new order goes: behind every order of its price or a better one, in front of every worse one. */
    lemma BehindItsPrice(order: Order)
      requires Valid()
      ensures var p := Upper(book.entries, order.Key());
        && p <= |orders| && Inserted(book, order, EntryOf(order)).orders == orders[..p] + [order] + orders[p..]
        && (forall i :: 0 <= i < p && orders[i].side == order.side ==>
              if order.side.Buy? then orders[i].ticks >= order.ticks else orders[i].ticks <= order.ticks)
        && (forall i :: p <= i < |orders| && orders[i].side == order.side ==>
              if order.side.Buy? then orders[i].ticks < order.ticks else orders[i].ticks > order.ticks)
    {
      UpperSplits(book.entries, order.Key());
      forall i | 0 <= i < |orders| ensures book.entries[i].key == orders[i].Key() {}
    }

    /** Orders of one side are listed from the best price to the worst. */
    lemma BestPriceFirst(i: nat, j: nat)
      requires Valid() && i < j < |orders| && orders[i].side == orders[j].side
      ensures if orders[i].side.Buy? then orders[i].ticks >= orders[j].ticks else orders[i].ticks <= orders[j].ticks
    {
      assert book.entries[i].key <= book.entries[j].key;
    }

    /** On a side that has only been given orders of one side, the first level is that of the highest bid or of the
        lowest offer, and starts with the first order. */
    lemma BestLevel(side: Side)
      requires Valid() && sides <= {side} && orders != []
      ensures levels != [] && levels[0].firstOrder == orders[0] && levels[0].ticks == orders[0].ticks
      ensures forall o :: o in orders ==> if side.Buy? then o.ticks <= levels[0].ticks else o.ticks >= levels[0].ticks
    {
      FirstLevelIsFirst(book);
      assert orders[0] in orders;
      forall o | o in orders ensures if side.Buy? then o.ticks <= orders[0].ticks else o.ticks >= orders[0].ticks {
        var i :| 0 <= i < |orders| && orders[i] == o;
        if i > 0 { BestPriceFirst(0, i); }
      }
    }

    // -------------------------------------------------------------- removing

    /** The level of the order at place q loses it: the level goes if that was its last, and moves on to the next
        order in the list if that was its first. */
    method LeaveLevel(level: Level, order: Order, ghost vs: seq<LevelView<Order>>, ghost i: nat, ghost q: nat)
      requires Shows(levels, vs) && Ordered(vs) && Distinct(orders)
      requires i < |levels| && level == levels[i] && q < |orders| && orders[q] == order
      requires vs[i].count == 1 ==> vs[i].lots == order.resdLots
      requires vs[i].count != 1 && vs[i].first == order ==> q + 1 < |orders|
      modifies this`levels, level
      ensures Shows(levels, Parted(vs, i, orders, q, order.resdLots))
      ensures forall l :: l in levels ==> l in old(levels)
    {
      hide Ordered;
      LevelsDistinct(levels, vs);
      level.SubOrder(order);
      if level.count == 0 {
        assert level.lots == 0;
        var at :| 0 <= at < |levels| && levels[at] == level;
        assert at == i;
        RemovedParts(levels, i);
        RemovedParts(vs, i);
        levels := Removed(levels, at);
      } else if level.firstOrder == order {
        var at :| 0 <= at < |orders| && orders[at] == order;
        assert at == q;
        level.firstOrder := orders[at + 1];
      }
    }

    /** What the code asserts or relies on when an order leaves its level. */
    lemma LeavingIsSafe(b: Book<Order>, i: nat, q: nat)
      requires BookOk(b) && i < |b.levels| && q < |b.orders| && b.levels[i].key == b.entries[q].key
      ensures b.levels[i].count == 1 ==> b.levels[i].lots == b.entries[q].lots
      ensures b.levels[i].count != 1 && b.levels[i].first == b.orders[q] ==> q + 1 < |b.orders|
    {
      assert Right(b.levels[i], b.orders, b.entries);
      if b.levels[i].count == 1 {
        LastLeavesNothing(b.levels[i], b.orders, b.entries, q);
      } else if b.levels[i].first == b.orders[q] {
        FollowerStays(b.levels[i], b.orders, b.entries, q);
      }
    }

    /** The level set and the list after a removal. */
    method Exit(level: Level, order: Order, ghost i: nat, ghost q: nat)
      requires Holds() && BookOk(book) && q < |orders| && orders[q] == order && level.key == order.Key()
      requires i == PlaceOf(book.levels, order.Key()) && i < |levels| && levels[i] == level
      modifies this`levels, this`orders, this`book, levels
      ensures Holds() && book == Withdrawn(old(book), q)
      ensures forall l :: l in levels ==> l in old(levels)
    {
      ghost var b := book;
      LeavingIsSafe(b, i, q);
      LeaveLevel(level, order, b.levels, i, q);
      var at :| 0 <= at < |orders| && orders[at] == order;
      assert at == q by { assert Distinct(b.orders); }
      ListsRemoved(orders, b.entries, q);
      orders := Removed(orders, at);
      book := Withdrawn(b, q);
    }

    method ExitRight(level: Level, order: Order, ghost q: nat)
      requires Holds() && BookOk(book) && q < |orders| && orders[q] == order
      requires level.key == order.Key() && level in levels
      modifies this`levels, this`orders, this`book, levels
      ensures Holds() && BookOk(book)
      ensures var b := old(book); PlaceOf(b.levels, b.entries[q].key) < |b.levels| && book == Withdrawn(b, q)
      ensures forall o :: o in orders && o.level in old(levels) && o.level.key == o.Key() ==> o.level in levels
      ensures forall l :: l in levels ==> l in old(levels)
    {
      ghost var before := levels;
      LevelOfListed(book, q);
      WithdrawnKeeps(book, q);
      PlaceIsLevel(book.levels, level);
      LevelsDistinct(levels, book.levels);
      Exit(level, order, PlaceOf(book.levels, order.Key()), q);
      forall o | o in orders && o.level in before && o.level.key == o.Key() ensures o.level in levels {
        LevelKept(before, o);
      }
    }

    /** An order that has left the list drops its level. */
    method Detach(order: Order)
      requires Holds() && BookOk(book) && order !in orders
      requires forall o :: o in orders ==> o in known && o.level in levels && o.level.key == o.Key()
      requires forall o :: o in known && o != order ==> (o.level != null <==> o in orders)
      requires forall l :: l in levels ==> l.key == ComposeKey(l.side, l.ticks) && l.side in sides
      requires forall o :: o in known ==> o.side in sides
      modifies order`level
      ensures Valid() && order.level == null
    {
      order.level := null;
    }

    method RemoveListed(level: Level, order: Order)
      requires Valid() && order in orders && order.level == level
      modifies this`levels, this`orders, this`book, order`level, levels
      ensures Valid() && order.level == null
      ensures var b, q := old(book), Where(old(orders), order);
        PlaceOf(b.levels, b.entries[q].key) < |b.levels| && book == Withdrawn(b, q)
    {
      hide BookOk, Shows, Lists, PlaceOf;
      ghost var q := Where(orders, order);
      WithdrawnMembers(book, q);
      ExitRight(level, order, q);
      assert forall o :: o in orders <==> o in old(orders) && o != order;
      Detach(order);
    }

    /** A level whose key is still in use is still there. */
    lemma LevelKept(before: seq<Level>, o: Order)
      requires Holds() && BookOk(book) && o in orders && o.level in before && o.level.key == o.Key()
      requires forall l :: l in levels ==> l in before
      requires forall l, m :: l in before && m in before && l.key == m.key ==> l == m
      ensures o.level in levels
    {
      var q := Where(orders, o);
      assert HasKey(book.levels, book.entries[q].key);
      var i :| 0 <= i < |levels| && levels[i].key == o.Key();
      assert levels[i] in before;
    }

    lemma PlaceIsLevel(vs: seq<LevelView<Order>>, level: Level)
      requires Shows(levels, vs) && Ordered(vs) && level in levels
      ensures var i := PlaceOf(vs, level.key); i < |levels| && levels[i] == level
    {
      var i :| 0 <= i < |levels| && levels[i] == level;
      PlaceIs(vs, i, level.key);
    }

    /** Everything is right again once the order's own residual has come down by delta. */
    ghost predicate Owing(order: Order, q: nat, delta: int)
      reads this, levels, orders, known, order
    {
      && q < |orders| && orders[q] == order && |book.entries| == |orders|
      && Shows(levels, book.levels) && orders == book.orders && Linked() && BookOk(book)
      && book.entries[q] == Entry(order.Key(), order.resdLots - delta)
      && forall j :: 0 <= j < |orders| && j != q ==> orders[j] != order && book.entries[j] == EntryOf(orders[j])
    }

    /** The level of a listed order loses some of the order's lots. */
    method LowerLevel(level: Level, order: Order, delta: int, ghost q: nat)
      requires Valid() && q < |orders| && orders[q] == order && order.level == level && delta < order.resdLots
      modifies this`book, level`lots
      ensures Owing(order, q, delta)
      ensures var b := old(book);
        PlaceOf(b.levels, b.entries[q].key) < |b.levels| && book == Reduced(b, q, delta)
    {
      hide BookOk, Ordered, Reduced, PlaceOf;
      ReducedParts(book, q, delta);
      PlaceIsLevel(book.levels, level);
      LevelsDistinct(levels, book.levels);
      level.Reduce(delta);
      book := Reduced(book, q, delta);
    }

    method ReduceLevel(level: Level, order: Order, delta: int)
      requires Valid() && order in orders && order.level == level
      requires 0 <= delta <= order.resdLots
      modifies this`levels, this`orders, this`book, order`level, levels
      ensures old(order.level).key == order.Key()
      ensures var b, q := old(book), Where(old(orders), order);
        && PlaceOf(b.levels, b.entries[q].key) < |b.levels|
        && (if delta < order.resdLots then Owing(order, q, delta) && book == Reduced(b, q, delta) && order.level != null
            else Valid() && book == Withdrawn(b, q) && order.level == null)
    {
      if delta < order.resdLots {
        LowerLevel(level, order, delta, Where(orders, order));
      } else {
        assert delta == order.resdLots;
        RemoveListed(level, order);
      }
    }

    // -------------------------------------------------------------- the operations

    method RemoveOrder(order: Order)
      requires Valid() && (order.level != null ==> order in orders)
      modifies this`levels, this`orders, this`book, order`level, levels
      ensures Valid() && order.level == null
      ensures var b := old(book); if old(order.level) == null then book == b else
        var q := Where(b.orders, order); PlaceOf(b.levels, order.Key()) < |b.levels| && book == Withdrawn(b, q)
    {
      var level := order.level;
      if level != null {
        RemoveListed(level, order);
      }
    }

    method CreateOrder(order: Order, now: int)
      requires Valid() && order.level == null
      requires order.ticks != 0 && order.lots > 0 && order.lots >= order.minLots && order.minLots >= 0
      modifies this, order, levels
      ensures Valid() && known == old(known) + {order} && sides == old(sides) + {order.side} && order.level != null
      ensures order.Data() == Created(old(order.Data()), now)
      ensures book == Inserted(old(book), order, Entry(order.Key(), old(order.lots)))
    {
      order.Create(now);
      InsertOrder(order);
    }

    method CancelOrder(order: Order, now: int)
      requires Valid() && (order.level != null ==> order in orders)
      modifies this`levels, this`orders, this`book, order, levels
      ensures Valid() && order.level == null && order.Data() == Cancelled(old(order.Data()), now)
      ensures var b := old(book); if old(order.level) == null then book == b else
        var q := Where(b.orders, order); PlaceOf(b.levels, order.Key()) < |b.levels| && book == Withdrawn(b, q)
    {
      var level := order.level;
      if level != null {
        RemoveListed(level, order);
      }
      order.Cancel(now);
    }

    method TakeOrder(order: Order, lots: int, now: int)
      requires Valid() && (order.level != null ==> order in orders && 0 <= lots <= order.resdLots)
      modifies this`levels, this`orders, this`book, order, levels
      ensures Valid() && order.Data() == Traded(old(order.Data()), lots, order.ticks, now)
      ensures order.execLots == old(order.execLots) + lots
      ensures order.execCost == old(order.execCost) + lots * order.ticks
      ensures order.level != null <==> old(order.level) != null && lots < old(order.resdLots)
      ensures var b := old(book); if old(order.level) == null then book == b else
        var q := Where(b.orders, order);
        PlaceOf(b.levels, order.Key()) < |b.levels| && book == AfterReducing(b, q, lots)
    {
      hide Agree, PlaceOf, Reduced, Withdrawn, Shows;
      var level := order.level;
      if level != null {
        ReduceLevel(level, order, lots);
      }
      order.Trade(lots, order.ticks, now);
    }

    method ReviseOrder(order: Order, lots: int, now: int)
      requires lots > 0 && order.execLots <= lots <= order.lots && order.minLots <= lots
      requires Valid() && (order.level != null ==> order in orders && order.lots - lots <= order.resdLots)
      modifies this`levels, this`orders, this`book, order, levels
      ensures Valid() && order.Data() == Revised(old(order.Data()), lots, now)
      ensures order.level != null <==> old(order.level) != null && old(order.lots) - lots < old(order.resdLots)
      ensures var b := old(book); if old(order.level) == null then book == b else
        var q := Where(b.orders, order);
        PlaceOf(b.levels, order.Key()) < |b.levels| && book == AfterReducing(b, q, old(order.lots) - lots)
    {
      hide Agree, PlaceOf, Reduced, Withdrawn, Shows;
      var level := order.level;
      if level != null {
        var delta := order.lots - lots;
        ReduceLevel(level, order, delta);
      }
      order.Revise(lots, now);
    }
  }

  lemma ListsSpliced(os: seq<Order>, es: seq<Entry>, p: nat, o: Order)
    requires Lists(os, es) && p <= |os|
    ensures Lists(Spliced(os, p, o), Spliced(es, p, EntryOf(o)))
  {
    SplicedParts(os, p, o);
    SplicedParts(es, p, EntryOf(o));
  }

  lemma ListsRemoved(os: seq<Order>, es: seq<Entry>, p: nat)
    requires Lists(os, es) && p < |os|
    ensures Lists(Removed(os, p), Removed(es, p))
  {
    RemovedParts(os, p);
    RemovedParts(es, p);
  }

  lemma InsertedMembers(b: Book<Order>, order: Order, e: Entry)
    requires BookOk(b)
    ensures forall o :: o in Inserted(b, order, e).orders <==> o in b.orders || o == order
  {
    SplicedParts(b.orders, Upper(b.entries, e.key), order);
  }

  /** What changes when a listed order loses some of its lots, and what does not. */
  lemma ReducedParts(b: Book<Order>, q: nat, delta: int)
    requires BookOk(b) && q < |b.orders| && delta < b.entries[q].lots
    ensures Ordered(b.levels) && PlaceOf(b.levels, b.entries[q].key) < |b.levels| && BookOk(Reduced(b, q, delta))
    ensures var z, i := Reduced(b, q, delta), PlaceOf(b.levels, b.entries[q].key);
      && z.orders == b.orders && z.levels == b.levels[i := b.levels[i].(lots := b.levels[i].lots - delta)]
      && z.entries == b.entries[q := Entry(b.entries[q].key, b.entries[q].lots - delta)]
    ensures forall j :: 0 <= j < |b.orders| && j != q ==> b.orders[j] != b.orders[q]
  {
    LevelOfListed(b, q);
    ReducedKeeps(b, q, delta);
  }

  lemma WithdrawnMembers(b: Book<Order>, q: nat)
    requires BookOk(b) && q < |b.orders|
    ensures PlaceOf(b.levels, b.entries[q].key) < |b.levels|
    ensures forall o :: o in Withdrawn(b, q).orders <==> o in b.orders && o != b.orders[q]
  {
    LevelOfListed(b, q);
    RemovedParts(b.orders, q);
    RemovedStaysDistinct(b.orders, q);
  }

  lemma LevelsDistinct(ls: seq<Level>, vs: seq<LevelView<Order>>)
    requires Shows(ls, vs) && Ordered(vs)
    ensures forall i, j :: 0 <= i < j < |ls| ==> ls[i] != ls[j]
    ensures forall l, m :: l in ls && m in ls && l.key == m.key ==> l == m
  {
    forall i, j | 0 <= i < j < |ls| ensures ls[i].key != ls[j].key {
      assert vs[i].key < vs[j].key;
    }
  }

  /** The first order of the level behind a new order's is in the list. */
  lemma FirstIsListed(b: Book<Order>, i: nat, found: bool, e: Entry, o: Order)
    requires BookOk(b) && At(b.levels, i, e.key) && found == FoundAt(b.levels, i, e.key)
    requires i + 1 < |Joined(b.levels, i, found, e, o)|
    ensures Joined(b.levels, i, found, e, o)[i + 1].first in b.orders
  {
    var n := if found then i + 1 else i;
    if !found { SplicedParts(b.levels, i, LevelView(e.key, e.lots, 1, o)); }
    assert Right(b.levels[n], b.orders, b.entries);
  }
}
