/**
 * The OrderBook class (include/order_book.hpp, src/order_book.cpp): two
 * sides updated in place, the match counter and the latency samples.
 * Every method is proved against the value model of the Ladders, Matching
 * and Cancelling modules.
 */
module Engine {
  import opened Orders
  import opened Ladders
  import opened Matching
  import opened Cancelling

  /** add_order's push_back into the order's own side, before matching. */
  function Insert(b: Book, o: Order): (r: Book)
    ensures r.matches == b.matches
    ensures o.isBuy ==> r.asks == b.asks && r.bids == PushBack(Bid, b.bids, o)
    ensures !o.isBuy ==> r.bids == b.bids && r.asks == PushBack(Ask, b.asks, o)
  {
    if o.isBuy then b.(bids := PushBack(Bid, b.bids, o)) else b.(asks := PushBack(Ask, b.asks, o))
  }

  /** add_order on book values, with matching as it is meant to work. */
  function Add(b: Book, o: Order): (r: Book)
    ensures o.IsValid() ==> NoEmptyLevels(r.bids) && NoEmptyLevels(r.asks) && r.matches >= b.matches
    ensures !o.IsValid() ==> r == b
  {
    if o.IsValid() then Settle(Insert(b, o)) else b
  }

  /**
   * Inserting a valid order into a book at rest and matching leaves the book
   * at rest; the volume the order brings is either resting or matched
   * against an equal volume of the other side.
   */
  lemma AddKeepsSettled(b: Book, o: Order)
    requires Settled(b) && o.IsValid()
    ensures Settled(Add(b, o))
    ensures var r := Add(b, o);
            var bidIn := if o.isBuy then o.quantity else 0;
            var askIn := if o.isBuy then 0 else o.quantity;
            Volume(b.bids) + bidIn - Volume(r.bids) == Volume(b.asks) + askIn - Volume(r.asks)
  {
    var i := Insert(b, o);
    if o.isBuy {
      PushBackLadderOk(Bid, b.bids, o);
      PushBackVolume(Bid, b.bids, o);
    } else {
      PushBackLadderOk(Ask, b.asks, o);
      PushBackVolume(Ask, b.asks, o);
    }
    SettleSettles(i);
    SettleConserves(i);
  }

  /**
   * The MatchOrders test with matching as intended: after buy(1, 100, 10)
   * and sell(2, 100, 5), bid volume 5 rests, no ask rests, and one match
   * was counted.
   */
  lemma MatchOrdersTestIntended()
    ensures var buy, sell := Order(1, 100.0, 10, true, 0), Order(2, 100.0, 5, false, 0);
            var b := Add(Add(Book([], [], 0), buy), sell);
            Volume(b.bids) == 5 && Volume(b.asks) == 0 && b.matches == 1
  {
    var buy, sell := Order(1, 100.0, 10, true, 0), Order(2, 100.0, 5, false, 0);
    var b1 := Add(Book([], [], 0), buy);
    assert b1 == Book([Level(100.0, [buy])], [], 0);
    var i := Insert(b1, sell);
    assert i == Book([Level(100.0, [buy])], [Level(100.0, [sell])], 0);
    var left := buy.SetQuantity(5);
    assert Min(10, 5) == 5;
    assert [buy][1..] == [] && [sell][1..] == [];
    assert Pair([buy], [sell]) == ([left] + [], []);
    assert [left] + [] == [left];
    assert Drain([left], []) == ([left], [], 0);
    DrainStep([buy], [sell]);
    assert Drain([buy], [sell]) == ([left], [], 1);
    var p := IntendedPass(i);
    assert p == Book([Level(100.0, [left])], [], 1);
    assert MatchIntended(i) == p;
    assert Settle(i) == p;
    assert SumQty([left]) == 5;
  }

  /** The accumulator loop of get_bid_volume / get_ask_volume over one side. */
  method SideVolume(l: Ladder) returns (volume: int)
    ensures volume == Volume(l)
  {
    volume := 0;
    var i := 0;
    while i < |l|
      invariant 0 <= i <= |l|
      invariant volume == Volume(l[..i])
    {
      var orders := l[i].orders;
      var j := 0;
      while j < |orders|
        invariant 0 <= j <= |orders|
        invariant volume == Volume(l[..i]) + SumQty(orders[..j])
      {
        SumQtyAppend(orders[..j], [orders[j]]);
        assert orders[..j + 1] == orders[..j] + [orders[j]];
        volume := volume + orders[j].quantity;
        j := j + 1;
      }
      assert orders[..j] == orders;
      VolumeAppend(l[..i], [l[i]]);
      assert l[..i + 1] == l[..i] + [l[i]];
      i := i + 1;
    }
    assert l[..i] == l;
  }

  /** The erase-while-iterating loop of remove_empty_price_levels over one side. */
  method EraseEmptyLevels(l: Ladder) returns (r: Ladder)
    ensures r == NonEmptyLevels(l)
  {
    r := l;
    var i := 0;
    while i < |r|
      invariant 0 <= i <= |r|
      invariant NonEmptyLevels(r) == NonEmptyLevels(l)
      invariant NoEmptyLevels(r[..i])
      decreases |r| - i
    {
      if r[i].orders == [] {
        NonEmptyLevelsSkip(r, i);
        assert (r[..i] + r[i + 1..])[..i] == r[..i];
        r := r[..i] + r[i + 1..];
      } else {
        assert r[..i + 1] == r[..i] + [r[i]];
        i := i + 1;
      }
    }
    assert r[..i] == r;
    NonEmptyLevelsKeepsExactly(r);
  }

  class OrderBook {
    /** bids_: highest price first. */
    var bids: Ladder
    /** asks_: lowest price first. */
    var asks: Ladder
    /** total_matches_: one per pairing step. */
    var totalMatches: int
    /** execution_latencies_: one sample per accepted add_order. */
    var latencies: seq<int>

    function State(): Book
      reads this
    {
      Book(bids, asks, totalMatches)
    }

    /** The book at rest, as every public operation leaves it. */
    ghost predicate Valid()
      reads this
    {
      Settled(State())
    }

    constructor ()
      ensures Valid()
      ensures bids == [] && asks == [] && totalMatches == 0 && latencies == []
    {
      bids, asks := [], [];
      totalMatches := 0;
      latencies := [];
    }

    /**
     * add_order: an invalid order is refused and nothing changes; a valid one
     * goes to the back of its price level on its own side, the book is
     * matched, and one latency sample (the elapsed time the caller measured)
     * is recorded.
     */
    method AddOrder(order: Order, elapsed: int) returns (accepted: bool)
      requires Valid()
      modifies this
      ensures Valid()
      ensures accepted == order.IsValid()
      ensures !accepted ==> State() == old(State()) && latencies == old(latencies)
      ensures accepted ==> State() == Settle(Insert(old(State()), order))
      ensures accepted ==> latencies == old(latencies) + [elapsed]
    {
      if !order.IsValid() {
        return false;
      }
      if order.isBuy {
        PushBackLadderOk(Bid, bids, order);
        bids := PushBack(Bid, bids, order);
      } else {
        PushBackLadderOk(Ask, asks, order);
        asks := PushBack(Ask, asks, order);
      }
      MatchOrders();
      latencies := latencies + [elapsed];
      return true;
    }

    /**
     * cancel_order: bids from the highest price, then asks from the lowest;
     * the first order with the id is erased, and its level if it empties.
     * False, and no change, when no resting order has the id.
     */
    method CancelOrder(id: int) returns (found: bool)
      requires Valid()
      modifies this
      ensures Valid()
      ensures found == Cancel(old(State()), id).Some?
      ensures State() == if found then Cancel(old(State()), id).value else old(State())
      ensures latencies == old(latencies)
    {
      var removed, side := RemoveFromSide(bids, id);
      if removed {
        CancelKeepsSettled(State(), id);
        bids := side;
        return true;
      }
      removed, side := RemoveFromSide(asks, id);
      if removed {
        CancelKeepsSettled(State(), id);
        asks := side;
        return true;
      }
      return false;
    }

    /**
     * match_orders with its loop corrected: each pass erases the head levels
     * it emptied, so the loop ends, and it ends on an uncrossed book. The
     * source's own loop never ends once the book is crossed (see
     * Matching.MatchOrdersAsWritten).
     */
    method MatchOrders()
      requires BookOk(State())
      modifies this
      ensures Valid()
      ensures State() == Settle(old(State()))
      ensures latencies == old(latencies)
    {
      while bids != [] && asks != []
        invariant BookOk(State())
        invariant MatchIntended(State()) == MatchIntended(old(State()))
        invariant latencies == old(latencies)
        decreases |bids| + |asks|
      {
        if bids[0].price >= asks[0].price {
          ghost var before := State();
          IntendedPassOk(before);
          MatchOrdersAtPrice();
          // Deviation from the source: erase the emptied head levels here.
          if bids[0].orders == [] {
            bids := bids[1..];
          }
          if asks[0].orders == [] {
            asks := asks[1..];
          }
          assert State() == IntendedPass(before);
        } else {
          break;
        }
      }
      RemoveEmptyPriceLevels();
      SettleSettles(old(State()));
    }

    /**
     * match_orders_at_price: pair the two head queues until one is empty,
     * counting one match per pairing. Emptied levels are left in place.
     */
    method MatchOrdersAtPrice()
      requires bids != [] && asks != []
      modifies this
      ensures State() == MatchAtPrice(old(State()))
      ensures latencies == old(latencies)
    {
      ghost var b0, a0 := bids[0], asks[0];
      ghost var bRest, aRest := bids[1..], asks[1..];
      ghost var d0 := Drain(b0.orders, a0.orders);
      ghost var bq, aq := b0.orders, a0.orders;
      assert bids == [b0] + bRest && asks == [a0] + aRest;
      while bids[0].orders != [] && asks[0].orders != []
        invariant bids != [] && asks != [] && bids[0].orders == bq && asks[0].orders == aq
        invariant bids == [b0.(orders := bq)] + bRest && asks == [a0.(orders := aq)] + aRest
        invariant latencies == old(latencies)
        invariant var d := Drain(bq, aq);
                  d0.0 == d.0 && d0.1 == d.1 && d0.2 == d.2 + totalMatches - old(totalMatches)
        decreases |bq| + |aq|
      {
        var matched := TryMatchOrders();
        DrainStep(bq, aq);
        bq, aq := Pair(bq, aq).0, Pair(bq, aq).1;
        totalMatches := totalMatches + 1;
      }
      assert Drain(bq, aq) == (bq, aq, 0);
      assert old(bids)[0] == b0 && old(bids)[1..] == bRest;
      assert old(asks)[0] == a0 && old(asks)[1..] == aRest;
    }

    /**
     * try_match_orders on the two head orders: both lose the smaller
     * quantity, and a head at zero is erased from the front of its queue.
     * It always reports a match, so the loop's break is never taken.
     */
    method TryMatchOrders() returns (matched: bool)
      requires bids != [] && asks != [] && bids[0].orders != [] && asks[0].orders != []
      modifies this
      ensures matched
      ensures var p := Pair(old(bids)[0].orders, old(asks)[0].orders);
              && bids == [old(bids)[0].(orders := p.0)] + old(bids)[1..]
              && asks == [old(asks)[0].(orders := p.1)] + old(asks)[1..]
      ensures totalMatches == old(totalMatches) && latencies == old(latencies)
    {
      var bidQueue, askQueue := bids[0].orders, asks[0].orders;
      var bid, ask := bidQueue[0], askQueue[0];
      var fill := Min(bid.quantity, ask.quantity);
      bid := bid.SetQuantity(bid.quantity - fill);
      ask := ask.SetQuantity(ask.quantity - fill);
      bidQueue := [bid] + bidQueue[1..];
      askQueue := [ask] + askQueue[1..];
      if bid.quantity == 0 {
        bidQueue := bidQueue[1..];
      }
      if ask.quantity == 0 {
        askQueue := askQueue[1..];
      }
      bids := [bids[0].(orders := bidQueue)] + bids[1..];
      asks := [asks[0].(orders := askQueue)] + asks[1..];
      matched := true;
    }

    /** remove_empty_price_levels: erase every level whose queue is empty, on both sides. */
    method RemoveEmptyPriceLevels()
      modifies this
      ensures State() == RemoveEmpty(old(State()))
      ensures latencies == old(latencies)
    {
      bids := EraseEmptyLevels(bids);
      asks := EraseEmptyLevels(asks);
    }

    /** get_best_bid: the highest bid price, or 0 when there are no bids. */
    function BestBid(): (p: Price)
      reads this
      requires Valid()
      ensures bids == [] ==> p == 0.0
      ensures bids != [] ==> p > 0.0 && p in OrderPrices(Flatten(bids))
      ensures forall i :: 0 <= i < |bids| ==> bids[i].price <= p
    {
      if bids == [] then 0.0
      else
        assert bids[0].orders[0] == Flatten(bids)[0];
        bids[0].price
    }

    /** get_best_ask: the lowest ask price, or 0 when there are no asks. */
    function BestAsk(): (p: Price)
      reads this
      requires Valid()
      ensures asks == [] ==> p == 0.0
      ensures asks != [] ==> p > 0.0 && p in OrderPrices(Flatten(asks))
      ensures forall i :: 0 <= i < |asks| ==> p <= asks[i].price
    {
      if asks == [] then 0.0
      else
        assert asks[0].orders[0] == Flatten(asks)[0];
        asks[0].price
    }

    /** get_spread: 0 when a side is empty, otherwise best ask - best bid, which is positive at rest. */
    function Spread(): (d: real)
      reads this
      requires Valid()
      ensures bids == [] || asks == [] ==> d == 0.0
      ensures bids != [] && asks != [] ==> d > 0.0 && d == BestAsk() - BestBid()
    {
      if bids == [] || asks == [] then 0.0 else BestAsk() - BestBid()
    }

    /** get_bid_volume: the sum of the quantities of all resting bids. */
    method BidVolume() returns (volume: int)
      ensures volume == Volume(bids) == SumQty(Flatten(bids))
      ensures Valid() ==> volume >= 0 && (volume == 0 <==> bids == [])
    {
      volume := SideVolume(bids);
      VolumeIsSumOfOrders(bids);
      if Valid() {
        VolumeSign(Bid, bids);
      }
    }

    /** get_ask_volume: the sum of the quantities of all resting asks. */
    method AskVolume() returns (volume: int)
      ensures volume == Volume(asks) == SumQty(Flatten(asks))
      ensures Valid() ==> volume >= 0 && (volume == 0 <==> asks == [])
    {
      volume := SideVolume(asks);
      VolumeIsSumOfOrders(asks);
      if Valid() {
        VolumeSign(Ask, asks);
      }
    }
  }

  /** The prices of a sequence of orders. */
  function OrderPrices(os: seq<Order>): set<Price> {
    set i | 0 <= i < |os| :: os[i].price
  }
}
