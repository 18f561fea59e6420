/**
 * The matching algorithm of OrderBook (src/order_book.cpp:54-112) on book
 * values: one pairing step (try_match_orders), the drain of two head queues
 * (match_orders_at_price), the outer loop as written (match_orders) and the
 * variant that erases emptied head levels inside the loop.
 */
module Matching {
  import opened Options
  import opened Orders
  import opened Ladders

  /** std::min on the two quantities. */
  function Min(x: int, y: int): (m: int)
    ensures m <= x && m <= y
    ensures m == x || m == y
  {
    if x <= y then x else y
  }

  /** The engine's state as a value: both sides and total_matches_. */
  datatype Book = Book(bids: Ladder, asks: Ladder, matches: int)

  /** The guard of the outer matching loop: both sides non-empty and best bid >= best ask. */
  predicate Crossed(b: Book) {
    b.bids != [] && b.asks != [] && b.bids[0].price >= b.asks[0].price
  }

  /** All quantities of a queue are positive. */
  predicate Positive(q: seq<Order>) {
    forall i :: 0 <= i < |q| ==> q[i].quantity > 0
  }

  /**
   * try_match_orders on the head queues bq (best bid level) and aq (best ask
   * level): both head orders lose min of their quantities, and a head whose
   * quantity is then zero is erased from the front of its queue.
   */
  function Pair(bq: seq<Order>, aq: seq<Order>): (r: (seq<Order>, seq<Order>))
    requires bq != [] && aq != []
    ensures |r.0| + |r.1| < |bq| + |aq|
  {
    var fill := Min(bq[0].quantity, aq[0].quantity);
    var bid := bq[0].SetQuantity(bq[0].quantity - fill);
    var ask := aq[0].SetQuantity(aq[0].quantity - fill);
    (if bid.quantity == 0 then bq[1..] else [bid] + bq[1..],
     if ask.quantity == 0 then aq[1..] else [ask] + aq[1..])
  }

  /**
   * One pairing step on positive heads: the fill is positive, neither head
   * goes negative, exactly the heads that reach zero are popped, and a
   * surviving head keeps its place with the fill taken off.
   */
  lemma PairStep(bq: seq<Order>, aq: seq<Order>)
    requires bq != [] && aq != [] && bq[0].quantity > 0 && aq[0].quantity > 0
    ensures var fill := Min(bq[0].quantity, aq[0].quantity);
            var r := Pair(bq, aq);
            && fill > 0
            && (r.0 == bq[1..] <==> bq[0].quantity == fill)
            && (r.1 == aq[1..] <==> aq[0].quantity == fill)
            && (r.0 != bq[1..] ==> r.0 == [bq[0].SetQuantity(bq[0].quantity - fill)] + bq[1..] && r.0[0].quantity > 0)
            && (r.1 != aq[1..] ==> r.1 == [aq[0].SetQuantity(aq[0].quantity - fill)] + aq[1..] && r.1[0].quantity > 0)
  {
  }

  /** A pairing step takes the same quantity, the fill, off both queues. */
  lemma PairConserves(bq: seq<Order>, aq: seq<Order>)
    requires bq != [] && aq != []
    ensures var fill := Min(bq[0].quantity, aq[0].quantity);
            var r := Pair(bq, aq);
            SumQty(bq) - SumQty(r.0) == fill && SumQty(aq) - SumQty(r.1) == fill
  {
    var fill := Min(bq[0].quantity, aq[0].quantity);
    var bid := bq[0].SetQuantity(bq[0].quantity - fill);
    var ask := aq[0].SetQuantity(aq[0].quantity - fill);
    assert ([bid] + bq[1..])[1..] == bq[1..];
    assert ([ask] + aq[1..])[1..] == aq[1..];
  }

  /**
   * match_orders_at_price's inner loop: pair the heads until one queue is
   * empty. The result holds both remaining queues and the number of pairing
   * steps, each of which increments total_matches_.
   */
  function Drain(bq: seq<Order>, aq: seq<Order>): (r: (seq<Order>, seq<Order>, nat))
    ensures r.0 == [] || r.1 == []
    ensures |r.0| <= |bq| && |r.1| <= |aq|
    ensures bq != [] && aq != [] ==> 1 <= r.2 <= |bq| + |aq| - |r.0| - |r.1|
    ensures bq == [] || aq == [] ==> r == (bq, aq, 0)
    decreases |bq| + |aq|
  {
    if bq == [] || aq == [] then (bq, aq, 0)
    else
      var p := Pair(bq, aq);
      var d := Drain(p.0, p.1);
      (d.0, d.1, d.2 + 1)
  }

  /** One pairing step followed by the rest of the drain is the whole drain. */
  lemma DrainStep(bq: seq<Order>, aq: seq<Order>)
    requires bq != [] && aq != []
    ensures var p := Pair(bq, aq);
            var d := Drain(p.0, p.1);
            Drain(bq, aq) == (d.0, d.1, d.2 + 1)
  {
  }

  /** Draining removes equal quantities from the two queues. */
  lemma {:induction false} DrainConserves(bq: seq<Order>, aq: seq<Order>)
    ensures var r := Drain(bq, aq); SumQty(bq) - SumQty(r.0) == SumQty(aq) - SumQty(r.1)
    decreases |bq| + |aq|
  {
    if bq != [] && aq != [] {
      var p := Pair(bq, aq);
      PairConserves(bq, aq);
      DrainConserves(p.0, p.1);
    }
  }

  /**
   * What is left of queue q after fills from its front: a suffix of q whose
   * first order may have been partly filled (same order, smaller positive
   * quantity). This is time priority within a price level.
   */
  predicate FilledFromFront(q: seq<Order>, q': seq<Order>) {
    && |q'| <= |q|
    && (q' != [] ==>
          var k := |q| - |q'|;
          && q'[1..] == q[k + 1..]
          && q'[0] == q[k].SetQuantity(q'[0].quantity)
          && 0 < q'[0].quantity <= q[k].quantity)
  }

  lemma FilledFromFrontTrans(q: seq<Order>, q1: seq<Order>, q2: seq<Order>)
    requires FilledFromFront(q, q1) && FilledFromFront(q1, q2)
    ensures FilledFromFront(q, q2)
  {
    if q2 != [] {
      var k1, k2 := |q| - |q1|, |q1| - |q2|;
      if k2 > 0 {
        assert q1[k2] == q1[1..][k2 - 1] == q[k1 + k2];
        assert q1[k2 + 1..] == q1[1..][k2..] == q[k1 + 1..][k2..];
        assert q[k1 + 1..][k2..] == q[k1 + k2 + 1..];
      }
    }
  }

  lemma PairFilledFromFront(bq: seq<Order>, aq: seq<Order>)
    requires bq != [] && aq != [] && Positive(bq) && Positive(aq)
    ensures FilledFromFront(bq, Pair(bq, aq).0) && FilledFromFront(aq, Pair(bq, aq).1)
  {
    PairStep(bq, aq);
  }

  lemma FilledFromFrontPositive(q: seq<Order>, q': seq<Order>)
    requires Positive(q) && FilledFromFront(q, q')
    ensures Positive(q')
  {
    var k := |q| - |q'|;
    forall i | 0 <= i < |q'| ensures q'[i].quantity > 0 {
      if i > 0 {
        assert q'[i] == q'[1..][i - 1] == q[k + 1..][i - 1] == q[k + i];
      }
    }
  }

  /**
   * Price-time priority inside a level: after draining, each queue is what
   * fills from its front leave of it, with positive quantities only.
   */
  lemma {:induction false} DrainFifo(bq: seq<Order>, aq: seq<Order>)
    requires Positive(bq) && Positive(aq)
    ensures FilledFromFront(bq, Drain(bq, aq).0) && FilledFromFront(aq, Drain(bq, aq).1)
    ensures Positive(Drain(bq, aq).0) && Positive(Drain(bq, aq).1)
    decreases |bq| + |aq|
  {
    if bq == [] || aq == [] {
      if bq != [] {
        assert bq[1..] == bq[0 + 1..];
        assert bq[0] == bq[0].SetQuantity(bq[0].quantity);
      }
      if aq != [] {
        assert aq[1..] == aq[0 + 1..];
        assert aq[0] == aq[0].SetQuantity(aq[0].quantity);
      }
    } else {
      var p := Pair(bq, aq);
      PairFilledFromFront(bq, aq);
      FilledFromFrontPositive(bq, p.0);
      FilledFromFrontPositive(aq, p.1);
      DrainFifo(p.0, p.1);
      FilledFromFrontTrans(bq, p.0, Drain(bq, aq).0);
      FilledFromFrontTrans(aq, p.1, Drain(bq, aq).1);
    }
  }

  /** Fills from the front keep a queue's price and side. */
  lemma FilledFromFrontQueueOk(s: Side, p: Price, q: seq<Order>, q': seq<Order>)
    requires QueueOk(s, p, q) && FilledFromFront(q, q')
    ensures QueueOk(s, p, q')
  {
    var k := |q| - |q'|;
    forall i | 0 <= i < |q'| ensures q'[i].IsValid() && q'[i].price == p && q'[i].isBuy == (s == Bid) {
      if i > 0 {
        assert q'[i] == q'[1..][i - 1] == q[k + 1..][i - 1] == q[k + i];
      }
    }
  }

  /**
   * match_orders_at_price: drains the head queues of both sides in place.
   * The levels themselves stay, even when their queues are now empty.
   */
  function MatchAtPrice(b: Book): (r: Book)
    requires b.bids != [] && b.asks != []
    ensures |r.bids| == |b.bids| && |r.asks| == |b.asks|
    ensures r.bids[0].price == b.bids[0].price && r.asks[0].price == b.asks[0].price
    ensures r.bids[1..] == b.bids[1..] && r.asks[1..] == b.asks[1..]
    ensures r.bids[0].orders == [] || r.asks[0].orders == []
    ensures r.matches >= b.matches
  {
    var d := Drain(b.bids[0].orders, b.asks[0].orders);
    Book([b.bids[0].(orders := d.0)] + b.bids[1..], [b.asks[0].(orders := d.1)] + b.asks[1..], b.matches + d.2)
  }

  /** remove_empty_price_levels on both sides. */
  function RemoveEmpty(b: Book): (r: Book)
    ensures NoEmptyLevels(r.bids) && NoEmptyLevels(r.asks) && r.matches == b.matches
  {
    Book(NonEmptyLevels(b.bids), NonEmptyLevels(b.asks), b.matches)
  }

  /**
   * match_orders as written (src/order_book.cpp:54-66). The loop does not
   * terminate on a crossed book, so it is given a bound on its iterations:
   * None means the loop is still running when the bound is used up.
   */
  function MatchOrdersAsWritten(b: Book, fuel: nat): (r: Option<Book>)
    ensures r.Some? ==> NoEmptyLevels(r.value.bids) && NoEmptyLevels(r.value.asks) && r.value.matches >= b.matches
    decreases fuel
  {
    if fuel == 0 then None
    else if b.bids != [] && b.asks != [] && b.bids[0].price >= b.asks[0].price then
      MatchOrdersAsWritten(MatchAtPrice(b), fuel - 1)
    else Some(RemoveEmpty(b))
  }

  /**
   * After one pass of the inner loop on a crossed book, the book is still
   * crossed (the emptied level keeps its key) and a further pass changes
   * nothing: the outer loop is at a fixpoint with its guard true.
   */
  lemma AsWrittenStuckAfterOnePass(b: Book)
    requires Crossed(b)
    ensures Crossed(MatchAtPrice(b))
    ensures MatchAtPrice(MatchAtPrice(b)) == MatchAtPrice(b)
  {
    var m := MatchAtPrice(b);
    assert [m.bids[0]] + m.bids[1..] == m.bids;
    assert [m.asks[0]] + m.asks[1..] == m.asks;
  }

  /** As written, match_orders never returns once the book is crossed, whatever the bound. */
  lemma {:induction false} AsWrittenHangsWhenCrossed(b: Book, fuel: nat)
    requires Crossed(b)
    ensures MatchOrdersAsWritten(b, fuel) == None
    decreases fuel
  {
    if fuel > 0 {
      AsWrittenStuckAfterOnePass(b);
      AsWrittenHangsWhenCrossed(MatchAtPrice(b), fuel - 1);
    }
  }

  /**
   * As written, match_orders returns exactly when the book is not crossed
   * on entry, and then it has matched nothing: it only drops empty levels.
   */
  lemma AsWrittenReturnsIff(b: Book, fuel: nat)
    ensures MatchOrdersAsWritten(b, fuel).Some? <==> fuel > 0 && !Crossed(b)
    ensures MatchOrdersAsWritten(b, fuel).Some? ==> MatchOrdersAsWritten(b, fuel).value == RemoveEmpty(b)
  {
    if Crossed(b) {
      AsWrittenHangsWhenCrossed(b, fuel);
    }
  }

  /**
   * The MatchOrders test (tests/main_test.cpp:29-41): after buy(1, 100, 10)
   * rests, add_order(sell(2, 100, 5)) pushes the ask and calls match_orders
   * on a crossed book, which never returns.
   */
  lemma MatchOrdersTestHangs(fuel: nat)
    ensures var buy := Order(1, 100.0, 10, true, 0);
            var sell := Order(2, 100.0, 5, false, 0);
            var b := Book(PushBack(Bid, [], buy), PushBack(Ask, [], sell), 0);
            Crossed(b) && MatchOrdersAsWritten(b, fuel) == None
  {
    var b := Book([Level(100.0, [Order(1, 100.0, 10, true, 0)])], [Level(100.0, [Order(2, 100.0, 5, false, 0)])], 0);
    AsWrittenHangsWhenCrossed(b, fuel);
  }

  /** A side with its head level dropped when that level's queue is empty. */
  function DropEmptyHead(l: Ladder): (r: Ladder)
    ensures r == l || (l != [] && l[0].orders == [] && r == l[1..])
  {
    if l != [] && l[0].orders == [] then l[1..] else l
  }

  /**
   * One pass of the intended outer loop: match_orders_at_price, then erase
   * whichever head level it emptied (a deviation from the source, which
   * erases empty levels only after the loop).
   */
  function IntendedPass(b: Book): (r: Book)
    requires Crossed(b)
    ensures |r.bids| + |r.asks| < |b.bids| + |b.asks|
    ensures r.matches >= b.matches
  {
    var m := MatchAtPrice(b);
    Book(DropEmptyHead(m.bids), DropEmptyHead(m.asks), m.matches)
  }

  /**
   * The intended outer loop: passes while the book is crossed. It always
   * terminates, since every pass erases at least one level, and it stops
   * on an uncrossed book.
   */
  function MatchIntended(b: Book): (r: Book)
    ensures !Crossed(r)
    ensures r.matches >= b.matches
    decreases |b.bids| + |b.asks|
  {
    if Crossed(b) then MatchIntended(IntendedPass(b)) else b
  }

  /** The intended match_orders: the loop, then remove_empty_price_levels. */
  function Settle(b: Book): (r: Book)
    ensures NoEmptyLevels(r.bids) && NoEmptyLevels(r.asks) && r.matches >= b.matches
  {
    RemoveEmpty(MatchIntended(b))
  }

  /** Both sides well formed. */
  predicate BookOk(b: Book) {
    LadderOk(Bid, b.bids) && LadderOk(Ask, b.asks)
  }

  /** The book at rest: well formed, no empty level, not crossed. */
  predicate Settled(b: Book) {
    BookOk(b) && NoEmptyLevels(b.bids) && NoEmptyLevels(b.asks) && !Crossed(b)
  }

  lemma DropEmptyHeadOk(s: Side, l: Ladder)
    requires LadderOk(s, l)
    ensures LadderOk(s, DropEmptyHead(l))
  {
  }

  /** A head queue replaced by what fills from its front leave of it keeps the side well formed. */
  lemma ReplaceHeadOk(s: Side, l: Ladder, q': seq<Order>)
    requires LadderOk(s, l) && l != [] && FilledFromFront(l[0].orders, q')
    ensures LadderOk(s, [l[0].(orders := q')] + l[1..])
  {
    var l' := [l[0].(orders := q')] + l[1..];
    FilledFromFrontQueueOk(s, l[0].price, l[0].orders, q');
    forall i | 0 <= i < |l'| ensures QueueOk(s, l'[i].price, l'[i].orders) {
      if i > 0 {
        assert l'[i] == l[i];
      }
    }
    forall i, j | 0 <= i < j < |l'| ensures Before(s, l'[i].price, l'[j].price) {
      assert l'[j] == l[j];
      if i > 0 {
        assert l'[i] == l[i];
      }
    }
  }

  /** A pass of the intended loop keeps both sides well formed. */
  lemma IntendedPassOk(b: Book)
    requires BookOk(b) && Crossed(b)
    ensures BookOk(IntendedPass(b))
  {
    var bq, aq := b.bids[0].orders, b.asks[0].orders;
    assert QueueOk(Bid, b.bids[0].price, bq) && QueueOk(Ask, b.asks[0].price, aq);
    assert Positive(bq) && Positive(aq);
    DrainFifo(bq, aq);
    var m := MatchAtPrice(b);
    ReplaceHeadOk(Bid, b.bids, m.bids[0].orders);
    ReplaceHeadOk(Ask, b.asks, m.asks[0].orders);
    assert m.bids == [b.bids[0].(orders := m.bids[0].orders)] + b.bids[1..];
    assert m.asks == [b.asks[0].(orders := m.asks[0].orders)] + b.asks[1..];
  }

  /**
   * A pass takes as much volume off the bid side as off the ask side: fills
   * always pair equal quantities.
   */
  lemma IntendedPassConserves(b: Book)
    requires Crossed(b)
    ensures Volume(b.bids) - Volume(IntendedPass(b).bids) == Volume(b.asks) - Volume(IntendedPass(b).asks)
  {
    var bq, aq := b.bids[0].orders, b.asks[0].orders;
    DrainConserves(bq, aq);
    var m := MatchAtPrice(b);
    assert Volume(m.bids) == SumQty(m.bids[0].orders) + Volume(b.bids[1..]);
    assert Volume(m.asks) == SumQty(m.asks[0].orders) + Volume(b.asks[1..]);
  }

  lemma {:induction false} MatchIntendedOk(b: Book)
    requires BookOk(b)
    ensures BookOk(MatchIntended(b))
    decreases |b.bids| + |b.asks|
  {
    if Crossed(b) {
      IntendedPassOk(b);
      MatchIntendedOk(IntendedPass(b));
    }
  }

  lemma {:induction false} MatchIntendedConserves(b: Book)
    ensures Volume(b.bids) - Volume(MatchIntended(b).bids) == Volume(b.asks) - Volume(MatchIntended(b).asks)
    decreases |b.bids| + |b.asks|
  {
    if Crossed(b) {
      IntendedPassConserves(b);
      MatchIntendedConserves(IntendedPass(b));
    }
  }

  /**
   * The intended match_orders leaves the book at rest: both sides well
   * formed, no empty level, and either a side empty or best bid < best ask.
   */
  lemma SettleSettles(b: Book)
    requires BookOk(b)
    ensures Settled(Settle(b))
  {
    var r := MatchIntended(b);
    MatchIntendedOk(b);
    NonEmptyLevelsKeepsShape(Bid, r.bids);
    NonEmptyLevelsKeepsShape(Ask, r.asks);
    var s := Settle(b);
    if s.bids != [] && s.asks != [] {
      NonEmptyLevelsHead(Bid, r.bids);
      NonEmptyLevelsHead(Ask, r.asks);
    }
  }

  /** Matching takes equal volume off both sides (conservation of quantity across fills). */
  lemma SettleConserves(b: Book)
    ensures Volume(b.bids) - Volume(Settle(b).bids) == Volume(b.asks) - Volume(Settle(b).asks)
  {
    MatchIntendedConserves(b);
    NonEmptyLevelsVolume(MatchIntended(b).bids);
    NonEmptyLevelsVolume(MatchIntended(b).asks);
  }

  /**
   * On a book without empty levels, the match counter grows exactly when
   * the book was crossed.
   */
  lemma SettleCounts(b: Book)
    requires NoEmptyLevels(b.bids) && NoEmptyLevels(b.asks)
    ensures Settle(b).matches >= b.matches
    ensures Settle(b).matches > b.matches <==> Crossed(b)
  {
    if Crossed(b) {
      assert IntendedPass(b).matches > b.matches;
    }
  }

  /** Matching a book that is already at rest changes nothing. */
  lemma SettleIdle(b: Book)
    requires Settled(b)
    ensures Settle(b) == b
  {
    NonEmptyLevelsKeepsExactly(b.bids);
    NonEmptyLevelsKeepsExactly(b.asks);
  }

  /**
   * Where the source's match_orders does return (an uncrossed book), the
   * intended variant gives the same book.
   */
  lemma IntendedAgreesWhereSourceReturns(b: Book)
    requires !Crossed(b)
    ensures MatchOrdersAsWritten(b, 1) == Some(Settle(b))
  {
  }
}
