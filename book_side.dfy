/**
 * One side of the book (include/order_book.hpp:35-36): an ordered map from
 * price to the vector of orders resting at that price. Bids use
 * std::greater (highest price first), asks the default std::less (lowest
 * price first). The map is represented by its entries in iteration order,
 * so begin() is the first level and rbegin() the last.
 */
module Ladders {
  import opened Orders

  datatype Side = Bid | Ask

  /** The side's comparator: p sorts before q. */
  predicate Before(s: Side, p: Price, q: Price) {
    match s
    case Bid => p > q
    case Ask => p < q
  }

  /** A map entry: a price and its FIFO queue, front first. */
  datatype Level = Level(price: Price, orders: seq<Order>)

  /** A side: the map's entries in iteration order. */
  type Ladder = seq<Level>

  /** Entries strictly in comparator order, hence with distinct keys. */
  predicate Ordered(s: Side, l: Ladder) {
    forall i, j :: 0 <= i < j < |l| ==> Before(s, l[i].price, l[j].price)
  }

  /** Every price of l sorts strictly after p. */
  predicate AllAfter(s: Side, p: Price, l: Ladder) {
    forall i :: 0 <= i < |l| ==> Before(s, p, l[i].price)
  }

  /** A queue at price p on side s: each order is valid and has that price and that side. */
  predicate QueueOk(s: Side, p: Price, q: seq<Order>) {
    forall i :: 0 <= i < |q| ==> q[i].IsValid() && q[i].price == p && q[i].isBuy == (s == Bid)
  }

  /** The shape every side keeps: ordered keys, and each queue at its own price and side. */
  predicate LadderOk(s: Side, l: Ladder) {
    Ordered(s, l) && forall i :: 0 <= i < |l| ==> QueueOk(s, l[i].price, l[i].orders)
  }

  predicate NoEmptyLevels(l: Ladder) {
    forall i :: 0 <= i < |l| ==> l[i].orders != []
  }

  /** Keys in an ordered side are distinct and the first key is the side's best price. */
  lemma OrderedKeys(s: Side, l: Ladder)
    requires Ordered(s, l)
    ensures forall i, j :: 0 <= i < |l| && 0 <= j < |l| && i != j ==> l[i].price != l[j].price
    ensures l != [] ==> AllAfter(s, l[0].price, l[1..])
  {
  }

  /** The vector at key p, or the empty vector when p is absent (the map's lookup). */
  function OrdersAt(l: Ladder, p: Price): seq<Order> {
    if l == [] then []
    else if l[0].price == p then l[0].orders
    else OrdersAt(l[1..], p)
  }

  /** A key that sorts before every key of an ordered side is absent from it. */
  lemma {:induction false} AbsentBeforeHead(s: Side, l: Ladder, p: Price)
    requires Ordered(s, l) && AllAfter(s, p, l)
    ensures OrdersAt(l, p) == []
  {
    if l != [] {
      AbsentBeforeHead(s, l[1..], p);
    }
  }

  /**
   * `side[o.price].push_back(o)`: operator[] creates an empty vector when the
   * key is absent, then the order goes to the back of that vector.
   */
  function PushBack(s: Side, l: Ladder, o: Order): (r: Ladder)
    ensures |r| == |l| || |r| == |l| + 1
  {
    if l == [] then [Level(o.price, [o])]
    else if l[0].price == o.price then [Level(l[0].price, l[0].orders + [o])] + l[1..]
    else if Before(s, o.price, l[0].price) then [Level(o.price, [o])] + l
    else [l[0]] + PushBack(s, l[1..], o)
  }

  /** The order is appended to the tail of the queue at its price; every other key keeps its queue. */
  lemma {:induction false} PushBackAt(s: Side, l: Ladder, o: Order, p: Price)
    requires Ordered(s, l)
    ensures OrdersAt(PushBack(s, l, o), p) == if p == o.price then OrdersAt(l, p) + [o] else OrdersAt(l, p)
  {
    if l == [] {
    } else if l[0].price == o.price {
    } else if Before(s, o.price, l[0].price) {
      if p == o.price {
        AbsentBeforeHead(s, l, p);
      }
      assert ([Level(o.price, [o])] + l)[1..] == l;
    } else {
      PushBackAt(s, l[1..], o, p);
      assert ([l[0]] + PushBack(s, l[1..], o))[1..] == PushBack(s, l[1..], o);
    }
  }

  /** A bound that every key and the new price sort after still bounds the side after the push. */
  lemma {:induction false} PushBackAllAfter(s: Side, l: Ladder, o: Order, p: Price)
    requires AllAfter(s, p, l) && Before(s, p, o.price)
    ensures AllAfter(s, p, PushBack(s, l, o))
  {
    if l != [] && l[0].price != o.price && !Before(s, o.price, l[0].price) {
      PushBackAllAfter(s, l[1..], o, p);
    }
  }

  /** Pushing keeps the keys distinct and in comparator order. */
  lemma {:induction false} PushBackOrdered(s: Side, l: Ladder, o: Order)
    requires Ordered(s, l)
    ensures Ordered(s, PushBack(s, l, o))
  {
    if l == [] {
    } else if l[0].price == o.price {
    } else if Before(s, o.price, l[0].price) {
    } else {
      PushBackOrdered(s, l[1..], o);
      PushBackAllAfter(s, l[1..], o, l[0].price);
    }
  }

  /** Pushing an order of the side's own kind keeps every queue well formed. */
  lemma {:induction false} PushBackLadderOk(s: Side, l: Ladder, o: Order)
    requires LadderOk(s, l)
    requires o.IsValid() && o.isBuy == (s == Bid)
    ensures LadderOk(s, PushBack(s, l, o))
    ensures NoEmptyLevels(l) ==> NoEmptyLevels(PushBack(s, l, o))
  {
    PushBackOrdered(s, l, o);
    if l != [] && l[0].price != o.price && !Before(s, o.price, l[0].price) {
      PushBackLadderOk(s, l[1..], o);
    }
  }

  /** All orders of a side, level by level in iteration order, each queue front first. */
  function Flatten(l: Ladder): seq<Order> {
    if l == [] then [] else l[0].orders + Flatten(l[1..])
  }

  lemma {:induction false} FlattenAppend(a: Ladder, b: Ladder)
    ensures Flatten(a + b) == Flatten(a) + Flatten(b)
  {
    if a == [] {
      assert a + b == b;
    } else {
      var q, rest := a[0].orders, Flatten(a[1..]);
      assert (a + b)[1..] == a[1..] + b;
      calc {
        Flatten(a + b);
        q + Flatten(a[1..] + b);
        { FlattenAppend(a[1..], b); }
        q + (rest + Flatten(b));
        (q + rest) + Flatten(b);
      }
    }
  }

  /** Sum of the quantities of a queue. */
  function SumQty(q: seq<Order>): int {
    if q == [] then 0 else q[0].quantity + SumQty(q[1..])
  }

  lemma {:induction false} SumQtyAppend(a: seq<Order>, b: seq<Order>)
    ensures SumQty(a + b) == SumQty(a) + SumQty(b)
  {
    if a == [] {
      assert a + b == b;
    } else {
      SumQtyAppend(a[1..], b);
      assert (a + b)[1..] == a[1..] + b;
    }
  }

  /** A queue of positive quantities has a non-negative sum, zero only when empty. */
  lemma {:induction false} SumQtyPositive(s: Side, p: Price, q: seq<Order>)
    requires QueueOk(s, p, q)
    ensures SumQty(q) >= 0
    ensures SumQty(q) == 0 <==> q == []
  {
    if q != [] {
      SumQtyPositive(s, p, q[1..]);
    }
  }

  /** The side's volume: every resting order's quantity, summed level by level. */
  function Volume(l: Ladder): (v: int)
    ensures (forall i :: 0 <= i < |l| ==> SumQty(l[i].orders) >= 0) ==> v >= 0
  {
    if l == [] then 0 else SumQty(l[0].orders) + Volume(l[1..])
  }

  lemma {:induction false} VolumeAppend(a: Ladder, b: Ladder)
    ensures Volume(a + b) == Volume(a) + Volume(b)
  {
    if a == [] {
      assert a + b == b;
    } else {
      VolumeAppend(a[1..], b);
      assert (a + b)[1..] == a[1..] + b;
    }
  }

  /** The volume is the sum over all resting orders of the side. */
  lemma {:induction false} VolumeIsSumOfOrders(l: Ladder)
    ensures Volume(l) == SumQty(Flatten(l))
  {
    if l != [] {
      VolumeIsSumOfOrders(l[1..]);
      SumQtyAppend(l[0].orders, Flatten(l[1..]));
    }
  }

  /** Pushing an order adds exactly its quantity to the side's volume. */
  lemma {:induction false} PushBackVolume(s: Side, l: Ladder, o: Order)
    ensures Volume(PushBack(s, l, o)) == Volume(l) + o.quantity
  {
    assert SumQty([o]) == o.quantity;
    if l == [] {
    } else if l[0].price == o.price {
      SumQtyAppend(l[0].orders, [o]);
    } else if Before(s, o.price, l[0].price) {
      assert ([Level(o.price, [o])] + l)[1..] == l;
    } else {
      PushBackVolume(s, l[1..], o);
      assert ([l[0]] + PushBack(s, l[1..], o))[1..] == PushBack(s, l[1..], o);
    }
  }

  /** remove_empty_price_levels on one side: the non-empty levels, in their order. */
  function NonEmptyLevels(l: Ladder): (r: Ladder)
    ensures |r| <= |l|
    ensures NoEmptyLevels(r)
  {
    if l == [] then []
    else if l[0].orders == [] then NonEmptyLevels(l[1..])
    else [l[0]] + NonEmptyLevels(l[1..])
  }

  /**
   * The filter deletes exactly the empty levels: a level survives iff it
   * was there and non-empty, and a side without empty levels is untouched.
   */
  lemma {:induction false} NonEmptyLevelsKeepsExactly(l: Ladder)
    ensures forall lv :: lv in NonEmptyLevels(l) <==> lv in l && lv.orders != []
    ensures NoEmptyLevels(l) ==> NonEmptyLevels(l) == l
  {
    if l != [] {
      NonEmptyLevelsKeepsExactly(l[1..]);
      assert l == [l[0]] + l[1..];
    }
  }

  /** Dropping levels keeps every key after p. */
  lemma {:induction false} NonEmptyLevelsAllAfter(s: Side, p: Price, l: Ladder)
    requires AllAfter(s, p, l)
    ensures AllAfter(s, p, NonEmptyLevels(l))
  {
    if l != [] {
      NonEmptyLevelsAllAfter(s, p, l[1..]);
      if l[0].orders != [] {
        var r := NonEmptyLevels(l[1..]);
        forall k | 0 <= k < |r| + 1 ensures Before(s, p, ([l[0]] + r)[k].price) {
          if k > 0 {
            assert ([l[0]] + r)[k] == r[k - 1];
          }
        }
      }
    }
  }

  /** Putting a level in front of a side whose keys all sort after it keeps the side well formed. */
  lemma ConsLadderOk(s: Side, lv: Level, r: Ladder)
    requires LadderOk(s, r) && AllAfter(s, lv.price, r) && QueueOk(s, lv.price, lv.orders)
    ensures LadderOk(s, [lv] + r)
  {
    var r' := [lv] + r;
    forall i, j | 0 <= i < j < |r'| ensures Before(s, r'[i].price, r'[j].price) {
      assert r'[j] == r[j - 1];
      if i > 0 {
        assert r'[i] == r[i - 1];
      }
    }
    forall i | 0 <= i < |r'| ensures QueueOk(s, r'[i].price, r'[i].orders) {
      if i > 0 {
        assert r'[i] == r[i - 1];
      }
    }
  }

  /** Dropping levels keeps a side ordered and its queues well formed. */
  lemma {:induction false} NonEmptyLevelsKeepsShape(s: Side, l: Ladder)
    requires LadderOk(s, l)
    ensures LadderOk(s, NonEmptyLevels(l))
  {
    if l != [] {
      assert LadderOk(s, l[1..]) by {
        forall i | 0 <= i < |l| - 1 ensures QueueOk(s, l[1..][i].price, l[1..][i].orders) {
          assert l[1..][i] == l[i + 1];
        }
      }
      NonEmptyLevelsKeepsShape(s, l[1..]);
      if l[0].orders != [] {
        OrderedKeys(s, l);
        NonEmptyLevelsAllAfter(s, l[0].price, l[1..]);
        ConsLadderOk(s, l[0], NonEmptyLevels(l[1..]));
      }
    }
  }

  /** Dropping empty levels leaves the side's volume unchanged. */
  lemma {:induction false} NonEmptyLevelsVolume(l: Ladder)
    ensures Volume(NonEmptyLevels(l)) == Volume(l)
  {
    if l != [] {
      NonEmptyLevelsVolume(l[1..]);
      if l[0].orders != [] {
        assert ([l[0]] + NonEmptyLevels(l[1..]))[1..] == NonEmptyLevels(l[1..]);
      }
    }
  }

  /** After dropping levels, the new first key is the old one or sorts after it. */
  lemma NonEmptyLevelsHead(s: Side, l: Ladder)
    requires Ordered(s, l) && NonEmptyLevels(l) != []
    ensures NonEmptyLevels(l)[0].price == l[0].price || Before(s, l[0].price, NonEmptyLevels(l)[0].price)
  {
    var r := NonEmptyLevels(l);
    NonEmptyLevelsKeepsExactly(l);
    assert r[0] in l;
  }

  /** Merging two sides' worth of levels: the filter distributes over concatenation. */
  lemma {:induction false} NonEmptyLevelsAppend(a: Ladder, b: Ladder)
    ensures NonEmptyLevels(a + b) == NonEmptyLevels(a) + NonEmptyLevels(b)
  {
    if a == [] {
      assert a + b == b;
    } else {
      var ab := a + b;
      assert ab[0] == a[0] && ab[1..] == a[1..] + b;
      NonEmptyLevelsAppend(a[1..], b);
      if a[0].orders == [] {
        calc {
          NonEmptyLevels(ab);
          NonEmptyLevels(a[1..] + b);
          NonEmptyLevels(a[1..]) + NonEmptyLevels(b);
        }
      } else {
        calc {
          NonEmptyLevels(ab);
          [a[0]] + NonEmptyLevels(a[1..] + b);
          [a[0]] + NonEmptyLevels(a[1..]) + NonEmptyLevels(b);
        }
      }
    }
  }

  /** Erasing one empty level does not change which levels the filter keeps. */
  lemma NonEmptyLevelsSkip(l: Ladder, i: nat)
    requires i < |l| && l[i].orders == []
    ensures NonEmptyLevels(l[..i] + l[i + 1..]) == NonEmptyLevels(l)
  {
    var a, c := l[..i], l[i + 1..];
    var tail := [l[i]] + c;
    assert tail[0] == l[i] && tail[1..] == c;
    assert NonEmptyLevels(tail) == NonEmptyLevels(c);
    assert l == a + tail;
    NonEmptyLevelsAppend(a, tail);
    NonEmptyLevelsAppend(a, c);
  }

  /** A well-formed side without empty levels has a positive volume unless it is empty. */
  lemma {:induction false} VolumeSign(s: Side, l: Ladder)
    requires LadderOk(s, l) && NoEmptyLevels(l)
    ensures Volume(l) >= 0
    ensures Volume(l) == 0 <==> l == []
  {
    if l != [] {
      SumQtyPositive(s, l[0].price, l[0].orders);
      VolumeSign(s, l[1..]);
    }
  }

  /** The levels in reverse iteration order (the walk from rbegin() to rend()). */
  function Reversed(l: Ladder): (r: Ladder)
    ensures |r| == |l|
    ensures forall i :: 0 <= i < |l| ==> r[i] == l[|l| - 1 - i]
  {
    if l == [] then [] else Reversed(l[1..]) + [l[0]]
  }
}
