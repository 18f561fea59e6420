/**
 * The two views of the book that OrderBook renders: the row sequence of
 * export_to_csv (src/order_book.cpp:173-194) and the per-level lines of
 * get_book_state (src/order_book.cpp:157-171). Only the sequence of values
 * is modelled; file handling and the decimal text are not.
 */
module Export {
  import opened Orders
  import opened Ladders
  import opened Matching

  /** One line: the side label (BID/ASK), a price and a quantity. */
  datatype Row = Row(side: Side, price: Price, quantity: int)

  /** One row per order, in the given order, carrying that order's own price and quantity. */
  function OrderRows(s: Side, os: seq<Order>): seq<Row> {
    seq(|os|, i requires 0 <= i < |os| => Row(s, os[i].price, os[i].quantity))
  }

  /** Orders whose prices never go against the side's comparator. */
  predicate SortedBy(s: Side, os: seq<Order>) {
    forall i, j :: 0 <= i < j < |os| ==> os[i].price == os[j].price || Before(s, os[i].price, os[j].price)
  }

  /** Each order sits at its level's key. */
  predicate PricedAtLevels(l: Ladder) {
    forall i, k :: 0 <= i < |l| && 0 <= k < |l[i].orders| ==> l[i].orders[k].price == l[i].price
  }

  lemma {:induction false} FlattenAllAfter(s: Side, p: Price, l: Ladder)
    requires AllAfter(s, p, l) && PricedAtLevels(l)
    ensures forall k :: 0 <= k < |Flatten(l)| ==> Before(s, p, Flatten(l)[k].price)
  {
    if l != [] {
      FlattenAllAfter(s, p, l[1..]);
      var f := Flatten(l);
      forall k | 0 <= k < |f| ensures Before(s, p, f[k].price) {
        if k >= |l[0].orders| {
          assert f[k] == Flatten(l[1..])[k - |l[0].orders|];
        }
      }
    }
  }

  /** Walking an ordered side level by level lists its orders in comparator order. */
  lemma {:induction false} FlattenSorted(s: Side, l: Ladder)
    requires Ordered(s, l) && PricedAtLevels(l)
    ensures SortedBy(s, Flatten(l))
  {
    if l != [] {
      FlattenSorted(s, l[1..]);
      FlattenAllAfter(s, l[0].price, l[1..]);
      var f, head, rest := Flatten(l), l[0].orders, Flatten(l[1..]);
      forall i, j | 0 <= i < j < |f| ensures f[i].price == f[j].price || Before(s, f[i].price, f[j].price) {
        if j < |head| {
        } else if i < |head| {
          assert f[j] == rest[j - |head|];
        } else {
          assert f[i] == rest[i - |head|] && f[j] == rest[j - |head|];
        }
      }
    }
  }

  /** Walking a side backwards (rbegin to rend) follows the opposite comparator. */
  lemma ReversedOrdered(l: Ladder)
    requires Ordered(Bid, l)
    ensures Ordered(Ask, Reversed(l))
    ensures PricedAtLevels(l) ==> PricedAtLevels(Reversed(l))
  {
  }

  /** Reversing the levels keeps the volume. */
  lemma {:induction false} ReversedVolume(l: Ladder)
    ensures Volume(Reversed(l)) == Volume(l)
  {
    if l != [] {
      ReversedVolume(l[1..]);
      VolumeAppend(Reversed(l[1..]), [l[0]]);
    }
  }

  lemma LadderOkPriced(s: Side, l: Ladder)
    requires LadderOk(s, l)
    ensures PricedAtLevels(l)
  {
    forall i, k | 0 <= i < |l| && 0 <= k < |l[i].orders| ensures l[i].orders[k].price == l[i].price {
      assert QueueOk(s, l[i].price, l[i].orders);
    }
  }

  lemma SumOrderRows(s: Side, os: seq<Order>)
    ensures SumRows(OrderRows(s, os)) == SumQty(os)
    decreases |os|
  {
    if os != [] {
      SumOrderRows(s, os[1..]);
      assert OrderRows(s, os)[1..] == OrderRows(s, os[1..]);
    }
  }

  /** Every row carries side s. */
  predicate OnSide(s: Side, rows: seq<Row>) {
    forall i :: 0 <= i < |rows| ==> rows[i].side == s
  }

  /** Prices never fall along the rows. */
  predicate Rising(rows: seq<Row>) {
    forall i, j :: 0 <= i < j < |rows| ==> rows[i].price <= rows[j].price
  }

  /** Prices never rise along the rows. */
  predicate Falling(rows: seq<Row>) {
    forall i, j :: 0 <= i < j < |rows| ==> rows[i].price >= rows[j].price
  }

  lemma OrderRowsFollow(s: Side, os: seq<Order>)
    ensures OnSide(s, OrderRows(s, os))
    ensures SortedBy(Ask, os) ==> Rising(OrderRows(s, os))
    ensures SortedBy(Bid, os) ==> Falling(OrderRows(s, os))
  {
  }

  /** Sum of the quantity column. */
  function SumRows(rows: seq<Row>): int {
    if rows == [] then 0 else rows[0].quantity + SumRows(rows[1..])
  }

  lemma {:induction false} SumRowsAppend(a: seq<Row>, b: seq<Row>)
    ensures SumRows(a + b) == SumRows(a) + SumRows(b)
  {
    if a == [] {
      assert a + b == b;
    } else {
      SumRowsAppend(a[1..], b);
      assert (a + b)[1..] == a[1..] + b;
    }
  }

  /**
   * export_to_csv as written: bids from rbegin() of the std::greater map,
   * i.e. lowest price first, then asks lowest price first.
   */
  function ExportRows(b: Book): (rows: seq<Row>)
    ensures |rows| == |Flatten(b.bids)| + |Flatten(b.asks)|
  {
    ReversedSameOrders(Bid, b.bids);
    assert |Flatten(Reversed(b.bids))| == |multiset(Flatten(Reversed(b.bids)))|;
    OrderRows(Bid, Flatten(Reversed(b.bids))) + OrderRows(Ask, Flatten(b.asks))
  }

  /**
   * The export as written: one BID row per resting bid then one ASK row per
   * resting ask in the asks' own order, each with its order's own price and
   * quantity (so each side's rows add up to its volume); the ask rows ascend,
   * and so, against the comment at order_book.cpp:179, do the bid rows.
   */
  lemma ExportRowsAsWritten(b: Book)
    requires BookOk(b)
    ensures var rows, nb := ExportRows(b), |Flatten(b.bids)|;
            && |rows| == nb + |Flatten(b.asks)|
            && multiset(rows[..nb]) == multiset(OrderRows(Bid, Flatten(b.bids)))
            && rows[nb..] == OrderRows(Ask, Flatten(b.asks))
            && OnSide(Bid, rows[..nb]) && OnSide(Ask, rows[nb..])
            && SumRows(rows[..nb]) == Volume(b.bids)
            && SumRows(rows[nb..]) == Volume(b.asks)
            && Rising(rows[..nb]) && Rising(rows[nb..])
  {
    var bidOrders, askOrders := Flatten(Reversed(b.bids)), Flatten(b.asks);
    var rows := ExportRows(b);
    LadderOkPriced(Bid, b.bids);
    LadderOkPriced(Ask, b.asks);
    ReversedOrdered(b.bids);
    FlattenSorted(Ask, Reversed(b.bids));
    FlattenSorted(Ask, b.asks);
    ReversedVolume(b.bids);
    VolumeIsSumOfOrders(Reversed(b.bids));
    VolumeIsSumOfOrders(b.bids);
    VolumeIsSumOfOrders(b.asks);
    ReversedSameOrders(Bid, b.bids);
    assert |bidOrders| == |multiset(bidOrders)| == |Flatten(b.bids)|;
    var nb := |bidOrders|;
    assert rows[..nb] == OrderRows(Bid, bidOrders);
    assert rows[nb..] == OrderRows(Ask, askOrders);
    SumOrderRows(Bid, bidOrders);
    SumOrderRows(Ask, askOrders);
    OrderRowsFollow(Bid, bidOrders);
    OrderRowsFollow(Ask, askOrders);
  }

  /** The rows of two runs of orders are the rows of the first, then those of the second. */
  lemma OrderRowsAppend(s: Side, a: seq<Order>, c: seq<Order>)
    ensures OrderRows(s, a + c) == OrderRows(s, a) + OrderRows(s, c)
  {
  }

  /**
   * Walking the levels from rbegin() meets the same orders as walking them
   * from begin(), only in another order, so it gives the same rows.
   */
  lemma {:induction false} ReversedSameOrders(s: Side, l: Ladder)
    ensures multiset(Flatten(Reversed(l))) == multiset(Flatten(l))
    ensures multiset(OrderRows(s, Flatten(Reversed(l)))) == multiset(OrderRows(s, Flatten(l)))
  {
    if l != [] {
      ReversedSameOrders(s, l[1..]);
      var q, back, fwd := l[0].orders, Flatten(Reversed(l[1..])), Flatten(l[1..]);
      assert Flatten(Reversed(l)) == back + q by {
        FlattenAppend(Reversed(l[1..]), [l[0]]);
        assert [l[0]][1..] == [];
        assert Flatten([l[0]]) == q;
      }
      assert Flatten(l) == q + fwd;
      OrderRowsAppend(s, back, q);
      OrderRowsAppend(s, q, fwd);
    }
  }

  /** The bids of a two-level book are exported lowest price first. */
  lemma ExportBidsLowestFirst()
    ensures var high, low := Order(1, 100.0, 10, true, 0), Order(2, 99.0, 10, true, 0);
            var rows := ExportRows(Book([Level(100.0, [high]), Level(99.0, [low])], [], 0));
            |rows| == 2 && rows[0].price == 99.0 && rows[1].price == 100.0
  {
    var high, low := Order(1, 100.0, 10, true, 0), Order(2, 99.0, 10, true, 0);
    var l := [Level(100.0, [high]), Level(99.0, [low])];
    assert Reversed(l) == [Level(99.0, [low]), Level(100.0, [high])];
    var r := Reversed(l);
    assert r[1..][1..] == [];
    assert Flatten(r[1..]) == [high];
    assert Flatten(r) == [low, high];
  }

  /** The export as the comment and the book's ordering intend it: bids highest price first. */
  function ExportRowsIntended(b: Book): seq<Row> {
    OrderRows(Bid, Flatten(b.bids)) + OrderRows(Ask, Flatten(b.asks))
  }

  /**
   * The intended export: the rows of the export as written, the ask rows
   * in place and the bid rows reordered, with the same totals, bid rows by
   * descending price and ask rows by ascending price.
   */
  lemma ExportRowsIntendedOrder(b: Book)
    requires BookOk(b)
    ensures var rows, nb := ExportRowsIntended(b), |Flatten(b.bids)|;
            && |rows| == nb + |Flatten(b.asks)|
            && multiset(rows) == multiset(ExportRows(b))
            && |ExportRows(b)| == |rows| && rows[nb..] == ExportRows(b)[nb..]
            && OnSide(Bid, rows[..nb]) && OnSide(Ask, rows[nb..])
            && SumRows(rows[..nb]) == Volume(b.bids)
            && SumRows(rows[nb..]) == Volume(b.asks)
            && Falling(rows[..nb]) && Rising(rows[nb..])
  {
    var bidOrders, askOrders := Flatten(b.bids), Flatten(b.asks);
    var rows := ExportRowsIntended(b);
    ReversedSameOrders(Bid, b.bids);
    var back := Flatten(Reversed(b.bids));
    assert |back| == |multiset(back)| == |bidOrders|;
    assert ExportRows(b)[|back|..] == OrderRows(Ask, askOrders);
    LadderOkPriced(Bid, b.bids);
    LadderOkPriced(Ask, b.asks);
    FlattenSorted(Bid, b.bids);
    FlattenSorted(Ask, b.asks);
    VolumeIsSumOfOrders(b.bids);
    VolumeIsSumOfOrders(b.asks);
    var nb := |bidOrders|;
    assert rows[..nb] == OrderRows(Bid, bidOrders);
    assert rows[nb..] == OrderRows(Ask, askOrders);
    SumOrderRows(Bid, bidOrders);
    SumOrderRows(Ask, askOrders);
    OrderRowsFollow(Bid, bidOrders);
    OrderRowsFollow(Ask, askOrders);
  }

  /** One line per level of the given levels, each carrying the same figure v. */
  function LinesWithVolume(s: Side, l: Ladder, v: int): seq<Row> {
    seq(|l|, i requires 0 <= i < |l| => Row(s, l[i].price, v))
  }

  /** One line per level of the given levels, each carrying that level's own volume. */
  function LevelLines(s: Side, l: Ladder): seq<Row> {
    seq(|l|, i requires 0 <= i < |l| => Row(s, l[i].price, SumQty(l[i].orders)))
  }

  /**
   * get_book_state's lines as written: bids from rbegin() (lowest price
   * first), and every line of a side shows the whole side's volume.
   */
  function BookStateLines(b: Book): (lines: seq<Row>)
    ensures |lines| == |b.bids| + |b.asks|
  {
    LinesWithVolume(Bid, Reversed(b.bids), Volume(b.bids)) + LinesWithVolume(Ask, b.asks, Volume(b.asks))
  }

  /**
   * As written, a book with two bid levels of 10 each shows 20 on both bid
   * lines, lowest price first: the lines add up to twice the bid volume.
   */
  lemma BookStateLinesOverstate()
    ensures var b := Book([Level(100.0, [Order(1, 100.0, 10, true, 0)]), Level(99.0, [Order(2, 99.0, 10, true, 0)])], [], 0);
            var lines := BookStateLines(b);
            && Volume(b.bids) == 20
            && |lines| == 2 && lines[0] == Row(Bid, 99.0, 20) && lines[1] == Row(Bid, 100.0, 20)
            && SumRows(lines) == 2 * Volume(b.bids)
  {
    var b := Book([Level(100.0, [Order(1, 100.0, 10, true, 0)]), Level(99.0, [Order(2, 99.0, 10, true, 0)])], [], 0);
    assert SumQty(b.bids[0].orders) == 10 && SumQty(b.bids[1].orders) == 10;
    assert Volume(b.bids[1..]) == 10;
    var lines := BookStateLines(b);
    assert lines[1..] == [Row(Bid, 100.0, 20)];
  }

  /** get_book_state as intended: bids high to low, each line with its level's own volume. */
  function BookStateLinesIntended(b: Book): seq<Row> {
    LevelLines(Bid, b.bids) + LevelLines(Ask, b.asks)
  }

  lemma {:induction false} LevelLinesAddUp(s: Side, l: Ladder)
    ensures SumRows(LevelLines(s, l)) == Volume(l)
  {
    if l != [] {
      LevelLinesAddUp(s, l[1..]);
      assert LevelLines(s, l)[1..] == LevelLines(s, l[1..]);
    }
  }

  /**
   * The intended lines: one per level, bids strictly descending then asks
   * strictly ascending, and each side's lines add up to its volume.
   */
  lemma BookStateLinesIntendedOk(b: Book)
    requires BookOk(b)
    ensures var lines, nb := BookStateLinesIntended(b), |b.bids|;
            && |lines| == nb + |b.asks|
            && (forall i, j :: 0 <= i < j < nb ==> lines[i].price > lines[j].price)
            && (forall i, j :: nb <= i < j < |lines| ==> lines[i].price < lines[j].price)
            && SumRows(lines[..nb]) == Volume(b.bids)
            && SumRows(lines[nb..]) == Volume(b.asks)
  {
    var lines, nb := BookStateLinesIntended(b), |b.bids|;
    assert lines[..nb] == LevelLines(Bid, b.bids);
    assert lines[nb..] == LevelLines(Ask, b.asks);
    LevelLinesAddUp(Bid, b.bids);
    LevelLinesAddUp(Ask, b.asks);
  }
}
