/**
 * cancel_order (src/order_book.cpp:29-52): search the bid side from the
 * highest price, then the ask side from the lowest, for the first order
 * with the given id; erase it, and erase its level if that empties it.
 */
module Cancelling {
  import opened Options
  import opened Orders
  import opened Ladders
  import opened Matching

  /** std::find_if on one queue: the index of the first order with the id, or |q| if none. */
  function IndexOfId(q: seq<Order>, id: int): (j: nat)
    ensures j <= |q|
  {
    if q == [] then 0
    else if q[0].id == id then 0
    else 1 + IndexOfId(q[1..], id)
  }

  /** IndexOfId finds the first order with the id: none before it, and that id at it unless it is |q|. */
  lemma {:induction false} IndexOfIdFirst(q: seq<Order>, id: int)
    ensures forall i :: 0 <= i < IndexOfId(q, id) ==> q[i].id != id
    ensures IndexOfId(q, id) < |q| ==> q[IndexOfId(q, id)].id == id
  {
    if q != [] && q[0].id != id {
      IndexOfIdFirst(q[1..], id);
    }
  }

  /** The first level, in iteration order, whose queue holds the id; |l| if none. */
  function FirstLevelWith(l: Ladder, id: int): (k: nat)
    ensures k <= |l|
    ensures k < |l| ==> IndexOfId(l[k].orders, id) < |l[k].orders|
  {
    if l == [] then 0
    else if IndexOfId(l[0].orders, id) < |l[0].orders| then 0
    else 1 + FirstLevelWith(l[1..], id)
  }

  /** No level before the one FirstLevelWith finds holds the id. */
  lemma {:induction false} FirstLevelWithFirst(l: Ladder, id: int)
    ensures forall i :: 0 <= i < FirstLevelWith(l, id) ==> IndexOfId(l[i].orders, id) == |l[i].orders|
  {
    if l != [] && IndexOfId(l[0].orders, id) == |l[0].orders| {
      FirstLevelWithFirst(l[1..], id);
    }
  }

  /**
   * The removal on one side: None when no order has the id; otherwise the
   * side with that order erased from its queue, and the level erased when
   * its queue becomes empty.
   */
  function RemoveFirst(l: Ladder, id: int): (r: Option<Ladder>)
    ensures r.Some? ==> |r.value| == |l| || |r.value| + 1 == |l|
  {
    var k := FirstLevelWith(l, id);
    if k == |l| then None else Some(EraseAt(l, k, IndexOfId(l[k].orders, id)))
  }

  /** Erase order j of level k, and the level itself when that empties its queue. */
  function EraseAt(l: Ladder, k: nat, j: nat): Ladder
    requires k < |l| && j < |l[k].orders|
  {
    var q := l[k].orders;
    var rest := q[..j] + q[j + 1..];
    if rest == [] then l[..k] + l[k + 1..] else l[..k] + [Level(l[k].price, rest)] + l[k + 1..]
  }

  /** cancel_order on the book: bids are searched first, then asks; the counter is untouched. */
  function Cancel(b: Book, id: int): (r: Option<Book>)
    ensures r.Some? ==> r.value.matches == b.matches && (r.value.bids == b.bids || r.value.asks == b.asks)
  {
    match RemoveFirst(b.bids, id)
    case Some(bids) => Some(b.(bids := bids))
    case None =>
      match RemoveFirst(b.asks, id)
      case Some(asks) => Some(b.(asks := asks))
      case None => None
  }

  lemma {:induction false} IndexOfIdAppend(a: seq<Order>, b: seq<Order>, id: int)
    ensures IndexOfId(a + b, id) == if IndexOfId(a, id) < |a| then IndexOfId(a, id) else |a| + IndexOfId(b, id)
  {
    if a == [] {
      assert a + b == b;
    } else if a[0].id != id {
      IndexOfIdAppend(a[1..], b, id);
      assert (a + b)[1..] == a[1..] + b;
    }
  }

  lemma {:induction false} NoIdInFlatten(l: Ladder, id: int)
    requires forall i :: 0 <= i < |l| ==> IndexOfId(l[i].orders, id) == |l[i].orders|
    ensures IndexOfId(Flatten(l), id) == |Flatten(l)|
  {
    if l != [] {
      NoIdInFlatten(l[1..], id);
      IndexOfIdAppend(l[0].orders, Flatten(l[1..]), id);
    }
  }

  /** Flattening a side with level k replaced by lv splices lv's queue in its place. */
  lemma FlattenReplace(l: Ladder, k: nat, lv: Level)
    requires k < |l|
    ensures Flatten(l[..k] + [lv] + l[k + 1..]) == Flatten(l[..k]) + lv.orders + Flatten(l[k + 1..])
  {
    var pre, post := l[..k], l[k + 1..];
    assert pre + [lv] + post == pre + ([lv] + post);
    FlattenAppend(pre, [lv] + post);
    assert ([lv] + post)[1..] == post;
  }

  /** Flattening a side without level k leaves that level's queue out. */
  lemma FlattenRemove(l: Ladder, k: nat)
    requires k < |l|
    ensures Flatten(l[..k] + l[k + 1..]) == Flatten(l[..k]) + Flatten(l[k + 1..])
  {
    FlattenAppend(l[..k], l[k + 1..]);
  }

  /** Taking element |a| + j out of a + q + c takes element j out of q. */
  lemma SpliceOut(a: seq<Order>, q: seq<Order>, c: seq<Order>, j: nat, all: seq<Order>, m: nat, r: seq<Order>)
    requires j < |q| && all == a + q + c && m == |a| + j && r == a + (q[..j] + q[j + 1..]) + c
    ensures m < |all| && r == all[..m] + all[m + 1..]
  {
    assert all[..m] == a + q[..j];
    assert all[m + 1..] == q[j + 1..] + c;
  }

  /**
   * Cancellation on one side finds an order exactly when some resting order
   * has the id, and then removes the first such order in iteration order
   * (highest bid or lowest ask first, front of queue first), keeping every
   * other order in its place.
   */
  lemma RemoveFirstRemovesFirstMatch(l: Ladder, id: int)
    ensures var all := Flatten(l);
            var m := IndexOfId(all, id);
            && (RemoveFirst(l, id).Some? <==> m < |all|)
            && (RemoveFirst(l, id).Some? ==> Flatten(RemoveFirst(l, id).value) == all[..m] + all[m + 1..])
  {
    if FirstLevelWith(l, id) == |l| {
      FirstLevelWithFirst(l, id);
      NoIdInFlatten(l, id);
    } else {
      RemoveFirstSplices(l, id);
    }
  }

  /** When some level holds the id, the removal takes the first match out of the flattened side. */
  lemma RemoveFirstSplices(l: Ladder, id: int)
    requires FirstLevelWith(l, id) < |l|
    ensures var all := Flatten(l);
            var m := IndexOfId(all, id);
            && m < |all| && RemoveFirst(l, id).Some?
            && Flatten(RemoveFirst(l, id).value) == all[..m] + all[m + 1..]
  {
    var k := FirstLevelWith(l, id);
    var j := IndexOfId(l[k].orders, id);
    var all, m := Flatten(l), |Flatten(l[..k])| + j;
    assert IndexOfId(all, id) == m by { FirstMatchInFlatten(l, id); }
    assert RemoveFirst(l, id) == Some(EraseAt(l, k, j)) by { RemoveFirstFound(l, id); }
    assert m < |all| && Flatten(EraseAt(l, k, j)) == all[..m] + all[m + 1..] by { EraseAtSplices(l, k, j); }
  }

  /** Erasing order j of level k takes the order at that position out of the flattened side. */
  lemma EraseAtSplices(l: Ladder, k: nat, j: nat)
    requires k < |l| && j < |l[k].orders|
    ensures var all, m := Flatten(l), |Flatten(l[..k])| + j;
            m < |all| && Flatten(EraseAt(l, k, j)) == all[..m] + all[m + 1..]
  {
    var q := l[k].orders;
    var pre, post := Flatten(l[..k]), Flatten(l[k + 1..]);
    assert Flatten(l) == pre + q + post by { FlattenAt(l, k); }
    assert Flatten(EraseAt(l, k, j)) == pre + (q[..j] + q[j + 1..]) + post by { EraseAtFlatten(l, k, j); }
    SpliceOut(pre, q, post, j, Flatten(l), |pre| + j, Flatten(EraseAt(l, k, j)));
  }

  /** When some level holds the id, the removal erases its first match in that level. */
  lemma RemoveFirstFound(l: Ladder, id: int)
    requires FirstLevelWith(l, id) < |l|
    ensures var k := FirstLevelWith(l, id);
            RemoveFirst(l, id) == Some(EraseAt(l, k, IndexOfId(l[k].orders, id)))
  {
  }

  /** The first match of the whole side lies in the first level holding the id, at its index there. */
  lemma FirstMatchInFlatten(l: Ladder, id: int)
    requires FirstLevelWith(l, id) < |l|
    ensures var k := FirstLevelWith(l, id);
            var pre, q, post := Flatten(l[..k]), l[k].orders, Flatten(l[k + 1..]);
            && Flatten(l) == pre + q + post
            && IndexOfId(Flatten(l), id) == |pre| + IndexOfId(q, id)
  {
    var k := FirstLevelWith(l, id);
    var pre, q, post := Flatten(l[..k]), l[k].orders, Flatten(l[k + 1..]);
    var all := Flatten(l);
    assert all == pre + q + post by { FlattenAt(l, k); }
    assert all == pre + (q + post);
    assert IndexOfId(pre, id) == |pre| by { NoIdBefore(l, id); }
    assert IndexOfId(q + post, id) == IndexOfId(q, id) by { IndexOfIdAppend(q, post, id); }
    assert IndexOfId(pre + (q + post), id) == |pre| + IndexOfId(q + post, id) by { IndexOfIdAppend(pre, q + post, id); }
  }

  /** A side flattens to the levels before k, level k's queue, then the levels after k. */
  lemma {:induction false} FlattenAt(l: Ladder, k: nat)
    requires k < |l|
    ensures Flatten(l) == Flatten(l[..k]) + l[k].orders + Flatten(l[k + 1..])
  {
    if k == 0 {
      assert l[..k] == [];
    } else {
      var t := l[1..];
      FlattenAt(t, k - 1);
      assert t[..k - 1] == l[..k][1..];
      assert t[k..] == l[k + 1..];
      assert Flatten(l[..k]) == l[0].orders + Flatten(t[..k - 1]);
    }
  }

  /** No order before the first level holding the id has it. */
  lemma NoIdBefore(l: Ladder, id: int)
    ensures var pre := Flatten(l[..FirstLevelWith(l, id)]);
            IndexOfId(pre, id) == |pre|
  {
    var k := FirstLevelWith(l, id);
    FirstLevelWithFirst(l, id);
    forall i | 0 <= i < k ensures IndexOfId(l[..k][i].orders, id) == |l[..k][i].orders| {
      assert l[..k][i] == l[i];
    }
    NoIdInFlatten(l[..k], id);
  }

  /** The side after the erase flattens to the old one with the queue shortened in place. */
  lemma EraseAtFlatten(l: Ladder, k: nat, j: nat)
    requires k < |l| && j < |l[k].orders|
    ensures var q := l[k].orders;
            Flatten(EraseAt(l, k, j)) == Flatten(l[..k]) + (q[..j] + q[j + 1..]) + Flatten(l[k + 1..])
  {
    var q := l[k].orders;
    var rest := q[..j] + q[j + 1..];
    if rest == [] {
      FlattenRemove(l, k);
      assert Flatten(l[..k]) + Flatten(l[k + 1..]) == Flatten(l[..k]) + rest + Flatten(l[k + 1..]);
    } else {
      FlattenReplace(l, k, Level(l[k].price, rest));
    }
  }

  /**
   * Cancellation keeps a side well formed and without empty levels, and its
   * new first key is the old one or sorts after it.
   */
  lemma RemoveFirstKeepsShape(s: Side, l: Ladder, id: int)
    requires LadderOk(s, l) && NoEmptyLevels(l) && RemoveFirst(l, id).Some?
    ensures var r := RemoveFirst(l, id).value;
            && LadderOk(s, r) && NoEmptyLevels(r)
            && (r == [] || r[0].price == l[0].price || Before(s, l[0].price, r[0].price))
  {
    var k := FirstLevelWith(l, id);
    EraseAtKeepsShape(s, l, k, IndexOfId(l[k].orders, id));
  }

  /** Erasing one order keeps a side well formed and without empty levels. */
  lemma EraseAtKeepsShape(s: Side, l: Ladder, k: nat, j: nat)
    requires LadderOk(s, l) && NoEmptyLevels(l) && k < |l| && j < |l[k].orders|
    ensures var r := EraseAt(l, k, j);
            && LadderOk(s, r) && NoEmptyLevels(r)
            && (r == [] || r[0].price == l[0].price || Before(s, l[0].price, r[0].price))
  {
    var q := l[k].orders;
    var rest := q[..j] + q[j + 1..];
    if rest == [] {
      DropLevelOk(s, l, k);
    } else {
      assert QueueOk(s, l[k].price, q);
      forall i | 0 <= i < |rest| ensures rest[i] == if i < j then q[i] else q[i + 1] {
      }
      ShrinkLevelOk(s, l, k, rest);
    }
  }

  /** Erasing one level keeps a side well formed, and its first key is kept or moves back. */
  lemma DropLevelOk(s: Side, l: Ladder, k: nat)
    requires LadderOk(s, l) && NoEmptyLevels(l) && k < |l|
    ensures var r := l[..k] + l[k + 1..];
            && LadderOk(s, r) && NoEmptyLevels(r)
            && (r == [] || r[0].price == l[0].price || Before(s, l[0].price, r[0].price))
  {
    var r := l[..k] + l[k + 1..];
    assert forall i :: 0 <= i < |r| ==> r[i] == if i < k then l[i] else l[i + 1];
  }

  /** Replacing one level's queue by a non-empty queue fit for that level keeps a side well formed. */
  lemma ShrinkLevelOk(s: Side, l: Ladder, k: nat, rest: seq<Order>)
    requires LadderOk(s, l) && NoEmptyLevels(l) && k < |l|
    requires rest != [] && QueueOk(s, l[k].price, rest)
    ensures var r := l[..k] + [Level(l[k].price, rest)] + l[k + 1..];
            && LadderOk(s, r) && NoEmptyLevels(r)
            && r[0].price == l[0].price
  {
    var r := l[..k] + [Level(l[k].price, rest)] + l[k + 1..];
    assert forall i :: 0 <= i < |r| ==> r[i] == if i == k then Level(l[k].price, rest) else l[i];
  }

  /** Cancellation lowers the side's volume by the quantity of the order it removes. */
  lemma RemoveFirstVolume(l: Ladder, id: int)
    requires RemoveFirst(l, id).Some?
    ensures var all := Flatten(l);
            var m := IndexOfId(all, id);
            m < |all| && Volume(RemoveFirst(l, id).value) == Volume(l) - all[m].quantity
  {
    RemoveFirstRemovesFirstMatch(l, id);
    var all, r := Flatten(l), RemoveFirst(l, id).value;
    var m := IndexOfId(all, id);
    VolumeIsSumOfOrders(l);
    VolumeIsSumOfOrders(r);
    SumQtyWithout(all, m);
  }

  /** Taking element m out of a queue takes its quantity out of the sum. */
  lemma SumQtyWithout(all: seq<Order>, m: nat)
    requires m < |all|
    ensures SumQty(all[..m] + all[m + 1..]) == SumQty(all) - all[m].quantity
  {
    var pre, x, suf := all[..m], all[m], all[m + 1..];
    assert all[..m + 1] == pre + [x];
    assert all == all[..m + 1] + suf;
    SumQtyAppend(pre + [x], suf);
    SumQtyAppend(pre, [x]);
    SumQtyAppend(pre, suf);
    assert SumQty([x]) == x.quantity;
  }

  /**
   * cancel_order fails exactly when no resting order on either side has the
   * id, and then the book is unchanged; otherwise a bid is removed if one
   * has the id, else an ask.
   */
  lemma CancelFindsAnyResting(b: Book, id: int)
    ensures var bidAll, askAll := Flatten(b.bids), Flatten(b.asks);
            && (Cancel(b, id).None? <==> IndexOfId(bidAll, id) == |bidAll| && IndexOfId(askAll, id) == |askAll|)
            && (IndexOfId(bidAll, id) < |bidAll| ==>
                  RemoveFirst(b.bids, id).Some? && Cancel(b, id) == Some(b.(bids := RemoveFirst(b.bids, id).value)))
            && (IndexOfId(bidAll, id) == |bidAll| && IndexOfId(askAll, id) < |askAll| ==>
                  RemoveFirst(b.asks, id).Some? && Cancel(b, id) == Some(b.(asks := RemoveFirst(b.asks, id).value)))
            && (Cancel(b, id).Some? ==> Cancel(b, id).value.matches == b.matches)
  {
    RemoveFirstRemovesFirstMatch(b.bids, id);
    RemoveFirstRemovesFirstMatch(b.asks, id);
  }

  /** Cancelling an order from a book at rest leaves it at rest: no new crossing is created. */
  lemma CancelKeepsSettled(b: Book, id: int)
    requires Settled(b) && Cancel(b, id).Some?
    ensures Settled(Cancel(b, id).value)
  {
    if RemoveFirst(b.bids, id).Some? {
      RemoveFirstKeepsShape(Bid, b.bids, id);
    } else {
      RemoveFirstKeepsShape(Ask, b.asks, id);
    }
  }

  /** Any index with the property of the first match is the one IndexOfId finds. */
  lemma IndexOfIdIs(q: seq<Order>, id: int, j: nat)
    requires j <= |q|
    requires forall i :: 0 <= i < j ==> q[i].id != id
    requires j < |q| ==> q[j].id == id
    ensures IndexOfId(q, id) == j
  {
    IndexOfIdFirst(q, id);
  }

  /** The find_if of cancel_order over one level's vector. */
  method FindOrder(q: seq<Order>, id: int) returns (j: nat)
    ensures j == IndexOfId(q, id)
  {
    j := 0;
    while j < |q| && q[j].id != id
      invariant j <= |q|
      invariant forall i :: 0 <= i < j ==> q[i].id != id
    {
      j := j + 1;
    }
    IndexOfIdFirst(q, id);
    IndexOfIdIs(q, id, j);
  }

  /**
   * One side's loop of cancel_order: walk the levels in iteration order,
   * erase the first order with the id, and erase its level if it empties.
   */
  method RemoveFromSide(l: Ladder, id: int) returns (found: bool, r: Ladder)
    ensures found == RemoveFirst(l, id).Some?
    ensures r == if found then RemoveFirst(l, id).value else l
  {
    FirstLevelWithFirst(l, id);
    var i := 0;
    while i < |l|
      invariant i <= |l|
      invariant forall k :: 0 <= k < i ==> IndexOfId(l[k].orders, id) == |l[k].orders|
    {
      var q := l[i].orders;
      var j := FindOrder(q, id);
      if j < |q| {
        var rest := q[..j] + q[j + 1..];
        if rest == [] {
          r := l[..i] + l[i + 1..];
        } else {
          r := l[..i] + [Level(l[i].price, rest)] + l[i + 1..];
        }
        assert r == EraseAt(l, i, j);
        return true, r;
      }
      i := i + 1;
    }
    return false, l;
  }
}
