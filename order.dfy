/**
 * The Order record (include/order.hpp, src/order.cpp).
 *
 * The engine keeps every Order by value: add_order copies it into a price
 * level's vector and matching updates that copy through set_quantity. A
 * datatype whose one update is SetQuantity therefore has the same meaning
 * as the C++ class; the getters are the datatype's field selectors.
 */
module Orders {

  /** A price; the source stores a double and only compares or subtracts it. */
  type Price = real

  /**
   * One order. The constructor stores its five arguments unchanged and
   * checks nothing; only quantity has a setter.
   */
  datatype Order = Order(id: int, price: Price, quantity: int, isBuy: bool, timestamp: int)
  {
    /** is_valid: the id, the price and the quantity are all positive. */
    predicate IsValid() {
      id > 0 && price > 0.0 && quantity > 0
    }

    /** set_quantity: replaces the quantity, with no guard, and nothing else. */
    function SetQuantity(q: int): (o: Order)
      ensures o.quantity == q
      ensures o.id == id && o.price == price && o.isBuy == isBuy && o.timestamp == timestamp
    {
      this.(quantity := q)
    }
  }

  /** Validity never looks at the side or the timestamp. */
  lemma ValidityIgnoresSideAndTimestamp(o: Order, isBuy: bool, timestamp: int)
    ensures o.(isBuy := isBuy, timestamp := timestamp).IsValid() == o.IsValid()
  {
  }

  /** set_quantity accepts zero and negative quantities, which make an order invalid. */
  lemma SetQuantityCanInvalidate(o: Order, q: int)
    requires o.IsValid()
    ensures o.SetQuantity(q).IsValid() <==> q > 0
  {
  }

  /**
   * Construction does not validate: the orders of the InvalidOrder test
   * (price -100, quantity 0) exist and are reported invalid.
   */
  lemma ConstructionDoesNotValidate()
    ensures Order(1, -100.0, 10, true, 0).price == -100.0
    ensures !Order(1, -100.0, 10, true, 0).IsValid()
    ensures Order(2, 100.0, 0, true, 0).quantity == 0
    ensures !Order(2, 100.0, 0, true, 0).IsValid()
    ensures Order(1, 100.0, 10, true, 0).IsValid()
  {
  }
}
