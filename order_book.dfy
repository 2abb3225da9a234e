/** The canonical data model shared by every exchange (src/order_book.rs). */
module OrderBooks {
  import opened Wrappers

  /**
   * One price level. The struct declares an exchange tag, but the adapters
   * never fill it in, so the tag is optional here.
   */
  datatype Order = Order(exchangeName: Option<string>, price: real, quantity: real)

  /** The two sides of a book; the type imposes no ordering on either. */
  datatype OrderBook = OrderBook(bids: seq<Order>, asks: seq<Order>)

  /** Names one side of a book. */
  datatype Side = Bids | Asks

  function Opposite(side: Side): Side
  {
    match side
    case Bids => Asks
    case Asks => Bids
  }

  function SideOf(book: OrderBook, side: Side): seq<Order>
  {
    match side
    case Bids => book.bids
    case Asks => book.asks
  }

  /** Two books are equal exactly when their two sides are equal. */
  lemma BookDeterminedBySides(a: OrderBook, b: OrderBook)
    ensures a == b <==> (forall side :: SideOf(a, side) == SideOf(b, side))
  {
    if forall side :: SideOf(a, side) == SideOf(b, side) {
      assert SideOf(a, Bids) == SideOf(b, Bids);
      assert SideOf(a, Asks) == SideOf(b, Asks);
    }
  }

  /** The derived `PartialEq`: two orders are equal iff all three fields are. */
  lemma OrderEquality(a: Order, b: Order)
    ensures a == b <==>
      (a.exchangeName == b.exchangeName && a.price == b.price && a.quantity == b.quantity)
  {
  }
}
