/**
 * Exchange adapters (src/order.rs): each raw snapshot shape is converted,
 * entry by entry, into the canonical OrderBook. Parsing a numeral is the
 * foreign `str::parse::<f64>`, passed in as `parse`; a numeral it rejects
 * makes the source's `unwrap` panic, modelled as `Err(ParseError)`.
 */
module Adapters {
  import opened Wrappers
  import opened OrderBooks

  /** Why a conversion aborts: an `unwrap` panic in the source. */
  datatype ConvError =
    | ParseError   // a price or quantity numeral did not parse
    | EmptyResult  // Kraken's `result` map had no entry

  /** Coinbase and Kraken level: (price, size, sequence-or-timestamp). */
  datatype RawLevel = RawLevel(price: string, size: string, stamp: nat)

  /** Coinbase snapshot: bids and asks as 3-tuples. */
  datatype CoinbaseOrder = CoinbaseOrder(bids: seq<RawLevel>, asks: seq<RawLevel>)

  /** Gemini level: an object with `price` and `amount` fields. */
  datatype GeminiBid = GeminiBid(price: string, amount: string)

  /** Gemini snapshot. */
  datatype GeminiOrder = GeminiOrder(bids: seq<GeminiBid>, asks: seq<GeminiBid>)

  /** Kraken's per-pair book, in the Coinbase tuple shape. */
  datatype KrakenPair = KrakenPair(bids: seq<RawLevel>, asks: seq<RawLevel>)

  /** Kraken snapshot: a map keyed by a pair identifier the caller does not know. */
  datatype KrakenResult = KrakenResult(result: map<string, KrakenPair>)

  /** Builds one Order from a price numeral and a quantity numeral; price is parsed first. */
  function ParseOrder(price: string, quantity: string, parse: string -> Option<real>): (r: Result<Order, ConvError>)
    ensures r.Ok? <==> parse(price).Some? && parse(quantity).Some?
    ensures r.Ok? ==> r.value.exchangeName.None?
                      && parse(price) == Some(r.value.price)
                      && parse(quantity) == Some(r.value.quantity)
    ensures r.Err? ==> r.error == ParseError
  {
    match parse(price)
    case None => Err(ParseError)
    case Some(p) =>
      match parse(quantity)
      case None => Err(ParseError)
      case Some(q) => Ok(Order(None, p, q))
  }

  /** The per-entry mapping of a tuple level; the third element is not read. */
  function FromRawLevel(e: RawLevel, parse: string -> Option<real>): Result<Order, ConvError>
  {
    ParseOrder(e.price, e.size, parse)
  }

  /** The per-entry mapping of a Gemini level: `price` and `amount`. */
  function FromGeminiBid(e: GeminiBid, parse: string -> Option<real>): Result<Order, ConvError>
  {
    ParseOrder(e.price, e.amount, parse)
  }

  /**
   * `into_iter().map(f).collect()` where `f` may panic: the mapped sequence,
   * in the same order, or the error of the first entry that fails.
   */
  function CollectAll<E>(es: seq<E>, f: E -> Result<Order, ConvError>): (r: Result<seq<Order>, ConvError>)
    ensures r.Ok? <==> forall i :: 0 <= i < |es| ==> f(es[i]).Ok?
    ensures r.Ok? ==> |r.value| == |es| && forall i :: 0 <= i < |es| ==> r.value[i] == f(es[i]).value
    ensures r.Err? ==> exists i :: 0 <= i < |es| && f(es[i]).Err? && r.error == f(es[i]).error
                                   && forall j :: 0 <= j < i ==> f(es[j]).Ok?
  {
    if es == [] then Ok([])
    else
      match f(es[0])
      case Err(e) => Err(e)
      case Ok(o) =>
        match CollectAll(es[1..], f)
        case Err(e) =>
          assert forall j :: 1 <= j < |es| ==> f(es[j]) == f(es[1..][j - 1]);
          Err(e)
        case Ok(rest) =>
          assert forall j :: 1 <= j < |es| ==> f(es[j]) == f(es[1..][j - 1]);
          Ok([o] + rest)
  }

  /** Converts both sides with the same per-entry mapping; bids first. */
  function ConvertSides<E>(bids: seq<E>, asks: seq<E>, f: E -> Result<Order, ConvError>): Result<OrderBook, ConvError>
  {
    match CollectAll(bids, f)
    case Err(e) => Err(e)
    case Ok(b) =>
      match CollectAll(asks, f)
      case Err(e) => Err(e)
      case Ok(a) => Ok(OrderBook(b, a))
  }

  /** Every tuple level's price and size parse. */
  predicate LevelsParse(es: seq<RawLevel>, parse: string -> Option<real>)
  {
    forall i :: 0 <= i < |es| ==> parse(es[i].price).Some? && parse(es[i].size).Some?
  }

  /** `out` is `es` converted element by element, in the same order. */
  predicate ConvertedLevels(out: seq<Order>, es: seq<RawLevel>, parse: string -> Option<real>)
  {
    |out| == |es| &&
    forall i :: 0 <= i < |es| ==>
      out[i].exchangeName.None? && parse(es[i].price) == Some(out[i].price) && parse(es[i].size) == Some(out[i].quantity)
  }

  /** Every Gemini level's price and amount parse. */
  predicate GeminiParse(es: seq<GeminiBid>, parse: string -> Option<real>)
  {
    forall i :: 0 <= i < |es| ==> parse(es[i].price).Some? && parse(es[i].amount).Some?
  }

  /** `out` is `es` converted element by element: price from `price`, quantity from `amount`. */
  predicate ConvertedGemini(out: seq<Order>, es: seq<GeminiBid>, parse: string -> Option<real>)
  {
    |out| == |es| &&
    forall i :: 0 <= i < |es| ==>
      out[i].exchangeName.None? && parse(es[i].price) == Some(out[i].price) && parse(es[i].amount) == Some(out[i].quantity)
  }

  /** Converts both sides of a tuple-shaped book (Coinbase, or one Kraken pair). */
  function FromTupleSides(bids: seq<RawLevel>, asks: seq<RawLevel>, parse: string -> Option<real>): (r: Result<OrderBook, ConvError>)
    ensures r.Ok? <==> LevelsParse(bids, parse) && LevelsParse(asks, parse)
    ensures r.Ok? ==> ConvertedLevels(r.value.bids, bids, parse) && ConvertedLevels(r.value.asks, asks, parse)
    ensures r.Err? ==> r.error == ParseError
  {
    ConvertSides(bids, asks, e => FromRawLevel(e, parse))
  }

  /** `From<CoinbaseOrder> for OrderBook`. */
  function FromCoinbase(raw: CoinbaseOrder, parse: string -> Option<real>): (r: Result<OrderBook, ConvError>)
    ensures r.Ok? <==> LevelsParse(raw.bids, parse) && LevelsParse(raw.asks, parse)
    ensures r.Ok? ==> ConvertedLevels(r.value.bids, raw.bids, parse) && ConvertedLevels(r.value.asks, raw.asks, parse)
    ensures r.Err? ==> r.error == ParseError
  {
    FromTupleSides(raw.bids, raw.asks, parse)
  }

  /** `From<GeminiOrder> for OrderBook`. */
  function FromGemini(raw: GeminiOrder, parse: string -> Option<real>): (r: Result<OrderBook, ConvError>)
    ensures r.Ok? <==> GeminiParse(raw.bids, parse) && GeminiParse(raw.asks, parse)
    ensures r.Ok? ==> ConvertedGemini(r.value.bids, raw.bids, parse) && ConvertedGemini(r.value.asks, raw.asks, parse)
    ensures r.Err? ==> r.error == ParseError
  {
    ConvertSides(raw.bids, raw.asks, e => FromGeminiBid(e, parse))
  }

  /**
   * `From<KrakenResult> for OrderBook`: converts the first value of the map.
   * The map's iteration order is unspecified, so any entry may be first.
   */
  ghost function FromKraken(raw: KrakenResult, parse: string -> Option<real>): (r: Result<OrderBook, ConvError>)
    ensures r == Err(EmptyResult) <==> raw.result == map[]
    ensures raw.result != map[] ==>
      exists pair :: pair in raw.result && r == FromTupleSides(raw.result[pair].bids, raw.result[pair].asks, parse)
  {
    if raw.result == map[] then Err(EmptyResult)
    else
      var pair :| pair in raw.result;
      FromTupleSides(raw.result[pair].bids, raw.result[pair].asks, parse)
  }

  /** With exactly one pair, as the exchange sends, that pair's book is converted. */
  lemma KrakenSinglePair(id: string, book: KrakenPair, parse: string -> Option<real>)
    ensures FromKraken(KrakenResult(map[id := book]), parse) == FromTupleSides(book.bids, book.asks, parse)
  {
    var m := map[id := book];
    assert m != map[] by { assert id in m; }
    var pair :| pair in m && FromKraken(KrakenResult(m), parse) == FromTupleSides(m[pair].bids, m[pair].asks, parse);
    assert pair == id;
  }

  /** Two tuple sequences carrying the same numerals, whatever their third elements. */
  predicate SameQuotes(a: seq<RawLevel>, b: seq<RawLevel>)
  {
    |a| == |b| && forall i :: 0 <= i < |a| ==> a[i].price == b[i].price && a[i].size == b[i].size
  }

  /** The third tuple element never influences the converted book. */
  lemma StampIgnored(bids: seq<RawLevel>, asks: seq<RawLevel>, bids': seq<RawLevel>, asks': seq<RawLevel>,
                     parse: string -> Option<real>)
    requires SameQuotes(bids, bids') && SameQuotes(asks, asks')
    ensures FromTupleSides(bids, asks, parse) == FromTupleSides(bids', asks', parse)
  {
    var r, r' := FromTupleSides(bids, asks, parse), FromTupleSides(bids', asks', parse);
    if r.Ok? {
      assert r'.Ok?;
      assert r.value.bids == r'.value.bids;
      assert r.value.asks == r'.value.asks;
    }
  }

  /** Bids are converted independently of asks: changing the asks never changes the bids. */
  lemma SidesIndependent(bids: seq<RawLevel>, asks: seq<RawLevel>, asks': seq<RawLevel>,
                         parse: string -> Option<real>)
    requires FromTupleSides(bids, asks, parse).Ok? && FromTupleSides(bids, asks', parse).Ok?
    ensures FromTupleSides(bids, asks, parse).value.bids == FromTupleSides(bids, asks', parse).value.bids
  {
  }
}
