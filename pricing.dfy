/**
 * The cart pricer, BarnesAndNoble.getPriceForCart. An order maps ISBNs to
 * requested quantities; each ISBN is looked up in the book database. A line
 * is charged for the requested quantity capped at the quantity in stock, and
 * whatever cannot be supplied is recorded in the summary's `unavailable` map,
 * keyed by the book looked up. A null order gives a null summary.
 */
module Pricing {
  import opened Wrappers
  import opened Books
  import opened Sums

  /** ISBN -> requested quantity (a Java Map<String, Integer>). */
  type Order = map<string, int>

  /** The book database, BookDatabase.findByISBN, as ISBN -> book. */
  type Database = map<string, Book>

  datatype PurchaseSummary = PurchaseSummary(totalPrice: int, unavailable: map<Book, int>)

  /** findByISBN(isbn) returns a book carrying that ISBN. */
  predicate Consistent(db: Database)
  {
    forall isbn :: isbn in db ==> db[isbn].isbn == isbn
  }

  /** Every ordered ISBN is known to the database. */
  predicate Covers(db: Database, order: Order)
  {
    forall isbn :: isbn in order ==> isbn in db
  }

  /** No negative price, stock or request anywhere in an order and the books it looks up. */
  predicate NonNegative(order: Order, db: Database)
  {
    forall isbn :: isbn in order && isbn in db ==>
      0 <= order[isbn] && 0 <= db[isbn].price && 0 <= db[isbn].quantity
  }

  /** The quantity billed: the request, capped at the stock. */
  function Chargeable(requested: int, book: Book): int
  {
    if book.quantity < requested then book.quantity else requested
  }

  /** The part of the request that cannot be supplied. */
  function Shortfall(requested: int, book: Book): int
  {
    if book.quantity < requested then requested - book.quantity else 0
  }

  /** What one order line adds to the total. */
  function LineCharge(order: Order, db: Database, isbn: string): int
  {
    if isbn in order && isbn in db then db[isbn].price * Chargeable(order[isbn], db[isbn]) else 0
  }

  /** What one order line would cost if the whole request were in stock. */
  function LineFullPrice(order: Order, db: Database, isbn: string): int
  {
    if isbn in order && isbn in db then db[isbn].price * order[isbn] else 0
  }

  /** The price of the part of one order line that cannot be supplied. */
  function LineMissingPrice(order: Order, db: Database, isbn: string): int
  {
    if isbn in order && isbn in db then db[isbn].price * Shortfall(order[isbn], db[isbn]) else 0
  }

  ghost function Charges(order: Order, db: Database): string -> int
  {
    isbn => LineCharge(order, db, isbn)
  }

  ghost function FullPrices(order: Order, db: Database): string -> int
  {
    isbn => LineFullPrice(order, db, isbn)
  }

  ghost function MissingPrices(order: Order, db: Database): string -> int
  {
    isbn => LineMissingPrice(order, db, isbn)
  }

  /** The total price of an order: the sum of its line charges, in no particular order. */
  ghost function TotalPrice(order: Order, db: Database): int
  {
    SumOver(order.Keys, Charges(order, db))
  }

  /** The price of an order if every request were in stock. */
  ghost function FullPrice(order: Order, db: Database): int
  {
    SumOver(order.Keys, FullPrices(order, db))
  }

  /** The price of what an order asks for beyond the stock. */
  ghost function MissingPrice(order: Order, db: Database): int
  {
    SumOver(order.Keys, MissingPrices(order, db))
  }

  /** The shortfalls of the order lines whose ISBN is in `visited`, keyed by the book looked up. */
  function UnavailableAmong(visited: set<string>, order: Order, db: Database): map<Book, int>
    requires Consistent(db)
  {
    map isbn | isbn in visited && isbn in order && isbn in db && db[isbn].quantity < order[isbn]
      :: db[isbn] := order[isbn] - db[isbn].quantity
  }

  /** The shortfalls of a whole order. */
  function Unavailable(order: Order, db: Database): map<Book, int>
    requires Consistent(db)
  {
    UnavailableAmong(order.Keys, order, db)
  }

  /** The summary getPriceForCart promises, whatever order the lines are visited in. */
  ghost function PriceForCart(order: Option<Order>, db: Database): Option<PurchaseSummary>
    requires Consistent(db)
  {
    match order
    case None => None
    case Some(o) => Some(PurchaseSummary(TotalPrice(o, db), Unavailable(o, db)))
  }

  /** Visiting one more line adds its shortfall, if any, under the book looked up. */
  lemma UnavailableAmongVisit(visited: set<string>, order: Order, db: Database, isbn: string)
    requires Consistent(db) && isbn in order && isbn in db && isbn !in visited
    ensures UnavailableAmong(visited + {isbn}, order, db)
         == if db[isbn].quantity < order[isbn]
            then UnavailableAmong(visited, order, db)[db[isbn] := order[isbn] - db[isbn].quantity]
            else UnavailableAmong(visited, order, db)
  {
  }

  /** The shortfalls of the visited lines depend only on those lines. */
  lemma UnavailableAmongAgree(visited: set<string>, order1: Order, order2: Order, db: Database)
    requires Consistent(db)
    requires forall isbn :: isbn in visited ==>
               (isbn in order1 <==> isbn in order2) && (isbn in order1 ==> order1[isbn] == order2[isbn])
    ensures UnavailableAmong(visited, order1, db) == UnavailableAmong(visited, order2, db)
  {
    var m1, m2 := UnavailableAmong(visited, order1, db), UnavailableAmong(visited, order2, db);
    forall b | b in m1
      ensures b in m2 && m2[b] == m1[b]
    {
      var isbn :| isbn in visited && isbn in order1 && isbn in db && db[isbn] == b;
    }
    forall b | b in m2
      ensures b in m1
    {
      var isbn :| isbn in visited && isbn in order2 && isbn in db && db[isbn] == b;
    }
  }

  /** What the pricing loop needs to know when it visits line `isbn` of the lines still to do. */
  lemma VisitLine(order: Order, db: Database, remaining: set<string>, isbn: string)
    requires Consistent(db) && Covers(db, order) && remaining <= order.Keys && isbn in remaining
    ensures SumOver(remaining, Charges(order, db))
         == db[isbn].price * Chargeable(order[isbn], db[isbn]) + SumOver(remaining - {isbn}, Charges(order, db))
    ensures UnavailableAmong(order.Keys - (remaining - {isbn}), order, db)
         == if db[isbn].quantity < order[isbn]
            then UnavailableAmong(order.Keys - remaining, order, db)[db[isbn] := order[isbn] - db[isbn].quantity]
            else UnavailableAmong(order.Keys - remaining, order, db)
  {
    SumOverRemove(remaining, Charges(order, db), isbn);
    assert order.Keys - (remaining - {isbn}) == (order.Keys - remaining) + {isbn};
    UnavailableAmongVisit(order.Keys - remaining, order, db, isbn);
  }

  /** Map<Book, Integer>.get(probe): the value stored under a key that equals the probe. */
  ghost function GetByEquals(m: map<Book, int>, probe: Book): (r: Option<int>)
    ensures r.None? <==> forall b :: b in m ==> !Equals(probe, BookValue(b))
    ensures r.Some? ==> exists b :: b in m && Equals(probe, BookValue(b)) && r.value == m[b]
    ensures DistinctAsBooks(m) && probe in m ==> r == Some(m[probe])
  {
    if exists b :: b in m && Equals(probe, BookValue(b)) then
      var b :| b in m && Equals(probe, BookValue(b));
      Some(m[b])
    else
      None
  }

  /** No two keys are equal as books, so a map with structural keys behaves as one keyed by Book.equals. */
  ghost predicate DistinctAsBooks(m: map<Book, int>)
  {
    forall b1, b2 :: b1 in m && b2 in m && Equals(b1, BookValue(b2)) ==> b1 == b2
  }

  class BarnesAndNoble {
    const database: Database

    constructor (database: Database)
      ensures this.database == database
    {
      this.database := database;
    }

    /**
     * One order line: the request is charged up to the stock, and a request
     * beyond the stock is recorded as unavailable under the book looked up.
     */
    static method PriceLine(book: Book, requested: int, total: int, unavailable: map<Book, int>)
      returns (newTotal: int, newUnavailable: map<Book, int>)
      ensures newTotal == total + book.price * Chargeable(requested, book)
      ensures newUnavailable == if book.quantity < requested
                                then unavailable[book := Shortfall(requested, book)]
                                else unavailable
    {
      var quantity := requested;
      var available := book.quantity;
      newUnavailable := unavailable;
      if available < quantity {
        newUnavailable := newUnavailable[book := quantity - available];
        quantity := available;
      }
      newTotal := total + book.price * quantity;
    }

    /** getPriceForCart: visits the order's lines in an arbitrary order. */
    method GetPriceForCart(order: Option<Order>) returns (summary: Option<PurchaseSummary>)
      requires Consistent(database)
      requires order.Some? ==> Covers(database, order.value)
      ensures summary == PriceForCart(order, database)
    {
      if order.None? {
        return None;
      }
      var o := order.value;
      var remaining := o.Keys;
      var total := 0;
      var unavailable: map<Book, int> := map[];
      while remaining != {}
        invariant remaining <= o.Keys
        invariant total + SumOver(remaining, Charges(o, database)) == TotalPrice(o, database)
        invariant unavailable == UnavailableAmong(o.Keys - remaining, o, database)
        decreases remaining
      {
        var isbn :| isbn in remaining;
        VisitLine(o, database, remaining, isbn);
        total, unavailable := PriceLine(database[isbn], o[isbn], total, unavailable);
        remaining := remaining - {isbn};
      }
      assert total == TotalPrice(o, database);
      assert o.Keys - remaining == o.Keys;
      assert unavailable == Unavailable(o, database);
      return Some(PurchaseSummary(total, unavailable));
    }
  }
}
