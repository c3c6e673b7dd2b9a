/**
 * The suite's scenarios, each stated on the specification of getPriceForCart
 * (which BarnesAndNoble.GetPriceForCart is proved to return) or on Book's
 * equality and hash code.
 */
module Scenarios {
  import opened Wrappers
  import opened Books
  import opened Pricing
  import opened PricingLaws

  /** An order of one line, priced line by line from the empty order. */
  lemma OneLine(db: Database, isbn: string, requested: int)
    requires Consistent(db) && isbn in db
    ensures TotalPrice(map[isbn := requested], db) == db[isbn].price * Chargeable(requested, db[isbn])
    ensures Unavailable(map[isbn := requested], db)
         == if db[isbn].quantity < requested then map[db[isbn] := requested - db[isbn].quantity] else map[]
  {
    var empty: Order := map[];
    assert TotalPrice(empty, db) == 0 && Unavailable(empty, db) == map[] by {
      EmptyOrderGivesEmptySummary(db);
    }
    assert empty[isbn := requested] == map[isbn := requested];
    TotalPriceInsert(empty, db, isbn, requested);
    UnavailableInsert(empty, db, isbn, requested);
  }

  /** Order {"123": 5} against Book("123", 10, 5): total 50, nothing unavailable. */
  lemma ReturnOnePrice()
    ensures PriceForCart(Some(map["123" := 5]), map["123" := Book("123", 10, 5)])
         == Some(PurchaseSummary(50, map[]))
  {
    var db := map["123" := Book("123", 10, 5)];
    OneLine(db, "123", 5);
  }

  /** Order {"123": 5, "456": 10} against Book("123", 10, 5) and Book("456", 20, 15): total 250. */
  lemma ReturnMultiplePrices()
    ensures PriceForCart(Some(map["123" := 5, "456" := 10]),
                         map["123" := Book("123", 10, 5), "456" := Book("456", 20, 15)])
         == Some(PurchaseSummary(250, map[]))
  {
    var db := map["123" := Book("123", 10, 5), "456" := Book("456", 20, 15)];
    OneLine(db, "123", 5);
    TotalPriceInsert(map["123" := 5], db, "456", 10);
    UnavailableInsert(map["123" := 5], db, "456", 10);
  }

  /** Order {"123": 0} against Book("123", 10, 3): total 0, nothing unavailable. */
  lemma ZeroQuantityOrder()
    ensures PriceForCart(Some(map["123" := 0]), map["123" := Book("123", 10, 3)])
         == Some(PurchaseSummary(0, map[]))
  {
    OneLine(map["123" := Book("123", 10, 3)], "123", 0);
  }

  /** Order {"123": 5} against Book("123", 10, 3): 3 are charged (30) and 2 are unavailable. */
  lemma BookQuantityLessThanRequested()
    ensures var book := Book("123", 10, 3);
            var summary := PriceForCart(Some(map["123" := 5]), map["123" := book]);
            && summary == Some(PurchaseSummary(30, map[book := 2]))
            && GetByEquals(summary.value.unavailable, book) == Some(2)
  {
    var book := Book("123", 10, 3);
    var db := map["123" := book];
    OneLine(db, "123", 5);
    GetUnavailableByEquals(map["123" := 5], db, "123", book);
  }

  /** Order {"123": 3} against Book("123", 10, 3): total 30, no shortfall at the boundary. */
  lemma BookQuantityMatchesRequested()
    ensures PriceForCart(Some(map["123" := 3]), map["123" := Book("123", 10, 3)])
         == Some(PurchaseSummary(30, map[]))
  {
    OneLine(map["123" := Book("123", 10, 3)], "123", 3);
  }

  /**
   * Order {"123": 5, "456": 8} against Book("123", 10, 3) and Book("456", 12, 10):
   * 3 * 10 + 8 * 12 = 126, and only the first book is unavailable, short by 2.
   */
  lemma MixedSufficientAndInsufficientQuantity()
    ensures var book1 := Book("123", 10, 3);
            var summary := PriceForCart(Some(map["123" := 5, "456" := 8]),
                                        map["123" := book1, "456" := Book("456", 12, 10)]);
            && summary == Some(PurchaseSummary(126, map[book1 := 2]))
            && GetByEquals(summary.value.unavailable, book1) == Some(2)
  {
    var book1 := Book("123", 10, 3);
    var db := map["123" := book1, "456" := Book("456", 12, 10)];
    OneLine(db, "123", 5);
    TotalPriceInsert(map["123" := 5], db, "456", 8);
    UnavailableInsert(map["123" := 5], db, "456", 8);
    GetUnavailableByEquals(map["123" := 5, "456" := 8], db, "123", book1);
  }

  /** The mixed scenario run through the pricer object itself. */
  method MixedOrderThroughThePricer() returns (summary: Option<PurchaseSummary>)
    ensures summary == Some(PurchaseSummary(126, map[Book("123", 10, 3) := 2]))
  {
    var book1 := Book("123", 10, 3);
    var bn := new BarnesAndNoble(map["123" := book1, "456" := Book("456", 12, 10)]);
    summary := bn.GetPriceForCart(Some(map["123" := 5, "456" := 8]));
    MixedSufficientAndInsufficientQuantity();
  }

  /**
   * Book("123", 10, 1) equals itself and Book("123", 20, 2), but not null, a
   * string, or Book("456", 10, 1); it hashes like Book("123", 20, 2).
   */
  lemma BookClassCoverage()
    ensures var book, bookCopy, bookDiff := Book("123", 10, 1), Book("123", 20, 2), Book("456", 10, 1);
            && Equals(book, BookValue(book))
            && !Equals(book, Null)
            && !Equals(book, OtherValue("string"))
            && Equals(book, BookValue(bookCopy))
            && !Equals(book, BookValue(bookDiff))
            && HashCode(book) == HashCode(bookCopy)
  {
  }
}
