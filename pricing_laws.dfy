/**
 * What getPriceForCart promises, stated on its specification PriceForCart:
 * the null and empty orders, how each line contributes, that the total never
 * exceeds the full price, and how the unavailable map is keyed.
 */
module PricingLaws {
  import opened Wrappers
  import opened Books
  import opened Sums
  import opened Pricing

  /** A null order gives a null summary. */
  lemma NullOrderGivesNullSummary(db: Database)
    requires Consistent(db)
    ensures PriceForCart(None, db) == None
  {
  }

  /** An empty order gives a summary with total 0 and nothing unavailable. */
  lemma EmptyOrderGivesEmptySummary(db: Database)
    requires Consistent(db)
    ensures PriceForCart(Some(map[]), db) == Some(PurchaseSummary(0, map[]))
  {
    var empty: Order := map[];
    assert TotalPrice(empty, db) == 0 by {
      assert empty.Keys == {};
    }
    assert Unavailable(empty, db) == map[] by {
      forall b | b in Unavailable(empty, db) ensures false {
      }
    }
  }

  /**
   * Adding a line for a new ISBN adds that line's capped charge to the total,
   * whatever lines the order already holds: the total does not depend on the
   * order in which lines were put into the order or are visited.
   */
  lemma TotalPriceInsert(order: Order, db: Database, isbn: string, requested: int)
    requires isbn !in order && isbn in db
    ensures TotalPrice(order[isbn := requested], db)
         == TotalPrice(order, db) + db[isbn].price * Chargeable(requested, db[isbn])
  {
    var bigger := order[isbn := requested];
    assert bigger.Keys == order.Keys + {isbn};
    SumOverInsert(order.Keys, Charges(bigger, db), isbn);
    SumOverCongruent(order.Keys, Charges(bigger, db), Charges(order, db));
  }

  /** Adding a line for a new ISBN adds its shortfall, if any, under the book looked up. */
  lemma UnavailableInsert(order: Order, db: Database, isbn: string, requested: int)
    requires Consistent(db) && isbn !in order && isbn in db
    ensures Unavailable(order[isbn := requested], db)
         == if db[isbn].quantity < requested
            then Unavailable(order, db)[db[isbn] := requested - db[isbn].quantity]
            else Unavailable(order, db)
  {
    var bigger := order[isbn := requested];
    calc {
      Unavailable(bigger, db);
      { assert bigger.Keys == order.Keys + {isbn}; }
      UnavailableAmong(order.Keys + {isbn}, bigger, db);
      { UnavailableAmongVisit(order.Keys, bigger, db, isbn); }
      if db[isbn].quantity < requested
      then UnavailableAmong(order.Keys, bigger, db)[db[isbn] := requested - db[isbn].quantity]
      else UnavailableAmong(order.Keys, bigger, db);
      { UnavailableAmongAgree(order.Keys, bigger, order, db); }
      if db[isbn].quantity < requested
      then Unavailable(order, db)[db[isbn] := requested - db[isbn].quantity]
      else Unavailable(order, db);
    }
  }

  /** A line whose book has the stock for it is charged in full and is never unavailable. */
  lemma InStockLine(order: Order, db: Database, isbn: string)
    requires Consistent(db) && isbn in order && isbn in db
    requires order[isbn] <= db[isbn].quantity
    ensures LineCharge(order, db, isbn) == db[isbn].price * order[isbn]
    ensures db[isbn] !in Unavailable(order, db)
  {
  }

  /** A line asking for nothing costs nothing and is never unavailable, however small the stock. */
  lemma ZeroRequestIsFree(order: Order, db: Database, isbn: string)
    requires Consistent(db) && isbn in order && isbn in db
    requires order[isbn] == 0 && 0 <= db[isbn].quantity
    ensures LineCharge(order, db, isbn) == 0
    ensures db[isbn] !in Unavailable(order, db)
  {
  }

  /**
   * When every request is within stock, the total is the sum of price times
   * requested quantity and nothing is unavailable.
   */
  lemma InStockOrderChargesFullPrice(order: Order, db: Database)
    requires Consistent(db) && Covers(db, order)
    requires forall isbn :: isbn in order ==> order[isbn] <= db[isbn].quantity
    ensures TotalPrice(order, db) == FullPrice(order, db)
    ensures Unavailable(order, db) == map[]
  {
    SumOverCongruent(order.Keys, Charges(order, db), FullPrices(order, db));
  }

  /** The total charged plus the price of what is unavailable is the full price of the order. */
  lemma ChargedPlusMissingIsFullPrice(order: Order, db: Database)
    ensures TotalPrice(order, db) + MissingPrice(order, db) == FullPrice(order, db)
  {
    forall isbn | isbn in order.Keys
      ensures FullPrices(order, db)(isbn) == Charges(order, db)(isbn) + MissingPrices(order, db)(isbn)
    {
      if isbn in db {
        var price, requested := db[isbn].price, order[isbn];
        var chargeable, shortfall := Chargeable(requested, db[isbn]), Shortfall(requested, db[isbn]);
        assert chargeable + shortfall == requested;
        assert price * requested == price * chargeable + price * shortfall by {
          assert price * (chargeable + shortfall) == price * chargeable + price * shortfall;
        }
      }
    }
    SumOverAdd(order.Keys, Charges(order, db), MissingPrices(order, db), FullPrices(order, db));
  }

  /** With no negative price, stock or request, the total lies between 0 and the full price. */
  lemma TotalPriceBounds(order: Order, db: Database)
    requires NonNegative(order, db)
    ensures 0 <= TotalPrice(order, db) <= FullPrice(order, db)
  {
    forall isbn | isbn in order.Keys
      ensures 0 <= Charges(order, db)(isbn) && 0 <= MissingPrices(order, db)(isbn)
    {
      if isbn in db {
        var price := db[isbn].price;
        var chargeable, shortfall := Chargeable(order[isbn], db[isbn]), Shortfall(order[isbn], db[isbn]);
        assert 0 <= chargeable && 0 <= shortfall;
        assert 0 <= price * chargeable && 0 <= price * shortfall;
      }
    }
    SumOverNonnegative(order.Keys, Charges(order, db));
    SumOverNonnegative(order.Keys, MissingPrices(order, db));
    ChargedPlusMissingIsFullPrice(order, db);
  }

  /**
   * The book looked up for a line is unavailable exactly when the request
   * exceeds its stock, and then with the difference as its value.
   */
  lemma UnavailableIffShort(order: Order, db: Database, isbn: string)
    requires Consistent(db) && isbn in order && isbn in db
    ensures db[isbn] in Unavailable(order, db) <==> db[isbn].quantity < order[isbn]
    ensures db[isbn] in Unavailable(order, db) ==>
              Unavailable(order, db)[db[isbn]] == order[isbn] - db[isbn].quantity
  {
  }

  /** Every unavailable book is the book looked up for a line whose request exceeds its stock. */
  lemma UnavailableKeysAreShortLines(order: Order, db: Database, b: Book)
    requires Consistent(db) && b in Unavailable(order, db)
    ensures b.isbn in order && b.isbn in db && db[b.isbn] == b
    ensures b.quantity < order[b.isbn]
    ensures Unavailable(order, db)[b] == order[b.isbn] - b.quantity > 0
  {
  }

  /** No two unavailable books are equal as books (same ISBN). */
  lemma UnavailableDistinctAsBooks(order: Order, db: Database)
    requires Consistent(db)
    ensures DistinctAsBooks(Unavailable(order, db))
  {
  }

  /**
   * getUnavailable().get(probe), for any probe equal to a line's book (the
   * same ISBN, whatever its price and stock), gives that line's shortfall, or
   * null when the line is fully in stock.
   */
  lemma GetUnavailableByEquals(order: Order, db: Database, isbn: string, probe: Book)
    requires Consistent(db) && isbn in order && isbn in db
    requires Equals(probe, BookValue(db[isbn]))
    ensures GetByEquals(Unavailable(order, db), probe)
         == if db[isbn].quantity < order[isbn] then Some(order[isbn] - db[isbn].quantity) else None
  {
  }
}
