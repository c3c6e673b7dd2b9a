# Barnes & Noble cart pricer

A Dafny model of the bookstore cart pricer that the suite
`src/test/java/org/example/Barnes/BarnesAndNobleTest.java` exercises.
`BarnesAndNoble.getPriceForCart(order)` takes an order, which maps ISBNs to
requested quantities. It looks each ISBN up in the book database and returns a
`PurchaseSummary`. Each line is charged `price × min(requested, in stock)`.
When a request exceeds the stock, the difference is recorded in the summary's
`unavailable` map under the `Book` that was looked up. A null order gives a
null summary. A `Book` is an ISBN, a unit price and a stock quantity. Two books
are equal when their ISBNs are equal, and the hash code depends on the ISBN
alone.

The classes `BarnesAndNoble`, `Book`, `PurchaseSummary`, `BookDatabase` and
`BuyBookProcess` are not in the repository files this model follows. The
model follows what the suite's assertions require of these classes.

Files (all modules are top level):

- `wrappers.dfy` — `Option`, a Java reference that may be null.
- `sums.dfy` — `SumOver`, a finite sum over a set of ISBNs that takes the keys
  in an arbitrary order, with the lemmas that make it order-independent.
- `books.dfy` — `Book`, `Book.equals(Object)` as `Equals`, and `hashCode` as
  `HashCode`, with the equality and hash laws.
- `pricing.dfy` — the specification `PriceForCart` (built from `TotalPrice` and
  `Unavailable`), `Map.get` under `Book.equals` as `GetByEquals`, and the class
  `BarnesAndNoble`. Its method `GetPriceForCart` loops over the order's ISBNs
  in an arbitrary order, like a `HashMap` iteration, and is proved to return
  exactly `PriceForCart`.
- `pricing_laws.dfy` — the general properties of `PriceForCart`.
- `scenarios.dfy` — one lemma per test of the suite that prices a non-empty
  order or compares books. The null-order and empty-order tests are covered by
  `PricingLaws.NullOrderGivesNullSummary` and
  `PricingLaws.EmptyOrderGivesEmptySummary` in `pricing_laws.dfy`.

`Book.equals` compares ISBNs only: the assertion at
`BarnesAndNobleTest.java:176` makes `Book("123", 10, 1)` equal to
`Book("123", 20, 2)`, two books with different prices.

## Model

| member | source | states |
|---|---|---|
| `Pricing.BarnesAndNoble.GetPriceForCart` | src/test/java/org/example/Barnes/BarnesAndNobleTest.java:17-163 | Whatever order the ISBNs are visited in, the result is exactly `PriceForCart`. A null order gives null. Otherwise the total is the sum of the capped line charges, and `unavailable` maps each short line's book to requested − stock. |
| `Pricing.BarnesAndNoble.PriceLine` | src/test/java/org/example/Barnes/BarnesAndNobleTest.java:105-140 | One order line adds price × min(requested, stock) to the total; when the request exceeds the stock it records requested − stock under the book, and otherwise leaves the unavailable map as it was. |
| `Pricing.GetByEquals` | src/test/java/org/example/Barnes/BarnesAndNobleTest.java:120 | `Map.get(probe)` under `Book.equals`: null exactly when no key equals the probe, otherwise the value of a key equal to the probe; on a map whose keys are pairwise unequal as books, a key looks up its own value. |
| `Scenarios.MixedOrderThroughThePricer` | src/test/java/org/example/Barnes/BarnesAndNobleTest.java:145-164 | The mixed test run through a `BarnesAndNoble` object returns total 126 and unavailable {Book("123", 10, 3): 2}. |
| `Sums.SumOverRemove` | src/test/java/org/example/Barnes/BarnesAndNobleTest.java:145-163 | Any key can be taken out of the sum first with the same result, so the total does not depend on the map's iteration order. |
| `PricingLaws.NullOrderGivesNullSummary` | src/test/java/org/example/Barnes/BarnesAndNobleTest.java:17-23 | A null order gives a null summary. |
| `PricingLaws.EmptyOrderGivesEmptySummary` | src/test/java/org/example/Barnes/BarnesAndNobleTest.java:89-100 | An empty order gives a non-null summary with total 0 and an empty unavailable map. |
| `PricingLaws.TotalPriceInsert` | src/test/java/org/example/Barnes/BarnesAndNobleTest.java:58-64 | Putting a line for a new ISBN into an order adds exactly that line's capped charge, price × min(requested, stock), to the total. |
| `PricingLaws.UnavailableInsert` | src/test/java/org/example/Barnes/BarnesAndNobleTest.java:156-163 | Putting a line for a new ISBN into an order adds requested − stock under its book when the stock is short, and leaves the unavailable map unchanged otherwise. |
| `PricingLaws.InStockLine` | src/test/java/org/example/Barnes/BarnesAndNobleTest.java:125-140 | A line whose request is at most its stock, including exactly equal, is charged price × requested and its book is not unavailable. |
| `PricingLaws.ZeroRequestIsFree` | src/test/java/org/example/Barnes/BarnesAndNobleTest.java:69-84 | A line requesting 0 costs 0 and its book is never unavailable, however small the stock, provided it is not negative. |
| `PricingLaws.InStockOrderChargesFullPrice` | src/test/java/org/example/Barnes/BarnesAndNobleTest.java:28-64 | When every request is within stock, the total is the sum of price × requested and nothing is unavailable. |
| `PricingLaws.ChargedPlusMissingIsFullPrice` | src/test/java/org/example/Barnes/BarnesAndNobleTest.java:105-120 | The total charged plus the price of the unavailable quantities equals the price of the whole request. |
| `PricingLaws.TotalPriceBounds` | src/test/java/org/example/Barnes/BarnesAndNobleTest.java:105-120 | With no negative price, stock or request, the total lies between 0 and the price of the whole request. |
| `PricingLaws.UnavailableIffShort` | src/test/java/org/example/Barnes/BarnesAndNobleTest.java:105-140 | A line's book is in the unavailable map if and only if its request exceeds its stock, and then its value is requested − stock. |
| `PricingLaws.UnavailableKeysAreShortLines` | src/test/java/org/example/Barnes/BarnesAndNobleTest.java:145-163 | Every unavailable book is the book looked up for some short line, and its value is that line's positive shortfall. |
| `PricingLaws.UnavailableDistinctAsBooks` | src/test/java/org/example/Barnes/BarnesAndNobleTest.java:166-178 | No two keys of the unavailable map are equal under `Book.equals`, so the model's map has the same entries as a Java map keyed by that equality. |
| `PricingLaws.GetUnavailableByEquals` | src/test/java/org/example/Barnes/BarnesAndNobleTest.java:117-120 | `getUnavailable().get(probe)` for any book equal to a line's book gives requested − stock when the line is short, and null otherwise. |
| `Scenarios.ReturnOnePrice` | src/test/java/org/example/Barnes/BarnesAndNobleTest.java:28-43 | {"123": 5} with Book("123", 10, 5) gives total 50 and nothing unavailable. |
| `Scenarios.ReturnMultiplePrices` | src/test/java/org/example/Barnes/BarnesAndNobleTest.java:47-65 | {"123": 5, "456": 10} with Book("123", 10, 5) and Book("456", 20, 15) gives total 250 and nothing unavailable. |
| `Scenarios.ZeroQuantityOrder` | src/test/java/org/example/Barnes/BarnesAndNobleTest.java:69-85 | {"123": 0} with Book("123", 10, 3) gives total 0 and nothing unavailable. |
| `Scenarios.BookQuantityLessThanRequested` | src/test/java/org/example/Barnes/BarnesAndNobleTest.java:105-121 | {"123": 5} with Book("123", 10, 3) gives total 30 and unavailable {book: 2}, and `get(book)` is 2. |
| `Scenarios.BookQuantityMatchesRequested` | src/test/java/org/example/Barnes/BarnesAndNobleTest.java:125-141 | {"123": 3} with Book("123", 10, 3) gives total 30 and nothing unavailable. |
| `Scenarios.MixedSufficientAndInsufficientQuantity` | src/test/java/org/example/Barnes/BarnesAndNobleTest.java:145-164 | {"123": 5, "456": 8} with Book("123", 10, 3) and Book("456", 12, 10) gives total 126 and unavailable {book1: 2} only, and `get(book1)` is 2. |
| `Scenarios.BookClassCoverage` | src/test/java/org/example/Barnes/BarnesAndNobleTest.java:166-179 | Book("123", 10, 1) equals itself and Book("123", 20, 2), but not null, a string, or Book("456", 10, 1). It has the same hash code as Book("123", 20, 2). |
| `Books.Equals` | src/test/java/org/example/Barnes/BarnesAndNobleTest.java:173-178 | `Book.equals`: only a book can be equal to a book, every book equals itself, and equal books have equal hash codes. |
| `Books.HashCode` | src/test/java/org/example/Barnes/BarnesAndNobleTest.java:178 | `Book.hashCode`: a Java `int` computed from the ISBN alone, so books with the same ISBN hash equally. |
| `Books.EqualsReflexive` | src/test/java/org/example/Barnes/BarnesAndNobleTest.java:173 | Every book equals itself. |
| `Books.EqualsRejectsNonBooks` | src/test/java/org/example/Barnes/BarnesAndNobleTest.java:174-175 | A book never equals null or an object of another class. |
| `Books.EqualsIgnoresPriceAndQuantity` | src/test/java/org/example/Barnes/BarnesAndNobleTest.java:169-176 | A book equals every book with its ISBN, whatever that book's price and quantity. |
| `Books.EqualsIffSameIsbn` | src/test/java/org/example/Barnes/BarnesAndNobleTest.java:169-177 | Two books are equal if and only if their ISBNs are equal. |
| `Books.EqualsSymmetric` | src/test/java/org/example/Barnes/BarnesAndNobleTest.java:176 | Book equality is symmetric. |
| `Books.EqualsTransitive` | src/test/java/org/example/Barnes/BarnesAndNobleTest.java:176 | Book equality is transitive. |
| `Books.HashCodeAgreesWithEquals` | src/test/java/org/example/Barnes/BarnesAndNobleTest.java:178 | Equal books have equal hash codes. |

## Left out

- `BuyBookProcess` is left out. It is passed to the `BarnesAndNoble` constructor, but no assertion in the suite observes any call on it.
- `BookDatabase.findByISBN` and its Mockito stubbing are modelled as a map from ISBN to `Book`. `GetPriceForCart` requires every ordered ISBN to be in it (`Covers`), because the suite never prices an unknown ISBN.
- `GetPriceForCart` also requires that the book found for an ISBN carries that ISBN (`Consistent`). Without this, two ISBNs could look up equal books whose shortfalls overwrite each other in an order that depends on the iteration order.
- `Pricing.BarnesAndNoble.GetPriceForCart`: totals and line charges are unbounded integers, so the wrap-around of Java's 32-bit `int` on overflow is not modelled.
- `GetPriceForCart` accumulates the total and the unavailable map in local variables and builds the summary once at the end. The object-by-object mutation of a `PurchaseSummary` is not modelled.
- `HashCode` uses the `31 * h + c` string hash of the ISBN wrapped to 32 bits. This is one representative function of the ISBN alone. The suite asserts only that equal books hash equally, so the concrete integer is not modelled.
- Negative prices, stock or requests are not excluded by `GetPriceForCart`, which computes the same formula for them. Only `TotalPriceBounds` (no negative price, stock or request) and `ZeroRequestIsFree` (no negative stock) require non-negative values.
- `Order` is a map from non-null strings to integers. A Java `Map<String, Integer>` may also hold a null key or a null value, which the model cannot express; the suite never does either.
- JUnit annotations, display names and the particular `HashMap` iteration order are left out. The loop's arbitrary choice of the next ISBN stands for every iteration order.
