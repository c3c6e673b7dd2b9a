/**
 * Book: an ISBN, a unit price and the quantity in stock. Two books are equal
 * when their ISBNs are equal; price and quantity play no part in equality,
 * and the hash code depends on the ISBN alone, so it agrees with equality.
 */
module Books {

  datatype Book = Book(isbn: string, price: int, quantity: int)

  /** What can be passed to Book.equals(Object): null, a Book, or some other object. */
  datatype Value = Null | BookValue(book: Book) | OtherValue(text: string)

  /**
   * Book.equals(Object) of the receiver `self`: only a book can be equal,
   * every book equals itself, and equal books have equal hash codes.
   */
  predicate Equals(self: Book, other: Value): (r: bool)
    ensures r ==> other.BookValue?
    ensures other == BookValue(self) ==> r
    ensures r ==> HashCode(self) == HashCode(other.book)
  {
    match other
    case Null => false
    case BookValue(b) => b.isbn == self.isbn
    case OtherValue(_) => false
  }

  /** Java's int range: the hash code is a 32-bit signed integer. */
  predicate IsInt32(x: int)
  {
    -0x8000_0000 <= x < 0x8000_0000
  }

  /** Two's-complement wrap-around of an arbitrary integer into Java's int range. */
  function WrapInt32(x: int): (r: int)
    ensures IsInt32(r)
    ensures (r - x) % 0x1_0000_0000 == 0
  {
    (x + 0x8000_0000) % 0x1_0000_0000 - 0x8000_0000
  }

  /** The polynomial string hash h = 31 * h + c over the characters, in int arithmetic. */
  function StringHash(s: string): (h: int)
    ensures IsInt32(h)
  {
    if s == [] then 0
    else WrapInt32(31 * StringHash(s[..|s| - 1]) + s[|s| - 1] as int)
  }

  /** Book.hashCode(): a function of the ISBN alone. */
  function HashCode(b: Book): (h: int)
    ensures IsInt32(h)
  {
    StringHash(b.isbn)
  }

  lemma EqualsReflexive(b: Book)
    ensures Equals(b, BookValue(b))
  {
  }

  /** A book never equals null nor an object of another class. */
  lemma EqualsRejectsNonBooks(b: Book, text: string)
    ensures !Equals(b, Null)
    ensures !Equals(b, OtherValue(text))
  {
  }

  lemma EqualsSymmetric(a: Book, b: Book)
    ensures Equals(a, BookValue(b)) <==> Equals(b, BookValue(a))
  {
  }

  lemma EqualsTransitive(a: Book, b: Book, c: Book)
    requires Equals(a, BookValue(b)) && Equals(b, BookValue(c))
    ensures Equals(a, BookValue(c))
  {
  }

  /** Equality holds between any two books with the same ISBN, whatever their prices and quantities. */
  lemma EqualsIgnoresPriceAndQuantity(b: Book, price: int, quantity: int)
    ensures Equals(b, BookValue(Book(b.isbn, price, quantity)))
  {
  }

  /** Books are equal exactly when their ISBNs are. */
  lemma EqualsIffSameIsbn(a: Book, b: Book)
    ensures Equals(a, BookValue(b)) <==> a.isbn == b.isbn
  {
  }

  /** Equal books have equal hash codes. */
  lemma HashCodeAgreesWithEquals(a: Book, b: Book)
    requires Equals(a, BookValue(b))
    ensures HashCode(a) == HashCode(b)
  {
  }
}
