/** The library service of questions/LibraryManagementSystem.java: books with copy
    counters, users with a borrow counter, a repository keyed by isbn, a pluggable
    borrow rule and the service that stocks, lends and takes back books. The
    counter arithmetic of each operation is a function on snapshots (`BookView`,
    `UserView`); the methods are proved to move their objects exactly as those
    functions say, and the lemmas say what the functions do over several calls. */
module Library {

  /** The fields of a `Book` at one moment. */
  datatype BookView = BookView(title: string, author: string, isbn: string, category: string,
                               totalCopies: int, availableCopies: int)

  /** The fields of a `User` at one moment. */
  datatype UserView = UserView(name: string, currentBorrowCount: int, maxLimit: int)

  /** The limit every new user starts with. */
  const DefaultMaxLimit: int := 3

  /** `DefaultBorrowPolicy.canBorrow`. */
  predicate DefaultCanBorrow(u: UserView, b: BookView) {
    u.currentBorrowCount < u.maxLimit && b.availableCopies > 0
  }

  /** Lines 95-96 of `addBookStock`. */
  function Stocked(b: BookView, count: int): BookView {
    b.(totalCopies := b.totalCopies + count, availableCopies := b.availableCopies + count)
  }

  /** Lines 122-123 of `borrowBook`. */
  function Lent(u: UserView, b: BookView): (UserView, BookView) {
    (u.(currentBorrowCount := u.currentBorrowCount + 1), b.(availableCopies := b.availableCopies - 1))
  }

  /** Lines 137-139 of `returnBook`: no check of any kind. */
  function TakenBack(u: UserView, b: BookView): (UserView, BookView) {
    (u.(currentBorrowCount := u.currentBorrowCount - 1),
     b.(availableCopies := b.availableCopies + 1, totalCopies := b.totalCopies + 1))
  }

  /** The book `returnBook` invents for an isbn the repository does not know. */
  function UnknownBook(isbn: string): BookView {
    BookView("Unknown", "Unknown", isbn, "Misc", 0, 0)
  }

  /** Counters a library starts from and means to keep: no negative count, no more
      borrowed than allowed, no more available than owned. */
  predicate InRange(u: UserView, b: BookView) {
    0 <= u.currentBorrowCount <= u.maxLimit && 0 <= b.availableCopies <= b.totalCopies
  }

  /** Under the default rule a permitted borrow keeps in-range counters in range: no
      negative stock and no user above the limit. */
  lemma DefaultBorrowStaysInRange(u: UserView, b: BookView)
    requires InRange(u, b) && DefaultCanBorrow(u, b)
    ensures InRange(Lent(u, b).0, Lent(u, b).1)
  {
  }

  /** A borrow and its return leave the user and the shelf as they were but own one
      more copy: `returnBook` raises `totalCopies` although the copy was the
      library's already. */
  lemma BorrowThenReturnGrowsStock(u: UserView, b: BookView)
    ensures var (u1, b1) := Lent(u, b);
      var (u2, b2) := TakenBack(u1, b1);
      && u2 == u
      && b2.availableCopies == b.availableCopies
      && b2.totalCopies == b.totalCopies + 1
  {
  }

  /** Returning a book that was never borrowed drives the borrow count below zero,
      and pushes the available copies past those owned before the call. */
  lemma ReturnWithoutBorrowGoesNegative(u: UserView, b: BookView)
    requires u.currentBorrowCount == 0 && b.availableCopies == b.totalCopies
    ensures TakenBack(u, b).0.currentBorrowCount == -1
    ensures TakenBack(u, b).1.availableCopies > b.totalCopies
  {
  }

  /** A return of an unknown isbn leaves an "Unknown" book with one copy, on the
      shelf, under that isbn. */
  lemma UnknownReturnOwnsOneCopy(u: UserView, isbn: string)
    ensures var b := TakenBack(u, UnknownBook(isbn)).1;
      && b.isbn == isbn && b.title == "Unknown" && b.author == "Unknown" && b.category == "Misc"
      && b.totalCopies == 1 && b.availableCopies == 1
  {
  }

  class Book {
    const title: string
    const author: string
    const isbn: string
    const category: string
    var totalCopies: int
    var availableCopies: int

    function View(): BookView
      reads this
    {
      BookView(title, author, isbn, category, totalCopies, availableCopies)
    }

    constructor(title: string, author: string, isbn: string, category: string)
      ensures View() == BookView(title, author, isbn, category, 0, 0)
    {
      this.title := title;
      this.author := author;
      this.isbn := isbn;
      this.category := category;
      totalCopies := 0;
      availableCopies := 0;
    }
  }

  class User {
    const name: string
    var currentBorrowCount: int
    var maxLimit: int

    function View(): UserView
      reads this
    {
      UserView(name, currentBorrowCount, maxLimit)
    }

    constructor(name: string)
      ensures View() == UserView(name, 0, DefaultMaxLimit)
    {
      this.name := name;
      currentBorrowCount := 0;
      maxLimit := DefaultMaxLimit;
    }
  }

  /** `InMemoryBookRepository`: books by isbn. */
  class InMemoryBookRepository {
    var books: map<string, Book>

    /** Every book is stored under its own isbn, so no book is stored twice. */
    ghost predicate Valid()
      reads this
    {
      forall k :: k in books ==> books[k].isbn == k
    }

    constructor()
      ensures Valid() && books == map[]
    {
      books := map[];
    }

    /** `put(b.isbn, b)`: afterwards `b` is the book under its isbn, replacing any
        other; every other isbn keeps its book. */
    method AddBook(b: Book)
      requires Valid()
      modifies this
      ensures Valid()
      ensures GetBook(b.isbn) == b && Exists(b.isbn)
      ensures forall k :: k != b.isbn ==> GetBook(k) == old(GetBook(k))
      ensures books == old(books)[b.isbn := b]
    {
      books := books[b.isbn := b];
    }

    /** `get(isbn)`: the stored book, which carries that isbn, or null when there is
        none. */
    function GetBook(isbn: string): (r: Book?)
      reads this
      ensures r == null <==> !Exists(isbn)
      ensures Valid() && r != null ==> r.isbn == isbn
    {
      if isbn in books then books[isbn] else null
    }

    /** `containsKey(isbn)`. */
    predicate Exists(isbn: string)
      reads this
    {
      isbn in books
    }
  }

  /** What `borrowBook` reports on the console, as a value. */
  datatype BorrowOutcome = NotFound | NotAllowed | Borrowed

  class LibraryService {
    const repo: InMemoryBookRepository
    /** The borrow rule, deciding on the user's and the book's counters. */
    const canBorrow: (UserView, BookView) -> bool

    constructor(repo: InMemoryBookRepository, policy: (UserView, BookView) -> bool)
      ensures this.repo == repo && canBorrow == policy
    {
      this.repo := repo;
      canBorrow := policy;
    }

    /** Stores `b` only when its isbn is unknown, then adds `count` to both counters
        of `b`. When another book already has the isbn, that stored book keeps its
        counters and the copies go to `b`, which the repository does not hold. */
    method AddBookStock(b: Book, count: int)
      requires repo.Valid()
      modifies repo, b
      ensures repo.Valid()
      ensures repo.books == if b.isbn in old(repo.books) then old(repo.books)
                            else old(repo.books)[b.isbn := b]
      ensures b.View() == Stocked(old(b.View()), count)
      ensures b.isbn in old(repo.books) && old(repo.books[b.isbn]) != b ==>
                repo.books[b.isbn].View() == old(repo.books[b.isbn].View())
    {
      if !repo.Exists(b.isbn) {
        repo.AddBook(b);
      }
      b.totalCopies := b.totalCopies + count;
      b.availableCopies := b.availableCopies + count;
    }

    /** An unknown isbn and a refusal of the rule change nothing; otherwise the book
        under the isbn lends one copy to the user. No other book changes. */
    method BorrowBook(isbn: string, user: User) returns (outcome: BorrowOutcome)
      requires repo.Valid()
      modifies user, repo.books.Values
      ensures repo.books == old(repo.books)
      ensures outcome == NotFound <==> isbn !in repo.books
      ensures outcome == NotAllowed <==>
                isbn in repo.books && !canBorrow(old(user.View()), old(repo.books[isbn].View()))
      ensures outcome != Borrowed ==> user.View() == old(user.View())
      ensures outcome == NotAllowed ==> repo.books[isbn].View() == old(repo.books[isbn].View())
      ensures outcome == Borrowed ==>
                (user.View(), repo.books[isbn].View()) == Lent(old(user.View()), old(repo.books[isbn].View()))
      ensures forall k :: k in repo.books && k != isbn ==> repo.books[k].View() == old(repo.books[k].View())
    {
      var b := repo.GetBook(isbn);
      if b == null {
        return NotFound;
      }
      if !canBorrow(user.View(), b.View()) {
        return NotAllowed;
      }
      b.availableCopies := b.availableCopies - 1;
      user.currentBorrowCount := user.currentBorrowCount + 1;
      return Borrowed;
    }

    /** Takes a copy back with no check: an unknown isbn first gets a new "Unknown"
        book, then the book under the isbn gains a copy on the shelf and in stock and
        the user's count drops by one. No other book changes. */
    method ReturnBook(isbn: string, user: User)
      requires repo.Valid()
      modifies repo, user, repo.books.Values
      ensures repo.Valid() && repo.Exists(isbn)
      ensures isbn in old(repo.books) ==> repo.books == old(repo.books)
      ensures isbn !in old(repo.books) ==>
                fresh(repo.books[isbn]) && repo.books == old(repo.books)[isbn := repo.books[isbn]]
      ensures var before := if isbn in old(repo.books) then old(repo.books[isbn].View()) else UnknownBook(isbn);
        (user.View(), repo.books[isbn].View()) == TakenBack(old(user.View()), before)
      ensures forall k :: k in old(repo.books) && k != isbn ==>
                repo.books[k] == old(repo.books[k]) && repo.books[k].View() == old(repo.books[k].View())
    {
      var b := repo.GetBook(isbn);
      if b == null {
        b := new Book("Unknown", "Unknown", isbn, "Misc");
        repo.AddBook(b);
      }
      b.availableCopies := b.availableCopies + 1;
      b.totalCopies := b.totalCopies + 1;
      user.currentBorrowCount := user.currentBorrowCount - 1;
    }
  }
}
