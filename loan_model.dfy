/** Records kept by the loan service: loans, books, the store that holds them,
    and the small pure decisions the service takes before it opens a session. */
module LoanModel {

  /** Book and member identifiers, as a query filter carries them. */
  type Id = string

  /** A timestamp, counted in whole days. */
  type Day = int

  datatype Option<T> = None | Some(value: T)

  /** A loan as the repository stores it. `dueDate` is whatever the caller
      supplied; `dueDAte` is the key under which the service writes the
      due date it computes (the source spells it that way). */
  datatype Loan = Loan(
    book: Id,
    member: Id,
    issueDate: Day,
    dueDate: Option<Day>,
    dueDAte: Option<Day>,
    returnDate: Option<Day>,
    importHash: Option<string>)

  /** A loan together with the identity the repository gave it. */
  datatype Record = Record(id: nat, loan: Loan)

  datatype Book = Book(stock: int)

  /** The fields an update writes; `None` leaves the stored field alone and a
      missing (falsy) return date is `None`. */
  datatype LoanPatch = LoanPatch(
    book: Option<Id>,
    member: Option<Id>,
    issueDate: Option<Day>,
    dueDate: Option<Day>,
    dueDAte: Option<Day>,
    returnDate: Option<Day>,
    importHash: Option<string>)

  /** The persistent state behind the loan and book repositories. */
  datatype Store = Store(loans: map<nat, Loan>, books: map<Id, Book>, nextId: nat)

  /** How the book repository recomputes a book's stock from the loans of
      that book. Its formula is not part of this model. */
  type StockLaw = (Id, map<nat, Loan>) -> int

  /** The storage calls that can fail: opening the session, and the
      repository steps inside it; `k` is the position of the id in a batch
      (0 outside destroyAll). */
  datatype Step = Open | Write | Lookup(k: nat) | Delete(k: nat) | Refresh(k: nat) | Commit

  datatype Error =
    | NotFound
    | BookOutOfStock
    | ReturnDateRequired
    | ImportHashRequired
    | ImportHashExistent
    | StorageFailure(at: Step)

  datatype Result<T> = Ok(value: T) | Err(error: Error)

  /** What the service asks of the storage layer, in order. */
  datatype Event =
    | SessionOpened
    | LoanCreated(id: nat)
    | LoanUpdated(id: nat)
    | LoanFound(id: nat)
    | LoanDestroyed(id: nat)
    | StockRefreshed(book: Id)
    | Committed
    | Aborted

  /** The outcome of an operation: what it returns, the store afterwards and
      the storage events it issued. */
  datatype Run<T> = Run(result: Result<T>, store: Store, trace: seq<Event>)

  /** Every stored loan id is below the next id the repository hands out. */
  ghost predicate FreshIds(s: Store) {
    forall id :: id in s.loans ==> id < s.nextId
  }

  /** `_calculateDueDate`: the issue date moved forward by the loan period. */
  function CalculateDueDate(issueDate: Day, loanPeriodInDays: int): Day {
    issueDate + loanPeriodInDays
  }

  /** `create` writes the computed due date onto the data, under `dueDAte`. */
  function WithDueDate(data: Loan, loanPeriodInDays: int): Loan {
    data.(dueDAte := Some(CalculateDueDate(data.issueDate, loanPeriodInDays)))
  }

  /** `_hasBookInStock`: the book is looked up and must have stock above zero;
      a book that does not resolve is reported by the repository. */
  function HasBookInStock(s: Store, book: Id): (r: Result<bool>)
    ensures r.Ok? <==> book in s.books
    ensures r == Ok(true) <==> book in s.books && s.books[book].stock > 0
    ensures r.Err? ==> r.error == NotFound
  {
    if book in s.books then Ok(s.books[book].stock > 0) else Err(NotFound)
  }

  /** The ids of stored loans that carry `importHash`. */
  function WithHash(loans: map<nat, Loan>, importHash: string): set<nat> {
    set id | id in loans && loans[id].importHash == Some(importHash)
  }

  /** `_isImportHashExistent`: the repository counts the loans carrying the
      hash, and the hash exists when that count is above zero. */
  function IsImportHashExistent(s: Store, importHash: string): bool {
    |WithHash(s.loans, importHash)| > 0
  }

  lemma HashExistentIffCarried(s: Store, importHash: string)
    ensures IsImportHashExistent(s, importHash) <==>
      exists id :: id in s.loans && s.loans[id].importHash == Some(importHash)
  {
    var ids := WithHash(s.loans, importHash);
    if id :| id in s.loans && s.loans[id].importHash == Some(importHash) {
      assert id in ids;
    }
    if |ids| > 0 {
      var id :| id in ids;
    }
  }

  /** The repository's update: every field the patch carries overwrites the
      stored one. */
  function Patched(l: Loan, p: LoanPatch): Loan {
    l.(book := if p.book.Some? then p.book.value else l.book,
       member := if p.member.Some? then p.member.value else l.member,
       issueDate := if p.issueDate.Some? then p.issueDate.value else l.issueDate,
       dueDate := if p.dueDate.Some? then p.dueDate else l.dueDate,
       dueDAte := if p.dueDAte.Some? then p.dueDAte else l.dueDAte,
       returnDate := if p.returnDate.Some? then p.returnDate else l.returnDate,
       importHash := if p.importHash.Some? then p.importHash else l.importHash)
  }

  /** The loans of one book: what a stock refresh of that book looks at. */
  function LoansOf(loans: map<nat, Loan>, book: Id): map<nat, Loan>
  {
    map id | id in loans && loans[id].book == book :: loans[id]
  }

  /** The repository's create: the loan is stored under the next id. */
  function Inserted(s: Store, l: Loan): Store {
    s.(loans := s.loans[s.nextId := l], nextId := s.nextId + 1)
  }

  /** The book repository's refreshStock on an existing book. */
  function Refreshed(s: Store, law: StockLaw, book: Id): Store
    requires book in s.books
  {
    s.(books := s.books[book := s.books[book].(stock := law(book, LoansOf(s.loans, book)))])
  }

  /** Every book's stock is what a refresh of that book would write now. */
  ghost predicate StockConsistent(s: Store, law: StockLaw) {
    forall book :: book in s.books ==> s.books[book].stock == law(book, LoansOf(s.loans, book))
  }

  /** Adding or replacing a loan of some other book leaves a book's loans as they were. */
  lemma LoansOfUnaffected(loans: map<nat, Loan>, id: nat, l: Loan, book: Id)
    requires l.book != book
    requires id in loans ==> loans[id].book != book
    ensures LoansOf(loans[id := l], book) == LoansOf(loans, book)
  {
  }

  /** Removing a loan of some other book leaves a book's loans as they were. */
  lemma LoansOfAfterRemoval(loans: map<nat, Loan>, id: nat, book: Id)
    requires id in loans ==> loans[id].book != book
    ensures LoansOf(loans - {id}, book) == LoansOf(loans, book)
  {
  }
}
