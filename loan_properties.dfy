/** What the loan service promises, proved about the operations of
    `LoanTransactions` for every store, stock law and set of failing steps. */
module LoanProperties {
  import opened LoanModel
  import opened LoanTransactions

  /** The ids of the loans a trace deletes, in the order it deletes them. */
  function Destroyed(trace: seq<Event>): seq<nat> {
    if trace == [] then []
    else (if trace[0].LoanDestroyed? then [trace[0].id] else []) + Destroyed(trace[1..])
  }

  lemma {:induction false} DestroyedConcat(a: seq<Event>, b: seq<Event>)
    ensures Destroyed(a + b) == Destroyed(a) + Destroyed(b)
  {
    if a == [] {
      assert a + b == b;
    } else {
      assert (a + b)[0] == a[0];
      assert (a + b)[1..] == a[1..] + b;
      DestroyedConcat(a[1..], b);
    }
  }

  /** The ids among the first `n` of `ids`. */
  function Taken(ids: seq<nat>, n: nat): set<nat>
    requires n <= |ids|
  {
    set i | 0 <= i < n :: ids[i]
  }

  /** The books of the stored loans among the first `n` of `ids`. */
  function BooksOf(loans: map<nat, Loan>, ids: seq<nat>, n: nat): set<Id>
    requires n <= |ids|
  {
    set i | 0 <= i < n && ids[i] in loans :: loans[ids[i]].book
  }

  // ---- create -------------------------------------------------------------

  /** A book without stock above zero refuses the loan before any session
      opens, and nothing is written. */
  lemma CreateRefusesOutOfStock(s: Store, law: StockLaw, data: Loan, loanPeriodInDays: int, failing: set<Step>)
    requires data.book in s.books && s.books[data.book].stock <= 0
    ensures CreateRun(s, law, data, loanPeriodInDays, failing) == Run(Err(BookOutOfStock), s, [])
  {
  }

  /** `create` succeeds exactly when the book is in stock and no storage step
      fails. It then stores the data under a new id with the computed due
      date, refreshes that book's stock, commits, and returns the stored
      record, in that order. Otherwise the store is as it was. */
  lemma CreateOutcome(s: Store, law: StockLaw, data: Loan, loanPeriodInDays: int, failing: set<Step>)
    requires FreshIds(s)
    ensures var run := CreateRun(s, law, data, loanPeriodInDays, failing);
      && (run.result.Ok? <==>
            data.book in s.books && s.books[data.book].stock > 0
            && Open !in failing && Write !in failing && Refresh(0) !in failing && Commit !in failing)
      && (run.result.Err? ==> run.store == s)
      && (run.result.Ok? ==>
            var l := WithDueDate(data, loanPeriodInDays);
            && s.nextId !in s.loans
            && run.result.value == Record(s.nextId, l)
            && run.store.loans == s.loans[s.nextId := l]
            && run.store.books == s.books[data.book := Book(law(data.book, LoansOf(run.store.loans, data.book)))]
            && run.trace == [SessionOpened, LoanCreated(s.nextId), StockRefreshed(data.book), Committed])
  {
  }

  /** Once the gate has passed, a session that cannot be opened fails with
      that error and nothing else happens; a failing step inside the session
      aborts it with that step's error and the store is put back. */
  lemma CreateFailureAborts(s: Store, law: StockLaw, data: Loan, loanPeriodInDays: int, failing: set<Step>)
    requires data.book in s.books && s.books[data.book].stock > 0
    ensures var run := CreateRun(s, law, data, loanPeriodInDays, failing);
      && (Open in failing ==> run == Run(Err(StorageFailure(Open)), s, []))
      && (Open !in failing && Write in failing ==> run == Run(Err(StorageFailure(Write)), s, [SessionOpened, Aborted]))
      && (Open !in failing && Write !in failing && Refresh(0) in failing ==>
            run == Run(Err(StorageFailure(Refresh(0))), s, [SessionOpened, LoanCreated(s.nextId), Aborted]))
      && (Open !in failing && Write !in failing && Refresh(0) !in failing && Commit in failing ==>
            run == Run(Err(StorageFailure(Commit)), s,
                       [SessionOpened, LoanCreated(s.nextId), StockRefreshed(data.book), Aborted]))
  {
  }

  /** The computed due date is the issue date plus the loan period, written
      under `dueDAte`; the caller's `dueDate` and every other field are kept. */
  lemma CreateWritesDueDAte(s: Store, law: StockLaw, data: Loan, loanPeriodInDays: int, failing: set<Step>)
    requires CreateRun(s, law, data, loanPeriodInDays, failing).result.Ok?
    ensures var l := CreateRun(s, law, data, loanPeriodInDays, failing).result.value.loan;
      && l.dueDAte == Some(data.issueDate + loanPeriodInDays)
      && l.dueDate == data.dueDate
      && l.(dueDAte := data.dueDAte) == data
  {
  }

  // ---- update -------------------------------------------------------------

  /** Without a return date, `update` refuses before any session opens. */
  lemma UpdateRefusesWithoutReturnDate(s: Store, law: StockLaw, id: nat, patch: LoanPatch, failing: set<Step>)
    requires patch.returnDate.None?
    ensures UpdateRun(s, law, id, patch, failing) == Run(Err(ReturnDateRequired), s, [])
  {
  }

  /** `update` succeeds exactly when a return date is given, the loan exists,
      the book of the written record exists and no storage step fails. It
      writes any stored loan, returned already or not, then refreshes the
      stock of the written record's book, then commits. Otherwise the store is
      as it was. */
  lemma UpdateOutcome(s: Store, law: StockLaw, id: nat, patch: LoanPatch, failing: set<Step>)
    ensures var run := UpdateRun(s, law, id, patch, failing);
      && (run.result.Ok? <==>
            patch.returnDate.Some? && id in s.loans && Patched(s.loans[id], patch).book in s.books
            && Open !in failing && Write !in failing && Refresh(0) !in failing && Commit !in failing)
      && (run.result.Err? ==> run.store == s)
      && (run.result.Ok? ==>
            var l := Patched(s.loans[id], patch);
            && l.returnDate == patch.returnDate
            && run.result.value == Record(id, l)
            && run.store.loans == s.loans[id := l]
            && run.store.books == s.books[l.book := Book(law(l.book, LoansOf(run.store.loans, l.book)))]
            && run.store.nextId == s.nextId
            && run.trace == [SessionOpened, LoanUpdated(id), StockRefreshed(l.book), Committed])
  {
  }

  /** An update that writes an import hash onto a loan makes that hash known:
      a later `import` of it is refused. */
  lemma UpdateWritesImportHash(s: Store, law: StockLaw, id: nat, patch: LoanPatch, importHash: string,
                               failing: set<Step>)
    requires patch.importHash == Some(importHash)
    requires UpdateRun(s, law, id, patch, failing).result.Ok?
    ensures IsImportHashExistent(UpdateRun(s, law, id, patch, failing).store, importHash)
  {
    UpdateOutcome(s, law, id, patch, failing);
    var after := UpdateRun(s, law, id, patch, failing).store;
    assert after.loans[id].importHash == Some(importHash);
    HashExistentIffCarried(after, importHash);
  }

  /** An update that moves a loan to another book refreshes only the new
      book: the old book keeps the stock it had, so when its stock depended
      on the moved loan, a consistent store becomes inconsistent. */
  lemma UpdateMovingBookLeavesOldStock(s: Store, law: StockLaw, id: nat, patch: LoanPatch, failing: set<Step>)
    requires StockConsistent(s, law)
    requires UpdateRun(s, law, id, patch, failing).result.Ok?
    requires patch.book.Some? && patch.book.value != s.loans[id].book
    requires s.loans[id].book in s.books
    requires var book := s.loans[id].book;
      law(book, LoansOf(s.loans - {id}, book)) != law(book, LoansOf(s.loans, book))
    ensures var book := s.loans[id].book;
      var after := UpdateRun(s, law, id, patch, failing).store;
      && after.books[book] == s.books[book]
      && after.books[book].stock != law(book, LoansOf(after.loans, book))
      && !StockConsistent(after, law)
  {
    UpdateOutcome(s, law, id, patch, failing);
    var book := s.loans[id].book;
    var after := UpdateRun(s, law, id, patch, failing).store;
    assert LoansOf(after.loans, book) == LoansOf(s.loans - {id}, book);
  }

  // ---- destroyAll ---------------------------------------------------------

  /** One pass succeeds exactly when the id names a stored loan whose book
      exists and none of its storage steps fails; it then looks the loan up,
      deletes it and refreshes its book from the loans left, in that order,
      and keeps every other book. */
  lemma DestroyStepOutcome(s: Store, law: StockLaw, id: nat, k: nat, failing: set<Step>)
    ensures var run := DestroyStep(s, law, id, k, failing);
      && (run.result.Ok? <==>
            id in s.loans && s.loans[id].book in s.books
            && Lookup(k) !in failing && Delete(k) !in failing && Refresh(k) !in failing)
      && (run.result.Ok? ==>
            var book := s.loans[id].book;
            && run.store.loans == s.loans - {id}
            && run.store.books == s.books[book := Book(law(book, LoansOf(s.loans - {id}, book)))]
            && run.store.nextId == s.nextId
            && run.trace == [LoanFound(id), LoanDestroyed(id), StockRefreshed(book)]
            && Destroyed(run.trace) == [id])
  {
    var run := DestroyStep(s, law, id, k, failing);
    if run.result.Ok? {
      var t := run.trace;
      assert t == [LoanFound(id), LoanDestroyed(id), StockRefreshed(s.loans[id].book)];
      assert t[1..][1..][1..] == [];
      assert Destroyed(t[1..][1..]) == [];
      assert Destroyed(t[1..]) == [id];
    }
  }

  /** When the first `n` passes succeed, those ids were distinct, each named
      a stored loan whose book exists, and none of their storage steps
      failed; the passes have deleted exactly those loans and kept the books
      and the next id. */
  lemma {:induction false} DestroyPrefixEffect(s: Store, law: StockLaw, ids: seq<nat>, n: nat, failing: set<Step>)
    requires n <= |ids|
    requires DestroyPrefix(s, law, ids, n, failing).result.Ok?
    ensures forall i, j :: 0 <= i < j < n ==> ids[i] != ids[j]
    ensures forall i :: 0 <= i < n ==> ids[i] in s.loans && s.loans[ids[i]].book in s.books
    ensures forall i :: 0 <= i < n ==> Lookup(i) !in failing && Delete(i) !in failing && Refresh(i) !in failing
    ensures var after := DestroyPrefix(s, law, ids, n, failing).store;
      && after.loans == s.loans - Taken(ids, n)
      && after.books.Keys == s.books.Keys
      && after.nextId == s.nextId
  {
    if n > 0 {
      DestroyPrefixEffect(s, law, ids, n - 1, failing);
      var before := DestroyPrefix(s, law, ids, n - 1, failing);
      var id := ids[n - 1];
      DestroyStepOutcome(before.store, law, id, n - 1, failing);
      assert Taken(ids, n) == Taken(ids, n - 1) + {id};
      assert id !in Taken(ids, n - 1);
    }
  }

  /** The first `n` passes succeed when those ids are distinct, each names a
      stored loan whose book exists, and none of their storage steps fails. */
  lemma {:induction false} DestroyPrefixSucceeds(s: Store, law: StockLaw, ids: seq<nat>, n: nat, failing: set<Step>)
    requires n <= |ids|
    requires forall i, j :: 0 <= i < j < n ==> ids[i] != ids[j]
    requires forall i :: 0 <= i < n ==> ids[i] in s.loans && s.loans[ids[i]].book in s.books
    requires forall i :: 0 <= i < n ==> Lookup(i) !in failing && Delete(i) !in failing && Refresh(i) !in failing
    ensures DestroyPrefix(s, law, ids, n, failing).result.Ok?
  {
    if n > 0 {
      DestroyPrefixSucceeds(s, law, ids, n - 1, failing);
      DestroyPrefixEffect(s, law, ids, n - 1, failing);
      var before := DestroyPrefix(s, law, ids, n - 1, failing);
      var id := ids[n - 1];
      assert id !in Taken(ids, n - 1);
      DestroyStepOutcome(before.store, law, id, n - 1, failing);
    }
  }

  /** Successful passes delete the listed loans in the order of the list. */
  lemma {:induction false} DestroyPrefixOrder(s: Store, law: StockLaw, ids: seq<nat>, n: nat, failing: set<Step>)
    requires n <= |ids|
    requires DestroyPrefix(s, law, ids, n, failing).result.Ok?
    ensures Destroyed(DestroyPrefix(s, law, ids, n, failing).trace) == ids[..n]
  {
    if n > 0 {
      DestroyPrefixOrder(s, law, ids, n - 1, failing);
      var before := DestroyPrefix(s, law, ids, n - 1, failing);
      var step := DestroyStep(before.store, law, ids[n - 1], n - 1, failing);
      DestroyStepOutcome(before.store, law, ids[n - 1], n - 1, failing);
      DestroyedConcat(before.trace, step.trace);
      assert ids[..n] == ids[..n - 1] + [ids[n - 1]];
    }
  }

  /** After successful passes, the book of every deleted loan has the stock
      the law gives for the loans left, and every other book is as it was:
      a book's last refresh comes after the last deletion of its loans. */
  lemma {:induction false} DestroyPrefixStock(s: Store, law: StockLaw, ids: seq<nat>, n: nat, failing: set<Step>)
    requires n <= |ids|
    requires DestroyPrefix(s, law, ids, n, failing).result.Ok?
    ensures var after := DestroyPrefix(s, law, ids, n, failing).store;
      && after.books.Keys == s.books.Keys
      && forall book :: book in s.books ==>
           after.books[book] == if book in BooksOf(s.loans, ids, n)
             then Book(law(book, LoansOf(after.loans, book))) else s.books[book]
  {
    if n > 0 {
      var before := DestroyPrefix(s, law, ids, n - 1, failing);
      var id := ids[n - 1];
      DestroyPrefixStock(s, law, ids, n - 1, failing);
      DestroyPrefixEffect(s, law, ids, n - 1, failing);
      DestroyPrefixEffect(s, law, ids, n, failing);
      DestroyPrefixNext(s, law, ids, n - 1, failing);
      assert id !in Taken(ids, n - 1);
      var book := s.loans[id].book;
      assert before.store.loans[id] == s.loans[id];
      DestroyStepOutcome(before.store, law, id, n - 1, failing);
      var after := DestroyPrefix(s, law, ids, n, failing).store;
      assert after.loans == before.store.loans - {id};
      assert BooksOf(s.loans, ids, n) == BooksOf(s.loans, ids, n - 1) + {book};
      forall b | b in s.books && b != book && b in BooksOf(s.loans, ids, n - 1)
        ensures after.books[b] == Book(law(b, LoansOf(after.loans, b)))
      {
        LoansOfAfterRemoval(before.store.loans, id, b);
      }
    }
  }

  /** `destroyAll` commits exactly when the session opens, every pass
      succeeds and the commit does: then it has deleted each listed loan once,
      in the given order, the book of each deleted loan has the stock the law
      gives for the loans left, and every other book is as it was. On any
      failure every earlier deletion is undone. */
  lemma DestroyAllOutcome(s: Store, law: StockLaw, ids: seq<nat>, failing: set<Step>)
    ensures var run := DestroyAllRun(s, law, ids, failing);
      && (run.result.Ok? <==>
            && Distinct(ids)
            && (forall i :: 0 <= i < |ids| ==> ids[i] in s.loans && s.loans[ids[i]].book in s.books)
            && (forall i :: 0 <= i < |ids| ==> Lookup(i) !in failing && Delete(i) !in failing && Refresh(i) !in failing)
            && Open !in failing && Commit !in failing)
      && (run.result.Err? ==> run.store == s)
      && (run.result.Err? && Open in failing ==> run.trace == [])
      && (run.result.Err? && Open !in failing ==> run.trace[|run.trace| - 1] == Aborted)
      && (run.result.Ok? ==>
            && run.store.loans == s.loans - Taken(ids, |ids|)
            && run.store.books.Keys == s.books.Keys
            && (forall book :: book in s.books ==>
                  run.store.books[book] == if book in BooksOf(s.loans, ids, |ids|)
                    then Book(law(book, LoansOf(run.store.loans, book))) else s.books[book])
            && Destroyed(run.trace) == ids
            && run.trace[|run.trace| - 1] == Committed)
  {
    var body := DestroyPrefix(s, law, ids, |ids|, failing);
    var run := DestroyAllRun(s, law, ids, failing);
    if body.result.Ok? {
      DestroyPrefixEffect(s, law, ids, |ids|, failing);
    } else if Distinct(ids)
      && (forall i :: 0 <= i < |ids| ==> ids[i] in s.loans && s.loans[ids[i]].book in s.books)
      && (forall i :: 0 <= i < |ids| ==> Lookup(i) !in failing && Delete(i) !in failing && Refresh(i) !in failing)
    {
      DestroyPrefixSucceeds(s, law, ids, |ids|, failing);
    }
    if run.result.Ok? {
      DestroyPrefixStock(s, law, ids, |ids|, failing);
      DestroyPrefixOrder(s, law, ids, |ids|, failing);
      assert ids[..|ids|] == ids;
      DestroyedConcat([SessionOpened], body.trace);
      DestroyedConcat([SessionOpened] + body.trace, [Committed]);
    }
  }

  /** A repeated id, or one that names no stored loan, fails the whole batch
      and leaves the store as it was. */
  lemma DestroyAllRejectsRepeatedOrMissing(s: Store, law: StockLaw, ids: seq<nat>, failing: set<Step>)
    requires (exists i, j :: 0 <= i < j < |ids| && ids[i] == ids[j]) || (exists i :: 0 <= i < |ids| && ids[i] !in s.loans)
    ensures DestroyAllRun(s, law, ids, failing).result.Err?
    ensures DestroyAllRun(s, law, ids, failing).store == s
  {
    DestroyAllOutcome(s, law, ids, failing);
  }

  /** An empty list opens a session and commits it, changing nothing. */
  lemma DestroyAllEmpty(s: Store, law: StockLaw, failing: set<Step>)
    requires Open !in failing && Commit !in failing
    ensures DestroyAllRun(s, law, [], failing) == Run(Ok(()), s, [SessionOpened, Committed])
  {
  }

  // ---- import -------------------------------------------------------------

  /** A falsy hash is refused before anything else. */
  lemma ImportRefusesBlankHash(s: Store, law: StockLaw, data: Loan, loanPeriodInDays: int, failing: set<Step>)
    ensures ImportRun(s, law, data, "", loanPeriodInDays, failing) == Run(Err(ImportHashRequired), s, [])
  {
  }

  /** A hash some stored loan carries is refused, and nothing is written. */
  lemma ImportRefusesKnownHash(s: Store, law: StockLaw, data: Loan, importHash: string, loanPeriodInDays: int, failing: set<Step>, id: nat)
    requires importHash != ""
    requires id in s.loans && s.loans[id].importHash == Some(importHash)
    ensures ImportRun(s, law, data, importHash, loanPeriodInDays, failing) == Run(Err(ImportHashExistent), s, [])
  {
    HashExistentIffCarried(s, importHash);
  }

  /** A new hash makes `import` a `create` of the data carrying that hash. */
  lemma ImportCreatesWithHash(s: Store, law: StockLaw, data: Loan, importHash: string, loanPeriodInDays: int, failing: set<Step>)
    requires importHash != ""
    requires forall id :: id in s.loans ==> s.loans[id].importHash != Some(importHash)
    ensures ImportRun(s, law, data, importHash, loanPeriodInDays, failing)
         == CreateRun(s, law, data.(importHash := Some(importHash)), loanPeriodInDays, failing)
  {
    HashExistentIffCarried(s, importHash);
  }

  /** After one successful import, a second import with the same hash fails
      with `importHashExistent` and writes nothing. */
  lemma ImportTwiceFails(s: Store, law: StockLaw, data: Loan, again: Loan, importHash: string, loanPeriodInDays: int,
                         failing: set<Step>, failingAgain: set<Step>)
    requires ImportRun(s, law, data, importHash, loanPeriodInDays, failing).result.Ok?
    ensures var first := ImportRun(s, law, data, importHash, loanPeriodInDays, failing);
      ImportRun(first.store, law, again, importHash, loanPeriodInDays, failingAgain)
        == Run(Err(ImportHashExistent), first.store, [])
  {
    var first := ImportRun(s, law, data, importHash, loanPeriodInDays, failing);
    assert first.store.loans[s.nextId].importHash == Some(importHash);
    ImportRefusesKnownHash(first.store, law, again, importHash, loanPeriodInDays, failingAgain, s.nextId);
  }

  // ---- stock ----------------------------------------------------------------

  /** A committed `create` leaves every book's stock as a refresh would
      compute it, when it was so before. */
  lemma CreateKeepsStockConsistent(s: Store, law: StockLaw, data: Loan, loanPeriodInDays: int, failing: set<Step>)
    requires FreshIds(s) && StockConsistent(s, law)
    requires CreateRun(s, law, data, loanPeriodInDays, failing).result.Ok?
    ensures StockConsistent(CreateRun(s, law, data, loanPeriodInDays, failing).store, law)
  {
    CreateOutcome(s, law, data, loanPeriodInDays, failing);
    var after := CreateRun(s, law, data, loanPeriodInDays, failing).store;
    var l := WithDueDate(data, loanPeriodInDays);
    forall book | book in after.books && book != data.book
      ensures after.books[book].stock == law(book, LoansOf(after.loans, book))
    {
      LoansOfUnaffected(s.loans, s.nextId, l, book);
    }
  }

  /** A committed `update` that keeps the loan's book leaves every book's
      stock as a refresh would compute it, when it was so before. */
  lemma UpdateKeepsStockConsistent(s: Store, law: StockLaw, id: nat, patch: LoanPatch, failing: set<Step>)
    requires StockConsistent(s, law)
    requires UpdateRun(s, law, id, patch, failing).result.Ok?
    requires patch.book.None? || patch.book == Some(s.loans[id].book)
    ensures StockConsistent(UpdateRun(s, law, id, patch, failing).store, law)
  {
    UpdateOutcome(s, law, id, patch, failing);
    var after := UpdateRun(s, law, id, patch, failing).store;
    var l := Patched(s.loans[id], patch);
    forall book | book in after.books && book != l.book
      ensures after.books[book].stock == law(book, LoansOf(after.loans, book))
    {
      LoansOfUnaffected(s.loans, id, l, book);
    }
  }

  /** Each pass keeps every book's stock as a refresh would compute it. */
  lemma DestroyStepKeepsStockConsistent(s: Store, law: StockLaw, id: nat, k: nat, failing: set<Step>)
    requires StockConsistent(s, law)
    requires DestroyStep(s, law, id, k, failing).result.Ok?
    ensures StockConsistent(DestroyStep(s, law, id, k, failing).store, law)
  {
    var after := DestroyStep(s, law, id, k, failing).store;
    forall book | book in after.books && book != s.loans[id].book
      ensures after.books[book].stock == law(book, LoansOf(after.loans, book))
    {
      LoansOfAfterRemoval(s.loans, id, book);
    }
  }

  lemma {:induction false} DestroyPrefixKeepsStockConsistent(s: Store, law: StockLaw, ids: seq<nat>, n: nat, failing: set<Step>)
    requires n <= |ids| && StockConsistent(s, law)
    requires DestroyPrefix(s, law, ids, n, failing).result.Ok?
    ensures StockConsistent(DestroyPrefix(s, law, ids, n, failing).store, law)
  {
    if n > 0 {
      DestroyPrefixKeepsStockConsistent(s, law, ids, n - 1, failing);
      var before := DestroyPrefix(s, law, ids, n - 1, failing);
      DestroyStepKeepsStockConsistent(before.store, law, ids[n - 1], n - 1, failing);
    }
  }

  /** A committed `destroyAll` leaves every book's stock as a refresh would
      compute it, when it was so before. */
  lemma DestroyAllKeepsStockConsistent(s: Store, law: StockLaw, ids: seq<nat>, failing: set<Step>)
    requires StockConsistent(s, law)
    requires DestroyAllRun(s, law, ids, failing).result.Ok?
    ensures StockConsistent(DestroyAllRun(s, law, ids, failing).store, law)
  {
    DestroyPrefixKeepsStockConsistent(s, law, ids, |ids|, failing);
  }

  // ---- scenarios ------------------------------------------------------------

  /** The loans of a map not yet returned. */
  function OpenLoans(loans: map<nat, Loan>): set<nat> {
    set id | id in loans && loans[id].returnDate.None?
  }

  /** A stock law of the intended shape: a book's copies less its open loans. */
  function CopiesLessOpen(copies: map<Id, int>): StockLaw {
    (book: Id, loans: map<nat, Loan>) => (if book in copies then copies[book] else 0) - |OpenLoans(loans)|
  }

  /** A book with one copy and no loans: an open loan of it is created and
      leaves the stock at 0, and a second loan of the same book is then
      refused as out of stock without writing anything. */
  lemma LastCopyScenario(s: Store, copies: map<Id, int>, data: Loan, again: Loan, loanPeriodInDays: int,
                         failing: set<Step>, failingAgain: set<Step>)
    requires FreshIds(s)
    requires data.book in s.books && s.books[data.book].stock == 1
    requires data.book in copies && copies[data.book] == 1
    requires forall id :: id in s.loans ==> s.loans[id].book != data.book
    requires data.returnDate.None? && again.book == data.book
    requires Open !in failing && Write !in failing && Refresh(0) !in failing && Commit !in failing
    ensures var first := CreateRun(s, CopiesLessOpen(copies), data, loanPeriodInDays, failing);
      && first.result.Ok?
      && first.store.books[data.book].stock == 0
      && CreateRun(first.store, CopiesLessOpen(copies), again, loanPeriodInDays, failingAgain)
           == Run(Err(BookOutOfStock), first.store, [])
  {
    var law := CopiesLessOpen(copies);
    CreateOutcome(s, law, data, loanPeriodInDays, failing);
    var first := CreateRun(s, law, data, loanPeriodInDays, failing);
    var l := WithDueDate(data, loanPeriodInDays);
    var mine := LoansOf(first.store.loans, data.book);
    assert mine == map[s.nextId := l];
    assert OpenLoans(mine) == {s.nextId};
    CreateRefusesOutOfStock(first.store, law, again, loanPeriodInDays, failingAgain);
  }

  /** A batch of three whose second deletion fails removes none of the three
      loans and changes no stock. */
  lemma FailedBatchScenario(s: Store, law: StockLaw, ids: seq<nat>, failing: set<Step>)
    requires |ids| == 3 && Delete(1) in failing
    ensures DestroyAllRun(s, law, ids, failing).result.Err?
    ensures DestroyAllRun(s, law, ids, failing).store == s
  {
    DestroyAllOutcome(s, law, ids, failing);
  }
}
