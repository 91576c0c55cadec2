/** The loan service as an object over the repositories' store. Each
    repository call is a method that changes the store the way the matching
    step of `LoanTransactions` says; a session is a snapshot of the store that
    an abort puts back. */
module LoanServiceClass {
  import opened LoanModel
  import opened AccessScope
  import opened LoanTransactions

  /** The data object a caller hands to `create`, which `create` changes in place. */
  class LoanDraft {
    var loan: Loan

    constructor (loan: Loan)
      ensures this.loan == loan
    {
      this.loan := loan;
    }
  }

  /** The arguments of `findAndCountAll`, whose filter is rewritten in place. */
  class QueryArgs {
    var filter: Option<Filter>

    constructor (filter: Option<Filter>)
      ensures this.filter == filter
    {
      this.filter := filter;
    }
  }

  class LoanService {
    var loans: map<nat, Loan>
    var books: map<Id, Book>
    var nextId: nat
    /** The storage events issued so far. */
    var journal: seq<Event>
    const currentUser: User
    const stockLaw: StockLaw

    function State(): Store
      reads this
    {
      Store(loans, books, nextId)
    }

    ghost predicate Valid()
      reads this
    {
      FreshIds(State())
    }

    /** The call returned `r` and left the store and journal as `run` says. */
    ghost predicate Reached<T>(r: Result<T>, run: Run<T>, journal0: seq<Event>)
      reads this
    {
      r == run.result && State() == run.store && journal == journal0 + run.trace
    }

    constructor (currentUser: User, stockLaw: StockLaw, s: Store)
      requires FreshIds(s)
      ensures Valid() && State() == s && journal == []
      ensures this.currentUser == currentUser && this.stockLaw == stockLaw
    {
      this.currentUser := currentUser;
      this.stockLaw := stockLaw;
      loans, books, nextId := s.loans, s.books, s.nextId;
      journal := [];
    }

    // ---- the storage layer -----------------------------------------------

    /** Opens a session: a snapshot of the store, or a storage error. */
    method CreateSession(failing: set<Step>) returns (started: Result<Store>)
      modifies this`journal
      ensures started == if Open in failing then Err(StorageFailure(Open)) else Ok(State())
      ensures journal == if Open in failing then old(journal) else old(journal) + [SessionOpened]
    {
      if Open in failing {
        return Err(StorageFailure(Open));
      }
      started := Ok(State());
      journal := journal + [SessionOpened];
    }

    method CommitTransaction(failing: set<Step>) returns (r: Result<()>)
      modifies this`journal
      ensures r == if Commit in failing then Err(StorageFailure(Commit)) else Ok(())
      ensures journal == if Commit in failing then old(journal) else old(journal) + [Committed]
    {
      if Commit in failing {
        return Err(StorageFailure(Commit));
      }
      journal := journal + [Committed];
      r := Ok(());
    }

    method AbortTransaction(session: Store)
      modifies this
      ensures State() == session && journal == old(journal) + [Aborted]
    {
      loans, books, nextId := session.loans, session.books, session.nextId;
      journal := journal + [Aborted];
    }

    /** The end of every `try` block: commit when the body succeeded, and
        abort and rethrow when the body or the commit failed. */
    method EndSession<T>(session: Store, outcome: Result<T>, failing: set<Step>,
                         ghost journal0: seq<Event>, ghost bodyTrace: seq<Event>) returns (r: Result<T>)
      requires Open !in failing
      requires journal == journal0 + [SessionOpened] + bodyTrace
      modifies this
      ensures Reached(r, Settle(session, Run(outcome, old(State()), bodyTrace), failing), journal0)
    {
      r := outcome;
      if r.Ok? {
        var committed := CommitTransaction(failing);
        if committed.Err? {
          r := Err(committed.error);
        }
      }
      if r.Err? {
        AbortTransaction(session);
      }
    }

    method RepoCreate(data: Loan, failing: set<Step>) returns (r: Result<Record>)
      modifies this
      ensures Reached(r, CreateStep(old(State()), data, failing), old(journal))
    {
      if Write in failing {
        return Err(StorageFailure(Write));
      }
      r := Ok(Record(nextId, data));
      loans := loans[nextId := data];
      journal := journal + [LoanCreated(nextId)];
      nextId := nextId + 1;
    }

    method RepoUpdate(id: nat, patch: LoanPatch, failing: set<Step>) returns (r: Result<Record>)
      modifies this
      ensures Reached(r, UpdateStep(old(State()), id, patch, failing), old(journal))
    {
      if Write in failing {
        return Err(StorageFailure(Write));
      }
      if id !in loans {
        return Err(NotFound);
      }
      var l := Patched(loans[id], patch);
      loans := loans[id := l];
      journal := journal + [LoanUpdated(id)];
      r := Ok(Record(id, l));
    }

    method RepoFindById(id: nat, k: nat, failing: set<Step>) returns (r: Result<Record>)
      modifies this`journal
      ensures Reached(r, LookupStep(old(State()), id, k, failing), old(journal))
    {
      if Lookup(k) in failing {
        return Err(StorageFailure(Lookup(k)));
      }
      if id !in loans {
        return Err(NotFound);
      }
      journal := journal + [LoanFound(id)];
      r := Ok(Record(id, loans[id]));
    }

    method RepoDestroy(id: nat, k: nat, failing: set<Step>) returns (r: Result<()>)
      modifies this
      ensures Reached(r, DeleteStep(old(State()), id, k, failing), old(journal))
    {
      if Delete(k) in failing {
        return Err(StorageFailure(Delete(k)));
      }
      if id !in loans {
        return Err(NotFound);
      }
      loans := loans - {id};
      journal := journal + [LoanDestroyed(id)];
      r := Ok(());
    }

    method RefreshStock(book: Id, k: nat, failing: set<Step>) returns (r: Result<()>)
      modifies this
      ensures Reached(r, RefreshStep(old(State()), stockLaw, book, k, failing), old(journal))
    {
      if Refresh(k) in failing {
        return Err(StorageFailure(Refresh(k)));
      }
      if book !in books {
        return Err(NotFound);
      }
      books := Refreshed(State(), stockLaw, book).books;
      journal := journal + [StockRefreshed(book)];
      r := Ok(());
    }

    // ---- the service -----------------------------------------------------

    /** `_hasBookInStock`. */
    method HasBookInStockOf(book: Id) returns (r: Result<bool>)
      ensures r.Ok? <==> book in books
      ensures r.Ok? ==> (r.value <==> books[book].stock > 0)
      ensures r.Err? ==> r.error == NotFound
    {
      if book !in books {
        return Err(NotFound);
      }
      r := Ok(books[book].stock > 0);
    }

    /** `_isImportHashExistent`. */
    method ImportHashExists(importHash: string) returns (known: bool)
      ensures known <==> exists id :: id in loans && loans[id].importHash == Some(importHash)
    {
      known := IsImportHashExistent(State(), importHash);
      HashExistentIffCarried(State(), importHash);
    }

    method Create(draft: LoanDraft, loanPeriodInDays: int, failing: set<Step>) returns (r: Result<Record>)
      requires Valid()
      modifies this, draft
      ensures Valid()
      ensures Reached(r, CreateRun(old(State()), stockLaw, old(draft.loan), loanPeriodInDays, failing), old(journal))
      ensures draft.loan == if HasBookInStock(old(State()), old(draft.loan.book)) == Ok(true)
        then WithDueDate(old(draft.loan), loanPeriodInDays) else old(draft.loan)
    {
      var inStock := HasBookInStockOf(draft.loan.book);
      if inStock.Err? {
        return Err(inStock.error);
      }
      if !inStock.value {
        return Err(BookOutOfStock);
      }
      draft.loan := draft.loan.(dueDAte := Some(CalculateDueDate(draft.loan.issueDate, loanPeriodInDays)));

      var started := CreateSession(failing);
      if started.Err? {
        return Err(started.error);
      }
      var session := started.value;
      var record := RepoCreate(draft.loan, failing);
      r := record;
      if record.Ok? {
        var refreshed := RefreshStock(record.value.loan.book, 0, failing);
        if refreshed.Err? {
          r := Err(refreshed.error);
        }
      }
      ghost var body := WriteThenRefresh(CreateStep(old(State()), draft.loan, failing), stockLaw, failing);
      r := EndSession(session, r, failing, old(journal), body.trace);
    }

    method Update(id: nat, data: LoanPatch, failing: set<Step>) returns (r: Result<Record>)
      requires Valid()
      modifies this
      ensures Valid()
      ensures Reached(r, UpdateRun(old(State()), stockLaw, id, data, failing), old(journal))
    {
      if data.returnDate.None? {
        return Err(ReturnDateRequired);
      }
      var started := CreateSession(failing);
      if started.Err? {
        return Err(started.error);
      }
      var session := started.value;
      var record := RepoUpdate(id, data, failing);
      r := record;
      if record.Ok? {
        var refreshed := RefreshStock(record.value.loan.book, 0, failing);
        if refreshed.Err? {
          r := Err(refreshed.error);
        }
      }
      ghost var body := WriteThenRefresh(UpdateStep(old(State()), id, data, failing), stockLaw, failing);
      r := EndSession(session, r, failing, old(journal), body.trace);
    }

    /** The body of the `destroyAll` loop for the id at position `k`. */
    method DestroyOne(id: nat, k: nat, failing: set<Step>) returns (r: Result<()>)
      modifies this
      ensures Reached(r, DestroyStep(old(State()), stockLaw, id, k, failing), old(journal))
    {
      var record := RepoFindById(id, k, failing);
      if record.Err? {
        return Err(record.error);
      }
      r := RepoDestroy(id, k, failing);
      if r.Ok? {
        r := RefreshStock(record.value.loan.book, k, failing);
      }
    }

    /** One pass of the `destroyAll` loop after `i` successful ones. */
    method DestroyNext(ids: seq<nat>, i: nat, failing: set<Step>, ghost s0: Store, ghost journal0: seq<Event>) returns (r: Result<()>)
      requires i < |ids|
      requires Reached(Ok(()), DestroyPrefix(s0, stockLaw, ids, i, failing), journal0)
      modifies this
      ensures Reached(r, DestroyPrefix(s0, stockLaw, ids, i + 1, failing), journal0)
    {
      DestroyPrefixNext(s0, stockLaw, ids, i, failing);
      r := DestroyOne(ids[i], i, failing);
    }

    /** The `for (const id of ids)` loop of `destroyAll`, stopping at the first error. */
    method DestroyEach(ids: seq<nat>, failing: set<Step>) returns (r: Result<()>)
      modifies this
      ensures Reached(r, DestroyPrefix(old(State()), stockLaw, ids, |ids|, failing), old(journal))
    {
      ghost var s0 := State();
      r := Ok(());
      var i := 0;
      while i < |ids| && r.Ok?
        invariant 0 <= i <= |ids|
        invariant Reached(r, DestroyPrefix(s0, stockLaw, ids, i, failing), old(journal))
      {
        r := DestroyNext(ids, i, failing, s0, old(journal));
        i := i + 1;
      }
      if r.Err? {
        DestroyPrefixStops(s0, stockLaw, ids, i, |ids|, failing);
      }
    }

    method DestroyAll(ids: seq<nat>, failing: set<Step>) returns (r: Result<()>)
      requires Valid()
      modifies this
      ensures Valid()
      ensures Reached(r, DestroyAllRun(old(State()), stockLaw, ids, failing), old(journal))
    {
      var started := CreateSession(failing);
      if started.Err? {
        return Err(started.error);
      }
      var session := started.value;
      ghost var body := DestroyPrefix(session, stockLaw, ids, |ids|, failing);
      DestroyPrefixShrinks(session, stockLaw, ids, |ids|, failing);
      r := DestroyEach(ids, failing);
      r := EndSession(session, r, failing, old(journal), body.trace);
    }

    method Import(data: Loan, importHash: string, loanPeriodInDays: int, failing: set<Step>) returns (r: Result<Record>)
      requires Valid()
      modifies this
      ensures Valid()
      ensures Reached(r, ImportRun(old(State()), stockLaw, data, importHash, loanPeriodInDays, failing), old(journal))
    {
      if importHash == "" {
        return Err(ImportHashRequired);
      }
      var known := ImportHashExists(importHash);
      HashExistentIffCarried(State(), importHash);
      if known {
        return Err(ImportHashExistent);
      }
      var dataToCreate := new LoanDraft(data.(importHash := Some(importHash)));
      r := Create(dataToCreate, loanPeriodInDays, failing);
    }

    method FindAndCountAll(args: QueryArgs) returns (rows: map<nat, Loan>, count: nat)
      modifies args
      ensures args.filter == ScopedFilter(currentUser, old(args.filter))
      ensures rows == Query(loans, args.filter) && count == |rows|
      ensures IsMemberOnly(currentUser) ==> forall id :: id in rows ==> rows[id].member == currentUser.id
    {
      if IsMemberOnly(currentUser) {
        var given := if args.filter.Some? then args.filter.value else map[];
        args.filter := Some(given["member" := currentUser.id]);
      }
      rows := Query(loans, args.filter);
      count := |rows|;
    }
  }
}
