# Loan service

A Dafny model of the loan service of a library catalogue
(`src/services/loanService.js`). The service keeps loan records and book stock
consistent. It covers:

- `create` refuses a book whose stock is not above zero. It writes the computed
  due date onto the caller's data. It then creates the loan and refreshes the
  book's stock inside one session.
- `update` refuses a patch without a return date. It then writes the patch and
  refreshes the stock of the written record's book inside one session.
- `destroyAll` loops over the ids in order. For each id it looks the loan up,
  deletes it and refreshes its book, all inside one session.
- `findAndCountAll` rewrites the query filter in place for a caller who is a
  member and not a librarian.
- `import` refuses a missing hash or a hash that is already stored. Otherwise it
  does a `create` of the data carrying the hash.

The repositories are an in-memory `Store`: a map of loans keyed by id, a map of
books with their stock, and the next id to hand out. A session is a snapshot of
the store: abort puts the snapshot back and commit keeps the current store.
`refreshStock` is a parameter of type `StockLaw`. It takes a book and that book's
loans and returns the new stock, so a refresh depends only on the loans of the
book it refreshes. The formula itself is not modelled.

A storage error is modelled by the `failing` set of storage calls that throw:
opening the session (`Open`, which happens before the `try`, so nothing is
aborted), the repository steps inside the session, and the commit. A step of
the `destroyAll` loop carries its position in the list, so a failure can be
placed on any pass.

The model is written in two layers:

- **Functions.** `LoanTransactions` describes each operation as a function from
  the store before to a `Run`: the result, the store after, and the sequence of
  storage events issued. `LoanProperties` proves what the service promises about
  these functions.
- **Class.** `LoanServiceClass.LoanService` is the service itself: a class whose
  fields are the store and an event journal. Its methods do what the JavaScript
  does, step by step. The `destroyAll` loop is a `while` loop with an invariant.
  `create` changes the caller's `LoanDraft` in place, and `findAndCountAll`
  changes the caller's `QueryArgs` in place. Each method that changes the store
  or the journal has an `ensures` saying that its result, store and journal are
  exactly those of the matching function. The read-only methods
  (`HasBookInStockOf`, `ImportHashExists`, `FindAndCountAll`) state their
  results directly.

Files:

- `loan_model.dfy` (`LoanModel`): records, the store, and the pure gates.
- `access_scope.dfy` (`AccessScope`): the filter rewrite and the query.
- `loan_transactions.dfy` (`LoanTransactions`): the operations as functions.
- `loan_properties.dfy` (`LoanProperties`): the properties.
- `loan_service.dfy` (`LoanServiceClass`): the class.

Two behaviours of the code are worth stating plainly:

- **Due date.** The code writes the computed due date under the key `dueDAte`
  (line 26), so a caller's `dueDate` stays beside it. `Loan` has both fields,
  and `CreateWritesDueDAte` states that the caller's value survives.
- **Update.** The code writes any patch that has a return date to any stored
  loan, including one already returned and including a change of book. It
  then refreshes only the written record's book (lines 64-80). `UpdateOutcome`
  states this. `UpdateMovingBookLeavesOldStock` shows that the old book's stock
  goes stale when a loan changes book, so `UpdateKeepsStockConsistent` needs the
  book to stay the same.

## Model

| member | source | states |
|---|---|---|
| LoanModel.HasBookInStock | src/services/loanService.js:172-177 | the book lookup fails with not-found exactly when the book is not stored; the gate passes exactly when the stored stock is above zero |
| LoanModel.HashExistentIffCarried | src/services/loanService.js:164-170 | the hash exists (the count of loans carrying it is above zero) exactly when some stored loan carries that hash |
| LoanTransactions.Settle | src/services/loanService.js:28-51 | a session that cannot be opened fails with that error before the `try`, with no abort and no event; otherwise the session commits only when the body and the commit succeed, and returns the body's result and store; on any error the store is the snapshot taken when the session opened, the body's error is passed on, a failing commit rethrows `StorageFailure(Commit)`, and the session ends with an abort |
| LoanTransactions.DestroyStepShrinks | src/services/loanService.js:95-111 | one pass of the loop never adds a loan and never changes the next id |
| LoanTransactions.DestroyPrefixShrinks | src/services/loanService.js:94-112 | any number of passes never adds a loan id and keeps the next id |
| LoanTransactions.DestroyPrefixStops | src/services/loanService.js:94-118 | once a pass has thrown, later ids are not processed: the outcome stays that of the failing pass |
| LoanProperties.CreateRefusesOutOfStock | src/services/loanService.js:19-24 | a book whose stock is not above zero is refused with bookOutOfStock; no session opens and the store is unchanged |
| LoanProperties.CreateOutcome | src/services/loanService.js:17-52 | create succeeds exactly when the book is in stock, the session opens and no storage step fails; it then stores the loan under a new id with the computed due date, refreshes that book's stock, commits, and returns the record, with the events in that order; on failure the store is unchanged |
| LoanProperties.CreateFailureAborts | src/services/loanService.js:28-51 | after the gate, a session that cannot be opened fails with that error and nothing else happens; a failing create, refresh or commit aborts the session, rethrows that step's error, and restores the store; the events show how far it got |
| LoanProperties.CreateWritesDueDAte | src/services/loanService.js:26 | the stored loan carries `dueDAte` = issue date + loan period in days; the caller's `dueDate` and every other field are as given |
| LoanProperties.UpdateRefusesWithoutReturnDate | src/services/loanService.js:55-60 | a patch without a return date is refused with returnDateRequired before any session opens |
| LoanProperties.UpdateOutcome | src/services/loanService.js:54-88 | update succeeds exactly when a return date is given, the session opens, the loan exists, the written record's book exists and no storage step fails; it writes the patch over any stored loan (returned or not), refreshes the written record's book, commits and returns the record; on failure the store is unchanged |
| LoanProperties.DestroyStepOutcome | src/services/loanService.js:95-111 | one pass succeeds exactly when the id names a stored loan whose book exists and none of its steps fails; it then looks the loan up, deletes it (and only it) and refreshes its book to the law of the loans left, in that order, and keeps every other book |
| LoanProperties.DestroyedConcat | src/services/loanService.js:94-112 | the loans deleted by two event sequences in a row are those of the first followed by those of the second |
| LoanProperties.DestroyPrefixEffect | src/services/loanService.js:94-112 | when the first n passes succeed, their ids are distinct stored loans with existing books and no step of theirs failed; exactly those loans are gone |
| LoanProperties.DestroyPrefixSucceeds | src/services/loanService.js:94-112 | conversely, distinct stored ids with existing books and no failing step make the first n passes succeed |
| LoanProperties.DestroyPrefixOrder | src/services/loanService.js:94-112 | successful passes delete the listed loans in list order |
| LoanProperties.DestroyPrefixStock | src/services/loanService.js:94-112 | after successful passes, the book of every deleted loan has the stock the law gives for the loans left, and every other book is as it was |
| LoanProperties.DestroyAllOutcome | src/services/loanService.js:90-119 | destroyAll commits exactly when the ids are distinct, all stored with existing books, the session opens and no step (commit included) fails; it then deletes exactly those loans, in order, the book of each has the stock the law gives for the loans left, and every other book is as it was; otherwise the store is as before, with an abort unless the session never opened |
| LoanProperties.DestroyAllRejectsRepeatedOrMissing | src/services/loanService.js:94-118 | a repeated id or an id naming no loan fails the whole batch and undoes every earlier deletion |
| LoanProperties.DestroyAllEmpty | src/services/loanService.js:90-119 | when the session opens and commits, an empty list changes nothing |
| LoanProperties.ImportRefusesBlankHash | src/services/loanService.js:142-147 | a missing hash is refused with importHashRequired and nothing is written |
| LoanProperties.ImportRefusesKnownHash | src/services/loanService.js:149-154 | a hash some stored loan carries is refused with importHashExistent and nothing is written |
| LoanProperties.ImportCreatesWithHash | src/services/loanService.js:156-161 | a new hash makes import exactly a create of the data with that hash added |
| LoanProperties.ImportTwiceFails | src/services/loanService.js:141-170 | after one successful import, a second import of the same hash fails with importHashExistent and writes nothing |
| LoanProperties.CreateKeepsStockConsistent | src/services/loanService.js:31-45 | if every book's stock was what a refresh computes, it still is after a committed create |
| LoanProperties.UpdateKeepsStockConsistent | src/services/loanService.js:64-81 | the same after a committed update that keeps the loan's book |
| LoanProperties.UpdateMovingBookLeavesOldStock | src/services/loanService.js:64-80 | a committed update that moves a loan to another book leaves the old book's stock as it was, so a law that counted the moved loan makes a consistent store inconsistent |
| LoanProperties.UpdateWritesImportHash | src/services/loanService.js:64-71 | an update that writes an import hash onto a loan makes that hash known to `_isImportHashExistent` |
| LoanProperties.DestroyStepKeepsStockConsistent | src/services/loanService.js:95-111 | the same after one successful pass of the loop |
| LoanProperties.DestroyPrefixKeepsStockConsistent | src/services/loanService.js:94-112 | the same after any number of successful passes |
| LoanProperties.DestroyAllKeepsStockConsistent | src/services/loanService.js:90-119 | the same after a committed destroyAll |
| LoanProperties.LastCopyScenario | src/services/loanService.js:17-52 | with stock counted as copies less open loans, creating a loan of a one-copy book leaves its stock at 0, and a second loan of that book is refused as out of stock with nothing written |
| LoanProperties.FailedBatchScenario | src/services/loanService.js:90-119 | a batch of three ids whose second deletion fails leaves every loan and every stock as it was |
| AccessScope.ScopedFilterForMember | src/services/loanService.js:130-136 | for a caller with the member role and without the librarian role, the filter's `member` is the caller's id whatever was supplied, and every other supplied field is kept |
| AccessScope.ScopedFilterPassThrough | src/services/loanService.js:130-138 | any other caller's filter is passed on unchanged |
| AccessScope.ScopeRestriction | src/services/loanService.js:129-138 | a member-only caller only ever gets back its own loans, whatever filter it supplies |
| LoanServiceClass.LoanService.constructor | src/services/loanService.js:10-15 | the service starts on the given store with an empty journal, for the given user |
| LoanServiceClass.LoanService.CreateSession | src/services/loanService.js:28 | opening a session either fails with a storage error and changes nothing, or takes a snapshot of the store and records the event |
| LoanServiceClass.LoanService.CommitTransaction | src/services/loanService.js:45 | a commit either fails with a storage error or records the event; the store is kept |
| LoanServiceClass.LoanService.AbortTransaction | src/services/loanService.js:49 | an abort puts the snapshot back and records the event |
| LoanServiceClass.LoanService.EndSession | src/services/loanService.js:45-51 | the end of a `try` block: the result, store and journal are those `Settle` gives |
| LoanServiceClass.LoanService.RepoCreate | src/services/loanService.js:31-34 | the repository's create stores the data under the next id, as `CreateStep` says |
| LoanServiceClass.LoanService.RepoUpdate | src/services/loanService.js:64-71 | the repository's update writes the patch over the stored loan, as `UpdateStep` says |
| LoanServiceClass.LoanService.RepoFindById | src/services/loanService.js:95-98 | the lookup returns the stored record or fails, as `LookupStep` says, and changes no store |
| LoanServiceClass.LoanService.RepoDestroy | src/services/loanService.js:100-103 | the deletion removes the loan or fails, as `DeleteStep` says |
| LoanServiceClass.LoanService.RefreshStock | src/services/loanService.js:36-43 | the refresh sets the book's stock to the stock law of its loans, or fails, as `RefreshStep` says |
| LoanServiceClass.LoanService.HasBookInStockOf | src/services/loanService.js:172-177 | the lookup fails with not-found exactly when the book is not stored; otherwise it answers whether the stock is above zero |
| LoanServiceClass.LoanService.ImportHashExists | src/services/loanService.js:164-170 | true exactly when some stored loan carries the hash |
| LoanServiceClass.LoanService.Create | src/services/loanService.js:17-52 | the result, store and journal are those of `CreateRun`; the caller's data gains the computed `dueDAte` once the gate has passed, even if the session later aborts |
| LoanServiceClass.LoanService.Update | src/services/loanService.js:54-88 | the result, store and journal are those of `UpdateRun` |
| LoanServiceClass.LoanService.DestroyOne | src/services/loanService.js:95-111 | one pass of the loop (lookup, delete, refresh of the loan's book) does what `DestroyStep` says |
| LoanServiceClass.LoanService.DestroyNext | src/services/loanService.js:94-112 | a pass after i successful passes brings the state to that of the first i + 1 passes |
| LoanServiceClass.LoanService.DestroyEach | src/services/loanService.js:94-112 | the loop over the ids, leaving at the first error, reaches the outcome of `DestroyPrefix` over the whole list |
| LoanServiceClass.LoanService.DestroyAll | src/services/loanService.js:90-119 | the result, store and journal are those of `DestroyAllRun` |
| LoanServiceClass.LoanService.Import | src/services/loanService.js:141-162 | the result, store and journal are those of `ImportRun` |
| LoanServiceClass.LoanService.FindAndCountAll | src/services/loanService.js:129-139 | `args.filter` is rewritten to the scoped filter; the rows are the query under it and the count is their number; a member-only caller sees only its own loans |

## Left out

- The issue date is always present. `moment`'s fallback to the current time when it is missing (line 181) is not modelled.
- Dates are whole day counts. The `moment` library, ISO-8601 formatting and time zones are not modelled.
- The loan period comes from the settings service. Here it is the `loanPeriodInDays` parameter, and the settings service is not part of this model.
- The repositories and the book repository's `refreshStock` are not part of this model. The store is a set of maps. A refresh writes the value of an abstract `StockLaw` of the book's loans. The query keeps the loans whose `member`, `book` and `importHash` equal the filter's. Pagination, ordering and the other query arguments are not modelled.
- Sessions follow the repository's snapshot-and-restore semantics. A failing abort is not modelled.
- Concurrency is not modelled. In particular, two things that run outside the session are not modelled: the stock check, and the race between checking an import hash and creating the loan.
- The stock check and the import-hash count read the store outside any session. Storage failures of those reads are not modelled; a missing book is reported as not-found.
- The error message language and the `currentUser` passed to the repositories for audit are not modelled.
- `findById` and `findAllAutocomplete` pass straight through to the repository and are not modelled.
- The role names are taken to be `member` and `librarian`; the role table (`security/roles`) is not part of this model.
- A falsy `returnDate` is `None`, and a falsy import hash is the empty string.
- UpdateKeepsStockConsistent: needs the patch to keep the loan's book. The source refreshes only the new book, so the old book's stock is not recomputed after a change of book.
- An update patch sets each field it carries; writing `null` to clear a stored field (such as an import hash) is not modelled.
