/** What each operation of the loan service does to the store, as functions
    from the store before to a `Run`: the result, the store after, and the
    storage events issued. `failing` names the repository steps that raise a
    storage error during the call; `law` is the book repository's stock
    recomputation. */
module LoanTransactions {
  import opened LoanModel

  /** Every id occurs once. */
  ghost predicate Distinct(ids: seq<nat>) {
    forall i, j :: 0 <= i < j < |ids| ==> ids[i] != ids[j]
  }

  /** The session around a body. Opening the session can fail, before the
      `try`: then the error propagates, nothing is aborted and the body does
      not run. Otherwise the session commits when the body and the commit
      succeed, and else aborts, restores the store as it was when the session
      opened and passes on the body's error (or the commit's). */
  function Settle<T>(s0: Store, body: Run<T>, failing: set<Step>): (run: Run<T>)
    ensures run.result.Err? ==> run.store == s0
    ensures Open in failing ==> run == Run(Err(StorageFailure(Open)), s0, [])
    ensures Open !in failing && run.result.Err? ==> run.trace == [SessionOpened] + body.trace + [Aborted]
    ensures run.result.Ok? ==> run == Run(body.result, body.store, [SessionOpened] + body.trace + [Committed])
    ensures Open !in failing && body.result.Err? ==> run.result == body.result
    ensures Open !in failing && body.result.Ok? && Commit in failing ==> run.result == Err(StorageFailure(Commit))
    ensures run.result.Ok? <==> Open !in failing && body.result.Ok? && Commit !in failing
  {
    if Open in failing then
      Run(Err(StorageFailure(Open)), s0, [])
    else if body.result.Ok? && Commit !in failing then
      Run(body.result, body.store, [SessionOpened] + body.trace + [Committed])
    else
      var err := if body.result.Err? then body.result.error else StorageFailure(Commit);
      Run(Err(err), s0, [SessionOpened] + body.trace + [Aborted])
  }

  // ---- repository steps inside a session --------------------------------

  /** `bookRepository.refreshStock(book)`. */
  function RefreshStep(s: Store, law: StockLaw, book: Id, k: nat, failing: set<Step>): Run<()> {
    if Refresh(k) in failing then Run(Err(StorageFailure(Refresh(k))), s, [])
    else if book !in s.books then Run(Err(NotFound), s, [])
    else Run(Ok(()), Refreshed(s, law, book), [StockRefreshed(book)])
  }

  /** `repository.findById(id)` inside a session. */
  function LookupStep(s: Store, id: nat, k: nat, failing: set<Step>): Run<Record> {
    if Lookup(k) in failing then Run(Err(StorageFailure(Lookup(k))), s, [])
    else if id !in s.loans then Run(Err(NotFound), s, [])
    else Run(Ok(Record(id, s.loans[id])), s, [LoanFound(id)])
  }

  /** `repository.destroy(id)`. */
  function DeleteStep(s: Store, id: nat, k: nat, failing: set<Step>): Run<()> {
    if Delete(k) in failing then Run(Err(StorageFailure(Delete(k))), s, [])
    else if id !in s.loans then Run(Err(NotFound), s, [])
    else Run(Ok(()), s.(loans := s.loans - {id}), [LoanDestroyed(id)])
  }

  /** `repository.create(data)`. */
  function CreateStep(s: Store, data: Loan, failing: set<Step>): Run<Record> {
    if Write in failing then Run(Err(StorageFailure(Write)), s, [])
    else Run(Ok(Record(s.nextId, data)), Inserted(s, data), [LoanCreated(s.nextId)])
  }

  /** `repository.update(id, data)`. */
  function UpdateStep(s: Store, id: nat, patch: LoanPatch, failing: set<Step>): Run<Record> {
    if Write in failing then Run(Err(StorageFailure(Write)), s, [])
    else if id !in s.loans then Run(Err(NotFound), s, [])
    else
      var l := Patched(s.loans[id], patch);
      Run(Ok(Record(id, l)), s.(loans := s.loans[id := l]), [LoanUpdated(id)])
  }

  /** A write followed by a stock refresh of the written record's book. */
  function WriteThenRefresh(written: Run<Record>, law: StockLaw, failing: set<Step>): Run<Record> {
    if written.result.Err? then written
    else
      var refreshed := RefreshStep(written.store, law, written.result.value.loan.book, 0, failing);
      var result := if refreshed.result.Ok? then written.result else Err(refreshed.result.error);
      Run(result, refreshed.store, written.trace + refreshed.trace)
  }

  // ---- the operations ---------------------------------------------------

  /** `create(data)`: the stock gate outside any session, then the due date,
      then create and refresh inside one session. */
  function CreateRun(s: Store, law: StockLaw, data: Loan, loanPeriodInDays: int, failing: set<Step>): Run<Record> {
    match HasBookInStock(s, data.book)
    case Err(e) => Run(Err(e), s, [])
    case Ok(inStock) =>
      if !inStock then Run(Err(BookOutOfStock), s, [])
      else
        var d := WithDueDate(data, loanPeriodInDays);
        Settle(s, WriteThenRefresh(CreateStep(s, d, failing), law, failing), failing)
  }

  /** `update(id, data)`: the return-date gate outside any session, then
      update and refresh inside one session. */
  function UpdateRun(s: Store, law: StockLaw, id: nat, patch: LoanPatch, failing: set<Step>): Run<Record> {
    if patch.returnDate.None? then Run(Err(ReturnDateRequired), s, [])
    else Settle(s, WriteThenRefresh(UpdateStep(s, id, patch, failing), law, failing), failing)
  }

  /** One pass of the `destroyAll` loop: look the loan up, delete it, refresh
      its book. */
  function DestroyStep(s: Store, law: StockLaw, id: nat, k: nat, failing: set<Step>): Run<()> {
    if Lookup(k) in failing then Run(Err(StorageFailure(Lookup(k))), s, [])
    else if id !in s.loans then Run(Err(NotFound), s, [])
    else if Delete(k) in failing then Run(Err(StorageFailure(Delete(k))), s, [LoanFound(id)])
    else
      var book := s.loans[id].book;
      var deleted := s.(loans := s.loans - {id});
      var refreshed := RefreshStep(deleted, law, book, k, failing);
      Run(refreshed.result, refreshed.store, [LoanFound(id), LoanDestroyed(id)] + refreshed.trace)
  }

  lemma DestroyStepShrinks(s: Store, law: StockLaw, id: nat, k: nat, failing: set<Step>)
    ensures var run := DestroyStep(s, law, id, k, failing);
      run.store.nextId == s.nextId && run.store.loans.Keys <= s.loans.Keys
  {
  }

  /** The first `n` passes of the `destroyAll` loop, stopping at the first error. */
  function DestroyPrefix(s: Store, law: StockLaw, ids: seq<nat>, n: nat, failing: set<Step>): Run<()>
    requires n <= |ids|
    decreases n, 0
  {
    if n == 0 then Run(Ok(()), s, []) else DestroyPass(s, law, ids, n - 1, failing)
  }

  /** Pass `k` of the loop after the passes before it: it runs only when
      those all succeeded. */
  function DestroyPass(s: Store, law: StockLaw, ids: seq<nat>, k: nat, failing: set<Step>): Run<()>
    requires k < |ids|
    decreases k, 1
  {
    var before := DestroyPrefix(s, law, ids, k, failing);
    if before.result.Err? then before
    else
      var step := DestroyStep(before.store, law, ids[k], k, failing);
      Run(step.result, step.store, before.trace + step.trace)
  }

  /** One more pass after `n` successful ones. */
  lemma DestroyPrefixNext(s: Store, law: StockLaw, ids: seq<nat>, n: nat, failing: set<Step>)
    requires n < |ids|
    requires DestroyPrefix(s, law, ids, n, failing).result.Ok?
    ensures var before := DestroyPrefix(s, law, ids, n, failing);
      var step := DestroyStep(before.store, law, ids[n], n, failing);
      DestroyPrefix(s, law, ids, n + 1, failing) == Run(step.result, step.store, before.trace + step.trace)
  {
  }

  /** The passes only ever remove loans, and leave the next id alone. */
  lemma {:induction false} DestroyPrefixShrinks(s: Store, law: StockLaw, ids: seq<nat>, n: nat, failing: set<Step>)
    requires n <= |ids|
    ensures var after := DestroyPrefix(s, law, ids, n, failing);
      after.store.nextId == s.nextId && after.store.loans.Keys <= s.loans.Keys
  {
    if n > 0 {
      DestroyPrefixShrinks(s, law, ids, n - 1, failing);
      var before := DestroyPrefix(s, law, ids, n - 1, failing);
      if before.result.Ok? {
        DestroyStepShrinks(before.store, law, ids[n - 1], n - 1, failing);
      }
    }
  }

  /** Once a pass has failed, the later passes do not run. */
  lemma {:induction false} DestroyPrefixStops(s: Store, law: StockLaw, ids: seq<nat>, n: nat, m: nat, failing: set<Step>)
    requires n <= m <= |ids|
    requires DestroyPrefix(s, law, ids, n, failing).result.Err?
    ensures DestroyPrefix(s, law, ids, m, failing) == DestroyPrefix(s, law, ids, n, failing)
    decreases m
  {
    if m > n {
      DestroyPrefixStops(s, law, ids, n, m - 1, failing);
    }
  }

  /** `destroyAll(ids)`: the whole loop inside one session. */
  function DestroyAllRun(s: Store, law: StockLaw, ids: seq<nat>, failing: set<Step>): Run<()> {
    Settle(s, DestroyPrefix(s, law, ids, |ids|, failing), failing)
  }

  /** `import(data, importHash)`: the hash gates, then `create` with the hash
      added to the data. A falsy hash is the empty string. */
  function ImportRun(s: Store, law: StockLaw, data: Loan, importHash: string, loanPeriodInDays: int, failing: set<Step>): Run<Record> {
    if importHash == "" then Run(Err(ImportHashRequired), s, [])
    else if IsImportHashExistent(s, importHash) then Run(Err(ImportHashExistent), s, [])
    else CreateRun(s, law, data.(importHash := Some(importHash)), loanPeriodInDays, failing)
  }
}
