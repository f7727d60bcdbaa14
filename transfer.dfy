/** Execute: the snapshot loop over the source account, then the reconcile loop over
    the target account, reading back the files the first loop wrote. */
module Transfer {
  import opened Common
  import opened TemplatesModel
  import opened SendGridService
  import opened Snapshotter
  import opened Reconciler

  /** Execute for the templates `items`, with `runId` the run's timestamp and `replies`
      the target's answers to its POSTs. A snapshot failure ends the run before the
      target is touched; otherwise the target is listed once and every file in the
      run's directory is reconciled, in the order the directory lists them. */
  method Execute(source: Account, target: Account, store: SnapshotStore, items: seq<Template>,
                 runId: string, replies: nat -> Response) returns (result: Result<seq<OutputLine>, Error>)
    requires target.Valid()
    modifies store, target
    ensures target.Valid()
    ensures store.files == SaveAll(old(source.templates), items, old(store.files)).files
    ensures SaveAll(old(source.templates), items, old(store.files)).failure.Some? ==>
              && result == Err(SaveAll(old(source.templates), items, old(store.files)).failure.value)
              && target.View() == old(target.View())
    ensures SaveAll(old(source.templates), items, old(store.files)).failure.None? ==>
              exists listing: seq<Template>, order: seq<string> ::
                && Lists(listing, old(target.View()))
                && NoDuplicates(order)
                && (forall n :: n in order <==> n in store.files)
                && target.View() == ReconcileAll(old(target.View()), listing, store.files, order, runId, replies, 0).catalog
                && result == Reported(ReconcileAll(old(target.View()), listing, store.files, order, runId, replies, 0))
  {
    var failure := SaveSnapshots(source, items, store);
    if failure.Some? {
      return Err(failure.value);
    }
    var listing := target.List();
    var order := store.ListFiles();
    result := Reconcile(target, listing, store.files, order, runId, replies);
  }
}
