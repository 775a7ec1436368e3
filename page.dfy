/**
 * The `Todos` component as a state machine: the add and delete actions
 * with their version counters, the add submissions, the read resource and
 * the rendered list. Each action settles in one step, sequentially.
 */
module TodosComponent {
  import opened Wrappers
  import opened ServerFn
  import opened TodoStore
  import opened TodoDisplay
  import opened TodoResource

  class TodosPage {
    const store: Store
    const resource: TodosResource
    /** The add submissions, in the order they were made. */
    var submissions: seq<Submission>
    /** How many add calls have settled. */
    var addVersion: nat
    /** How many delete calls have settled. */
    var deleteVersion: nat

    ghost predicate Valid()
      reads this, store
    {
      store.Valid()
    }

    constructor (store: Store)
      requires store.Valid()
      ensures Valid() && this.store == store && fresh(resource) && resource.memo == None
      ensures submissions == [] && addVersion == 0 && deleteVersion == 0
    {
      this.store := store;
      resource := new TodosResource();
      submissions := [];
      addVersion, deleteVersion := 0, 0;
    }

    /** Submitting the add form records a pending submission before the store is called. */
    method SubmitAdd(title: string)
      modifies this
      ensures submissions == old(submissions) + [Submission(Some(title), true)]
      ensures addVersion == old(addVersion) && deleteVersion == old(deleteVersion)
    {
      submissions := submissions + [Submission(Some(title), true)];
    }

    /**
     * The add of submission `i` settles: `add_todo` runs against the store,
     * the submission stops being pending and the add version advances,
     * whatever the outcome.
     */
    method SettleAdd(i: nat, assignedId: u16, connect: DbStep, insert: DbStep)
      returns (r: Result<(), ServerFnError>)
      requires Valid() && i < |submissions| && submissions[i].pending && submissions[i].input.Some?
      requires assignedId !in Ids(store.rows)
      modifies this, store
      ensures Valid()
      ensures store.rows == if r.Ok? then Inserted(old(store.rows), assignedId, old(submissions[i].input.value))
                            else old(store.rows)
      ensures r.Ok? <==> connect.Succeeds? && insert.Succeeds?
      ensures submissions == old(submissions)[i := Submission(old(submissions[i].input), false)]
      ensures addVersion == old(addVersion) + 1 && deleteVersion == old(deleteVersion)
    {
      r := store.AddTodo(submissions[i].input.value, assignedId, connect, insert);
      submissions := submissions[i := Submission(submissions[i].input, false)];
      addVersion := addVersion + 1;
    }

    /** A delete settles: `delete_todo` runs against the store and the delete version advances, whatever the outcome. */
    method Delete(id: u16, connect: DbStep, delete: DbStep) returns (r: Result<(), ServerFnError>)
      requires Valid()
      modifies this, store
      ensures Valid()
      ensures store.rows == if r.Ok? then Deleted(old(store.rows), id) else old(store.rows)
      ensures r.Ok? <==> connect.Succeeds? && delete.Succeeds?
      ensures submissions == old(submissions)
      ensures deleteVersion == old(deleteVersion) + 1 && addVersion == old(addVersion)
    {
      r := store.DeleteTodo(id, connect, delete);
      deleteVersion := deleteVersion + 1;
    }

    /** What the list shows now: the resource's value under the current versions, composed with the submissions. */
    method Show(connect: DbStep, fetch: FetchStep) returns (v: View)
      modifies resource
      ensures resource.memo.Some? && resource.memo.value.key == Key(deleteVersion, addVersion)
      ensures v == Render(resource.memo.value.result, submissions)
      ensures old(resource.memo).Some? && old(resource.memo).value.key == Key(deleteVersion, addVersion) ==>
        v == Render(old(resource.memo).value.result, submissions)
      ensures old(resource.memo).Some? && old(resource.memo).value.key == Key(deleteVersion, addVersion) ==>
        resource.memo == old(resource.memo) && resource.fetches == old(resource.fetches)
      ensures !(old(resource.memo).Some? && old(resource.memo).value.key == Key(deleteVersion, addVersion)) ==>
        && v == Render(FetchResult(store.rows, connect, fetch), submissions)
        && resource.memo == Some(Memo(Key(deleteVersion, addVersion), FetchResult(store.rows, connect, fetch)))
        && resource.fetches == old(resource.fetches) + 1
    {
      var fetched := resource.Read(store, deleteVersion, addVersion, connect, fetch);
      v := Render(fetched, submissions);
    }
  }

  /**
   * Adding "Buy milk" to an empty list: while the add is in flight the list
   * shows the empty-list message and one pending entry; once it has settled
   * the list shows the committed todo and nothing pending.
   */
  method BuyMilkScenario() returns (before: View, after: View)
    ensures before == ListShown([Paragraph(NoTasksText), PendingItem(Some("Buy milk"))])
    ensures after == ListShown([TodoItem(1, "Buy milk")])
  {
    var store := new Store();
    var page := new TodosPage(store);
    var initial := page.Show(Succeeds, Completes);
    page.SubmitAdd("Buy milk");
    before := page.Show(Succeeds, Completes);
    PendingEntriesSingle(Submission(Some("Buy milk"), true));
    var added := page.SettleAdd(0, 1, Succeeds, Succeeds);
    assert store.rows == [Todo(1, "Buy milk", false)];
    after := page.Show(Succeeds, Completes);
    PendingEntriesSingle(Submission(Some("Buy milk"), false));
    assert Items([Todo(1, "Buy milk", false)]) == [TodoItem(1, "Buy milk")];
  }
}
