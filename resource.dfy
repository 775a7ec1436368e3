/**
 * The read resource of the todo list: the result of `get_todos`, kept
 * until its key changes. The key is the tuple
 * (delete version, add version, delete version) of the two actions.
 */
module TodoResource {
  import opened Wrappers
  import opened ServerFn
  import opened TodoStore

  type ResourceKey = (nat, nat, nat)

  /** The key the resource is tracked on; the delete version appears twice. */
  function Key(deleteVersion: nat, addVersion: nat): ResourceKey
  {
    (deleteVersion, addVersion, deleteVersion)
  }

  /**
   * The key changes exactly when the add version or the delete version
   * changes: listing the delete version twice changes nothing about when
   * the list is read again.
   */
  lemma KeyChangesIff(d1: nat, a1: nat, d2: nat, a2: nat)
    ensures Key(d1, a1) != Key(d2, a2) <==> d1 != d2 || a1 != a2
    ensures Key(d1, a1) == Key(d2, a2) <==> (d1, a1) == (d2, a2)
  {
  }

  /** A remembered read: the key it was made under and its result. */
  datatype Memo = Memo(key: ResourceKey, result: Result<seq<Todo>, ServerFnError>)

  class TodosResource {
    var memo: Option<Memo>
    /** How many times the resource has called `get_todos`. */
    ghost var fetches: nat

    /** A resource that has not read yet. */
    constructor ()
      ensures memo == None && fetches == 0
    {
      memo := None;
      fetches := 0;
    }

    /**
     * The current value of the resource under the given versions: the
     * remembered result when the key is unchanged, otherwise a fresh
     * `get_todos` against the store, which is then remembered.
     */
    method Read(store: Store, deleteVersion: nat, addVersion: nat, connect: DbStep, fetch: FetchStep)
      returns (r: Result<seq<Todo>, ServerFnError>)
      modifies this
      ensures memo == Some(Memo(Key(deleteVersion, addVersion), r))
      ensures old(memo).Some? && old(memo).value.key == Key(deleteVersion, addVersion) ==>
        r == old(memo).value.result && fetches == old(fetches)
      ensures !(old(memo).Some? && old(memo).value.key == Key(deleteVersion, addVersion)) ==>
        r == FetchResult(store.rows, connect, fetch) && fetches == old(fetches) + 1
    {
      var key := Key(deleteVersion, addVersion);
      if memo.Some? && memo.value.key == key {
        return memo.value.result;
      }
      r := store.GetTodos(connect, fetch);
      memo := Some(Memo(key, r));
      fetches := fetches + 1;
    }
  }
}
