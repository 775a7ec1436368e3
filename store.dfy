/**
 * The `todos` table and the three server functions that read and write it:
 * `get_todos`, `add_todo` and `delete_todo`. The database is abstract: the
 * table is a sequence of rows in the order a full-table SELECT yields them,
 * and each way the database can fail is an explicit parameter.
 */
module TodoStore {
  import opened Wrappers
  import opened ServerFn

  /** Rust's `u16`, the type of a todo's id. */
  newtype u16 = x: int | 0 <= x < 0x1_0000

  /** One row of the `todos` table. */
  datatype Todo = Todo(id: u16, title: string, completed: bool)

  /** Whether one step against the database (opening the connection, running a statement) succeeds. */
  datatype DbStep = Succeeds | Fails(reason: string)

  /**
   * Whether the row stream of a SELECT completes, or its `count`-th read
   * (counting from 0; read number |rows| is the one that reports the end)
   * fails.
   */
  datatype FetchStep = Completes | FailsAfter(count: nat, reason: string)

  /** The ids present in a table. */
  function Ids(rows: seq<Todo>): set<u16>
  {
    set i | 0 <= i < |rows| :: rows[i].id
  }

  /** The primary-key invariant: no two rows share an id. */
  ghost predicate UniqueIds(rows: seq<Todo>)
  {
    forall i, j :: 0 <= i < j < |rows| ==> rows[i].id != rows[j].id
  }

  /** The outcome of `get_todos` against a table whose rows are `rows`. */
  function FetchResult(rows: seq<Todo>, connect: DbStep, fetch: FetchStep): (r: Result<seq<Todo>, ServerFnError>)
    ensures r.Ok? ==> r.value == rows
    ensures connect.Fails? ==> r == Err(ServerError(connect.reason))
    ensures r.Ok? <==> connect.Succeeds? && (fetch.Completes? || fetch.count > |rows|)
  {
    if connect.Fails? then Err(ServerError(connect.reason))
    else if fetch.FailsAfter? && fetch.count <= |rows| then Err(ServerError(fetch.reason))
    else Ok(rows)
  }

  /** The table after an INSERT of a new row `id`, `title`, not completed. */
  function Inserted(rows: seq<Todo>, id: u16, title: string): (r: seq<Todo>)
    ensures |r| == |rows| + 1 && r[..|rows|] == rows
    ensures r[|rows|] == Todo(id, title, false)
  {
    rows + [Todo(id, title, false)]
  }

  /** The table after `DELETE FROM todos WHERE id = id`: the other rows, in their order. */
  function Deleted(rows: seq<Todo>, id: u16): (r: seq<Todo>)
    ensures forall t :: t in r <==> t in rows && t.id != id
    ensures |r| <= |rows|
    ensures id !in Ids(r)
  {
    if rows == [] then []
    else (if rows[0].id == id then [] else [rows[0]]) + Deleted(rows[1..], id)
  }

  /** Deleting from a concatenation deletes from each part: the order of the kept rows is their old order. */
  lemma {:induction false} DeletedAppend(a: seq<Todo>, b: seq<Todo>, id: u16)
    ensures Deleted(a + b, id) == Deleted(a, id) + Deleted(b, id)
  {
    if a == [] {
      assert a + b == b;
    } else {
      assert (a + b)[1..] == a[1..] + b;
      DeletedAppend(a[1..], b, id);
    }
  }

  /** Deleting an id that is absent succeeds without changing the table. */
  lemma {:induction false} DeleteAbsent(rows: seq<Todo>, id: u16)
    requires id !in Ids(rows)
    ensures Deleted(rows, id) == rows
  {
    if rows != [] {
      assert Ids(rows[1..]) <= Ids(rows) by {
        forall k | k in Ids(rows[1..]) ensures k in Ids(rows) {
          var i :| 0 <= i < |rows[1..]| && rows[1..][i].id == k;
          assert rows[i + 1].id == k;
        }
      }
      assert rows[0].id in Ids(rows);
      DeleteAbsent(rows[1..], id);
    }
  }

  /** With unique ids, deleting a present id removes exactly one row. */
  lemma {:induction false} DeletePresent(rows: seq<Todo>, id: u16)
    requires UniqueIds(rows) && id in Ids(rows)
    ensures |Deleted(rows, id)| == |rows| - 1
  {
    var tail := rows[1..];
    if rows[0].id == id {
      forall j | 0 <= j < |tail| ensures tail[j].id != id {
        assert tail[j] == rows[j + 1];
      }
      DeleteAbsent(tail, id);
    } else {
      assert id in Ids(tail) by {
        var i :| 0 <= i < |rows| && rows[i].id == id;
        assert tail[i - 1].id == id;
      }
      DeletePresent(tail, id);
    }
  }

  /** Deleting keeps the primary-key invariant. */
  lemma {:induction false} DeletedKeepsUniqueIds(rows: seq<Todo>, id: u16)
    requires UniqueIds(rows)
    ensures UniqueIds(Deleted(rows, id))
  {
    if rows != [] {
      var rest := Deleted(rows[1..], id);
      DeletedKeepsUniqueIds(rows[1..], id);
      if rows[0].id != id {
        forall j | 0 <= j < |rest| ensures rows[0].id != rest[j].id {
          assert rest[j] in rows[1..];
          var k :| 0 <= k < |rows[1..]| && rows[1..][k] == rest[j];
          assert rows[k + 1] == rest[j];
        }
      }
    }
  }

  /** Inserting a row with a fresh id keeps the primary-key invariant. */
  lemma InsertedKeepsUniqueIds(rows: seq<Todo>, id: u16, title: string)
    requires UniqueIds(rows) && id !in Ids(rows)
    ensures UniqueIds(Inserted(rows, id, title))
    ensures Ids(Inserted(rows, id, title)) == Ids(rows) + {id}
  {
    var r := Inserted(rows, id, title);
    forall i | 0 <= i < |rows| ensures r[i].id != id {
      assert rows[i].id in Ids(rows);
    }
    forall k | k in Ids(r) ensures k in Ids(rows) + {id} {
      var i :| 0 <= i < |r| && r[i].id == k;
      if i < |rows| { assert rows[i].id == k; }
    }
    forall k | k in Ids(rows) + {id} ensures k in Ids(r) {
      if k == id {
        assert r[|rows|].id == k;
      } else {
        var i :| 0 <= i < |rows| && rows[i].id == k;
        assert r[i].id == k;
      }
    }
  }

  /** An add followed by a delete of the id it was given restores the table. */
  lemma AddThenDelete(rows: seq<Todo>, id: u16, title: string)
    requires id !in Ids(rows)
    ensures Deleted(Inserted(rows, id, title), id) == rows
  {
    DeletedAppend(rows, [Todo(id, title, false)], id);
    DeleteAbsent(rows, id);
    assert Deleted([Todo(id, title, false)], id) == [] by {
      assert [Todo(id, title, false)][1..] == [];
    }
  }

  /** The table after a sequence of successful adds, the k-th with title titles[k] and id ids[k]. */
  function AddAll(rows: seq<Todo>, titles: seq<string>, ids: seq<u16>): (r: seq<Todo>)
    requires |titles| == |ids|
    ensures |r| == |rows| + |titles| && r[..|rows|] == rows
    ensures forall k :: 0 <= k < |titles| ==> r[|rows| + k] == Todo(ids[k], titles[k], false)
    decreases |titles|
  {
    if titles == [] then rows
    else AddAll(Inserted(rows, ids[0], titles[0]), titles[1..], ids[1..])
  }

  /** Distinct fresh ids for a sequence of adds keep the primary-key invariant. */
  lemma {:induction false} AddAllKeepsUniqueIds(rows: seq<Todo>, titles: seq<string>, ids: seq<u16>)
    requires |titles| == |ids| && UniqueIds(rows)
    requires forall k :: 0 <= k < |ids| ==> ids[k] !in Ids(rows)
    requires forall k, l :: 0 <= k < l < |ids| ==> ids[k] != ids[l]
    ensures UniqueIds(AddAll(rows, titles, ids))
    decreases |titles|
  {
    if titles != [] {
      InsertedKeepsUniqueIds(rows, ids[0], titles[0]);
      var next := Inserted(rows, ids[0], titles[0]);
      forall k | 0 <= k < |ids[1..]| ensures ids[1..][k] !in Ids(next) {
        assert ids[1..][k] == ids[k + 1];
      }
      AddAllKeepsUniqueIds(next, titles[1..], ids[1..]);
    }
  }

  /** The `todos` table of the database. */
  class Store {
    var rows: seq<Todo>

    ghost predicate Valid()
      reads this
    {
      UniqueIds(rows)
    }

    /** An empty table, as the migration leaves it. */
    constructor ()
      ensures Valid() && rows == []
    {
      rows := [];
    }

    /**
     * `get_todos`: open a connection, then read the rows of
     * `SELECT * FROM todos` one at a time, pushing each onto the result.
     * The table is not changed.
     */
    method GetTodos(connect: DbStep, fetch: FetchStep) returns (r: Result<seq<Todo>, ServerFnError>)
      ensures r == FetchResult(rows, connect, fetch)
      ensures connect.Fails? ==> r == Err(ServerError(connect.reason))
      ensures r.Ok? ==> r.value == rows
    {
      if connect.Fails? {
        return Err(ServerError(connect.reason));
      }
      var todos: seq<Todo> := [];
      var i := 0;
      while i < |rows|
        invariant 0 <= i <= |rows|
        invariant todos == rows[..i]
        invariant fetch.FailsAfter? ==> fetch.count >= i
      {
        if fetch.FailsAfter? && fetch.count == i {
          return Err(ServerError(fetch.reason));
        }
        todos := todos + [rows[i]];
        i := i + 1;
      }
      // The read that reports the end of the stream can fail too.
      if fetch.FailsAfter? && fetch.count == i {
        return Err(ServerError(fetch.reason));
      }
      assert todos == rows;
      return Ok(todos);
    }

    /**
     * `add_todo`: open a connection, then insert one row with the given
     * title and `completed = false`. The id is the one the table's schema
     * assigns; it is supplied here as `assignedId`.
     */
    method AddTodo(title: string, assignedId: u16, connect: DbStep, insert: DbStep)
      returns (r: Result<(), ServerFnError>)
      requires Valid() && assignedId !in Ids(rows)
      modifies this
      ensures Valid()
      ensures connect.Fails? ==> r == Err(ServerError(connect.reason))
      ensures connect.Succeeds? && insert.Fails? ==> r == Err(ServerError(insert.reason))
      ensures r.Ok? <==> connect.Succeeds? && insert.Succeeds?
      ensures rows == if r.Ok? then Inserted(old(rows), assignedId, title) else old(rows)
      ensures Ids(rows) == if r.Ok? then old(Ids(rows)) + {assignedId} else old(Ids(rows))
    {
      if connect.Fails? {
        return Err(ServerError(connect.reason));
      }
      if insert.Fails? {
        return Err(ServerError(insert.reason));
      }
      InsertedKeepsUniqueIds(rows, assignedId, title);
      rows := Inserted(rows, assignedId, title);
      return Ok(());
    }

    /**
     * `delete_todo`: open a connection, then delete every row whose id is
     * `id`. An absent id is not an error: the statement affects no row.
     */
    method DeleteTodo(id: u16, connect: DbStep, delete: DbStep) returns (r: Result<(), ServerFnError>)
      requires Valid()
      modifies this
      ensures Valid()
      ensures connect.Fails? ==> r == Err(ServerError(connect.reason))
      ensures connect.Succeeds? && delete.Fails? ==> r == Err(ServerError(delete.reason))
      ensures r.Ok? <==> connect.Succeeds? && delete.Succeeds?
      ensures rows == if r.Ok? then Deleted(old(rows), id) else old(rows)
      ensures r.Ok? && id !in old(Ids(rows)) ==> rows == old(rows)
      ensures r.Ok? && id in old(Ids(rows)) ==> |rows| == old(|rows|) - 1
    {
      if connect.Fails? {
        return Err(ServerError(connect.reason));
      }
      if delete.Fails? {
        return Err(ServerError(delete.reason));
      }
      DeletedKeepsUniqueIds(rows, id);
      if id in Ids(rows) {
        DeletePresent(rows, id);
      } else {
        DeleteAbsent(rows, id);
      }
      rows := Deleted(rows, id);
      return Ok(());
    }
  }
}
