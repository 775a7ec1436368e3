/**
 * What the todo list shows: the committed rows returned by `get_todos`
 * (or a message when there are none), followed by the titles of the add
 * submissions that are still pending, in submission order. A failed read
 * replaces the whole list with the error.
 */
module TodoDisplay {
  import opened Wrappers
  import opened ServerFn
  import opened TodoStore

  /** One add submission: its input (the submitted title, if the input is present) and whether it is in flight. */
  datatype Submission = Submission(input: Option<string>, pending: bool)

  /** One element of the rendered list. */
  datatype Entry =
    | /** A paragraph of text. */
      Paragraph(text: string)
    | /** A committed todo: its title and a delete form carrying its id. */
      TodoItem(id: u16, title: string)
    | /** An add still in flight, shown by its title. */
      PendingItem(input: Option<string>)

  /** What the error boundary around the list shows. */
  datatype View = ErrorShown(error: ServerFnError) | ListShown(entries: seq<Entry>)

  /** The message shown when the committed list is empty. */
  const NoTasksText := "No tasks were found."

  /** One list item per committed todo, in order. */
  function Items(todos: seq<Todo>): (r: seq<Entry>)
    ensures |r| == |todos|
    ensures forall i :: 0 <= i < |r| ==> r[i] == TodoItem(todos[i].id, todos[i].title)
  {
    if todos == [] then [] else [TodoItem(todos[0].id, todos[0].title)] + Items(todos[1..])
  }

  /** The committed part of the list: the message if there is no todo, else one item per todo. */
  function ExistingTodos(todos: seq<Todo>): (r: seq<Entry>)
    ensures todos == [] ==> r == [Paragraph(NoTasksText)]
    ensures todos != [] ==> r == Items(todos)
  {
    if |todos| == 0 then [Paragraph(NoTasksText)] else Items(todos)
  }

  /** The pending part of the list: one item per submission whose pending flag is set, in order. */
  function PendingEntries(subs: seq<Submission>): (r: seq<Entry>)
    ensures |r| <= |subs|
    ensures forall e :: e in r ==> e.PendingItem?
    ensures r == [] <==> forall i :: 0 <= i < |subs| ==> !subs[i].pending
  {
    if subs == [] then []
    else (if subs[0].pending then [PendingItem(subs[0].input)] else []) + PendingEntries(subs[1..])
  }

  /** The pending part of a concatenation is the concatenation of the pending parts: submission order is kept. */
  lemma {:induction false} PendingEntriesAppend(a: seq<Submission>, b: seq<Submission>)
    ensures PendingEntries(a + b) == PendingEntries(a) + PendingEntries(b)
  {
    if a == [] {
      assert a + b == b;
    } else {
      assert (a + b)[1..] == a[1..] + b;
      PendingEntriesAppend(a[1..], b);
    }
  }

  /** A single submission shows exactly when it is pending, with its own title. */
  lemma PendingEntriesSingle(s: Submission)
    ensures PendingEntries([s]) == if s.pending then [PendingItem(s.input)] else []
  {
    assert [s][1..] == [];
  }

  /** The rendered list: committed part, then pending part; a failed read shows only the error. */
  function Render(fetched: Result<seq<Todo>, ServerFnError>, subs: seq<Submission>): (v: View)
    ensures v.ErrorShown? <==> fetched.Err?
    ensures fetched.Err? ==> v.error == fetched.error
    ensures fetched == Ok([]) ==> v.entries == [Paragraph(NoTasksText)] + PendingEntries(subs)
    ensures fetched.Ok? && fetched.value != [] ==>
      && |v.entries| == |fetched.value| + |PendingEntries(subs)|
      && (forall i :: 0 <= i < |fetched.value| ==>
            v.entries[i] == TodoItem(fetched.value[i].id, fetched.value[i].title))
      && v.entries[|fetched.value|..] == PendingEntries(subs)
  {
    match fetched
    case Err(e) => ErrorShown(e)
    case Ok(todos) => ListShown(ExistingTodos(todos) + PendingEntries(subs))
  }

  /** Whether an entry is a list item (`li`) rather than a paragraph. */
  predicate IsListItem(e: Entry)
  {
    e.TodoItem? || e.PendingItem?
  }

  /** The number of list items in a sequence of entries. */
  function ListItemCount(entries: seq<Entry>): (n: nat)
    ensures n <= |entries|
  {
    if entries == [] then 0
    else (if IsListItem(entries[0]) then 1 else 0) + ListItemCount(entries[1..])
  }

  /** Every committed todo is a list item. */
  lemma {:induction false} ItemsCount(todos: seq<Todo>)
    ensures ListItemCount(Items(todos)) == |todos|
  {
    if todos != [] {
      assert Items(todos)[1..] == Items(todos[1..]);
      ItemsCount(todos[1..]);
    }
  }

  /**
   * Starting from an empty table, after N successful adds and with no add
   * still pending, the list has exactly N items, the k-th showing the k-th
   * title.
   */
  lemma AddedTodosAllShown(titles: seq<string>, ids: seq<u16>, subs: seq<Submission>, rows: seq<Todo>)
    requires |titles| == |ids| && rows == AddAll([], titles, ids)
    requires forall i :: 0 <= i < |subs| ==> !subs[i].pending
    ensures Render(Ok(rows), subs).ListShown?
    ensures ListItemCount(Render(Ok(rows), subs).entries) == |titles|
    ensures forall k :: 0 <= k < |titles| ==> Render(Ok(rows), subs).entries[k] == TodoItem(ids[k], titles[k])
  {
    assert PendingEntries(subs) == [];
    if |titles| > 0 {
      assert rows[0 + 0] == Todo(ids[0], titles[0], false);
      assert Render(Ok(rows), subs).entries == Items(rows);
      ItemsCount(rows);
    } else {
      // Only the empty-list paragraph is shown, and it is not a list item.
      assert Render(Ok(rows), subs).entries == [Paragraph(NoTasksText)];
      assert [Paragraph(NoTasksText)][1..] == [];
    }
  }
}
