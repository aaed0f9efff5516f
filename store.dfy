/** The page's state: the list of records and the current filter, and the
    operations the buttons and the form run on them. The page keeps both in
    module-level variables that every handler reassigns; here they are the
    fields of one store object. Saving to browser storage and redrawing the
    page after each change are not modelled. */
module Store {
  import opened Filtering
  import opened Text
  import opened Todos

  /** What submitting the form does: a record is added, or the text was
      blank and the page alerts "Please enter a todo item!". */
  datatype AddResult = Added(todo: Todo) | EmptyText

  /** What the clear-all button does: the list is cleared, the user declined
      the confirmation, or the list was already empty and the page alerts
      "No todos to clear!". */
  datatype ResetResult = Cleared | Declined | NothingToClear

  class TodoStore {
    var todos: seq<Todo>
    var filter: Filter

    /** Page load: the list read back from storage (empty when nothing was
        stored), and the filter showing everything. */
    constructor (stored: seq<Todo>)
      ensures todos == stored && filter == All
    {
      todos := stored;
      filter := All;
    }

    /** Submitting the form. Text that is blank once trimmed is rejected
        and nothing changes; otherwise a new, not completed record with the
        trimmed text is appended after all existing ones. `id` and
        `createdAt` are the clock readings the page takes at that moment. */
    method AddTodo(input: string, dueDate: string, id: int, createdAt: string) returns (result: AddResult)
      modifies this
      ensures filter == old(filter)
      ensures result == EmptyText <==> Trim(input) == ""
      ensures result == EmptyText ==> todos == old(todos)
      ensures result.Added? ==>
        && todos == old(todos) + [result.todo]
        && result.todo.id == id
        && result.todo.text == Trim(input)
        && result.todo.date == (if dueDate == "" then NoDateSet else dueDate)
        && !result.todo.completed
        && result.todo.createdAt == createdAt
    {
      var text := Trim(input);
      if text == "" {
        return EmptyText;
      }
      var t := NewTodo(id, text, dueDate, createdAt);
      todos := todos + [t];
      result := Added(t);
    }

    /** The delete button of a record: every record carrying `id` goes. */
    method DeleteTodo(id: int)
      modifies this
      ensures todos == RemoveById(old(todos), id)
      ensures filter == old(filter)
    {
      todos := RemoveById(todos, id);
    }

    /** The complete/undo button of a record: every record carrying `id`
        flips its completed flag. */
    method ToggleComplete(id: int)
      modifies this
      ensures todos == ToggleById(old(todos), id)
      ensures filter == old(filter)
    {
      todos := ToggleById(todos, id);
    }

    /** The clear-all button. An empty list is refused; otherwise the list
        is emptied if the user confirms and left alone if not. */
    method ResetTodos(confirmed: bool) returns (result: ResetResult)
      modifies this
      ensures filter == old(filter)
      ensures old(todos) == [] ==> result == NothingToClear && todos == old(todos)
      ensures old(todos) != [] && confirmed ==> result == Cleared && todos == []
      ensures old(todos) != [] && !confirmed ==> result == Declined && todos == old(todos)
    {
      if |todos| == 0 {
        return NothingToClear;
      }
      if confirmed {
        todos := [];
        result := Cleared;
      } else {
        result := Declined;
      }
    }

    /** The filter button: all, then active, then completed, then all. */
    method ToggleFilter()
      modifies this
      ensures filter == NextFilter(old(filter))
      ensures todos == old(todos)
    {
      if filter == All {
        filter := Active;
      } else if filter == Active {
        filter := Completed;
      } else {
        filter := All;
      }
    }

    /** What the list area shows for the current state. */
    method RenderTodos() returns (screen: Screen)
      ensures screen == Render(filter, todos)
    {
      var view: seq<Todo>;
      if filter == Active {
        view := Keep(todos, IsActive);
      } else if filter == Completed {
        view := Keep(todos, IsDone);
      } else {
        view := todos;
      }
      if |view| == 0 {
        screen := EmptyState(EmptyMessage(filter, todos));
      } else {
        screen := Items(view);
      }
    }
  }

  /** A session of use replayed against the store's contracts: a blank entry
      is refused, clearing an empty list is refused, and a real entry appears
      in the list with the placeholder date. */
  method FirstEntryExample(id: int, createdAt: string)
  {
    var store := new TodoStore([]);
    TrimEmptyIff("  ");
    var refused := store.AddTodo("  ", "2099-01-01", id, createdAt);
    assert refused == EmptyText && store.todos == [];
    var nothing := store.ResetTodos(true);
    assert nothing == NothingToClear;
    TrimKeepsCleanText("Buy milk");
    var milk := store.AddTodo("Buy milk", "", id, createdAt);
    assert store.todos == [Todo(id, "Buy milk", NoDateSet, false, createdAt)];
  }

  /** Completing the first of two new records, then switching the filter to
      completed, shows just that record. */
  method CompleteFirstExample(a: Todo, b: Todo)
    requires !a.completed && !b.completed && a.id != b.id
  {
    var store := new TodoStore([a, b]);
    store.ToggleComplete(a.id);
    ToggleFirstOfTwo(a, b);
    store.ToggleFilter();
    store.ToggleFilter();
    var screen := store.RenderTodos();
    assert screen == Items([a.(completed := true)]);
  }
}
