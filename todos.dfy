/** The values of the to-do list: the record kept for each task, the three
    display filters, and the pure computations the store performs on them
    (delete by id, toggle by id, the filtered view and the empty-state
    message). */
module Todos {
  import opened Filtering

  /** One to-do record as the page keeps it. `id` comes from the clock at
      creation and is not guaranteed unique; `date` is the due date the user
      picked or the placeholder `NoDateSet`; `createdAt` is an ISO-8601
      timestamp kept only for information. */
  datatype Todo = Todo(id: int, text: string, date: string, completed: bool, createdAt: string)

  /** Which records the list shows. */
  datatype Filter = All | Active | Completed

  const NoDateSet: string := "No date set"
  const NoTodosMessage: string := "No todos available. Add your first todo above!"
  const NoActiveMessage: string := "No active todos. Great job!"
  const NoCompletedMessage: string := "No completed todos yet."

  /** The record `addTodo` builds from already-trimmed text: the given id,
      text and timestamp, not completed, and a due date that is never blank
      (an empty due date becomes the placeholder). */
  function NewTodo(id: int, text: string, dueDate: string, createdAt: string): (t: Todo)
    ensures t.id == id && t.text == text && t.createdAt == createdAt
    ensures !t.completed
    ensures t.date != ""
    ensures dueDate != "" ==> t.date == dueDate
    ensures dueDate == "" ==> t.date == NoDateSet
  {
    Todo(id, text, if dueDate == "" then NoDateSet else dueDate, false, createdAt)
  }

  // ---------------------------------------------------------------------
  // deleteTodo

  /** The test `deleteTodo` passes to `filter`: the record's id differs. */
  function OtherId(id: int): Todo -> bool
  {
    (t: Todo) => t.id != id
  }

  /** The list without any record whose id is `id`. */
  function RemoveById(todos: seq<Todo>, id: int): (r: seq<Todo>)
    ensures forall t :: t in r <==> t in todos && t.id != id
    ensures forall t: Todo :: t.id != id ==> multiset(r)[t] == multiset(todos)[t]
    ensures IsSubsequence(r, todos)
    ensures (forall i :: 0 <= i < |todos| ==> todos[i].id != id) ==> r == todos
  {
    KeepIsSubsequence(todos, OtherId(id));
    KeepAllIff(todos, OtherId(id));
    forall t: Todo | t.id != id ensures multiset(Keep(todos, OtherId(id)))[t] == multiset(todos)[t] {
      KeepCount(todos, OtherId(id), t);
    }
    Keep(todos, OtherId(id))
  }

  /** Deleting an id a second time is a no-op. */
  lemma RemoveByIdTwice(todos: seq<Todo>, id: int)
    ensures RemoveById(RemoveById(todos, id), id) == RemoveById(todos, id)
  {
  }

  /** Deleting the id of a record just appended, when no earlier record
      shares it, gives back the list as it was before the append. */
  lemma RemoveAfterAppend(todos: seq<Todo>, t: Todo)
    requires forall i :: 0 <= i < |todos| ==> todos[i].id != t.id
    ensures RemoveById(todos + [t], t.id) == todos
  {
    KeepAppend(todos, [t], OtherId(t.id));
    KeepAllIff(todos, OtherId(t.id));
    assert Keep([t], OtherId(t.id)) == [] by {
      assert Keep([t], OtherId(t.id)) == [] + Keep([t][1..], OtherId(t.id));
    }
  }

  // ---------------------------------------------------------------------
  // toggleComplete

  /** The list with `completed` negated on every record whose id is `id`;
      every other field, and every other record, is as it was. */
  function ToggleById(todos: seq<Todo>, id: int): (r: seq<Todo>)
    ensures |r| == |todos|
    ensures forall i :: 0 <= i < |r| ==>
      && r[i].id == todos[i].id && r[i].text == todos[i].text
      && r[i].date == todos[i].date && r[i].createdAt == todos[i].createdAt
      && r[i].completed == (todos[i].completed != (todos[i].id == id))
  {
    if todos == [] then []
    else
      var t := todos[0];
      [if t.id == id then t.(completed := !t.completed) else t] + ToggleById(todos[1..], id)
  }

  /** Toggling the same id twice restores the list. */
  lemma ToggleTwice(todos: seq<Todo>, id: int)
    ensures ToggleById(ToggleById(todos, id), id) == todos
  {
  }

  /** Toggling an id no record has leaves the list unchanged. */
  lemma ToggleAbsent(todos: seq<Todo>, id: int)
    requires forall i :: 0 <= i < |todos| ==> todos[i].id != id
    ensures ToggleById(todos, id) == todos
  {
  }

  // ---------------------------------------------------------------------
  // toggleFilter

  /** The filter after one press of the filter button: all, active,
      completed, and back to all. */
  function NextFilter(f: Filter): (r: Filter)
    ensures r != f
  {
    if f == All then Active
    else if f == Active then Completed
    else All
  }

  /** The filter cycles through all three states and returns after three
      presses. */
  lemma FilterCycle(f: Filter)
    ensures NextFilter(NextFilter(NextFilter(f))) == f
    ensures {f, NextFilter(f), NextFilter(NextFilter(f))} == {All, Active, Completed}
  {
  }

  // ---------------------------------------------------------------------
  // renderTodos: the filtered view and the empty-state message

  /** The test the active view passes to `filter`. */
  predicate IsActive(t: Todo) { !t.completed }

  /** The test the completed view passes to `filter`. */
  predicate IsDone(t: Todo) { t.completed }

  /** Whether a record belongs under a filter. */
  predicate Shows(f: Filter, t: Todo)
  {
    match f
    case All => true
    case Active => IsActive(t)
    case Completed => IsDone(t)
  }

  /** The records the list shows under filter `f`, in list order. */
  function View(f: Filter, todos: seq<Todo>): (r: seq<Todo>)
    ensures f == All ==> r == todos
    ensures forall t :: t in r <==> t in todos && Shows(f, t)
    ensures forall t :: Shows(f, t) ==> multiset(r)[t] == multiset(todos)[t]
    ensures IsSubsequence(r, todos)
  {
    match f
    case Active =>
      KeepIsSubsequence(todos, IsActive);
      forall t | Shows(f, t) ensures multiset(Keep(todos, IsActive))[t] == multiset(todos)[t] {
        KeepCount(todos, IsActive, t);
      }
      Keep(todos, IsActive)
    case Completed =>
      KeepIsSubsequence(todos, IsDone);
      forall t | Shows(f, t) ensures multiset(Keep(todos, IsDone))[t] == multiset(todos)[t] {
        KeepCount(todos, IsDone, t);
      }
      Keep(todos, IsDone)
    case All =>
      assert IsSubsequence(todos, todos) by { SubsequenceOfItself(todos); }
      todos
  }

  /** The active and completed views split the list: every record is in
      exactly one of them, and together they hold the whole list. */
  lemma ViewsPartition(todos: seq<Todo>)
    ensures |View(Active, todos)| + |View(Completed, todos)| == |todos|
    ensures multiset(View(Active, todos)) + multiset(View(Completed, todos)) == multiset(todos)
    ensures forall t :: t in todos ==> (t in View(Active, todos) <==> t !in View(Completed, todos))
  {
    KeepSplit(todos, IsActive, IsDone);
  }

  /** A record appended to the list appears at the end of every view that
      shows it, after the records the view showed before. */
  lemma ViewAppend(f: Filter, todos: seq<Todo>, t: Todo)
    ensures View(f, todos + [t]) == View(f, todos) + (if Shows(f, t) then [t] else [])
  {
    match f
    case All =>
    case Active =>
      KeepAppend(todos, [t], IsActive);
      assert Keep([t], IsActive) == if IsActive(t) then [t] else [];
    case Completed =>
      KeepAppend(todos, [t], IsDone);
      assert Keep([t], IsDone) == if IsDone(t) then [t] else [];
  }

  /** The message the empty list shows, chosen as the page chooses it. Under
      `All` a non-empty list gets no message at all; `Render` never asks for
      that case. */
  function EmptyMessage(f: Filter, todos: seq<Todo>): (m: string)
    ensures f == All ==> (m == NoTodosMessage <==> todos == []) && (m == "" <==> todos != [])
    ensures f == Active ==> m == NoActiveMessage
    ensures f == Completed ==> m == NoCompletedMessage
  {
    if f == All && |todos| == 0 then NoTodosMessage
    else if f == Active then NoActiveMessage
    else if f == Completed then NoCompletedMessage
    else ""
  }

  /** An empty view means no record of the list belongs under the filter. */
  lemma EmptyViewShowsNothing(f: Filter, todos: seq<Todo>)
    requires View(f, todos) == []
    ensures forall i :: 0 <= i < |todos| ==> !Shows(f, todos[i])
  {
  }

  /** What the list area shows: a single empty-state line, or the records. */
  datatype Screen = EmptyState(message: string) | Items(items: seq<Todo>)

  /** The first part of rendering: the view, or when it is empty the
      message for the current filter. An empty view under `All` means the
      list itself is empty, under `Active` that every record is completed,
      under `Completed` that none is; the message is never blank. */
  function Render(f: Filter, todos: seq<Todo>): (r: Screen)
    ensures r.Items? <==> View(f, todos) != []
    ensures r.Items? ==> r.items == View(f, todos)
    ensures r.EmptyState? ==> r.message != ""
    ensures r.EmptyState? && f == All ==> r.message == NoTodosMessage && todos == []
    ensures r.EmptyState? && f == Active ==>
      r.message == NoActiveMessage && forall i :: 0 <= i < |todos| ==> todos[i].completed
    ensures r.EmptyState? && f == Completed ==>
      r.message == NoCompletedMessage && forall i :: 0 <= i < |todos| ==> !todos[i].completed
  {
    var view := View(f, todos);
    if |view| == 0 then
      EmptyViewShowsNothing(f, todos);
      EmptyState(EmptyMessage(f, todos))
    else
      Items(view)
  }

  /** The situation the page is built for: two new records, the first one
      toggled; the completed view shows just the first, the active view
      just the second. */
  lemma ToggleFirstOfTwo(a: Todo, b: Todo)
    requires !a.completed && !b.completed && a.id != b.id
    ensures View(Completed, ToggleById([a, b], a.id)) == [a.(completed := true)]
    ensures View(Active, ToggleById([a, b], a.id)) == [b]
  {
    var s := ToggleById([a, b], a.id);
    assert s == [a.(completed := true), b];
    KeepAppend([s[0]], [s[1]], IsDone);
    KeepAppend([s[0]], [s[1]], IsActive);
    assert s == [s[0]] + [s[1]];
  }
}
