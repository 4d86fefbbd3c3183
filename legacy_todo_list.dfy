/**
  The todo list of the legacy front end: todos with an id and a text only, kept in
  localStorage under `todos`, with add and delete. The list keeps the stored objects
  as they are, so a `completed` flag written by the current front end survives.
 */
module LegacyTodoList {
  import opened Wrappers
  import opened Text
  import opened Seqs
  import opened Storage

  const TodosKey := "todos"

  /** `initTodo`: the stored list as it is, or the empty list when nothing (or no list) is stored. */
  function InitTodos(stored: Option<Value>): (r: seq<StoredTodo>)
    ensures stored.Some? && stored.value.TodoItems? ==> r == stored.value.items
    ensures !(stored.Some? && stored.value.TodoItems?) ==> r == []
  {
    match stored
    case Some(TodoItems(items)) => items
    case _ => []
  }

  predicate HasText(todos: seq<StoredTodo>, text: string) {
    exists i | 0 <= i < |todos| :: todos[i].text == text
  }

  /** The list `handleDelete` saves: the todos with another id, in their order. */
  function WithoutId(todos: seq<StoredTodo>, id: string): (r: seq<StoredTodo>)
    ensures forall i | 0 <= i < |r| :: r[i].id != id
    ensures forall t :: multiset(r)[t] == if t.id == id then 0 else multiset(todos)[t]
  {
    var r := Filter(todos, (t: StoredTodo) => t.id != id);
    FilterMultiset(todos, (t: StoredTodo) => t.id != id);
    r
  }

  /** Deleting an id no todo carries changes nothing. */
  lemma WithoutAbsentId(todos: seq<StoredTodo>, id: string)
    requires forall i | 0 <= i < |todos| :: todos[i].id != id
    ensures WithoutId(todos, id) == todos
  {
    FilterKeepsAll(todos, (t: StoredTodo) => t.id != id);
  }

  /** The legacy `TodoList` component's state and the localStorage it saves to. */
  class TodoListPage {
    var todos: seq<StoredTodo>
    var input: string
    const storage: LocalStorage

    ghost predicate Valid()
      reads this, storage
    {
      Lookup(storage.entries, TodosKey) == Some(TodoItems(todos))
    }

    /** Mounting: `initTodo`, then the save effect. With nothing stored the list is empty. */
    constructor (storage: LocalStorage)
      modifies storage
      ensures this.storage == storage
      ensures todos == InitTodos(Lookup(old(storage.entries), TodosKey))
      ensures input == []
      ensures storage.entries == old(storage.entries)[TodosKey := TodoItems(todos)]
      ensures Valid()
    {
      this.storage := storage;
      todos := InitTodos(Lookup(storage.entries, TodosKey));
      input := [];
      new;
      storage.Save(TodosKey, TodoItems(todos));
    }

    /** The input's `onChange`. */
    method SetInput(value: string)
      modifies this`input
      ensures input == value
    {
      input := value;
    }

    /**
      `handleAdd`, with `now` standing for `Date.now()`: blank input and a text that is
      already listed change nothing; otherwise one todo with the trimmed text is
      appended, the input is cleared and the list is saved.
     */
    method HandleAdd(now: string)
      requires Valid()
      modifies this`todos, this`input, storage
      ensures Valid()
      ensures var trimmed := Trim(old(input));
        if trimmed == [] || HasText(old(todos), trimmed) then
          todos == old(todos) && input == old(input)
        else
          todos == old(todos) + [StoredTodo("todo_" + now, trimmed, None)] && input == []
      ensures storage.entries == old(storage.entries)[TodosKey := TodoItems(todos)]
    {
      var trimmed := Trim(input);
      if trimmed == [] {
        return;
      }
      if exists i | 0 <= i < |todos| :: todos[i].text == trimmed {
        return;
      }
      todos := todos + [StoredTodo("todo_" + now, trimmed, None)];
      input := [];
      storage.Save(TodosKey, TodoItems(todos));
    }

    /** `handleDelete`: keeps exactly the todos with another id, in order, and saves the list. */
    method HandleDelete(id: string)
      requires Valid()
      modifies this`todos, storage
      ensures Valid()
      ensures todos == WithoutId(old(todos), id)
      ensures storage.entries == old(storage.entries)[TodosKey := TodoItems(todos)]
    {
      var filteredTodos := WithoutId(todos, id);
      todos := filteredTodos;
      storage.Save(TodosKey, TodoItems(todos));
    }
  }
}
