/**
  The todo list of the current front end: a list of todos kept in localStorage
  under `todos`, with add, delete (through a confirmation dialog), completion
  toggling, a text search, an all/active/complete tab and three counters.
 */
module TodoList {
  import opened Wrappers
  import opened Text
  import opened Seqs
  import opened Storage

  const TodosKey := "todos"

  datatype Todo = Todo(id: string, text: string, completed: bool)

  /** The tab that selects which todos the list shows. */
  datatype Tab = All | Active | Complete

  /** A stored todo as loaded: `completed ?? false`. */
  function Loaded(t: StoredTodo): Todo {
    Todo(t.id, t.text, match t.completed case Some(b) => b case None => false)
  }

  /** A todo as the save effect writes it back. */
  function Persisted(t: Todo): StoredTodo {
    StoredTodo(t.id, t.text, Some(t.completed))
  }

  function LoadAll(items: seq<StoredTodo>): (r: seq<Todo>)
    ensures |r| == |items|
    ensures forall i | 0 <= i < |items| :: r[i] == Loaded(items[i])
  {
    if items == [] then [] else [Loaded(items[0])] + LoadAll(items[1..])
  }

  function PersistAll(todos: seq<Todo>): (r: seq<StoredTodo>)
    ensures |r| == |todos|
    ensures forall i | 0 <= i < |todos| :: r[i] == Persisted(todos[i])
  {
    if todos == [] then [] else [Persisted(todos[0])] + PersistAll(todos[1..])
  }

  /**
    `initTodo`: the list loaded from what is stored under `todos`. Nothing stored
    (or anything but a list of todos) gives the empty list; otherwise every item is
    kept in order with its id and text, and an item without `completed` is not completed.
   */
  function InitTodos(stored: Option<Value>): (r: seq<Todo>)
    ensures !(stored.Some? && stored.value.TodoItems?) ==> r == []
    ensures stored.Some? && stored.value.TodoItems? ==>
      var items := stored.value.items;
      && |r| == |items|
      && forall i | 0 <= i < |items| ::
           && r[i].id == items[i].id && r[i].text == items[i].text
           && (r[i].completed <==> items[i].completed == Some(true))
  {
    match stored
    case Some(TodoItems(items)) => LoadAll(items)
    case _ => []
  }

  /** What the save effect writes is read back unchanged by the next `initTodo`. */
  lemma {:induction false} ReloadRoundTrip(todos: seq<Todo>)
    ensures InitTodos(Some(TodoItems(PersistAll(todos)))) == todos
  {
    var back := LoadAll(PersistAll(todos));
    assert forall i | 0 <= i < |todos| :: back[i] == Loaded(Persisted(todos[i])) == todos[i];
  }

  predicate InTab(t: Todo, tab: Tab) {
    match tab
    case All => true
    case Active => !t.completed
    case Complete => t.completed
  }

  /** A todo is listed when its lower-cased text contains the lower-cased query and it belongs to the tab. */
  predicate Matches(t: Todo, query: string, tab: Tab) {
    Contains(ToLower(t.text), ToLower(query)) && InTab(t, tab)
  }

  predicate IsActive(t: Todo) { !t.completed }

  predicate IsComplete(t: Todo) { t.completed }

  /** `filtered`: the text search (skipped for an empty query), then the tab filter. */
  function Filtered(todos: seq<Todo>, query: string, tab: Tab): (r: seq<Todo>)
    ensures |r| <= |todos|
    ensures forall i | 0 <= i < |r| :: InTab(r[i], tab)
  {
    var lower := ToLower(query);
    var byText := if lower != [] then Filter(todos, (t: Todo) => Contains(ToLower(t.text), lower)) else todos;
    match tab
    case All => byText
    case Active => Filter(byText, IsActive)
    case Complete => Filter(byText, IsComplete)
  }

  /**
    The list shown is exactly the todos that match the query and the tab, in their
    order: one filter with `Matches`, so each shown todo matches, each matching todo
    is shown as often as it occurs, and the relative order is kept.
   */
  lemma FilteredMatches(todos: seq<Todo>, query: string, tab: Tab)
    ensures Filtered(todos, query, tab) == Filter(todos, (t: Todo) => Matches(t, query, tab))
  {
    var lower := ToLower(query);
    var byQuery := (t: Todo) => Contains(ToLower(t.text), lower);
    var byText := if lower != [] then Filter(todos, byQuery) else todos;
    if lower == [] {
      forall t: Todo ensures Contains(ToLower(t.text), lower) { ContainsTrivial(ToLower(t.text)); }
      FilterKeepsAll(todos, byQuery);
    }
    assert byText == Filter(todos, byQuery);
    match tab {
      case All =>
        FilterKeepsAll(byText, (t: Todo) => InTab(t, All));
        FilterFusion(todos, byQuery, (t: Todo) => InTab(t, All), (t: Todo) => Matches(t, query, tab));
      case Active =>
        FilterFusion(todos, byQuery, IsActive, (t: Todo) => Matches(t, query, tab));
      case Complete =>
        FilterFusion(todos, byQuery, IsComplete, (t: Todo) => Matches(t, query, tab));
    }
  }

  /** `activeCount`: the number of todos not completed. */
  function ActiveCount(todos: seq<Todo>): nat {
    |Filter(todos, IsActive)|
  }

  /** `completeCount`: the number of completed todos. */
  function CompleteCount(todos: seq<Todo>): nat {
    |Filter(todos, IsComplete)|
  }

  /** `allCount == activeCount + completeCount`. */
  lemma CountsAddUp(todos: seq<Todo>)
    ensures ActiveCount(todos) + CompleteCount(todos) == |todos|
  {
    FilterSplit(todos, IsComplete, IsActive);
  }

  /** Each counter equals the length of the list its tab shows when the search box is empty. */
  lemma CountsMatchTabs(todos: seq<Todo>)
    ensures |Filtered(todos, "", All)| == |todos|
    ensures |Filtered(todos, "", Active)| == ActiveCount(todos)
    ensures |Filtered(todos, "", Complete)| == CompleteCount(todos)
  {
    assert ToLower("") == "";
  }

  /** Some todo already has exactly this text. */
  predicate HasText(todos: seq<Todo>, text: string) {
    exists i | 0 <= i < |todos| :: todos[i].text == text
  }

  /** No two todos share a text. */
  predicate DistinctTexts(todos: seq<Todo>) {
    forall i, j | 0 <= i < j < |todos| :: todos[i].text != todos[j].text
  }

  /** The updater of `handleDelete`: every todo with the id is gone, the others stay in order. */
  function WithoutId(todos: seq<Todo>, id: string): (r: seq<Todo>)
    ensures forall i | 0 <= i < |r| :: r[i].id != id
    ensures forall t :: multiset(r)[t] == if t.id == id then 0 else multiset(todos)[t]
  {
    var r := Filter(todos, (t: Todo) => t.id != id);
    FilterMultiset(todos, (t: Todo) => t.id != id);
    r
  }

  /** The updater of `handleToggleComplete`: `completed` flips on the todos with the id, nothing else changes. */
  function ToggledById(todos: seq<Todo>, id: string): (r: seq<Todo>)
    ensures |r| == |todos|
    ensures forall i | 0 <= i < |todos| ::
      && r[i].id == todos[i].id && r[i].text == todos[i].text
      && r[i].completed == (if todos[i].id == id then !todos[i].completed else todos[i].completed)
  {
    if todos == [] then []
    else
      var t := todos[0];
      [if t.id == id then t.(completed := !t.completed) else t] + ToggledById(todos[1..], id)
  }

  /** Toggling the same id twice restores the list. */
  lemma ToggleTwice(todos: seq<Todo>, id: string)
    ensures ToggledById(ToggledById(todos, id), id) == todos
  {
    var r := ToggledById(ToggledById(todos, id), id);
    assert forall i | 0 <= i < |todos| :: r[i] == todos[i];
  }

  /** The `TodoList` component's state, and the localStorage it saves the list to. */
  class TodoListPage {
    var todos: seq<Todo>
    var input: string
    var query: string
    var activeTab: Tab
    var showDeleteModal: bool
    var todoToDelete: Option<Todo>
    const storage: LocalStorage

    /** The save effect has run: localStorage holds the current list. */
    ghost predicate Valid()
      reads this, storage
    {
      Lookup(storage.entries, TodosKey) == Some(TodoItems(PersistAll(todos)))
    }

    /** Mounting: `initTodo` reads the stored list, and the save effect writes it back. */
    constructor (storage: LocalStorage)
      modifies storage
      ensures this.storage == storage
      ensures todos == InitTodos(Lookup(old(storage.entries), TodosKey))
      ensures input == [] && query == [] && activeTab == All
      ensures !showDeleteModal && todoToDelete == None
      ensures storage.entries == old(storage.entries)[TodosKey := TodoItems(PersistAll(todos))]
      ensures Valid()
    {
      this.storage := storage;
      todos := InitTodos(Lookup(storage.entries, TodosKey));
      input, query, activeTab := [], [], All;
      showDeleteModal, todoToDelete := false, None;
      new;
      storage.Save(TodosKey, TodoItems(PersistAll(todos)));
    }

    /** The input's `onChange`. */
    method SetInput(value: string)
      modifies this`input
      ensures input == value
    {
      input := value;
    }

    /** The search box's `onChange`. */
    method SetQuery(value: string)
      modifies this`query
      ensures query == value
    {
      query := value;
    }

    /** The tabs' `onChange`. */
    method SetActiveTab(tab: Tab)
      modifies this`activeTab
      ensures activeTab == tab
    {
      activeTab := tab;
    }

    /**
      `handleAdd`, with `now` standing for `Date.now()`. Blank input and a text that
      is already listed change nothing; otherwise one todo with the trimmed text,
      not completed, is appended, the input is cleared and the list is saved.
     */
    method HandleAdd(now: string)
      requires Valid()
      modifies this`todos, this`input, storage
      ensures Valid()
      ensures var trimmed := Trim(old(input));
        if trimmed == [] || HasText(old(todos), trimmed) then
          todos == old(todos) && input == old(input)
        else
          todos == old(todos) + [Todo("todo_" + now, trimmed, false)] && input == []
      ensures DistinctTexts(old(todos)) ==> DistinctTexts(todos)
      ensures storage.entries == old(storage.entries)[TodosKey := TodoItems(PersistAll(todos))]
    {
      var trimmed := Trim(input);
      if trimmed == [] {
        return;
      }
      if exists i | 0 <= i < |todos| :: todos[i].text == trimmed {
        return;
      }
      var newTodo := Todo("todo_" + now, trimmed, false);
      todos := todos + [newTodo];
      input := [];
      storage.Save(TodosKey, TodoItems(PersistAll(todos)));
    }

    /** `handleDelete`: removes every todo with the id and saves the list. */
    method HandleDelete(id: string)
      requires Valid()
      modifies this`todos, storage
      ensures Valid()
      ensures todos == WithoutId(old(todos), id)
      ensures storage.entries == old(storage.entries)[TodosKey := TodoItems(PersistAll(todos))]
    {
      todos := WithoutId(todos, id);
      storage.Save(TodosKey, TodoItems(PersistAll(todos)));
    }

    /** `handleDeleteRequest`: remembers the todo and opens the confirmation dialog. */
    method HandleDeleteRequest(t: Todo)
      modifies this`todoToDelete, this`showDeleteModal
      ensures todoToDelete == Some(t) && showDeleteModal
    {
      todoToDelete := Some(t);
      showDeleteModal := true;
    }

    /** `handleCancelDelete`: closes the dialog and forgets the todo. */
    method HandleCancelDelete()
      modifies this`todoToDelete, this`showDeleteModal
      ensures todoToDelete == None && !showDeleteModal
    {
      showDeleteModal := false;
      todoToDelete := None;
    }

    /**
      `handleConfirmDelete`: with no todo remembered nothing happens; otherwise the
      todos with its id are deleted and the dialog is closed.
     */
    method HandleConfirmDelete()
      requires Valid()
      modifies this`todos, this`todoToDelete, this`showDeleteModal, storage
      ensures Valid()
      ensures old(todoToDelete).None? ==> todos == old(todos) && todoToDelete == None && showDeleteModal == old(showDeleteModal)
      ensures old(todoToDelete).Some? ==>
        && todos == WithoutId(old(todos), old(todoToDelete).value.id)
        && todoToDelete == None && !showDeleteModal
      ensures storage.entries == old(storage.entries)[TodosKey := TodoItems(PersistAll(todos))]
    {
      if todoToDelete.None? {
        return;
      }
      HandleDelete(todoToDelete.value.id);
      HandleCancelDelete();
    }

    /** `handleToggleComplete`: flips `completed` on the todos with the id and saves the list. */
    method HandleToggleComplete(id: string)
      requires Valid()
      modifies this`todos, storage
      ensures Valid()
      ensures todos == ToggledById(old(todos), id)
      ensures storage.entries == old(storage.entries)[TodosKey := TodoItems(PersistAll(todos))]
    {
      todos := ToggledById(todos, id);
      storage.Save(TodosKey, TodoItems(PersistAll(todos)));
    }
  }
}
