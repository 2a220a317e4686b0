/** The `TodoList` component's state cells and the handlers that update them. */
module TodoComponent {
  import opened JsString
  import opened Todos

  /** The three `useState` cells of the component: the list, the draft in the
      input field, and the theme name. */
  class TodoStore {
    var todos: seq<Todo>
    var inputValue: string
    var theme: string

    /** The theme is one of the two names the component uses. */
    ghost predicate Valid()
      reads this
    {
      theme == Light || theme == Dark
    }

    /** A mounted component: no tasks, an empty draft, the light theme. */
    constructor ()
      ensures Valid()
      ensures todos == [] && inputValue == "" && theme == Light
    {
      todos := [];
      inputValue := "";
      theme := Light;
    }

    /** The input field's `onChange`: the draft becomes what was typed. */
    method SetInput(s: string)
      modifies this
      ensures inputValue == s
      ensures todos == old(todos) && theme == old(theme)
    {
      inputValue := s;
    }

    /** `addTodo`, with `now` standing for `Date.now()`. A draft that is empty or only
        white space changes nothing; otherwise the untrimmed draft is appended as a new,
        uncompleted task carrying `now`, and the draft is cleared. */
    method AddTodo(now: int)
      modifies this
      ensures AllWhitespace(old(inputValue)) ==>
        todos == old(todos) && inputValue == old(inputValue)
      ensures !AllWhitespace(old(inputValue)) ==>
        todos == old(todos) + [Todo(now, old(inputValue), false)] && inputValue == ""
      ensures theme == old(theme)
    {
      TrimEmptyIff(inputValue);
      if Trim(inputValue) == "" {
        return;
      }
      todos := todos + [Todo(now, inputValue, false)];
      inputValue := "";
    }

    /** `toggleTodo(id)`: every task carrying `id` has its completion flag negated. */
    method ToggleTodo(id: int)
      modifies this
      ensures todos == ToggleAll(old(todos), id)
      ensures inputValue == old(inputValue) && theme == old(theme)
    {
      todos := ToggleAll(todos, id);
    }

    /** `deleteTodo(id)`: every task carrying `id` is removed. */
    method DeleteTodo(id: int)
      modifies this
      ensures todos == DeleteAll(old(todos), id)
      ensures inputValue == old(inputValue) && theme == old(theme)
    {
      todos := DeleteAll(todos, id);
    }

    /** `toggleTheme`: light becomes dark and any other name becomes light, so
        afterwards the theme is always one of the two. */
    method ToggleTheme()
      modifies this
      ensures Valid()
      ensures theme == NextTheme(old(theme))
      ensures todos == old(todos) && inputValue == old(inputValue)
    {
      theme := if theme == Light then Dark else Light;
    }
  }

  /** A session driven through the handlers: an empty draft is rejected, a task is added,
      completed and deleted, two tasks added within the same clock tick share an id so one
      toggle or delete acts on both, and two theme toggles come back to light. */
  method Session()
  {
    var store := new TodoStore();

    store.AddTodo(100);
    assert store.todos == [];

    store.SetInput("Buy milk");
    assert !IsWs("Buy milk"[0]);
    store.AddTodo(200);
    assert store.todos == [Todo(200, "Buy milk", false)] && store.inputValue == "";

    store.ToggleTodo(200);
    assert store.todos == [Todo(200, "Buy milk", true)];
    store.DeleteTodo(200);
    assert store.todos == [];

    store.SetInput(" a ");
    assert !IsWs(" a "[1]);
    store.AddTodo(300);
    store.SetInput("b");
    assert !IsWs("b"[0]);
    store.AddTodo(300);
    assert store.todos == [Todo(300, " a ", false), Todo(300, "b", false)];
    store.ToggleTodo(300);
    assert store.todos == [Todo(300, " a ", true), Todo(300, "b", true)];
    store.DeleteTodo(300);
    assert store.todos == [];

    store.ToggleTheme();
    assert store.theme == Dark;
    store.ToggleTheme();
    assert store.theme == Light && store.Valid();
  }
}
