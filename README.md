# Todo Manager: the `TodoList` state machine in Dafny

This project models the state of the "Todo Manager" widget, the `TodoList` component in
`src/app/components/TodoList.tsx`, and proves properties of it. The component has three
state cells: the list of todos, the draft in the input field, and the theme name. It has
four handlers: `addTodo`, `toggleTodo`, `deleteTodo` and `toggleTheme`.

- `jsstring.dfy` (module `JsString`): the characters JavaScript's `trim()` strips, the
  trim itself, and proof that `s.trim() === ""` holds exactly when `AllWhitespace(s)`.
  `IsWs` is the union of the two code-point sets that the ECMAScript definition of
  `String.prototype.trim` strips. WhiteSpace is TAB, VT, FF, ZWNBSP and every
  character of Unicode category Zs: U+0020, U+00A0, U+1680, U+2000-U+200A, U+202F,
  U+205F and U+3000. LineTerminator is LF, CR, LS and PS. `LeadingWs` and `TrailingWs`
  measure the two runs of white space. `TrimStart`, `TrimEnd` and `Trim` strip them.
- `todos.dfy` (module `Todos`): the `Todo` record and the pure transforms the handlers
  apply. `ToggleAll` is the `map` at lines 28-29, `DeleteAll` the `filter` at line 36 and
  `NextTheme` the conditional at line 47. Lemmas relate each transform to a pointwise or
  index-level description, prove involution or idempotence, and say when each is a no-op.
- `todo_store.dfy` (module `TodoComponent`): class `TodoStore` with the fields `todos`,
  `inputValue` and `theme`. Each handler is a method with `modifies this`, and its
  postcondition gives the whole new state in terms of the old one. `Session` is a verified
  client that walks through a session and needs only the method contracts.

The model keeps these details of the code:

- The stored `text` is the untrimmed draft. Only the emptiness test uses `trim()`.
- Ids come from the clock, so they are not guaranteed unique. `toggleTodo` and
  `deleteTodo` act on every entry carrying the id, so a delete can remove more than one
  entry. `Session` shows two tasks that share an id being toggled and deleted together.
- The theme cell is a plain string that starts as `"light"`. `toggleTheme` maps `"light"`
  to `"dark"` and every other value to `"light"`. `TodoStore.Valid()` says the theme is one
  of the two names. The constructor establishes it, `ToggleTheme` always re-establishes it,
  and no other handler touches the theme.

## Model

| member | source | states |
|---|---|---|
| JsString.LeadingWs | src/app/components/TodoList.tsx:17 | the length of the leading white-space run: every character before it is white space, and the character at it, if any, is not |
| JsString.TrailingWs | src/app/components/TodoList.tsx:17 | the length of the trailing white-space run: every character after the cut is white space, and the character just before the cut, if any, is not |
| JsString.TrimStart | src/app/components/TodoList.tsx:17 | the result is the suffix of the input left after a run of white space, and it does not start with white space |
| JsString.TrimEnd | src/app/components/TodoList.tsx:17 | the result is the prefix of the input left before a run of white space, and it does not end with white space |
| JsString.Trim | src/app/components/TodoList.tsx:17 | `trim()` returns the slice of the input between a leading and a trailing run of white space, and neither end of the result is white space |
| JsString.TrimEmptyIff | src/app/components/TodoList.tsx:17 | `inputValue.trim() === ""` holds if and only if the draft is empty or all white space |
| Todos.CountId | src/app/components/TodoList.tsx:36 | the number of entries carrying an id is at most the length, and it is zero exactly when no entry carries the id |
| Todos.ToggleAll | src/app/components/TodoList.tsx:27-31 | the toggle `map` keeps the list's length |
| Todos.ToggleAllAt | src/app/components/TodoList.tsx:28-29 | position by position, toggling keeps `id` and `text`, negates `completed` exactly where the id matches, and leaves other entries unchanged |
| Todos.ToggleAllTwice | src/app/components/TodoList.tsx:28-29 | toggling the same id twice restores the original list |
| Todos.ToggleAllUnchangedIff | src/app/components/TodoList.tsx:28-29 | toggling leaves the list as it was if and only if no entry carries the id |
| Todos.DeleteAll | src/app/components/TodoList.tsx:36 | the `filter` keeps exactly the entries whose id differs, and the new length is the old length minus the number of matching entries |
| Todos.KeptIndices | src/app/components/TodoList.tsx:36 | the positions whose id differs from the deleted id, listed in strictly increasing order and all of them |
| Todos.DeleteAllSelects | src/app/components/TodoList.tsx:36 | the k-th entry left after a delete is the entry at the k-th surviving position, so original relative order is kept |
| Todos.DeleteAllUnchangedIff | src/app/components/TodoList.tsx:36 | deleting leaves the list as it was if and only if no entry carries the id |
| Todos.DeleteAllIdempotent | src/app/components/TodoList.tsx:36 | after a delete no entry carries the id, and deleting again changes nothing |
| Todos.NextTheme | src/app/components/TodoList.tsx:47 | the next theme is always light or dark, and it is dark exactly when the current theme is light |
| Todos.NextThemeTwice | src/app/components/TodoList.tsx:46-49 | two toggles restore a light or dark theme |
| Todos.ThemeAfter | src/app/components/TodoList.tsx:46-49 | after at least one toggle the theme is light or dark, whatever it was before |
| Todos.ThemeAfterFromLight | src/app/components/TodoList.tsx:13 | starting from the initial `"light"`, an even number of toggles gives light and an odd number gives dark |
| TodoComponent.TodoStore.constructor | src/app/components/TodoList.tsx:11-13 | the initial state is an empty list, an empty draft and the light theme |
| TodoComponent.TodoStore.SetInput | src/app/components/TodoList.tsx:102 | typing replaces the draft and changes neither the list nor the theme |
| TodoComponent.TodoStore.AddTodo | src/app/components/TodoList.tsx:16-23 | an empty or all-white-space draft leaves the list and the draft unchanged. Otherwise the list becomes the old list plus one new last entry, with the untrimmed draft as text, not completed, carrying the supplied id, and the draft becomes empty. The theme is untouched |
| TodoComponent.TodoStore.ToggleTodo | src/app/components/TodoList.tsx:26-32 | the list becomes `ToggleAll` of the old list, and the draft and theme are untouched |
| TodoComponent.TodoStore.DeleteTodo | src/app/components/TodoList.tsx:35-37 | the list becomes `DeleteAll` of the old list, and the draft and theme are untouched |
| TodoComponent.TodoStore.ToggleTheme | src/app/components/TodoList.tsx:46-49 | the theme becomes `NextTheme` of the old theme, so it is light or dark afterwards. The list and draft are untouched |

## Left out

- Rendering (src/app/components/TodoList.tsx:56-175): the JSX markup and the choice of Tailwind class strings are presentation only.
- The `useEffect` that sets `document.body.className` (lines 52-54) is a DOM side effect.
- `Date.now()` (line 20) reads the wall clock. It is the `now` parameter of `AddTodo`, with no assumption that it is unique or increasing.
- React mechanics are not modelled: batching of state setters, `useCallback` memoisation and its dependency lists, and re-render scheduling. Each handler is treated as one atomic state update.
- `handleFormSubmit` (lines 40-43) is `e.preventDefault()` followed by `addTodo()`, so it is `AddTodo` and has no member of its own.
- Strings are sequences of Unicode scalar values. JavaScript strings are UTF-16 and may hold lone surrogates. `trim()` only strips characters of the Basic Multilingual Plane, so the emptiness test is unaffected.
- Ids are mathematical integers. JavaScript numbers are IEEE doubles, but `Date.now()` returns a whole number of milliseconds far below 2^53, so comparing ids with `===` behaves as integer equality. `NaN` ids cannot arise from the handlers.
- That a run of adds yields as many entries as accepted drafts follows from `AddTodo`'s per-call contract. It is not stated as a separate lemma.
