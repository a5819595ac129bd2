# Todo-list state logic

A Dafny model of the pure state logic of a small todo-list app built on a
unidirectional state container. It covers four pieces:

- the visible-todos projection `getVisibleTodos`;
- the action creators `addTodo`, `toggleTodo` and `setVisibilityFilter`, with the module-level `nextTodoId` counter;
- the root reducer `todoApp`;
- the `todos` list reducer, as far as its tests fix its behaviour.

It also covers the two state-to-props selectors.

Modules:

- `Wrappers`: `Option`, which stands for JavaScript's `undefined`.
- `Domain`: todo items, visibility filters and the two-field application state.
  - Filters are strings in the app. Here they are a datatype whose `Custom(tag)` case holds any string other than the three known tags.
  - `FilterTag` and `ParseFilter` convert between the datatype and the strings. Together they are a bijection.
- `Actions`: action descriptors and their `type` tags.
  - The creators are modelled as functions.
  - The id counter is the class `IdCounter`. Its methods use `old` and `modifies`. `AddTodos` states the same run as a pure function, and `AddTodosFromStart` runs a fresh counter.
- `VisibleTodos`: the projection, plus an independent description of what it must return. `ExactlyShown` holds when a list is an order-preserving selection of displayed items that misses none of them. The module proves both directions: the projection meets the description, and only one list does.
- `ListReducer`: the `todos` reducer.
- `RootReducer`: `todoApp`, with both sub-reducers as parameters.
- `Selectors`: `mapStateToTodoListProps` and `mapStateToLinkProps`.

## Model

| member | source | states |
|---|---|---|
| Domain.ParseFilter | app/index.js:45-51 | every filter string reads as a filter whose tag is that string; it is one of the three known filters exactly when the string is one of the three tags |
| Domain.FilterTagRoundTrip | app/index.js:45-51 | reading back a filter's tag gives the same filter |
| Domain.FilterTagInjective | app/index.js:160-164 | two filters have equal strings exactly when they are equal, so the app's string comparison compares filters |
| Actions.Kind | app/index.js:17-38 | the `type` tag alone determines the kind of action: each of the three known tags belongs to exactly one action shape, and every other tag is an unknown action |
| Actions.ToggleTodo | app/index.js:26-31 | the action is tagged TOGGLE_TODO and carries the given id unchanged |
| Actions.SetVisibilityFilter | app/index.js:33-38 | the action is tagged SET_VISIBILITY_FILTER and carries the given filter unchanged, including unknown filters |
| Actions.AddTodos | app/index.js:17-24 | successive `addTodo` calls from counter value n give ADD_TODO actions with ids n, n+1, … and the given texts; the ids strictly increase, so none repeats; the counter ends at n plus the number of calls |
| Actions.IdCounter.constructor | app/index.js:17 | the counter starts at 0 |
| Actions.IdCounter.AddTodo | app/index.js:17-24 | one call returns an ADD_TODO action stamped with the counter's old value and increments the counter by exactly one |
| Actions.IdCounter.AddAll | app/index.js:17-24 | calling `addTodo` once per text on the stateful counter yields exactly the run `AddTodos` describes |
| Actions.AddTodosFromStart | app/index.js:17-24 | with a fresh counter, the k-th `addTodo` call returns an ADD_TODO action with id k and the k-th text, so the app's ids are 0, 1, 2, … |
| VisibleTodos.GetVisibleTodos | app/index.js:41-53 | a result exists exactly for the three known filters; it is exactly the displayed todos in original order; under SHOW_ALL it is the input list itself |
| VisibleTodos.ShowAllExact | app/index.js:46-47 | under SHOW_ALL the whole list, in order, is exactly what is displayed |
| VisibleTodos.KeepExact | app/index.js:48-51 | filtering on `completed` selects exactly the items that SHOW_ACTIVE or SHOW_COMPLETED display, in original relative order |
| VisibleTodos.ExactlyShownUnique | app/index.js:45-52 | at most one list is exactly the displayed todos of a given list under a given filter |
| VisibleTodos.VisibleTodosUnique | app/index.js:41-53 | for a known filter, any list that is exactly the displayed todos is the projection's result |
| VisibleTodos.KeepPartition | app/index.js:49-51 | the incomplete and completed selections have lengths summing to the list's length and multisets summing to its multiset |
| VisibleTodos.KeepMembers | app/index.js:49-51 | a todo is in a status selection exactly when it is in the list with that status |
| VisibleTodos.ActiveCompletedPartition | app/index.js:48-51 | SHOW_ACTIVE and SHOW_COMPLETED partition the list: lengths and contents add up, and every todo lands in exactly the one its `completed` flag selects |
| ListReducer.TodosReducer | test/todosReducer.spec.js:9-44 | ADD_TODO keeps the old list as a prefix and appends one item with the action's id and text and `completed` false; an action the list does not handle returns the list unchanged; TOGGLE_TODO is delegated to an abstract parameter |
| ListReducer.AddTodoOnEmptyList | test/todosReducer.spec.js:9-30 | ADD_TODO `{id: 0, text: 'Learn Redux'}` on the empty list gives exactly the one-item list of the test |
| ListReducer.UnknownActionKeepsList | test/todosReducer.spec.js:32-46 | an action of type `BLAH` that carries `id` and `text` returns the state unchanged |
| ListReducer.ReplayAdds | test/todosReducer.spec.js:20-28 | dispatching several ADD_TODO actions keeps the old list and appends one fresh incomplete item per action, in dispatch order |
| ListReducer.AddTodosKeepIdsUnique | app/index.js:17-23 | adding todos with the ids a run of `addTodo` calls hands out keeps all ids in the list distinct and below the counter |
| ListReducer.AddTodosIssued | app/index.js:17-24 | a run of `addTodo` calls is a run whose ADD_TODO ids are the counter's start plus the number of earlier ADD_TODO actions |
| ListReducer.CounterKeepsIdsUnique | app/index.js:17-23 | in any dispatched run whose ADD_TODO actions carry the counter's ids, mixed with SET_VISIBILITY_FILTER, unknown actions and id-preserving TOGGLE_TODO actions, todo ids stay distinct and below the counter |
| RootReducer.TodoApp | app/reducers/todoApp.js:4-15 | the result has the two fields `todos` and `visibilityFilter`, each exactly its sub-reducer's output on its own slice; with no state both sub-reducers receive an undefined slice |
| RootReducer.TodosFieldIndependent | app/reducers/todoApp.js:6-9 | the `todos` field depends only on the `todos` slice, the action and the todos reducer, never on the filter slice or the filter reducer |
| RootReducer.FilterFieldIndependent | app/reducers/todoApp.js:10-13 | the `visibilityFilter` field depends only on the filter slice, the action and the filter reducer, never on the todos slice or the todos reducer |
| RootReducer.MissingStateIsEmptyObject | app/reducers/todoApp.js:4 | calling the root reducer with no state is the same as calling it with `{}` |
| RootReducer.InitialTodosEmpty | app/reducers/todoApp.js:4-9 | with no prior state and an action the list does not handle, the resulting todo list is empty |
| Selectors.VisibleTodoListProps | app/index.js:99-106 | the todo list's props are exactly the todos the current filter displays, in list order; under an unknown filter the props' `todos` is undefined (`None`), not an empty list |
| Selectors.LinkActive | app/index.js:160-164 | a filter link is active exactly when its filter is the store's current filter |

## Left out

- The React components `AddTodo`, `Todo`, `TodoList`, `Link`, `Footer` and `App`: they render UI.
- DOM input handling, `ReactDOM.render`, `Provider` and `connect`: they are library and DOM plumbing.
- `mapDispatchToTodoListProps` and `mapDispatchToLinkProps`: they only call the modelled creators and hand the result to `dispatch`.
- `createStore`, and the `combineReducers` call in app/index.js: these are library code. The hand-written `todoApp` of app/reducers/todoApp.js is modelled in their place.
- app/reducers/todos.js and app/reducers/visibilityFilter.js are not part of this model.
  - The todos reducer follows its tests: ADD_TODO and unknown actions.
  - Two rules are taken as the reducer's intended behaviour, and its tests do not assert them. An undefined list starts empty, and the list reducer does not handle SET_VISIBILITY_FILTER.
  - TOGGLE_TODO is a function parameter of the list reducer.
  - The visibility-filter reducer is a function parameter of the root reducer.
- ListReducer.CounterKeepsIdsUnique: covers TOGGLE_TODO actions only when the abstract TOGGLE_TODO handler keeps the list's ids. The toggle logic is not modelled.
- RootReducer.InitialTodosEmpty: states only the empty `todos` field of the initial state. The `'SHOW_ALL'` filter default belongs to the visibility-filter reducer, which is not modelled.
- Actions with a known `type` but missing payload fields are not modelled. Their behaviour is whatever the host language does.
- Purity and deep-frozen inputs: every reducer here is a function on immutable values. It cannot mutate its arguments, so there is no separate contract for this.
- Object identity: values compare structurally. "Same reference" becomes "equal value".
- Todo ids are unbounded integers. JavaScript numbers lose precision above 2^53, and that is not modelled.
