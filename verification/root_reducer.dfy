/** `todoApp` from app/reducers/todoApp.js: the root reducer that hands each
    field of the state to its own sub-reducer. The sub-reducers are
    parameters, so nothing is assumed about the visibility-filter reducer. */
module RootReducer {
  import opened Wrappers
  import opened Domain
  import opened Actions
  import opened ListReducer

  /** The incoming state object; either field may be absent, and `{}` has
      neither. */
  datatype StateSlices = StateSlices(todos: Option<seq<Todo>>, visibilityFilter: Option<Filter>)

  /** The incoming state with the `state = {}` default applied. */
  function SlicesOf(state: Option<StateSlices>): StateSlices {
    state.GetOr(StateSlices(None, None))
  }

  /** `todoApp(state, action)`: a fresh two-field state whose fields are the
      sub-reducers' results on their own slices. A missing state is `{}`, so
      both sub-reducers then receive an undefined slice. */
  function TodoApp(state: Option<StateSlices>, action: Action,
                   todos: (Option<seq<Todo>>, Action) -> seq<Todo>,
                   visibilityFilter: (Option<Filter>, Action) -> Filter): (r: AppState)
    ensures state.None? ==>
      r.todos == todos(None, action) && r.visibilityFilter == visibilityFilter(None, action)
    ensures state.Some? ==>
      && r.todos == todos(state.value.todos, action)
      && r.visibilityFilter == visibilityFilter(state.value.visibilityFilter, action)
  {
    var slices := SlicesOf(state);
    AppState(todos(slices.todos, action), visibilityFilter(slices.visibilityFilter, action))
  }

  /** The `todos` field depends only on the `todos` slice, the action and the
      todos reducer: not on the filter slice nor on the filter reducer. */
  lemma TodosFieldIndependent(s1: Option<StateSlices>, s2: Option<StateSlices>, action: Action,
                              todos: (Option<seq<Todo>>, Action) -> seq<Todo>,
                              filter1: (Option<Filter>, Action) -> Filter,
                              filter2: (Option<Filter>, Action) -> Filter)
    requires SlicesOf(s1).todos == SlicesOf(s2).todos
    ensures TodoApp(s1, action, todos, filter1).todos == TodoApp(s2, action, todos, filter2).todos
  {
  }

  /** The `visibilityFilter` field depends only on the filter slice, the
      action and the filter reducer: not on the todos slice nor on the todos
      reducer. */
  lemma FilterFieldIndependent(s1: Option<StateSlices>, s2: Option<StateSlices>, action: Action,
                               todos1: (Option<seq<Todo>>, Action) -> seq<Todo>,
                               todos2: (Option<seq<Todo>>, Action) -> seq<Todo>,
                               filter: (Option<Filter>, Action) -> Filter)
    requires SlicesOf(s1).visibilityFilter == SlicesOf(s2).visibilityFilter
    ensures TodoApp(s1, action, todos1, filter).visibilityFilter
         == TodoApp(s2, action, todos2, filter).visibilityFilter
  {
  }

  /** Calling the root reducer with no state is calling it with `{}`. */
  lemma MissingStateIsEmptyObject(action: Action,
                                  todos: (Option<seq<Todo>>, Action) -> seq<Todo>,
                                  filter: (Option<Filter>, Action) -> Filter)
    ensures TodoApp(None, action, todos, filter)
         == TodoApp(Some(StateSlices(None, None)), action, todos, filter)
  {
  }

  /** With the todos reducer plugged in, the first state the store computes
      (no state, an action the list does not handle) has an empty list. */
  lemma InitialTodosEmpty(action: Action, toggle: (seq<Todo>, int) -> seq<Todo>,
                          filter: (Option<Filter>, Action) -> Filter)
    requires action.SetVisibilityFilterAction? || action.UnknownAction?
    ensures TodoApp(None, action, (s: Option<seq<Todo>>, a: Action) => TodosReducer(s, a, toggle), filter).todos == []
  {
  }
}
