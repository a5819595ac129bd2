/** The state-to-props selectors of app/index.js that the connected
    components read. */
module Selectors {
  import opened Wrappers
  import opened Domain
  import opened VisibleTodos

  /** `mapStateToTodoListProps`: the todo list shows exactly the todos the
      current filter displays, in list order; under an unknown filter the
      props' `todos` is undefined (`None`), not an empty list. */
  function VisibleTodoListProps(state: AppState): (todos: Option<seq<Todo>>)
    ensures todos.Some? <==> state.visibilityFilter.IsKnown()
    ensures todos.Some? ==> ExactlyShown(todos.value, state.todos, state.visibilityFilter)
  {
    GetVisibleTodos(state.todos, state.visibilityFilter)
  }

  /** `mapStateToLinkProps`: compares the link's filter string with the
      store's; the link is active exactly when it names the current filter. */
  function LinkActive(own: Filter, state: AppState): (active: bool)
    ensures active <==> own == state.visibilityFilter
  {
    FilterTagInjective(own, state.visibilityFilter);
    FilterTag(own) == FilterTag(state.visibilityFilter)
  }
}
