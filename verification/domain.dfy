/** The values the todo app keeps in its store: todo items, visibility filters
    and the combined application state. */
module Domain {

  /** One todo item. Ids come from the action creators' counter; JavaScript
      numbers are modelled as unbounded integers. */
  datatype Todo = Todo(id: int, text: string, completed: bool)

  /** The three filter tags the app's footer links dispatch. */
  predicate IsFilterTag(s: string) {
    s == "SHOW_ALL" || s == "SHOW_ACTIVE" || s == "SHOW_COMPLETED"
  }

  /** A visibility filter. The app stores filters as plain strings and never
      validates them, so any other string is kept as `Custom`. */
  datatype FilterValue = ShowAll | ShowActive | ShowCompleted | Custom(tag: string) {

    /** True for the three filters the projection knows how to apply. */
    predicate IsKnown() {
      !Custom?
    }
  }

  /** Filters in canonical form: a `Custom` filter never carries one of the
      known tags, so every string has exactly one representation. */
  type Filter = f: FilterValue | f.Custom? ==> !IsFilterTag(f.tag) witness ShowAll

  /** The string the app uses for a filter. */
  function FilterTag(f: Filter): string {
    match f
    case ShowAll => "SHOW_ALL"
    case ShowActive => "SHOW_ACTIVE"
    case ShowCompleted => "SHOW_COMPLETED"
    case Custom(tag) => tag
  }

  /** Reads a filter string; every string is accepted, unknown ones as `Custom`. */
  function ParseFilter(s: string): (f: Filter)
    ensures FilterTag(f) == s
    ensures f.IsKnown() <==> IsFilterTag(s)
  {
    if s == "SHOW_ALL" then ShowAll
    else if s == "SHOW_ACTIVE" then ShowActive
    else if s == "SHOW_COMPLETED" then ShowCompleted
    else Custom(s)
  }

  /** Reading back the tag of a filter gives the same filter. */
  lemma FilterTagRoundTrip(f: Filter)
    ensures ParseFilter(FilterTag(f)) == f
  {
  }

  /** Two filters have the same string exactly when they are the same filter,
      so comparing tags (as the app does with `===`) is comparing filters. */
  lemma FilterTagInjective(f: Filter, g: Filter)
    ensures FilterTag(f) == FilterTag(g) <==> f == g
  {
    if FilterTag(f) == FilterTag(g) {
      FilterTagRoundTrip(f);
      FilterTagRoundTrip(g);
    }
  }

  /** The whole store state: exactly the two fields the root reducer builds. */
  datatype AppState = AppState(todos: seq<Todo>, visibilityFilter: Filter)
}
