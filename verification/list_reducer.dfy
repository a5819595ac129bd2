/** The `todos` reducer, as far as test/todosReducer.spec.js pins it down.
    app/reducers/todos.js is not part of this model; TOGGLE_TODO's effect on
    the list is left to the `toggle` parameter. */
module ListReducer {
  import opened Wrappers
  import opened Domain
  import opened Actions

  /** The list a reducer starts from: an absent state is the empty list. */
  function CurrentList(state: Option<seq<Todo>>): seq<Todo> {
    state.GetOr([])
  }

  /** `todos(state, action)`. ADD_TODO appends a fresh, not yet completed item
      built from the action; actions the list does not handle return the list
      as it was. */
  function TodosReducer(state: Option<seq<Todo>>, action: Action,
                        toggle: (seq<Todo>, int) -> seq<Todo>): (r: seq<Todo>)
    ensures action.AddTodoAction? ==>
      && |r| == |CurrentList(state)| + 1
      && r[..|CurrentList(state)|] == CurrentList(state)
      && r[|CurrentList(state)|] == Todo(action.id, action.text, false)
    ensures action.ToggleTodoAction? ==> r == toggle(CurrentList(state), action.id)
    ensures action.SetVisibilityFilterAction? || action.UnknownAction? ==> r == CurrentList(state)
  {
    var s := CurrentList(state);
    match action
    case AddTodoAction(id, text) => s + [Todo(id, text, false)]
    case ToggleTodoAction(id) => toggle(s, id)
    case SetVisibilityFilterAction(_) => s
    case UnknownAction(_, _, _) => s
  }

  /** First test case: ADD_TODO `{id: 0, text: 'Learn Redux'}` on the empty list. */
  lemma AddTodoOnEmptyList(toggle: (seq<Todo>, int) -> seq<Todo>)
    ensures TodosReducer(Some([]), AddTodoAction(0, "Learn Redux"), toggle)
         == [Todo(0, "Learn Redux", false)]
  {
  }

  /** Second test case: an action of type `BLAH` that carries `id` and `text`
      leaves the list as it was. */
  lemma UnknownActionKeepsList(toggle: (seq<Todo>, int) -> seq<Todo>)
    ensures TodosReducer(Some([]), UnknownAction("BLAH", Some(1), Some("trick!")), toggle) == []
  {
  }

  /** The list after dispatching `actions` one by one, starting from `s`. */
  function Replay(s: seq<Todo>, actions: seq<Action>, toggle: (seq<Todo>, int) -> seq<Todo>): seq<Todo>
    decreases |actions|
  {
    if |actions| == 0 then s
    else Replay(TodosReducer(Some(s), actions[0], toggle), actions[1..], toggle)
  }

  /** No two todos of the list share an id. */
  predicate UniqueIds(s: seq<Todo>) {
    forall i, j :: 0 <= i < j < |s| ==> s[i].id != s[j].id
  }

  /** Dispatching a run of ADD_TODO actions appends one fresh item per action,
      in dispatch order, and keeps the existing items. */
  lemma {:induction false} ReplayAdds(s: seq<Todo>, actions: seq<Action>,
                                      toggle: (seq<Todo>, int) -> seq<Todo>)
    requires forall k :: 0 <= k < |actions| ==> actions[k].AddTodoAction?
    ensures var r := Replay(s, actions, toggle);
      && |r| == |s| + |actions|
      && r[..|s|] == s
      && forall k :: 0 <= k < |actions| ==>
           r[|s| + k] == Todo(actions[k].id, actions[k].text, false)
    decreases |actions|
  {
    if |actions| > 0 {
      var s' := TodosReducer(Some(s), actions[0], toggle);
      ReplayAdds(s', actions[1..], toggle);
      var r := Replay(s, actions, toggle);
      assert r == Replay(s', actions[1..], toggle);
      assert r[..|s|] == r[..|s'|][..|s|];
      forall k | 0 <= k < |actions|
        ensures r[|s| + k] == Todo(actions[k].id, actions[k].text, false)
      {
        if k > 0 {
          assert actions[1..][k - 1] == actions[k];
        }
      }
    }
  }

  /** Todos created through the id counter never share an id: if the list's
      ids are unique and below the counter, they stay so after adding one
      todo per text with the ids `addTodo` hands out. */
  lemma AddTodosKeepIdsUnique(s: seq<Todo>, next: nat, texts: seq<string>,
                              toggle: (seq<Todo>, int) -> seq<Todo>)
    requires UniqueIds(s)
    requires forall k :: 0 <= k < |s| ==> s[k].id < next
    ensures var r := Replay(s, AddTodos(next, texts).0, toggle);
      && UniqueIds(r)
      && forall k :: 0 <= k < |r| ==> r[k].id < AddTodos(next, texts).1
  {
    var actions := AddTodos(next, texts).0;
    ReplayAdds(s, actions, toggle);
    var r := Replay(s, actions, toggle);
    forall k | 0 <= k < |r|
      ensures r[k].id == if k < |s| then s[k].id else next + (k - |s|)
    {
      if k < |s| {
        assert r[k] == r[..|s|][k];
      } else {
        var j := k - |s|;
        assert r[|s| + j] == r[k];
        assert actions[j] == AddTodoAction(next + j, texts[j]);
      }
    }
  }

  /** The ids of the list's items, in list order. */
  function Ids(s: seq<Todo>): seq<int> {
    seq(|s|, k requires 0 <= k < |s| => s[k].id)
  }

  /** A TOGGLE_TODO handler that never adds, removes, reorders or renumbers
      items. */
  ghost predicate ToggleKeepsIds(toggle: (seq<Todo>, int) -> seq<Todo>) {
    forall s: seq<Todo>, id: int :: Ids(toggle(s, id)) == Ids(s)
  }

  /** A dispatched run in which every ADD_TODO carries the id the counter
      handed out: `next` plus the number of earlier ADD_TODO actions. Other
      actions do not touch the counter. */
  predicate IssuedFrom(actions: seq<Action>, next: int)
    decreases |actions|
  {
    if |actions| == 0 then true
    else if actions[0].AddTodoAction? then actions[0].id == next && IssuedFrom(actions[1..], next + 1)
    else IssuedFrom(actions[1..], next)
  }

  /** The number of ADD_TODO actions in a run. */
  function AddCount(actions: seq<Action>): nat
    decreases |actions|
  {
    if |actions| == 0 then 0
    else (if actions[0].AddTodoAction? then 1 else 0) + AddCount(actions[1..])
  }

  /** A run of `addTodo` calls is a run whose ids the counter issued. */
  lemma {:induction false} AddTodosIssued(next: nat, texts: seq<string>)
    ensures IssuedFrom(AddTodos(next, texts).0, next)
    ensures AddCount(AddTodos(next, texts).0) == |texts|
    decreases |texts|
  {
    if |texts| > 0 {
      var actions := AddTodos(next, texts).0;
      AddTodosIssued(next + 1, texts[1..]);
      assert actions[1..] == AddTodos(next + 1, texts[1..]).0;
    }
  }

  /** Todo ids are never repeated in a store run: starting from a list whose
      ids are unique and below the counter, any run whose ADD_TODO actions
      carry the counter's ids, mixed with SET_VISIBILITY_FILTER, unknown
      actions and (if the TOGGLE_TODO handler keeps the ids) TOGGLE_TODO
      actions, ends with unique ids below the counter's final value. */
  lemma {:induction false} CounterKeepsIdsUnique(s: seq<Todo>, next: int, actions: seq<Action>,
                                                 toggle: (seq<Todo>, int) -> seq<Todo>)
    requires UniqueIds(s)
    requires forall k :: 0 <= k < |s| ==> s[k].id < next
    requires IssuedFrom(actions, next)
    requires (forall k :: 0 <= k < |actions| ==> !actions[k].ToggleTodoAction?) || ToggleKeepsIds(toggle)
    ensures var r := Replay(s, actions, toggle);
      && UniqueIds(r)
      && forall k :: 0 <= k < |r| ==> r[k].id < next + AddCount(actions)
    decreases |actions|
  {
    if |actions| > 0 {
      var a := actions[0];
      var s' := TodosReducer(Some(s), a, toggle);
      var next' := if a.AddTodoAction? then next + 1 else next;
      if a.AddTodoAction? {
        assert s' == s + [Todo(next, a.text, false)];
      } else if a.ToggleTodoAction? {
        assert ToggleKeepsIds(toggle);
        assert Ids(s') == Ids(s);
        forall k | 0 <= k < |s'|
          ensures s'[k].id == s[k].id
        {
          assert Ids(s')[k] == Ids(s)[k];
        }
      }
      assert forall k :: 0 <= k < |actions| - 1 ==> actions[1..][k] == actions[k + 1];
      CounterKeepsIdsUnique(s', next', actions[1..], toggle);
    }
  }
}
