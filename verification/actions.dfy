/** Action descriptors and the action creators of app/index.js, including the
    module-level id counter behind `addTodo`. */
module Actions {
  import opened Wrappers
  import opened Domain

  /** The `type` strings the app's reducers recognise. */
  predicate IsActionKind(s: string) {
    s == "ADD_TODO" || s == "TOGGLE_TODO" || s == "SET_VISIBILITY_FILTER"
  }

  /** An action object. `UnknownAction` covers every other `type` string and
      may carry stray `id`/`text` fields that nobody reads. */
  datatype ActionValue =
    | AddTodoAction(id: int, text: string)
    | ToggleTodoAction(id: int)
    | SetVisibilityFilterAction(filter: Filter)
    | UnknownAction(kind: string, rawId: Option<int>, rawText: Option<string>)

  /** Actions whose shape agrees with their `type` tag. */
  type Action = a: ActionValue | a.UnknownAction? ==> !IsActionKind(a.kind)
    witness ToggleTodoAction(0)

  /** The action's `type` field; the tag alone tells which kind of action it is. */
  function Kind(a: Action): (k: string)
    ensures k == "ADD_TODO" <==> a.AddTodoAction?
    ensures k == "TOGGLE_TODO" <==> a.ToggleTodoAction?
    ensures k == "SET_VISIBILITY_FILTER" <==> a.SetVisibilityFilterAction?
    ensures !IsActionKind(k) <==> a.UnknownAction?
  {
    match a
    case AddTodoAction(_, _) => "ADD_TODO"
    case ToggleTodoAction(_) => "TOGGLE_TODO"
    case SetVisibilityFilterAction(_) => "SET_VISIBILITY_FILTER"
    case UnknownAction(kind, _, _) => kind
  }

  /** `toggleTodo(id)`: wraps the id, unchecked, into a TOGGLE_TODO action. */
  function ToggleTodo(id: int): (a: Action)
    ensures Kind(a) == "TOGGLE_TODO"
    ensures a.id == id
  {
    ToggleTodoAction(id)
  }

  /** `setVisibilityFilter(filter)`: wraps the filter, unvalidated, into a
      SET_VISIBILITY_FILTER action; an unknown filter passes through as is. */
  function SetVisibilityFilter(filter: Filter): (a: Action)
    ensures Kind(a) == "SET_VISIBILITY_FILTER"
    ensures a.filter == filter
  {
    SetVisibilityFilterAction(filter)
  }

  /** The actions `addTodo` returns for successive calls with `texts` when the
      counter starts at `next`, and the counter's value afterwards. The k-th
      call gets id `next + k`, so the ids strictly increase and never repeat. */
  function AddTodos(next: nat, texts: seq<string>): (r: (seq<Action>, nat))
    ensures |r.0| == |texts|
    ensures forall k :: 0 <= k < |texts| ==> r.0[k] == AddTodoAction(next + k, texts[k])
    ensures forall i, j :: 0 <= i < j < |r.0| ==> r.0[i].id < r.0[j].id
    ensures r.1 == next + |texts|
    decreases |texts|
  {
    if |texts| == 0 then ([], next)
    else
      var rest := AddTodos(next + 1, texts[1..]);
      ([AddTodoAction(next, texts[0])] + rest.0, rest.1)
  }

  /** The `nextTodoId` counter together with the `addTodo` creator that reads
      and bumps it. */
  class IdCounter {
    var nextTodoId: nat

    /** The counter starts at 0. */
    constructor()
      ensures nextTodoId == 0
    {
      nextTodoId := 0;
    }

    /** `addTodo(text)`: stamps the action with the current counter value and
        increments the counter by one. */
    method AddTodo(text: string) returns (a: Action)
      modifies this
      ensures a == AddTodoAction(old(nextTodoId), text)
      ensures nextTodoId == old(nextTodoId) + 1
    {
      a := AddTodoAction(nextTodoId, text);
      nextTodoId := nextTodoId + 1;
    }

    /** Calls `addTodo` once per text, in order; the result is the run that
        `AddTodos` describes. */
    method AddAll(texts: seq<string>) returns (actions: seq<Action>)
      modifies this
      ensures (actions, nextTodoId) == AddTodos(old(nextTodoId), texts)
    {
      ghost var start := nextTodoId;
      actions := [];
      var i := 0;
      while i < |texts|
        invariant 0 <= i <= |texts|
        invariant nextTodoId == start + i
        invariant |actions| == i
        invariant forall k :: 0 <= k < i ==> actions[k] == AddTodoAction(start + k, texts[k])
      {
        var a := AddTodo(texts[i]);
        actions := actions + [a];
        i := i + 1;
      }
      ghost var expected := AddTodos(start, texts);
      assert actions == expected.0;
    }
  }

  /** A fresh counter followed by one `addTodo` call per text: the app's ids
      are 0, 1, 2, ... in call order. */
  method AddTodosFromStart(texts: seq<string>) returns (actions: seq<Action>)
    ensures |actions| == |texts|
    ensures forall k :: 0 <= k < |texts| ==> actions[k] == AddTodoAction(k, texts[k])
  {
    var counter := new IdCounter();
    actions := counter.AddAll(texts);
  }
}
