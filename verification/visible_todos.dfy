/** `getVisibleTodos`: the read-side projection of the todo list through the
    visibility filter, together with an independent description of what it
    must return. */
module VisibleTodos {
  import opened Wrappers
  import opened Domain

  /** Whether a todo is displayed under a filter. No todo is displayed under
      an unknown filter. */
  predicate Shown(f: Filter, t: Todo) {
    match f
    case ShowAll => true
    case ShowActive => !t.completed
    case ShowCompleted => t.completed
    case Custom(_) => false
  }

  /** The filter that displays the todos whose `completed` flag is `done`. */
  function StatusFilter(done: bool): Filter {
    if done then ShowCompleted else ShowActive
  }

  /** How many todos of `s` are displayed under `f`. */
  function CountShown(s: seq<Todo>, f: Filter): nat
    decreases |s|
  {
    if |s| == 0 then 0
    else (if Shown(f, s[0]) then 1 else 0) + CountShown(s[1..], f)
  }

  /** `r` can be obtained from `s` by deleting items: same items, same order. */
  predicate IsSubsequence(r: seq<Todo>, s: seq<Todo>)
    decreases |s|
  {
    if |r| == 0 then true
    else if |s| == 0 then false
    else (r[0] == s[0] && IsSubsequence(r[1..], s[1..])) || IsSubsequence(r, s[1..])
  }

  /** `r` is exactly the todos of `s` that `f` displays, in their original
      order: an order-preserving selection of displayed items that misses
      none of them. */
  predicate ExactlyShown(r: seq<Todo>, s: seq<Todo>, f: Filter) {
    && IsSubsequence(r, s)
    && (forall k :: 0 <= k < |r| ==> Shown(f, r[k]))
    && |r| == CountShown(s, f)
  }

  /** Keeps, in order, the items whose `completed` flag equals `done`. */
  function Keep(s: seq<Todo>, done: bool): seq<Todo>
    decreases |s|
  {
    if |s| == 0 then []
    else (if s[0].completed == done then [s[0]] else []) + Keep(s[1..], done)
  }

  /** `getVisibleTodos(todos, filter)`. The source's switch has no default
      branch and returns `undefined` for an unknown filter; that is `None`. */
  function GetVisibleTodos(todos: seq<Todo>, filter: Filter): (r: Option<seq<Todo>>)
    ensures r.Some? <==> filter.IsKnown()
    ensures r.Some? ==> ExactlyShown(r.value, todos, filter)
    ensures filter == ShowAll ==> r == Some(todos)
  {
    match filter
    case ShowAll =>
      ShowAllExact(todos);
      Some(todos)
    case ShowActive =>
      KeepExact(todos, false);
      Some(Keep(todos, false))
    case ShowCompleted =>
      KeepExact(todos, true);
      Some(Keep(todos, true))
    case Custom(_) => None
  }

  /** Every sequence is a subsequence of itself, and all of it is displayed
      under SHOW_ALL. */
  lemma {:induction false} ShowAllExact(s: seq<Todo>)
    ensures ExactlyShown(s, s, ShowAll)
    decreases |s|
  {
    if |s| > 0 {
      ShowAllExact(s[1..]);
    }
  }

  /** Keeping the todos with a given status selects exactly what the matching
      status filter displays. */
  lemma {:induction false} KeepExact(s: seq<Todo>, done: bool)
    ensures ExactlyShown(Keep(s, done), s, StatusFilter(done))
    decreases |s|
  {
    if |s| > 0 {
      KeepExact(s[1..], done);
      var rest := Keep(s[1..], done);
      if s[0].completed == done {
        assert Keep(s, done) == [s[0]] + rest;
        assert Keep(s, done)[1..] == rest;
      } else {
        assert Keep(s, done) == rest;
      }
    }
  }

  /** A selection of displayed items taken in order from `s` has at most as
      many items as `s` displays. */
  lemma {:induction false} SubsequenceBound(r: seq<Todo>, s: seq<Todo>, f: Filter)
    requires IsSubsequence(r, s)
    requires forall k :: 0 <= k < |r| ==> Shown(f, r[k])
    ensures |r| <= CountShown(s, f)
    decreases |s|
  {
    if |r| > 0 {
      if r[0] == s[0] && IsSubsequence(r[1..], s[1..]) {
        SubsequenceBound(r[1..], s[1..], f);
      } else {
        SubsequenceBound(r, s[1..], f);
      }
    }
  }

  /** Peels the first item off an exact selection: a displayed head must be
      taken, a hidden head must be skipped. */
  lemma ExactlyShownTail(r: seq<Todo>, s: seq<Todo>, f: Filter)
    requires |s| > 0
    requires ExactlyShown(r, s, f)
    ensures Shown(f, s[0]) ==> |r| > 0 && r[0] == s[0] && ExactlyShown(r[1..], s[1..], f)
    ensures !Shown(f, s[0]) ==> ExactlyShown(r, s[1..], f)
  {
    if Shown(f, s[0]) {
      if !(r[0] == s[0] && IsSubsequence(r[1..], s[1..])) {
        SubsequenceBound(r, s[1..], f);
        assert false;
      }
    } else if |r| > 0 {
      assert r[0] != s[0];
    }
  }

  /** At most one sequence is exactly what a filter displays of a list. */
  lemma {:induction false} ExactlyShownUnique(r1: seq<Todo>, r2: seq<Todo>, s: seq<Todo>, f: Filter)
    requires ExactlyShown(r1, s, f)
    requires ExactlyShown(r2, s, f)
    ensures r1 == r2
    decreases |s|
  {
    if |s| > 0 {
      ExactlyShownTail(r1, s, f);
      ExactlyShownTail(r2, s, f);
      if Shown(f, s[0]) {
        ExactlyShownUnique(r1[1..], r2[1..], s[1..], f);
        assert r1 == [r1[0]] + r1[1..];
        assert r2 == [r2[0]] + r2[1..];
      } else {
        ExactlyShownUnique(r1, r2, s[1..], f);
      }
    }
  }

  /** Converse of `GetVisibleTodos`'s contract: for a known filter, any list
      that is exactly the displayed todos is what the projection returns. */
  lemma VisibleTodosUnique(todos: seq<Todo>, filter: Filter, r: seq<Todo>)
    requires filter.IsKnown()
    requires ExactlyShown(r, todos, filter)
    ensures GetVisibleTodos(todos, filter) == Some(r)
  {
    ExactlyShownUnique(r, GetVisibleTodos(todos, filter).value, todos, filter);
  }

  /** The two status selections split the list: each occurrence of a todo goes
      to exactly one of them. */
  lemma {:induction false} KeepPartition(s: seq<Todo>)
    ensures |Keep(s, false)| + |Keep(s, true)| == |s|
    ensures multiset(Keep(s, false)) + multiset(Keep(s, true)) == multiset(s)
    decreases |s|
  {
    if |s| > 0 {
      KeepPartition(s[1..]);
      assert s == [s[0]] + s[1..];
    }
  }

  /** A todo is kept exactly when it occurs in the list with the requested
      status. */
  lemma {:induction false} KeepMembers(s: seq<Todo>, done: bool, t: Todo)
    ensures t in Keep(s, done) <==> t in s && t.completed == done
    decreases |s|
  {
    if |s| > 0 {
      KeepMembers(s[1..], done, t);
      assert s == [s[0]] + s[1..];
    }
  }

  /** SHOW_ACTIVE and SHOW_COMPLETED partition the list: their lengths add up
      to its length, their contents make up its contents, and every todo lands
      in the one its `completed` flag selects and not in the other. */
  lemma ActiveCompletedPartition(todos: seq<Todo>)
    ensures GetVisibleTodos(todos, ShowActive).Some?
    ensures GetVisibleTodos(todos, ShowCompleted).Some?
    ensures
      var active := GetVisibleTodos(todos, ShowActive).value;
      var completed := GetVisibleTodos(todos, ShowCompleted).value;
      && |active| + |completed| == |todos|
      && multiset(active) + multiset(completed) == multiset(todos)
      && (forall t :: t in todos ==> (t in active <==> !t.completed) && (t in completed <==> t.completed))
  {
    KeepPartition(todos);
    forall t | t in todos
      ensures t in Keep(todos, false) <==> !t.completed
      ensures t in Keep(todos, true) <==> t.completed
    {
      KeepMembers(todos, false, t);
      KeepMembers(todos, true, t);
    }
  }
}
