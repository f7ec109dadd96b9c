/** The depth-first search for recursive expression functions: an explicit stack with exit markers, the
    set of functions on the current path, and the set of finished ones. */
module Cycles {
  import opened Program
  import opened Lowering

  type Graph = map<FunctionKey, seq<FunctionKey>>

  predicate Edge(g: Graph, a: FunctionKey, b: FunctionKey) { a in g && b in g[a] }

  /** Every edge leads to a function of the schema. */
  ghost predicate Closed(g: Graph) {
    forall a, b :: Edge(g, a, b) ==> b in g
  }

  predicate IsPath(g: Graph, p: seq<FunctionKey>) {
    forall i :: 0 <= i < |p| - 1 ==> Edge(g, p[i], p[i + 1])
  }

  predicate IsCycle(g: Graph, c: seq<FunctionKey>) {
    |c| >= 2 && c[0] == c[|c| - 1] && IsPath(g, c)
  }

  /** Some function can reach itself through calls. */
  ghost predicate HasCycle(g: Graph) { exists c :: IsCycle(g, c) }

  // ----- the stack -----

  datatype Entry = Entry(key: FunctionKey, exiting: bool)

  /** The functions whose exit markers are on the stack, outermost first. */
  function Markers(stack: seq<Entry>): seq<FunctionKey> {
    if stack == [] then []
    else
      var top := stack[|stack| - 1];
      Markers(stack[..|stack| - 1]) + (if top.exiting then [top.key] else [])
  }

  /** Every entry is called by the innermost function being explored below it. */
  predicate Shaped(g: Graph, stack: seq<Entry>) {
    stack == [] ||
    (var rest := stack[..|stack| - 1];
     Shaped(g, rest) && (Markers(rest) == [] || Edge(g, Markers(rest)[|Markers(rest)| - 1], stack[|stack| - 1].key)))
  }

  lemma Push(g: Graph, stack: seq<Entry>, e: Entry)
    ensures Markers(stack + [e]) == Markers(stack) + if e.exiting then [e.key] else []
    ensures Shaped(g, stack + [e]) <==>
      Shaped(g, stack) && (Markers(stack) == [] || Edge(g, Markers(stack)[|Markers(stack)| - 1], e.key))
  {
    assert (stack + [e])[..|stack|] == stack;
  }

  lemma {:induction false} MarkersPath(g: Graph, stack: seq<Entry>)
    requires Shaped(g, stack)
    ensures IsPath(g, Markers(stack))
    decreases |stack|
  {
    if stack != [] { MarkersPath(g, stack[..|stack| - 1]); }
  }

  /** A call back into the current path is a cycle. */
  lemma BackEdge(g: Graph, path: seq<FunctionKey>, k: FunctionKey)
    requires IsPath(g, path) && path != [] && k in path && Edge(g, path[|path| - 1], k)
    ensures HasCycle(g)
  {
    var j :| 0 <= j < |path| && path[j] == k;
    var c := path[j..] + [k];
    forall i | 0 <= i < |c| - 1 ensures Edge(g, c[i], c[i + 1]) {
      if i < |path| - j - 1 { assert c[i] == path[j + i] && c[i + 1] == path[j + i + 1]; }
    }
    assert IsCycle(g, c);
  }

  // ----- finished functions -----

  /** Every call of a finished function was finished before it. */
  ghost predicate Finished(g: Graph, order: seq<FunctionKey>) {
    forall i, b :: 0 <= i < |order| && Edge(g, order[i], b) ==> b in order[..i]
  }

  function FirstIndex(order: seq<FunctionKey>, k: FunctionKey): (i: nat)
    requires k in order
    ensures i < |order| && order[i] == k && k !in order[..i]
  {
    if order[0] == k then 0
    else
      var i := 1 + FirstIndex(order[1..], k);
      assert order[..i] == [order[0]] + order[1..][..i - 1];
      i
  }

  /** Along a path from a finished function, finishing times go down. */
  lemma {:induction false} Descend(g: Graph, order: seq<FunctionKey>, p: seq<FunctionKey>, m: nat)
    requires Finished(g, order) && IsPath(g, p) && m < |p| && p[0] in order
    ensures p[m] in order && FirstIndex(order, p[m]) + m <= FirstIndex(order, p[0])
    decreases m
  {
    if m > 0 {
      Descend(g, order, p, m - 1);
      var r := FirstIndex(order, p[m - 1]);
      assert Edge(g, p[m - 1], p[m - 1 + 1]);
      assert Edge(g, order[r], p[m]);
      assert p[m] in order[..r];
      var i :| 0 <= i < r && order[..r][i] == p[m];
      assert order[i] == p[m];
      Earliest(order, p[m], i);
    }
  }

  lemma Earliest(order: seq<FunctionKey>, k: FunctionKey, i: nat)
    requires i < |order| && order[i] == k
    ensures FirstIndex(order, k) <= i
  {
    var r := FirstIndex(order, k);
    assert forall j :: 0 <= j < r ==> order[j] == order[..r][j];
  }

  /** Functions that finish after everything they call are on no cycle. */
  lemma FinishedHaveNoCycle(g: Graph, order: seq<FunctionKey>)
    requires Finished(g, order) && forall k :: k in g ==> k in order
    ensures !HasCycle(g)
  {
    if HasCycle(g) {
      var c :| IsCycle(g, c);
      assert Edge(g, c[0], c[1]);
      Descend(g, order, c, |c| - 1);
      assert false;
    }
  }

  // ----- the search -----

  ghost predicate Above(stack: seq<Entry>, i: nat, k: FunctionKey) {
    exists j :: i < j < |stack| && stack[j].key == k
  }

  /** Every call of a function being explored is finished or still above its marker; the calls of the
      marker at `m` may still be `todo`. */
  ghost predicate Pending(
    g: Graph, stack: seq<Entry>, permanent: set<FunctionKey>, m: int, todo: seq<FunctionKey>)
  {
    forall i, b :: 0 <= i < |stack| && stack[i].exiting && Edge(g, stack[i].key, b) ==>
      b in permanent || Above(stack, i, b) || (i == m && b in todo)
  }

  predicate NoRepeats(p: seq<FunctionKey>) {
    forall i, j :: 0 <= i < j < |p| ==> p[i] != p[j]
  }

  /** The active set is the path of exit markers on the stack. */
  ghost predicate OnPath(g: Graph, stack: seq<Entry>, active: set<FunctionKey>) {
    && Shaped(g, stack) && active == (set k | k in Markers(stack)) && NoRepeats(Markers(stack))
    && forall i :: 0 <= i < |stack| ==> stack[i].key in g
  }

  /** The invariant of one search: finished functions are those of `order`, and until something is
      reported every call is accounted for; something is reported only if there is a cycle. */
  ghost predicate Searching(
    g: Graph, stack: seq<Entry>, active: set<FunctionKey>, permanent: set<FunctionKey>, order: seq<FunctionKey>,
    quiet: bool, m: int, todo: seq<FunctionKey>)
  {
    && OnPath(g, stack, active)
    && active !! permanent
    && permanent == (set k | k in order) && permanent <= g.Keys
    && (quiet ==> Pending(g, stack, permanent, m, todo) && Finished(g, order))
    && (!quiet ==> HasCycle(g))
  }

  /** At every point of the search the active set is the path of exit markers on the stack: each of its
      functions calls the next, and none stands on it twice. */
  lemma ActiveIsThePath(
    g: Graph, stack: seq<Entry>, active: set<FunctionKey>, permanent: set<FunctionKey>, order: seq<FunctionKey>,
    quiet: bool, m: int, todo: seq<FunctionKey>)
    requires Searching(g, stack, active, permanent, order, quiet, m, todo)
    ensures active == (set k | k in Markers(stack)) && IsPath(g, Markers(stack)) && NoRepeats(Markers(stack))
    ensures active !! permanent
  {
    MarkersPath(g, stack);
  }

  /** Popping an exit marker finishes its function and shortens the path. */
  lemma ExitStep(
    g: Graph, rest: seq<Entry>, k: FunctionKey, active: set<FunctionKey>, permanent: set<FunctionKey>,
    order: seq<FunctionKey>, quiet: bool)
    requires Searching(g, rest + [Entry(k, true)], active, permanent, order, quiet, -1, [])
    ensures Searching(g, rest, active - {k}, permanent + {k}, order + [k], quiet, -1, [])
    ensures permanent + {k} + (active - {k}) == permanent + active
  {
    var stack, top := rest + [Entry(k, true)], Entry(k, true);
    Push(g, rest, top);
    var path := Markers(rest);
    assert (path + [k])[|path|] == k;
    forall i | 0 <= i < |path| ensures path[i] != k { assert (path + [k])[i] == path[i]; }
    assert NoRepeats(path) by {
      forall i, j | 0 <= i < j < |path| ensures path[i] != path[j] {
        assert (path + [k])[i] == path[i] && (path + [k])[j] == path[j];
      }
    }
    assert active == (set x | x in path + [k]);
    assert stack[|rest|] == top;
    if quiet { ExitPending(g, rest, k, permanent, order); }
    assert forall i :: 0 <= i < |rest| ==> rest[i] == stack[i];
  }

  lemma ExitPending(g: Graph, rest: seq<Entry>, k: FunctionKey, permanent: set<FunctionKey>, order: seq<FunctionKey>)
    requires Pending(g, rest + [Entry(k, true)], permanent, -1, []) && Finished(g, order)
    requires permanent == (set x | x in order)
    ensures Pending(g, rest, permanent + {k}, -1, []) && Finished(g, order + [k])
  {
    var stack := rest + [Entry(k, true)];
    assert stack[|rest|] == Entry(k, true);
    forall i, b | 0 <= i < |rest| && rest[i].exiting && Edge(g, rest[i].key, b)
      ensures b in permanent + {k} || Above(rest, i, b) {
      assert stack[i] == rest[i];
      if b !in permanent {
        var j :| i < j < |stack| && stack[j].key == b;
        if j < |rest| { assert rest[j].key == b; }
      }
    }
    var all := order + [k];
    forall i, b | 0 <= i < |all| && Edge(g, all[i], b) ensures b in all[..i] {
      if i < |order| {
        assert all[..i] == order[..i];
      } else {
        assert all[..i] == order;
        assert !Above(stack, |rest|, b);
      }
    }
  }

  lemma PathPop(g: Graph, rest: seq<Entry>, k: FunctionKey, active: set<FunctionKey>)
    requires OnPath(g, rest + [Entry(k, false)], active)
    ensures OnPath(g, rest, active) && k in g
    ensures Markers(rest) == [] || Edge(g, Markers(rest)[|Markers(rest)| - 1], k)
  {
    var stack := rest + [Entry(k, false)];
    Push(g, rest, Entry(k, false));
    assert stack[|rest|] == Entry(k, false);
    assert forall i :: 0 <= i < |rest| ==> rest[i] == stack[i];
    assert Markers(rest) + [] == Markers(rest);
  }

  lemma PathEnter(g: Graph, rest: seq<Entry>, k: FunctionKey, active: set<FunctionKey>)
    requires OnPath(g, rest, active) && k in g && k !in active
    requires Markers(rest) == [] || Edge(g, Markers(rest)[|Markers(rest)| - 1], k)
    ensures OnPath(g, rest + [Entry(k, true)], active + {k}) && InnermostIs(rest + [Entry(k, true)], k)
  {
    var stack := rest + [Entry(k, true)];
    Push(g, rest, Entry(k, true));
    assert forall i :: 0 <= i < |rest| ==> rest[i] == stack[i];
    var path := Markers(rest);
    assert forall i :: 0 <= i < |path| ==> path[i] in active;
    assert active + {k} == (set x | x in path + [k]);
  }

  lemma PendingPop(g: Graph, rest: seq<Entry>, k: FunctionKey, permanent: set<FunctionKey>)
    requires Pending(g, rest + [Entry(k, false)], permanent, -1, []) && k in permanent
    ensures Pending(g, rest, permanent, -1, [])
  {
    var stack := rest + [Entry(k, false)];
    assert stack[|rest|] == Entry(k, false);
    forall i, b | 0 <= i < |rest| && rest[i].exiting && Edge(g, rest[i].key, b)
      ensures b in permanent || Above(rest, i, b) {
      assert stack[i] == rest[i];
      if b !in permanent {
        var j :| i < j < |stack| && stack[j].key == b;
        assert rest[j].key == b;
      }
    }
  }

  lemma PendingEnter(g: Graph, rest: seq<Entry>, k: FunctionKey, permanent: set<FunctionKey>)
    requires Pending(g, rest + [Entry(k, false)], permanent, -1, []) && k in g
    ensures Pending(g, rest + [Entry(k, true)], permanent, |rest|, g[k])
  {
    var was, stack := rest + [Entry(k, false)], rest + [Entry(k, true)];
    assert was[|rest|] == Entry(k, false) && stack[|rest|] == Entry(k, true);
    forall i, b | 0 <= i < |stack| && stack[i].exiting && Edge(g, stack[i].key, b)
      ensures b in permanent || Above(stack, i, b) || (i == |rest| && b in g[k]) {
      if i < |rest| {
        assert was[i] == rest[i] == stack[i];
        if b !in permanent {
          var j :| i < j < |was| && was[j].key == b;
          assert stack[j].key == b;
        }
      }
    }
  }

  /** A finished function is not explored again; one on the current path closes a cycle. */
  lemma SkipStep(
    g: Graph, rest: seq<Entry>, k: FunctionKey, active: set<FunctionKey>, permanent: set<FunctionKey>,
    order: seq<FunctionKey>, quiet: bool)
    requires Searching(g, rest + [Entry(k, false)], active, permanent, order, quiet, -1, [])
    ensures k in permanent ==> Searching(g, rest, active, permanent, order, quiet, -1, [])
    ensures k in active ==> Searching(g, rest, active, permanent, order, false, -1, [])
  {
    hide Pending, Finished, HasCycle, Shaped;
    PathPop(g, rest, k, active);
    if k in active {
      MarkersPath(g, rest);
      BackEdge(g, Markers(rest), k);
    }
    if k in permanent && quiet { PendingPop(g, rest, k, permanent); }
  }

  /** Entering a function: its marker goes on, its calls are still to do. */
  lemma EnterStep(
    g: Graph, rest: seq<Entry>, k: FunctionKey, active: set<FunctionKey>, permanent: set<FunctionKey>,
    order: seq<FunctionKey>, quiet: bool)
    requires Searching(g, rest + [Entry(k, false)], active, permanent, order, quiet, -1, [])
    requires k !in permanent && k !in active
    ensures k in g
    ensures Searching(g, rest + [Entry(k, true)], active + {k}, permanent, order, quiet, |rest|, g[k])
    ensures InnermostIs(rest + [Entry(k, true)], k)
  {
    hide Pending, Finished, HasCycle, OnPath, Markers, Shaped, InnermostIs;
    PathPop(g, rest, k, active);
    PathEnter(g, rest, k, active);
    if quiet { PendingEnter(g, rest, k, permanent); }
  }

  ghost predicate InnermostIs(stack: seq<Entry>, k: FunctionKey) {
    Markers(stack) != [] && Markers(stack)[|Markers(stack)| - 1] == k
  }

  /** One call of the function being entered: already finished, on the path, or to be explored. */
  lemma CallStep(
    g: Graph, stack: seq<Entry>, k: FunctionKey, active: set<FunctionKey>, permanent: set<FunctionKey>,
    order: seq<FunctionKey>, quiet: bool, m: nat, todo: seq<FunctionKey>, b: FunctionKey)
    requires Searching(g, stack, active, permanent, order, quiet, m, todo + [b])
    requires InnermostIs(stack, k) && Edge(g, k, b) && b in g && m < |stack|
    ensures b in active ==> Searching(g, stack, active, permanent, order, false, m, todo)
    ensures b in permanent ==> Searching(g, stack, active, permanent, order, quiet, m, todo)
    ensures b !in active && b !in permanent ==>
      && Searching(g, stack + [Entry(b, false)], active, permanent, order, quiet, m, todo)
      && InnermostIs(stack + [Entry(b, false)], k)
  {
    Push(g, stack, Entry(b, false));
    assert Markers(stack) + [] == Markers(stack);
    if b in active {
      MarkersPath(g, stack);
      BackEdge(g, Markers(stack), b);
    } else if b in permanent {
      if quiet {
        forall i, x | 0 <= i < |stack| && stack[i].exiting && Edge(g, stack[i].key, x)
          ensures x in permanent || Above(stack, i, x) || (i == m && x in todo) {
          if i == m && x in todo + [b] && x != b { assert x in todo; }
        }
      }
    } else {
      var longer := stack + [Entry(b, false)];
      assert longer[|stack|].key == b;
      assert forall i :: 0 <= i < |stack| ==> longer[i] == stack[i];
      if quiet {
        forall i, x | 0 <= i < |longer| && longer[i].exiting && Edge(g, longer[i].key, x)
          ensures x in permanent || Above(longer, i, x) || (i == m && x in todo) {
          assert longer[i] == stack[i];
          if x !in permanent && Above(stack, i, x) {
            var j :| i < j < |stack| && stack[j].key == x;
            assert longer[j].key == x;
          }
        }
      }
    }
  }

  // ----- the loops -----

  /** Pushes the calls of a function, last first, reporting those that close a cycle. */
  method PushCalls(
    state: AnalyzeState, g: Graph, stack: seq<Entry>, k: FunctionKey, active: set<FunctionKey>,
    permanent: set<FunctionKey>, ghost order: seq<FunctionKey>, ghost quiet: bool)
    returns (r: seq<Entry>, ghost still: bool)
    requires state.Valid() && Closed(g) && k in g && stack != []
    requires Searching(g, stack, active, permanent, order, quiet, |stack| - 1, g[k]) && InnermostIs(stack, k)
    modifies state`diagnostics
    ensures state.Valid() && old(state.diagnostics) <= state.diagnostics
    ensures Searching(g, r, active, permanent, order, still, -1, [])
    ensures still ==> quiet && state.diagnostics == old(state.diagnostics)
    ensures !still ==> !quiet || state.diagnostics != []
    ensures stack <= r
  {
    hide Searching, InnermostIs;
    r, still := stack, quiet;
    var i := |g[k]|;
    ghost var m := |stack| - 1;
    assert g[k][..i] == g[k];
    while i > 0
      invariant 0 <= i <= |g[k]| && m < |r| && stack <= r
      invariant state.Valid() && old(state.diagnostics) <= state.diagnostics
      invariant Searching(g, r, active, permanent, order, still, m, g[k][..i]) && InnermostIs(r, k)
      invariant still ==> quiet && state.diagnostics == old(state.diagnostics)
      invariant !still ==> !quiet || state.diagnostics != []
    {
      i := i - 1;
      var callee := g[k][i];
      assert g[k][..i + 1] == g[k][..i] + [callee];
      assert Edge(g, k, callee);
      CallStep(g, r, k, active, permanent, order, still, m, g[k][..i], callee);
      if callee in active {
        state.PushFunctionDiagnostic(Recursive);
        still := false;
      } else if callee !in permanent {
        r := r + [Entry(callee, false)];
      }
    }
    CallsDone(g, r, active, permanent, order, still, m, g[k][..0]);
  }

  lemma CallsDone(
    g: Graph, stack: seq<Entry>, active: set<FunctionKey>, permanent: set<FunctionKey>, order: seq<FunctionKey>,
    quiet: bool, m: nat, todo: seq<FunctionKey>)
    requires Searching(g, stack, active, permanent, order, quiet, m, todo) && todo == []
    ensures Searching(g, stack, active, permanent, order, quiet, -1, [])
  {
  }

  lemma StartStep(
    g: Graph, start: FunctionKey, permanent: set<FunctionKey>, order: seq<FunctionKey>, quiet: bool)
    requires Searching(g, [], {}, permanent, order, quiet, -1, []) && start in g
    ensures Searching(g, [Entry(start, false)], {}, permanent, order, quiet, -1, [])
  {
    var stack := [Entry(start, false)];
    assert [] + stack == stack;
    Push(g, [], Entry(start, false));
    assert Markers(stack) == [];
  }

  lemma PathNotEmpty(
    g: Graph, stack: seq<Entry>, k: FunctionKey, active: set<FunctionKey>, permanent: set<FunctionKey>,
    order: seq<FunctionKey>, quiet: bool)
    requires Searching(g, stack, active, permanent, order, quiet, -1, []) && k in active
    ensures stack != []
  {
  }

  lemma Emptied(
    g: Graph, active: set<FunctionKey>, permanent: set<FunctionKey>, order: seq<FunctionKey>, quiet: bool)
    requires Searching(g, [], active, permanent, order, quiet, -1, [])
    ensures active == {}
  {
    assert forall k :: k in active ==> k in Markers([]);
  }

  lemma Unvisited(keys: set<FunctionKey>, permanent: set<FunctionKey>, active: set<FunctionKey>, k: FunctionKey)
    requires k in keys && k !in permanent && k !in active
    ensures |keys - (permanent + (active + {k}))| < |keys - (permanent + active)|
  {
    assert keys - (permanent + active) == (keys - (permanent + (active + {k}))) + {k};
  }

  /** One search from `start`. */
  method Explore(state: AnalyzeState, g: Graph, start: FunctionKey, finished: set<FunctionKey>,
                 ghost before: seq<FunctionKey>, ghost quiet: bool)
    returns (permanent: set<FunctionKey>, ghost order: seq<FunctionKey>, ghost still: bool)
    requires state.Valid() && Closed(g) && start in g
    requires Searching(g, [], {}, finished, before, quiet, -1, [])
    modifies state`diagnostics
    ensures state.Valid() && old(state.diagnostics) <= state.diagnostics
    ensures Searching(g, [], {}, permanent, order, still, -1, [])
    ensures finished <= permanent && start in permanent
    ensures still ==> quiet && state.diagnostics == old(state.diagnostics)
    ensures !still ==> !quiet || state.diagnostics != []
  {
    hide Searching, InnermostIs, Closed;
    permanent, order, still := finished, before, quiet;
    var active: set<FunctionKey> := {};
    var stack := [Entry(start, false)];
    StartStep(g, start, finished, before, quiet);
    while stack != []
      invariant state.Valid() && old(state.diagnostics) <= state.diagnostics
      invariant Searching(g, stack, active, permanent, order, still, -1, [])
      invariant finished <= permanent
      invariant if stack == [] then start in permanent else stack[0].key == start
      invariant still ==> quiet && state.diagnostics == old(state.diagnostics)
      invariant !still ==> !quiet || state.diagnostics != []
      decreases |g.Keys - (permanent + active)|, |stack|
    {
      var entry := stack[|stack| - 1];
      var rest := stack[..|stack| - 1];
      assert stack == rest + [entry];
      var k := entry.key;
      if entry.exiting {
        assert entry == Entry(k, true);
        ExitStep(g, rest, k, active, permanent, order, still);
        active, permanent, order := active - {k}, permanent + {k}, order + [k];
        stack := rest;
      } else if k in permanent {
        assert entry == Entry(k, false);
        SkipStep(g, rest, k, active, permanent, order, still);
        stack := rest;
      } else if k in active {
        assert entry == Entry(k, false);
        SkipStep(g, rest, k, active, permanent, order, still);
        state.PushFunctionDiagnostic(Recursive);
        still := false;
        stack := rest;
        PathNotEmpty(g, rest, k, active, permanent, order, still);
      } else {
        assert entry == Entry(k, false);
        EnterStep(g, rest, k, active, permanent, order, still);
        Unvisited(g.Keys, permanent, active, k);
        active := active + {k};
        stack := rest + [Entry(k, true)];
        stack, still := PushCalls(state, g, stack, k, active, permanent, order, still);
      }
    }
    Emptied(g, active, permanent, order, still);
    active := {};
  }

  lemma SearchBegins(g: Graph)
    ensures Searching(g, [], {}, {}, [], true, -1, [])
  {
  }

  lemma SearchEnds(g: Graph, permanent: set<FunctionKey>, order: seq<FunctionKey>, quiet: bool)
    requires Searching(g, [], {}, permanent, order, quiet, -1, []) && g.Keys <= permanent
    ensures quiet <==> !HasCycle(g)
  {
    if quiet { FinishedHaveNoCycle(g, order); }
  }

  /** The search over all functions, in key order. Something is reported exactly when the call graph has
      a directed cycle, and then at least one diagnostic is left, whatever the diagnostic budget. */
  method ValidateFunctionCycles(state: AnalyzeState, g: Graph, keys: seq<FunctionKey>)
    requires state.Valid() && Closed(g) && g.Keys == (set k | k in keys)
    modifies state`diagnostics
    ensures state.Valid() && old(state.diagnostics) <= state.diagnostics
    ensures HasCycle(g) ==> state.diagnostics != []
    ensures !HasCycle(g) ==> state.diagnostics == old(state.diagnostics)
  {
    hide Searching, Closed, HasCycle;
    var permanent: set<FunctionKey> := {};
    ghost var order: seq<FunctionKey>, quiet := [], true;
    SearchBegins(g);
    var i := 0;
    while i < |keys|
      invariant i <= |keys|
      invariant state.Valid() && old(state.diagnostics) <= state.diagnostics
      invariant Searching(g, [], {}, permanent, order, quiet, -1, [])
      invariant forall j :: 0 <= j < i ==> keys[j] in permanent
      invariant quiet ==> state.diagnostics == old(state.diagnostics)
      invariant !quiet ==> state.diagnostics != []
    {
      if keys[i] !in permanent {
        permanent, order, quiet := Explore(state, g, keys[i], permanent, order, quiet);
      }
      i := i + 1;
    }
    SearchEnds(g, permanent, order, quiet);
  }
}
