/** `_depth_first_sort` and the loop that drives it: the order in which
    the methods of a class are emitted, callers before the methods they call.
    `sorted_dict` is an insertion-ordered dictionary whose values are always
    `method_dict[key]`, so it is kept as its key sequence. */
module StepDown {
  import opened Seqs
  import opened Results
  import opened Dependencies

  /** The `dependencies` dictionary: caller name to the names it calls. */
  type Graph = map<string, seq<string>>

  /** Every dependency is one of the class's method names (what
      `_find_dependencies` guarantees, and what `method_dict[...]` needs). */
  ghost predicate DepsWithin(deps: Graph, names: set<string>)
  {
    forall n, d :: d in Lookup(deps, n) ==> d in names
  }

  /** `sorted_dict.pop(name, ...)` followed by `sorted_dict[name] = ...`:
      the key leaves its place, if it had one, and is appended at the end.
      The other keys keep their relative order, and the key set only gains
      `name`. */
  function MoveToEnd(keys: seq<string>, name: string): (r: seq<string>)
    ensures |r| > 0 && r[|r| - 1] == name
    ensures FilterOut(r, {name}) == FilterOut(keys, {name})
    ensures Elems(r) == Elems(keys) + {name}
    ensures Distinct(keys) ==> Distinct(r)
  {
    var kept := FilterOut(keys, {name});
    FilterOutMembers(keys, {name});
    FilterOutAppend(kept, [name], {name});
    FilterOutTwice(keys, {name}, {name});
    assert {name} + {name} == {name};
    assert Distinct(keys) ==> Distinct(kept + [name]) by {
      if Distinct(keys) {
        FilterOutDistinct(keys, {name});
        DistinctAppend(kept, [name]);
      }
    }
    kept + [name]
  }

  /** The keys of `sorted_dict`, in insertion order. */
  class SortedDict {
    var keys: seq<string>

    constructor()
      ensures keys == []
    {
      keys := [];
    }

    /** Lines 86-87: pop `name` if present, then insert it again, last. */
    method PopAndReinsert(name: string)
      modifies this
      ensures keys == MoveToEnd(old(keys), name)
    {
      var current, kept: seq<string> := keys, [];
      var i := 0;
      while i < |current|
        invariant 0 <= i <= |current|
        invariant kept == FilterOut(current[..i], {name})
      {
        assert current[..i + 1] == current[..i] + [current[i]];
        FilterOutSnoc(current[..i], current[i], {name});
        if current[i] != name {
          kept := kept + [current[i]];
        }
        i := i + 1;
      }
      assert current[..i] == current;
      keys := kept + [name];
    }
  }

  /** `_depth_first_sort(n, ...)` applied to the key order `order`, with
      `path` the names whose calls are still on the interpreter's stack.
      There is no cycle guard in the sorter: a call re-entering a name that
      is on the stack repeats the same calls forever, which Python ends with
      RecursionError. */
  function Visit(deps: Graph, names: set<string>, n: string, path: seq<string>, order: seq<string>): Result<seq<string>>
    requires DepsWithin(deps, names) && n in names
    decreases names - Elems(path), 0
  {
    if n in path then Err(RecursionError)
    else
      assert Elems(path + [n]) == Elems(path) + {n};
      VisitAll(deps, names, Lookup(deps, n), path + [n], MoveToEnd(order, n))
  }

  /** The loop of lines 88-90: visit every name of `ds` in turn. */
  function VisitAll(deps: Graph, names: set<string>, ds: seq<string>, path: seq<string>, order: seq<string>): Result<seq<string>>
    requires DepsWithin(deps, names) && forall d :: d in ds ==> d in names
    decreases names - Elems(path), |ds|
  {
    if ds == [] then Ok(order)
    else
      match Visit(deps, names, ds[0], path, order)
      case Err(e) => Err(e)
      case Ok(o) => VisitAll(deps, names, ds[1..], path, o)
  }

  /** Lines 52-54: the keys of `sorted_dict` once the sort has been started
      from every key of `method_dict`, or the error it raises. */
  function StepDownOrder(deps: Graph, names: set<string>, keys: seq<string>): Result<seq<string>>
    requires DepsWithin(deps, names) && forall k :: k in keys ==> k in names
  {
    VisitAll(deps, names, keys, [], [])
  }

  /** A visit does not depend on what is already in the dictionary beyond
      removing what it moves: it succeeds or fails regardless of `order`,
      and on success the names it touches end up, in its own order, after
      the untouched names of `order`. */
  lemma {:induction false} VisitFrame(deps: Graph, names: set<string>, n: string, path: seq<string>, order: seq<string>)
    requires DepsWithin(deps, names) && n in names
    ensures var t := Visit(deps, names, n, path, []);
            var r := Visit(deps, names, n, path, order);
            r.Ok? == t.Ok? && (t.Ok? ==> r.value == FilterOut(order, Elems(t.value)) + t.value)
    decreases names - Elems(path), 0
  {
    if n !in path {
      var ds, p := Lookup(deps, n), path + [n];
      assert Elems(p) == Elems(path) + {n};
      var moved := MoveToEnd(order, n);
      assert Visit(deps, names, n, path, order) == VisitAll(deps, names, ds, p, moved);
      assert MoveToEnd([], n) == [n];
      assert Visit(deps, names, n, path, []) == VisitAll(deps, names, ds, p, [n]);
      VisitAllFrame(deps, names, ds, p, moved);
      VisitAllFrame(deps, names, ds, p, [n]);
      var t2 := VisitAll(deps, names, ds, p, []);
      if t2.Ok? {
        MoveThenVisit(order, n, t2.value);
      }
    }
  }

  /** The bookkeeping of one visit: moving `n` to the end and then the
      names its dependencies touch. */
  lemma MoveThenVisit(order: seq<string>, n: string, t: seq<string>)
    ensures var v := FilterOut([n], Elems(t)) + t;
            FilterOut(MoveToEnd(order, n), Elems(t)) + t == FilterOut(order, Elems(v)) + v
  {
    assert Elems([n]) == {n};
    assert MoveToEnd(order, n) == FilterOut(order, Elems([n])) + [n];
    FilterOutCompose(order, [n], t);
  }

  lemma {:induction false} VisitAllFrame(deps: Graph, names: set<string>, ds: seq<string>, path: seq<string>, order: seq<string>)
    requires DepsWithin(deps, names) && forall d :: d in ds ==> d in names
    ensures var t := VisitAll(deps, names, ds, path, []);
            var r := VisitAll(deps, names, ds, path, order);
            r.Ok? == t.Ok? && (t.Ok? ==> r.value == FilterOut(order, Elems(t.value)) + t.value)
    decreases names - Elems(path), |ds|
  {
    if ds == [] {
      FilterOutNothing(order, {});
      assert Elems<string>([]) == {};
    } else {
      VisitFrame(deps, names, ds[0], path, order);
      var t1 := Visit(deps, names, ds[0], path, []);
      if t1.Ok? {
        var o1 := Visit(deps, names, ds[0], path, order).value;
        VisitAllFrame(deps, names, ds[1..], path, o1);
        VisitAllFrame(deps, names, ds[1..], path, t1.value);
        var t2 := VisitAll(deps, names, ds[1..], path, []);
        if t2.Ok? {
          FilterOutCompose(order, t1.value, t2.value);
        }
      }
    }
  }

  /** No name of `s` calls a name at or before its own position: every
      dependency that is present comes later. */
  ghost predicate CallersFirst(deps: Graph, s: seq<string>)
  {
    forall i, j :: 0 <= j <= i < |s| ==> s[j] !in Lookup(deps, s[i])
  }

  lemma CallersFirstAppend(deps: Graph, a: seq<string>, b: seq<string>)
    ensures CallersFirst(deps, a + b) <==>
      CallersFirst(deps, a) && CallersFirst(deps, b) && forall y, d :: y in b && d in Lookup(deps, y) ==> d !in a
  {
    var ab := a + b;
    if CallersFirst(deps, ab) {
      forall i, j | 0 <= j <= i < |a| ensures a[j] !in Lookup(deps, a[i]) {
        assert ab[i] == a[i] && ab[j] == a[j];
      }
      forall i, j | 0 <= j <= i < |b| ensures b[j] !in Lookup(deps, b[i]) {
        assert ab[|a| + i] == b[i] && ab[|a| + j] == b[j];
      }
      forall i, j | 0 <= i < |b| && 0 <= j < |a| ensures a[j] !in Lookup(deps, b[i]) {
        assert ab[|a| + i] == b[i] && ab[j] == a[j];
      }
    }
    if CallersFirst(deps, a) && CallersFirst(deps, b) && forall y, d :: y in b && d in Lookup(deps, y) ==> d !in a {
      forall i, j | 0 <= j <= i < |ab| ensures ab[j] !in Lookup(deps, ab[i]) {
        if i >= |a| && j < |a| {
          assert ab[i] == b[i - |a|] && ab[j] == a[j];
          assert b[i - |a|] in b && a[j] in a;
        } else if i >= |a| {
          assert ab[i] == b[i - |a|] && ab[j] == b[j - |a|];
        } else {
          assert ab[i] == a[i] && ab[j] == a[j];
        }
      }
    }
  }

  /** Dropping names keeps the callers-first property. */
  lemma {:induction false} CallersFirstFilter(deps: Graph, s: seq<string>, xs: set<string>)
    requires CallersFirst(deps, s)
    ensures CallersFirst(deps, FilterOut(s, xs))
  {
    if s != [] {
      var head, tail := [s[0]], s[1..];
      assert s == head + tail;
      CallersFirstAppend(deps, head, tail);
      CallersFirstFilter(deps, tail, xs);
      FilterOutMembers(tail, xs);
      var kept := if s[0] in xs then [] else head;
      CallersFirstAppend(deps, kept, FilterOut(tail, xs));
    }
  }

  /** What a visit that succeeds has produced, relative to the stack `path`
      it ran on: each name once, names of the class only, none still on the
      stack, every dependency of a produced name produced as well and not on
      the stack, and callers before callees. */
  ghost predicate Settled(deps: Graph, names: set<string>, s: seq<string>, path: seq<string>)
  {
    && Distinct(s)
    && (forall x :: x in s ==> x in names && x !in path)
    && (forall y, d :: y in s && d in Lookup(deps, y) ==> d in s && d !in path)
    && CallersFirst(deps, s)
  }

  /** A visit of `n` that succeeds puts `n` in front of what its
      dependencies produced. */
  lemma SettledPrepend(deps: Graph, names: set<string>, n: string, rest: seq<string>, path: seq<string>)
    requires Settled(deps, names, rest, path + [n]) && n in names && n !in path
    requires forall d :: d in Lookup(deps, n) ==> d in rest
    ensures Settled(deps, names, [n] + rest, path)
  {
    DistinctAppend([n], rest);
    CallersFirstAppend(deps, [n], rest);
    assert CallersFirst(deps, [n]);
  }

  /** The second of two successful visits takes its names out of what the
      first produced and appends them. */
  lemma SettledMerge(deps: Graph, names: set<string>, a: seq<string>, b: seq<string>, path: seq<string>)
    requires Settled(deps, names, a, path) && Settled(deps, names, b, path)
    ensures Settled(deps, names, FilterOut(a, Elems(b)) + b, path)
  {
    var f := FilterOut(a, Elems(b));
    FilterOutMembers(a, Elems(b));
    FilterOutDistinct(a, Elems(b));
    DistinctAppend(f, b);
    CallersFirstFilter(deps, a, Elems(b));
    CallersFirstAppend(deps, f, b);
  }

  lemma {:induction false} VisitShape(deps: Graph, names: set<string>, n: string, path: seq<string>)
    requires DepsWithin(deps, names) && n in names
    ensures var t := Visit(deps, names, n, path, []);
            t.Ok? ==> Settled(deps, names, t.value, path) && t.value != [] && t.value[0] == n
    decreases names - Elems(path), 0
  {
    if n !in path {
      var ds, p := Lookup(deps, n), path + [n];
      assert Elems(p) == Elems(path) + {n};
      VisitAllShape(deps, names, ds, p);
      assert MoveToEnd([], n) == [n];
      VisitAllFrame(deps, names, ds, p, [n]);
      var t2 := VisitAll(deps, names, ds, p, []);
      if t2.Ok? {
        var rest := t2.value;
        FilterOutNothing([n], Elems(rest));
        assert Visit(deps, names, n, path, []) == Ok([n] + rest);
        SettledPrepend(deps, names, n, rest, path);
      }
    }
  }

  lemma {:induction false} VisitAllShape(deps: Graph, names: set<string>, ds: seq<string>, path: seq<string>)
    requires DepsWithin(deps, names) && forall d :: d in ds ==> d in names
    ensures var t := VisitAll(deps, names, ds, path, []);
            t.Ok? ==> Settled(deps, names, t.value, path) && forall d :: d in ds ==> d in t.value
    decreases names - Elems(path), |ds|
  {
    if ds != [] {
      VisitShape(deps, names, ds[0], path);
      var t1 := Visit(deps, names, ds[0], path, []);
      if t1.Ok? {
        VisitAllShape(deps, names, ds[1..], path);
        VisitAllFrame(deps, names, ds[1..], path, t1.value);
        var t2 := VisitAll(deps, names, ds[1..], path, []);
        if t2.Ok? {
          var a, b := t1.value, t2.value;
          var f := FilterOut(a, Elems(b));
          assert VisitAll(deps, names, ds, path, []) == Ok(f + b);
          SettledMerge(deps, names, a, b, path);
          forall d | d in ds ensures d in f + b {
            if d != ds[0] {
              assert d in ds[1..];
            }
          }
        }
      }
    }
  }

  /** Lines 52-54 with 86-90: when the sort finishes, the keys of
      `sorted_dict` are the method names, each once, and every method comes
      before each method it calls. */
  lemma StepDownOrderSorted(deps: Graph, names: set<string>, keys: seq<string>)
    requires DepsWithin(deps, names) && Elems(keys) == names
    ensures var r := StepDownOrder(deps, names, keys);
            r.Ok? ==> && Distinct(r.value) && Elems(r.value) == names
                      && forall i, j :: 0 <= i < |r.value| && 0 <= j < |r.value| && r.value[j] in Lookup(deps, r.value[i]) ==> i < j
  {
    VisitAllShape(deps, names, keys, []);
  }

  /** With distinct keys, the final key order is a permutation of them. */
  lemma StepDownOrderPermutation(deps: Graph, names: set<string>, keys: seq<string>)
    requires DepsWithin(deps, names) && Elems(keys) == names && Distinct(keys)
    ensures var r := StepDownOrder(deps, names, keys);
            r.Ok? ==> multiset(r.value) == multiset(keys)
  {
    StepDownOrderSorted(deps, names, keys);
    var r := StepDownOrder(deps, names, keys);
    if r.Ok? {
      DistinctPermutation(r.value, keys);
    }
  }

  /** `w` follows dependency edges. */
  ghost predicate IsWalk(deps: Graph, w: seq<string>)
  {
    forall i :: 0 <= i < |w| - 1 ==> w[i + 1] in Lookup(deps, w[i])
  }

  /** A walk of at least one edge that comes back to where it started. */
  ghost predicate IsCycle(deps: Graph, w: seq<string>)
  {
    |w| >= 2 && w[0] == w[|w| - 1] && IsWalk(deps, w)
  }

  ghost predicate HasCycle(deps: Graph)
  {
    exists w :: IsCycle(deps, w)
  }

  /** A visit fails only when the stack can be closed into a cycle. */
  lemma {:induction false} VisitErrHasCycle(deps: Graph, names: set<string>, n: string, path: seq<string>, order: seq<string>)
    requires DepsWithin(deps, names) && n in names && IsWalk(deps, path + [n])
    ensures Visit(deps, names, n, path, order).Err? ==> HasCycle(deps)
    decreases names - Elems(path), 0
  {
    var p := path + [n];
    if n in path {
      var i :| 0 <= i < |path| && path[i] == n;
      var w := p[i..];
      forall k | 0 <= k < |w| - 1 ensures w[k + 1] in Lookup(deps, w[k]) {
        assert w[k] == p[i + k] && w[k + 1] == p[i + k + 1];
      }
      assert IsCycle(deps, w);
    } else {
      assert Elems(p) == Elems(path) + {n};
      var ds := Lookup(deps, n);
      forall d | d in ds ensures IsWalk(deps, p + [d]) {
        WalkExtend(deps, p, d);
      }
      VisitAllErrHasCycle(deps, names, ds, p, MoveToEnd(order, n));
    }
  }

  lemma {:induction false} VisitAllErrHasCycle(deps: Graph, names: set<string>, ds: seq<string>, path: seq<string>, order: seq<string>)
    requires DepsWithin(deps, names) && forall d :: d in ds ==> d in names && IsWalk(deps, path + [d])
    ensures VisitAll(deps, names, ds, path, order).Err? ==> HasCycle(deps)
    decreases names - Elems(path), |ds|
  {
    if ds != [] {
      VisitErrHasCycle(deps, names, ds[0], path, order);
      var first := Visit(deps, names, ds[0], path, order);
      if first.Ok? {
        VisitAllErrHasCycle(deps, names, ds[1..], path, first.value);
      }
    }
  }

  lemma WalkExtend(deps: Graph, w: seq<string>, d: string)
    requires IsWalk(deps, w) && w != [] && d in Lookup(deps, w[|w| - 1])
    ensures IsWalk(deps, w + [d])
  {
    var v := w + [d];
    forall k | 0 <= k < |v| - 1 ensures v[k + 1] in Lookup(deps, v[k]) {
      if k < |w| - 1 {
        assert v[k] == w[k] && v[k + 1] == w[k + 1];
      }
    }
  }

  /** A walk less its first name is a walk. */
  lemma WalkTail(deps: Graph, w: seq<string>)
    requires IsWalk(deps, w) && |w| > 1
    ensures IsWalk(deps, w[1..])
  {
    var v := w[1..];
    forall k | 0 <= k < |v| - 1 ensures v[k + 1] in Lookup(deps, v[k]) {
      assert v[k] == w[k + 1] && v[k + 1] == w[k + 2];
    }
  }

  lemma ExtendByFirst<T>(path: seq<T>, w: seq<T>)
    requires w != []
    ensures path + w == (path + [w[0]]) + w[1..]
  {
    assert w == [w[0]] + w[1..];
  }

  /** A visit that succeeds from the first name of a walk, on stack `path`,
      shows that the walk repeats no name and does not return to the stack. */
  lemma {:induction false} VisitOkWalkSimple(deps: Graph, names: set<string>, path: seq<string>, w: seq<string>)
    requires DepsWithin(deps, names) && Distinct(path)
    requires IsWalk(deps, w) && |w| > 0 && w[0] in names
    ensures Visit(deps, names, w[0], path, []).Ok? ==> Distinct(path + w)
    decreases |w|
  {
    var n := w[0];
    if Visit(deps, names, n, path, []).Ok? {
      var p := path + [n];
      assert n !in path;
      DistinctAppend(path, [n]);
      ExtendByFirst(path, w);
      if |w| == 1 {
        assert w[1..] == [];
      } else {
        var ds := Lookup(deps, n);
        assert MoveToEnd([], n) == [n];
        assert VisitAll(deps, names, ds, p, [n]).Ok?;
        VisitAllOk(deps, names, ds, p, [n]);
        WalkTail(deps, w);
        assert w[1] in ds && w[1..][0] == w[1];
        VisitOkWalkSimple(deps, names, p, w[1..]);
      }
    }
  }


  /** When the loop over `ds` succeeds, every single visit succeeds. */
  lemma {:induction false} VisitAllOk(deps: Graph, names: set<string>, ds: seq<string>, path: seq<string>, order: seq<string>)
    requires DepsWithin(deps, names) && forall d :: d in ds ==> d in names
    ensures VisitAll(deps, names, ds, path, order).Ok? ==> forall d :: d in ds ==> Visit(deps, names, d, path, []).Ok?
    decreases |ds|
  {
    if ds != [] {
      VisitFrame(deps, names, ds[0], path, order);
      var first := Visit(deps, names, ds[0], path, order);
      if first.Ok? {
        VisitAllOk(deps, names, ds[1..], path, first.value);
      }
    }
  }

  /** The sorter raises RecursionError exactly when the dependencies of the
      class contain a cycle; otherwise it finishes. */
  lemma StepDownOrderFailsIffCycle(deps: Graph, names: set<string>, keys: seq<string>)
    requires DepsWithin(deps, names) && Elems(keys) == names
    ensures StepDownOrder(deps, names, keys).Err? <==> HasCycle(deps)
    ensures StepDownOrder(deps, names, keys).Err? ==> StepDownOrder(deps, names, keys).error == RecursionError
  {
    VisitAllErrHasCycle(deps, names, keys, [], []);
    VisitAllRecursionError(deps, names, keys, [], []);
    if HasCycle(deps) {
      var w :| IsCycle(deps, w);
      var m := |w| - 1;
      assert w[m] in Lookup(deps, w[m - 1]);
      assert w[0] in Elems(keys);
      assert !Distinct([] + w) by {
        assert ([] + w)[0] == ([] + w)[m];
      }
      VisitAllOk(deps, names, keys, [], []);
      VisitOkWalkSimple(deps, names, [], w);
    }
  }

  /** The only error a visit raises is RecursionError. */
  lemma {:induction false} VisitAllRecursionError(deps: Graph, names: set<string>, ds: seq<string>, path: seq<string>, order: seq<string>)
    requires DepsWithin(deps, names) && forall d :: d in ds ==> d in names
    ensures VisitAll(deps, names, ds, path, order).Err? ==> VisitAll(deps, names, ds, path, order).error == RecursionError
    decreases names - Elems(path), |ds|
  {
    if ds != [] {
      var n := ds[0];
      if n !in path {
        assert Elems(path + [n]) == Elems(path) + {n};
        VisitAllRecursionError(deps, names, Lookup(deps, n), path + [n], MoveToEnd(order, n));
      }
      var first := Visit(deps, names, n, path, order);
      if first.Ok? {
        VisitAllRecursionError(deps, names, ds[1..], path, first.value);
      }
    }
  }

  /** Methods that call no method of their class keep their order. */
  lemma {:induction false} NoDependenciesKeepOrder(deps: Graph, names: set<string>, keys: seq<string>, order: seq<string>)
    requires DepsWithin(deps, names) && forall k :: k in keys ==> k in names
    requires forall n :: Lookup(deps, n) == []
    requires Distinct(order + keys)
    ensures VisitAll(deps, names, keys, [], order) == Ok(order + keys)
    decreases |keys|
  {
    if keys != [] {
      var k := keys[0];
      DistinctAppend(order, keys);
      assert k in Elems(keys);
      FilterOutNothing(order, {k});
      assert Visit(deps, names, k, [], order) == Ok(order + [k]);
      assert order + keys == (order + [k]) + keys[1..];
      NoDependenciesKeepOrder(deps, names, keys[1..], order + [k]);
    } else {
      assert order + keys == order;
    }
  }

  /** `_depth_first_sort`, lines 79-90, on the dictionary `sorted`, with
      `path` standing for the interpreter's stack of active calls: re-entering
      a name on it is where the unguarded recursion never returns. */
  method DepthFirstSort(name: string, deps: Graph, names: set<string>, path: seq<string>, sorted: SortedDict) returns (o: Outcome)
    requires DepsWithin(deps, names) && name in names
    modifies sorted
    ensures var r := Visit(deps, names, name, path, old(sorted.keys));
            o == (if r.Ok? then Pass else Fail(r.error)) && (r.Ok? ==> sorted.keys == r.value)
    decreases names - Elems(path)
  {
    if name in path {
      return Fail(RecursionError);
    }
    sorted.PopAndReinsert(name);
    var ds := Lookup(deps, name);
    var stack := path + [name];
    assert Elems(stack) == Elems(path) + {name};
    ghost var start := sorted.keys;
    var i := 0;
    while i < |ds|
      invariant 0 <= i <= |ds|
      invariant VisitAll(deps, names, ds, stack, start) == VisitAll(deps, names, ds[i..], stack, sorted.keys)
    {
      ghost var before := sorted.keys;
      ghost var first := Visit(deps, names, ds[i], stack, before);
      assert ds[i..][0] == ds[i] && ds[i..][1..] == ds[i + 1..];
      VisitAllCons(deps, names, ds[i..], stack, before);
      o := DepthFirstSort(ds[i], deps, names, stack, sorted);
      if o.Fail? {
        assert first.Err? && o.error == first.error;
        return;
      }
      assert first.Ok? && sorted.keys == first.value;
      i := i + 1;
    }
    assert ds[i..] == [];
    return Pass;
  }

  /** One step of the loop over `ds`. */
  lemma VisitAllCons(deps: Graph, names: set<string>, ds: seq<string>, path: seq<string>, order: seq<string>)
    requires DepsWithin(deps, names) && forall d :: d in ds ==> d in names
    requires ds != []
    ensures var first := Visit(deps, names, ds[0], path, order);
            VisitAll(deps, names, ds, path, order)
            == if first.Ok? then VisitAll(deps, names, ds[1..], path, first.value) else Err(first.error)
  {
  }

  /** Lines 52-54: a fresh `sorted_dict`, and the sort started from every
      key of `method_dict` in turn. */
  method SortKeys(deps: Graph, names: set<string>, keys: seq<string>) returns (r: Result<seq<string>>)
    requires DepsWithin(deps, names) && forall k :: k in keys ==> k in names
    ensures r == StepDownOrder(deps, names, keys)
  {
    var sorted := new SortedDict();
    var i := 0;
    while i < |keys|
      invariant 0 <= i <= |keys|
      invariant StepDownOrder(deps, names, keys) == VisitAll(deps, names, keys[i..], [], sorted.keys)
    {
      ghost var before := sorted.keys;
      ghost var first := Visit(deps, names, keys[i], [], before);
      assert keys[i..][0] == keys[i] && keys[i..][1..] == keys[i + 1..];
      VisitAllCons(deps, names, keys[i..], [], before);
      var o := DepthFirstSort(keys[i], deps, names, [], sorted);
      if o.Fail? {
        assert first.Err? && o.error == first.error;
        return Err(o.error);
      }
      assert first.Ok? && sorted.keys == first.value;
      i := i + 1;
    }
    assert keys[i..] == [];
    return Ok(sorted.keys);
  }
}
