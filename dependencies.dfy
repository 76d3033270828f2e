/** `_find_dependencies`: for every method, the methods of the same class it
    calls through an attribute (`self.helper()`, but also `other.helper()`:
    matching is by attribute name only), each once, in first-seen order. */
module Dependencies {
  import opened Seqs
  import opened Syntax

  /** The attribute targets among `calls` that are in `names`, in walk
      order, repeats kept. Bare-name and other callees are skipped. */
  function AttributeTargets(calls: seq<Callee>, names: set<string>): seq<string>
  {
    if calls == [] then []
    else
      var n := |calls| - 1;
      var c := calls[n];
      AttributeTargets(calls[..n], names) + (if c.Attribute? && c.attr in names then [c.attr] else [])
  }

  lemma {:induction false} AttributeTargetsMembers(calls: seq<Callee>, names: set<string>)
    ensures forall d :: d in AttributeTargets(calls, names) <==> d in names && Attribute(d) in calls
  {
    if calls != [] {
      var n := |calls| - 1;
      AttributeTargetsMembers(calls[..n], names);
      assert calls == calls[..n] + [calls[n]];
    }
  }

  /** The calls walked in every method named `owner`, in source order (two
      `def`s with one name feed one dependency list). */
  function CallsOf(methods: seq<Method>, owner: string): seq<Callee>
  {
    if methods == [] then []
    else
      var n := |methods| - 1;
      CallsOf(methods[..n], owner) + (if methods[n].name == owner then methods[n].calls else [])
  }

  lemma {:induction false} CallsOfMembers(methods: seq<Method>, owner: string)
    ensures forall c :: c in CallsOf(methods, owner) <==>
      exists i :: 0 <= i < |methods| && methods[i].name == owner && c in methods[i].calls
  {
    if methods != [] {
      var n := |methods| - 1;
      CallsOfMembers(methods[..n], owner);
      forall c ensures c in CallsOf(methods, owner) <==>
        exists i :: 0 <= i < |methods| && methods[i].name == owner && c in methods[i].calls {
        if exists i :: 0 <= i < |methods| && methods[i].name == owner && c in methods[i].calls {
          var i :| 0 <= i < |methods| && methods[i].name == owner && c in methods[i].calls;
          if i < n {
            assert methods[..n][i] == methods[i];
          }
        }
        if c in CallsOf(methods[..n], owner) {
          var i :| 0 <= i < n && methods[..n][i].name == owner && c in methods[..n][i].calls;
          assert methods[i] == methods[..n][i];
        }
      }
    }
  }

  /** The dependency list of `owner` when only `methods` have been walked
      and `names` are the method names of the class. */
  function DependenciesAmong(methods: seq<Method>, names: set<string>, owner: string): seq<string>
  {
    Dedup(AttributeTargets(CallsOf(methods, owner), names))
  }

  /** `dependencies[owner]` after `_find_dependencies(methods)`: the class's
      method names that some method named `owner` calls as an attribute,
      and nothing else, without repeats. */
  function DependenciesOf(methods: seq<Method>, owner: string): (r: seq<string>)
    ensures Distinct(r)
    ensures forall d :: d in r <==> (d in NameSet(methods) &&
      exists i :: 0 <= i < |methods| && methods[i].name == owner && Attribute(d) in methods[i].calls)
  {
    CallsOfMembers(methods, owner);
    AttributeTargetsMembers(CallsOf(methods, owner), NameSet(methods));
    DependenciesAmong(methods, NameSet(methods), owner)
  }

  /** The list keeps first-seen order: of two dependencies, the one whose
      first attribute call is walked first comes first. */
  lemma DependenciesFirstSeen(methods: seq<Method>, owner: string, i: nat, j: nat)
    requires i < j < |DependenciesOf(methods, owner)|
    ensures var walked := AttributeTargets(CallsOf(methods, owner), NameSet(methods));
            var r := DependenciesOf(methods, owner);
            r[i] in walked && r[j] in walked && FirstIndex(walked, r[i]) < FirstIndex(walked, r[j])
  {
    DedupFirstSeen(AttributeTargets(CallsOf(methods, owner), NameSet(methods)), i, j);
  }

  /** When no method named `owner` makes an attribute call that names a
      method of the class (it may call functions by bare name, or methods
      of other objects), `owner` has no dependencies. */
  lemma NoSelfCallsNoEdges(methods: seq<Method>, owner: string)
    requires forall i, d :: 0 <= i < |methods| && methods[i].name == owner && Attribute(d) in methods[i].calls
                           ==> d !in NameSet(methods)
    ensures DependenciesOf(methods, owner) == []
  {
    var calls := CallsOf(methods, owner);
    CallsOfMembers(methods, owner);
    forall d | Attribute(d) in calls ensures d !in NameSet(methods) {
      var i :| 0 <= i < |methods| && methods[i].name == owner && Attribute(d) in methods[i].calls;
    }
    NoTargetsAmong(calls, NameSet(methods));
  }

  lemma {:induction false} NoTargetsAmong(calls: seq<Callee>, names: set<string>)
    requires forall d :: Attribute(d) in calls ==> d !in names
    ensures AttributeTargets(calls, names) == []
  {
    if calls != [] {
      var n := |calls| - 1;
      assert calls[n] in calls;
      NoTargetsAmong(calls[..n], names);
    }
  }

  /** Only a method of the class can have dependencies. */
  lemma DependenciesOfOwner(methods: seq<Method>, owner: string)
    ensures DependenciesOf(methods, owner) != [] ==> owner in NameSet(methods)
  {
    var r := DependenciesOf(methods, owner);
    if r != [] {
      assert r[0] in r;
      var i :| 0 <= i < |methods| && methods[i].name == owner && Attribute(r[0]) in methods[i].calls;
      assert methods[i] in methods;
    }
  }

  /** The dictionary `_find_dependencies(methods)` returns: a key for every
      method that calls some method of its class, mapped to those callees. */
  function DependencyMap(methods: seq<Method>): (deps: map<string, seq<string>>)
    ensures forall n :: Lookup(deps, n) == DependenciesOf(methods, n)
    ensures forall n :: n in deps <==> DependenciesOf(methods, n) != []
  {
    assert forall n :: DependenciesOf(methods, n) != [] ==> n in NameSet(methods) by {
      forall n ensures DependenciesOf(methods, n) != [] ==> n in NameSet(methods) {
        DependenciesOfOwner(methods, n);
      }
    }
    map n | n in NameSet(methods) && DependenciesOf(methods, n) != [] :: DependenciesOf(methods, n)
  }

  /** A `defaultdict(list)` read: a missing key reads as the empty list. */
  function Lookup(deps: map<string, seq<string>>, n: string): seq<string>
  {
    if n in deps then deps[n] else []
  }

  /** Two dictionaries with the same keys that read the same are equal. */
  lemma SameLookupsSameMap(a: map<string, seq<string>>, b: map<string, seq<string>>)
    requires forall n :: Lookup(a, n) == Lookup(b, n) && (n in a <==> n in b)
    ensures a == b
  {
    forall n | n in a ensures a[n] == b[n] {
      assert Lookup(a, n) == Lookup(b, n);
    }
  }

  /** The calls of `methods[i]` walked so far, on top of those of the
      methods before it. */
  ghost function PendingCalls(methods: seq<Method>, i: nat, j: nat, n: string): seq<Callee>
    requires i < |methods| && j <= |methods[i].calls|
  {
    CallsOf(methods[..i], n) + (if n == methods[i].name then methods[i].calls[..j] else [])
  }

  /** The loop invariant of FindDependencies for one name: its list, and
      whether it is a key, are what the calls walked so far give. */
  ghost predicate TracksAt(deps: map<string, seq<string>>, methods: seq<Method>, names: set<string>, i: nat, j: nat, n: string)
    requires i < |methods| && j <= |methods[i].calls|
  {
    && Lookup(deps, n) == Dedup(AttributeTargets(PendingCalls(methods, i, j, n), names))
    && (n in deps <==> Lookup(deps, n) != [])
  }

  ghost predicate Tracks(deps: map<string, seq<string>>, methods: seq<Method>, names: set<string>, i: nat, j: nat)
    requires i < |methods| && j <= |methods[i].calls|
  {
    forall n :: TracksAt(deps, methods, names, i, j, n)
  }

  /** One walked call: `if target in method_names and target not in
      dependencies[name]: dependencies[name].append(target)`. */
  function AddCall(deps: map<string, seq<string>>, owner: string, c: Callee, names: set<string>): map<string, seq<string>>
  {
    if c.Attribute? && c.attr in names then
      var current := Lookup(deps, owner);
      deps[owner := if c.attr in current then current else current + [c.attr]]
    else deps
  }

  lemma TracksStepAt(deps: map<string, seq<string>>, methods: seq<Method>, names: set<string>, i: nat, j: nat, n: string)
    requires i < |methods| && j < |methods[i].calls|
    requires TracksAt(deps, methods, names, i, j, n)
    ensures TracksAt(AddCall(deps, methods[i].name, methods[i].calls[j], names), methods, names, i, j + 1, n)
  {
    var m := methods[i];
    var c := m.calls[j];
    assert m.calls[..j + 1] == m.calls[..j] + [c];
    var p := PendingCalls(methods, i, j, n);
    if n == m.name {
      assert PendingCalls(methods, i, j + 1, n) == p + [c];
      AttributeTargetsSnoc(p, c, names);
      var t := AttributeTargets(p, names);
      if c.Attribute? && c.attr in names {
        assert AttributeTargets(p + [c], names) == t + [c.attr];
        DedupSnoc(t, c.attr);
        assert Lookup(AddCall(deps, m.name, c, names), n) == if c.attr in Dedup(t) then Dedup(t) else Dedup(t) + [c.attr];
      } else {
        assert AttributeTargets(p + [c], names) == t;
      }
    } else {
      assert PendingCalls(methods, i, j + 1, n) == p;
    }
  }

  lemma TracksStep(deps: map<string, seq<string>>, methods: seq<Method>, names: set<string>, i: nat, j: nat)
    requires i < |methods| && j < |methods[i].calls|
    requires Tracks(deps, methods, names, i, j)
    ensures Tracks(AddCall(deps, methods[i].name, methods[i].calls[j], names), methods, names, i, j + 1)
  {
    var next, k := AddCall(deps, methods[i].name, methods[i].calls[j], names), j + 1;
    forall n ensures TracksAt(next, methods, names, i, k, n) {
      TracksStepAt(deps, methods, names, i, j, n);
    }
  }

  lemma AttributeTargetsSnoc(p: seq<Callee>, c: Callee, names: set<string>)
    ensures AttributeTargets(p + [c], names) ==
            AttributeTargets(p, names) + (if c.Attribute? && c.attr in names then [c.attr] else [])
  {
    assert (p + [c])[..|p|] == p;
  }

  lemma DedupSnoc(t: seq<string>, x: string)
    ensures Dedup(t + [x]) == if x in Dedup(t) then Dedup(t) else Dedup(t) + [x]
  {
    assert (t + [x])[..|t|] == t;
  }

  /** The outer loop invariant of FindDependencies: the lists, and the key
      set, are what the first methods give. */
  ghost predicate Collected(deps: map<string, seq<string>>, methods: seq<Method>, names: set<string>)
  {
    forall n :: Lookup(deps, n) == DependenciesAmong(methods, names, n) && (n in deps <==> Lookup(deps, n) != [])
  }

  lemma TracksStart(deps: map<string, seq<string>>, methods: seq<Method>, names: set<string>, i: nat)
    requires i < |methods| && Collected(deps, methods[..i], names)
    ensures Tracks(deps, methods, names, i, 0)
  {
    forall n ensures TracksAt(deps, methods, names, i, 0, n) {
      assert PendingCalls(methods, i, 0, n) == CallsOf(methods[..i], n);
    }
  }

  lemma TracksEnd(deps: map<string, seq<string>>, methods: seq<Method>, names: set<string>, i: nat)
    requires i < |methods| && Tracks(deps, methods, names, i, |methods[i].calls|)
    ensures Collected(deps, methods[..i + 1], names)
  {
    var m := methods[i];
    forall n ensures Lookup(deps, n) == DependenciesAmong(methods[..i + 1], names, n)
                     && (n in deps <==> Lookup(deps, n) != []) {
      assert TracksAt(deps, methods, names, i, |m.calls|, n);
      assert methods[..i + 1][..i] == methods[..i];
      assert m.calls[..|m.calls|] == m.calls;
      assert CallsOf(methods[..i + 1], n) == PendingCalls(methods, i, |m.calls|, n);
    }
  }

  lemma CollectedNone(methods: seq<Method>, names: set<string>)
    ensures Collected(map[], methods[..0], names)
  {
    forall n ensures Lookup(map[], n) == DependenciesAmong(methods[..0], names, n) {
      assert CallsOf(methods[..0], n) == [];
    }
  }

  lemma CollectedAll(deps: map<string, seq<string>>, methods: seq<Method>)
    requires Collected(deps, methods, NameSet(methods))
    ensures deps == DependencyMap(methods)
  {
    SameLookupsSameMap(deps, DependencyMap(methods));
  }

  /** The inner loop of `_find_dependencies` (lines 71-75): the calls
      walked in `methods[i]`, each added to its dependency list when it
      targets a method of the class not listed yet. */
  method WalkCalls(deps0: map<string, seq<string>>, methods: seq<Method>, names: set<string>, i: nat)
    returns (deps: map<string, seq<string>>)
    requires i < |methods| && Tracks(deps0, methods, names, i, 0)
    ensures Tracks(deps, methods, names, i, |methods[i].calls|)
  {
    deps := deps0;
    var m := methods[i];
    var j := 0;
    while j < |m.calls|
      invariant 0 <= j <= |m.calls|
      invariant Tracks(deps, methods, names, i, j)
    {
      var c := m.calls[j];
      TracksStep(deps, methods, names, i, j);
      ghost var next := AddCall(deps, m.name, c, names);
      if c.Attribute? && c.attr in names {
        var current := if m.name in deps then deps[m.name] else [];
        if c.attr !in current {
          current := current + [c.attr];
        }
        deps := deps[m.name := current];
      }
      assert deps == next;
      j := j + 1;
    }
  }

  /** `_find_dependencies`: a loop over the methods, walking the calls of
      each. A key exists exactly for the methods that call some method of
      the class. */
  method FindDependencies(methods: seq<Method>) returns (deps: map<string, seq<string>>)
    ensures deps == DependencyMap(methods)
  {
    deps := map[];
    var names := set m | m in methods :: m.name;
    var i := 0;
    CollectedNone(methods, names);
    while i < |methods|
      invariant 0 <= i <= |methods|
      invariant Collected(deps, methods[..i], names)
    {
      TracksStart(deps, methods, names, i);
      deps := WalkCalls(deps, methods, names, i);
      TracksEnd(deps, methods, names, i);
      i := i + 1;
    }
    assert methods[..i] == methods;
    assert names == NameSet(methods);
    CollectedAll(deps, methods);
  }
}
