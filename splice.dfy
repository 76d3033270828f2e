/** `_sort_methods_within_class` and `step_down_sort`: every method of a
    class owns a range of source lines, the ranges are put back in step-down
    order, and the file is rebuilt around the rewritten classes. */
module Splice {
  import opened Seqs
  import opened Results
  import opened Text
  import opened Syntax
  import opened Dependencies
  import opened StepDown

  /** Lines 58-60: the first line, after `line`, on which a method starts
      (`min` of the following start lines), or None when no method starts
      after it. */
  function NextStart(methods: seq<Method>, line: int): Option<int>
  {
    if methods == [] then None
    else
      var n := |methods| - 1;
      var rest := NextStart(methods[..n], line);
      var l := methods[n].line;
      if l <= line then rest
      else if rest.Some? && rest.value <= l then rest
      else Some(l)
  }

  /** NextStart is the minimum of the start lines greater than `line`. */
  lemma {:induction false} NextStartIsMinimum(methods: seq<Method>, line: int)
    ensures var r := NextStart(methods, line);
            && (r.None? <==> forall k :: 0 <= k < |methods| ==> methods[k].line <= line)
            && (r.Some? ==> r.value > line && exists k :: 0 <= k < |methods| && methods[k].line == r.value)
            && (r.Some? ==> forall k :: 0 <= k < |methods| && methods[k].line > line ==> r.value <= methods[k].line)
  {
    if methods != [] {
      var n := |methods| - 1;
      NextStartIsMinimum(methods[..n], line);
      assert forall k :: 0 <= k < n ==> methods[..n][k] == methods[k];
      var rest := NextStart(methods[..n], line);
      if rest.Some? {
        var k :| 0 <= k < n && methods[..n][k].line == rest.value;
        assert methods[k].line == rest.value;
      }
    }
  }

  /** Lines 58-62: where the range of `m` stops (exclusive, 0-based): the
      line before the next method, or for the method that comes last in the
      class the largest line number found inside it. */
  function Stop(methods: seq<Method>, m: Method): (stop: nat)
    ensures stop >= 1
  {
    NextStartIsMinimum(methods, m.line);
    match NextStart(methods, m.line)
    case Some(l) => l - 1
    case None => m.lastLine
  }

  /** Line 63: the source lines of `m`, from its `def` line up to its stop. */
  function Span(lines: seq<string>, methods: seq<Method>, m: Method): seq<string>
  {
    PySlice(lines, m.line - 1, Stop(methods, m))
  }

  /** The ranges of the methods `g`, one block per method. */
  function SpansOf(lines: seq<string>, methods: seq<Method>, g: seq<Method>): (r: seq<seq<string>>)
    ensures |r| == |g| && forall i :: 0 <= i < |g| ==> r[i] == Span(lines, methods, g[i])
  {
    seq(|g|, i requires 0 <= i < |g| => Span(lines, methods, g[i]))
  }

  /** The methods named `name`, in source order. */
  function Group(methods: seq<Method>, name: string): seq<Method>
  {
    if methods == [] then []
    else
      var n := |methods| - 1;
      Group(methods[..n], name) + (if methods[n].name == name then [methods[n]] else [])
  }

  /** The group of `name` holds exactly the methods of that name. */
  lemma {:induction false} GroupMembers(methods: seq<Method>, name: string)
    ensures forall m :: m in Group(methods, name) <==> m in methods && m.name == name
  {
    if methods != [] {
      var n := |methods| - 1;
      assert methods == methods[..n] + [methods[n]];
      GroupMembers(methods[..n], name);
    }
  }

  /** The methods of every name of `order`, name after name. */
  function GroupAll(methods: seq<Method>, order: seq<string>): seq<Method>
  {
    if order == [] then []
    else
      var n := |order| - 1;
      GroupAll(methods, order[..n]) + Group(methods, order[n])
  }

  /** GroupAll holds exactly the methods whose name is in `order`. */
  lemma {:induction false} GroupAllMembers(methods: seq<Method>, order: seq<string>)
    ensures forall m :: m in GroupAll(methods, order) <==> m in methods && m.name in order
  {
    if order != [] {
      var n := |order| - 1;
      assert order == order[..n] + [order[n]];
      GroupAllMembers(methods, order[..n]);
      GroupMembers(methods, order[n]);
    }
  }

  /** `method_dict[name]` for every name of `order` (line 57). */
  function LastDefinitions(methods: seq<Method>, order: seq<string>): (r: seq<Method>)
    requires forall k :: k in order ==> k in NameSet(methods)
    ensures |r| == |order|
  {
    seq(|order|, i requires 0 <= i < |order| => MethodDictLookup(methods, order[i]))
  }

  /** The callees found by `_find_dependencies` are methods of the class. */
  lemma DependencyMapWithin(methods: seq<Method>)
    ensures DepsWithin(DependencyMap(methods), NameSet(methods))
  {
  }

  /** Lines 45-54: the step-down order of the class's method names, or the
      RecursionError of a cycle. */
  function ClassOrder(cls: ClassDef): (r: Result<seq<string>>)
    ensures r.Ok? ==> Distinct(r.value) && Elems(r.value) == NameSet(Methods(cls))
  {
    var ms := Methods(cls);
    var keys := MethodDictKeys(ms);
    DependencyMapWithin(ms);
    assert forall k :: k in keys ==> k in Elems(keys);
    StepDownOrderSorted(DependencyMap(ms), NameSet(ms), keys);
    StepDownOrder(DependencyMap(ms), NameSet(ms), keys)
  }

  /** The sort of a class fails, with RecursionError, exactly when some
      chain of calls among its methods comes back to where it started. */
  lemma ClassOrderFailsIffCycle(cls: ClassDef)
    ensures ClassOrder(cls).Err? <==> HasCycle(DependencyMap(Methods(cls)))
    ensures ClassOrder(cls).Err? ==> ClassOrder(cls).error == RecursionError
  {
    var ms := Methods(cls);
    DependencyMapWithin(ms);
    StepDownOrderFailsIffCycle(DependencyMap(ms), NameSet(ms), MethodDictKeys(ms));
  }

  /** Line 56: the lines after the `class` line and before the first method. */
  function Prefix(lines: seq<string>, cls: ClassDef): seq<string>
    requires Methods(cls) != []
  {
    PySlice(lines, cls.line, Methods(cls)[0].line - 1)
  }

  lemma PrefixSlice(lines: seq<string>, cls: ClassDef)
    requires Methods(cls) != [] && cls.line <= Methods(cls)[0].line - 1 <= |lines|
    ensures Prefix(lines, cls) == lines[cls.line .. Methods(cls)[0].line - 1]
  {
  }

  /** `_sort_methods_within_class` as written: IndexError for a class
      without methods (line 56), and one range per dictionary key, that of
      the last method of that name (line 57). */
  function ClassRewriteAsWritten(lines: seq<string>, cls: ClassDef): Result<seq<string>>
  {
    var ms := Methods(cls);
    match ClassOrder(cls)
    case Err(e) => Err(e)
    case Ok(order) =>
      if ms == [] then Err(IndexError)
      else
        assert forall k :: k in order ==> k in Elems(order);
        Ok(Prefix(lines, cls) + Concat(SpansOf(lines, ms, LastDefinitions(ms, order))))
  }

  /** The rewrite the sorter evidently intends: a class without methods is
      left alone, and every method of a name keeps its range (a property's
      getter and setter share a name). */
  function ClassRewrite(lines: seq<string>, cls: ClassDef): Result<seq<string>>
  {
    var ms := Methods(cls);
    match ClassOrder(cls)
    case Err(e) => Err(e)
    case Ok(order) =>
      if ms == [] then Ok([])
      else Ok(Prefix(lines, cls) + Concat(SpansOf(lines, ms, GroupAll(ms, order))))
  }

  /** Method start lines strictly increase, as the parser reports them. */
  predicate Ascending(methods: seq<Method>)
  {
    forall i, j :: 0 <= i < j < |methods| ==> methods[i].line < methods[j].line
  }

  /** What the parser guarantees about a class: its methods start after the
      `class` line, in strictly increasing order, and the last one ends
      within the file. */
  predicate WellFormedClass(lines: seq<string>, cls: ClassDef)
  {
    var ms := Methods(cls);
    && cls.line <= |lines|
    && Ascending(ms)
    && (ms != [] ==> cls.line < ms[0].line && ms[|ms| - 1].line <= ms[|ms| - 1].lastLine <= |lines|)
  }

  /** The end (exclusive, 0-based) of the lines a class rewrite replaces:
      the last line of the method that comes last, or, for a class without
      methods, the `class` line itself, so that nothing is replaced. */
  function RegionEnd(cls: ClassDef): nat
  {
    var ms := Methods(cls);
    if ms == [] then cls.line else ms[|ms| - 1].lastLine
  }

  /** In a well-formed class a method's range stops right before the next
      method in source order, and the last method's at its last line. */
  lemma StopInOrder(methods: seq<Method>, i: nat)
    requires Ascending(methods) && i < |methods|
    ensures Stop(methods, methods[i]) == if i + 1 < |methods| then methods[i + 1].line - 1 else methods[i].lastLine
  {
    NextStartIsMinimum(methods, methods[i].line);
    var r := NextStart(methods, methods[i].line);
    if i + 1 < |methods| {
      assert methods[i + 1].line > methods[i].line;
      var k :| 0 <= k < |methods| && methods[k].line == r.value;
      assert k == i + 1;
    } else {
      forall k | 0 <= k < |methods| ensures methods[k].line <= methods[i].line {
        if k < i {
          assert methods[k].line < methods[i].line;
        }
      }
    }
  }

  lemma SpansOfAppend(lines: seq<string>, methods: seq<Method>, a: seq<Method>, b: seq<Method>)
    ensures SpansOf(lines, methods, a + b) == SpansOf(lines, methods, a) + SpansOf(lines, methods, b)
  {
  }

  /** Where the tiling of the first `k` method ranges ends. */
  function TileEnd(methods: seq<Method>, k: nat): int
    requires 0 < k <= |methods|
  {
    if k < |methods| then methods[k].line - 1 else methods[k - 1].lastLine
  }

  /** The last line of the last method is within the file. */
  predicate EndsWithin(lines: seq<string>, methods: seq<Method>)
  {
    methods != [] ==> methods[|methods| - 1].line <= methods[|methods| - 1].lastLine <= |lines|
  }

  lemma SpanInOrder(lines: seq<string>, methods: seq<Method>, i: nat)
    requires Ascending(methods) && EndsWithin(lines, methods) && i < |methods|
    ensures methods[i].line - 1 <= TileEnd(methods, i + 1) <= |lines|
    ensures Span(lines, methods, methods[i]) == lines[methods[i].line - 1 .. TileEnd(methods, i + 1)]
  {
    StopInOrder(methods, i);
    var last := |methods| - 1;
    if i + 1 < last {
      assert methods[i + 1].line < methods[last].line;
    }
  }

  /** Lines 57-63 in source order: the ranges of the methods tile the lines
      from the first `def` to the end of the last method, without gap or
      overlap. */
  lemma {:induction false} SourceOrderTiles(lines: seq<string>, methods: seq<Method>, k: nat)
    requires Ascending(methods) && EndsWithin(lines, methods) && 0 < k <= |methods|
    ensures methods[0].line - 1 <= TileEnd(methods, k) <= |lines|
    ensures Concat(SpansOf(lines, methods, methods[..k])) == lines[methods[0].line - 1 .. TileEnd(methods, k)]
  {
    var m := methods[k - 1];
    var a, b, c := methods[0].line - 1, m.line - 1, TileEnd(methods, k);
    var x, y := Concat(SpansOf(lines, methods, methods[..k - 1])), Span(lines, methods, m);
    assert y == lines[b..c] && b <= c <= |lines| by {
      SpanInOrder(lines, methods, k - 1);
    }
    assert Concat(SpansOf(lines, methods, methods[..k])) == x + y by {
      assert methods[..k] == methods[..k - 1] + [m];
      ConcatSpansSnoc(lines, methods, methods[..k - 1], m);
    }
    if k == 1 {
      assert x == [] by {
        assert SpansOf(lines, methods, methods[..0]) == [];
      }
      JoinSlices(lines, x, y, a, b, c);
    } else {
      assert x == lines[a..b] && a <= b by {
        SourceOrderTiles(lines, methods, k - 1);
        assert TileEnd(methods, k - 1) == b;
      }
      JoinSlices(lines, x, y, a, b, c);
    }
  }


  lemma AscendingDistinct(methods: seq<Method>)
    requires Ascending(methods)
    ensures Distinct(methods)
  {
    forall i, j | 0 <= i < j < |methods| ensures methods[i] != methods[j] {
      assert methods[i].line < methods[j].line;
    }
  }

  lemma {:induction false} GroupDistinct(methods: seq<Method>, name: string)
    requires Distinct(methods)
    ensures Distinct(Group(methods, name))
  {
    if methods != [] {
      var n := |methods| - 1;
      assert Distinct(methods[..n]);
      GroupDistinct(methods[..n], name);
      GroupMembers(methods[..n], name);
      assert methods[n] !in methods[..n];
      DistinctAppend(Group(methods[..n], name), if methods[n].name == name then [methods[n]] else []);
    }
  }

  lemma {:induction false} GroupAllDistinct(methods: seq<Method>, order: seq<string>)
    requires Distinct(methods) && Distinct(order)
    ensures Distinct(GroupAll(methods, order))
  {
    if order != [] {
      var n := |order| - 1;
      assert Distinct(order[..n]);
      GroupAllDistinct(methods, order[..n]);
      GroupDistinct(methods, order[n]);
      GroupAllMembers(methods, order[..n]);
      GroupMembers(methods, order[n]);
      assert order[n] !in order[..n];
      DistinctAppend(GroupAll(methods, order[..n]), Group(methods, order[n]));
    }
  }

  /** Taking the methods name by name, over all names once, takes each
      method once. */
  lemma GroupAllPermutation(methods: seq<Method>, order: seq<string>)
    requires Distinct(methods) && Distinct(order) && Elems(order) == NameSet(methods)
    ensures multiset(GroupAll(methods, order)) == multiset(methods)
  {
    GroupAllDistinct(methods, order);
    var g := GroupAll(methods, order);
    GroupAllMembers(methods, order);
    forall m ensures m in Elems(g) <==> m in Elems(methods) {
      if m in methods {
        assert m.name in NameSet(methods);
        assert m.name in Elems(order);
      }
    }
    DistinctPermutation(g, methods);
  }

  /** Reordering the methods reorders their ranges. */
  lemma {:induction false} SpansOfPermutation(lines: seq<string>, methods: seq<Method>, a: seq<Method>, b: seq<Method>)
    requires multiset(a) == multiset(b)
    ensures multiset(SpansOf(lines, methods, a)) == multiset(SpansOf(lines, methods, b))
    decreases |a|
  {
    if a == [] {
      assert |b| == |multiset(b)| == 0;
    } else {
      var n := |a| - 1;
      var x := a[n];
      assert x in multiset(b) by {
        assert a == a[..n] + [x];
      }
      var k :| 0 <= k < |b| && b[k] == x;
      RemoveMatching(a, b, k);
      SpansOfPermutation(lines, methods, a[..n], b[..k] + b[k + 1..]);
      SpansAround(lines, methods, b, k);
      assert SpansOf(lines, methods, a) == SpansOf(lines, methods, a[..n]) + [Span(lines, methods, x)] by {
        SpansOfAppend(lines, methods, a[..n], [x]);
        assert a == a[..n] + [x];
      }
      InsertBlock(SpansOf(lines, methods, b[..k]), [Span(lines, methods, x)], SpansOf(lines, methods, b[k + 1..]));
    }
  }

  /** The ranges around the method at index `k`. */
  lemma SpansAround(lines: seq<string>, methods: seq<Method>, b: seq<Method>, k: nat)
    requires k < |b|
    ensures SpansOf(lines, methods, b)
         == SpansOf(lines, methods, b[..k]) + [Span(lines, methods, b[k])] + SpansOf(lines, methods, b[k + 1..])
    ensures SpansOf(lines, methods, b[..k] + b[k + 1..])
         == SpansOf(lines, methods, b[..k]) + SpansOf(lines, methods, b[k + 1..])
  {
    SplitAt(b, k);
    SpansOfAppend(lines, methods, b[..k] + [b[k]], b[k + 1..]);
    SpansOfAppend(lines, methods, b[..k], [b[k]]);
    SpansOfAppend(lines, methods, b[..k], b[k + 1..]);
  }


  /** Keeping the front and rearranging the rest rearranges the whole. */
  lemma SameFrontRearranged<T>(front: seq<T>, body: seq<T>, moved: seq<T>)
    requires multiset(body) == multiset(moved)
    ensures multiset(front + moved) == multiset(front + body)
    ensures |front + moved| == |front + body|
  {
    assert |multiset(body)| == |body| && |multiset(moved)| == |moved|;
  }

  /** Lines 56-64: for a well-formed class whose sort finishes, the rewrite
      has exactly the lines it replaces, `lines[cls.line..RegionEnd(cls)]`,
      rearranged: the prefix before the first method stays first, and the
      method ranges follow in step-down order. */
  lemma ClassRewriteRearranges(lines: seq<string>, cls: ClassDef)
    requires WellFormedClass(lines, cls)
    ensures cls.line <= RegionEnd(cls) <= |lines|
    ensures ClassRewrite(lines, cls).Ok? <==> ClassOrder(cls).Ok?
    ensures ClassRewrite(lines, cls).Ok? ==>
      var block := ClassRewrite(lines, cls).value;
      && multiset(block) == multiset(lines[cls.line .. RegionEnd(cls)])
      && |block| == RegionEnd(cls) - cls.line
  {
    var ms := Methods(cls);
    if ms == [] {
      assert RegionEnd(cls) == cls.line;
      assert ClassOrder(cls).Ok? ==> ClassRewrite(lines, cls) == Ok([]);
    } else {
      var last := |ms| - 1;
      assert ms[0].line <= ms[last].line;
      assert RegionEnd(cls) == ms[last].lastLine;
      if ClassOrder(cls).Ok? {
        MethodsRearranged(lines, cls, ClassOrder(cls).value);
      }
    }
  }

  /** The rewrite of a class with methods, when its order is `order`. */
  lemma MethodsRearranged(lines: seq<string>, cls: ClassDef, order: seq<string>)
    requires WellFormedClass(lines, cls) && Methods(cls) != [] && ClassOrder(cls) == Ok(order)
    ensures var e := Methods(cls)[|Methods(cls)| - 1].lastLine;
      && cls.line <= e <= |lines|
      && ClassRewrite(lines, cls).Ok?
      && multiset(ClassRewrite(lines, cls).value) == multiset(lines[cls.line .. e])
      && |ClassRewrite(lines, cls).value| == e - cls.line
  {
    var ms := Methods(cls);
    var last := |ms| - 1;
    assert ms[0].line <= ms[last].line;
    var a, b, e := cls.line, ms[0].line - 1, ms[last].lastLine;
    var body := lines[b..e];
    var moved := Concat(SpansOf(lines, ms, GroupAll(ms, order)));
    assert multiset(moved) == multiset(body) by {
      assert Distinct(order) && Elems(order) == NameSet(ms);
      MethodRangesRearranged(lines, ms, order);
    }
    var prefix := lines[a..b];
    assert Prefix(lines, cls) == prefix by {
      PrefixSlice(lines, cls);
    }
    ClassRewriteOk(lines, cls, order);
    SliceSplit(lines, a, b, e);
    SameFrontRearranged(prefix, body, moved);
    RearrangedResult(ClassRewrite(lines, cls), prefix + moved, lines[a..e]);
  }


  lemma RearrangedResult(x: Result<seq<string>>, block: seq<string>, region: seq<string>)
    requires x == Ok(block) && multiset(block) == multiset(region) && |block| == |region|
    ensures x.Ok? && multiset(x.value) == multiset(region) && |x.value| == |region|
  {
  }


  /** The method ranges, taken name by name over every name once, are the
      lines from the first `def` to the end of the last method, rearranged. */
  lemma MethodRangesRearranged(lines: seq<string>, ms: seq<Method>, order: seq<string>)
    requires Ascending(ms) && EndsWithin(lines, ms) && ms != []
    requires Distinct(order) && Elems(order) == NameSet(ms)
    ensures ms[0].line - 1 <= ms[|ms| - 1].lastLine <= |lines|
    ensures multiset(Concat(SpansOf(lines, ms, GroupAll(ms, order))))
         == multiset(lines[ms[0].line - 1 .. ms[|ms| - 1].lastLine])
  {
    SourceOrderTiles(lines, ms, |ms|);
    assert ms[..|ms|] == ms;
    AscendingDistinct(ms);
    GroupAllPermutation(ms, order);
    var g := GroupAll(ms, order);
    SpansOfPermutation(lines, ms, g, ms);
    ConcatPermutation(SpansOf(lines, ms, g), SpansOf(lines, ms, ms));
  }


  /** No method calls a method of its own class through an attribute. */
  predicate NoSelfCalls(methods: seq<Method>)
  {
    forall i, d :: 0 <= i < |methods| && Attribute(d) in methods[i].calls ==> d !in NameSet(methods)
  }

  /** Line 56: a rewrite that succeeds starts with the lines between the
      `class` line and the first `def`, unchanged (fields, docstring). */
  lemma ClassRewriteKeepsPrefix(lines: seq<string>, cls: ClassDef)
    requires WellFormedClass(lines, cls) && Methods(cls) != [] && ClassRewrite(lines, cls).Ok?
    ensures var b := Methods(cls)[0].line - 1;
      var block := ClassRewrite(lines, cls).value;
      && cls.line <= b <= |lines| && b - cls.line <= |block|
      && block[..b - cls.line] == lines[cls.line .. b]
  {
    var ms := Methods(cls);
    var last := |ms| - 1;
    assert ms[0].line <= ms[last].line;
    var b := ms[0].line - 1;
    var order := ClassOrder(cls).value;
    ClassRewriteOk(lines, cls, order);
    PrefixSlice(lines, cls);
    var prefix := lines[cls.line .. b];
    var block := ClassRewrite(lines, cls).value;
    assert block == prefix + Concat(SpansOf(lines, ms, GroupAll(ms, order)));
    assert block[..|prefix|] == prefix;
  }

  /** A method that calls its own name through an attribute (`self.f()`
      inside `f`, or `super().f()`) is a dependency of itself, so the sort
      of its class raises RecursionError. */
  lemma SelfAttributeCallRecurses(cls: ClassDef, i: nat)
    requires i < |Methods(cls)| && Attribute(Methods(cls)[i].name) in Methods(cls)[i].calls
    ensures ClassOrder(cls) == Err(RecursionError)
  {
    var ms := Methods(cls);
    var n := ms[i].name;
    var deps := DependencyMap(ms);
    assert ms[i] in ms;
    assert n in Lookup(deps, n);
    var w := [n, n];
    assert IsWalk(deps, w) by {
      forall k | 0 <= k < |w| - 1 ensures w[k + 1] in Lookup(deps, w[k]) {
        assert k == 0;
      }
    }
    assert IsCycle(deps, w);
    ClassOrderFailsIffCycle(cls);
  }

  /** `super().__init__()` inside `__init__` is an attribute call to
      `__init__`: the walk meets the call of the attribute, then the call of
      `super`. */
  lemma SuperInitRecurses()
    ensures ClassOrder(ClassDef(1, [FunctionDef(Method("__init__", 2, 3, [Attribute("__init__"), Name("super")]))]))
            == Err(RecursionError)
  {
    var m := Method("__init__", 2, 3, [Attribute("__init__"), Name("super")]);
    var cls := ClassDef(1, [FunctionDef(m)]);
    assert [FunctionDef(m)][..0] == [];
    assert MethodsOf([FunctionDef(m)]) == [m];
    SelfAttributeCallRecurses(cls, 0);
  }

  /** Without calls between its methods a class keeps the dictionary order
      of its method names. */
  lemma ClassOrderWithoutSelfCalls(cls: ClassDef)
    requires NoSelfCalls(Methods(cls))
    ensures ClassOrder(cls) == Ok(MethodDictKeys(Methods(cls)))
  {
    var ms := Methods(cls);
    var deps := DependencyMap(ms);
    forall n ensures Lookup(deps, n) == [] {
      NoSelfCallsNoEdges(ms, n);
    }
    var keys := MethodDictKeys(ms);
    DependencyMapWithin(ms);
    assert [] + keys == keys;
    assert forall k :: k in keys ==> k in Elems(keys);
    NoDependenciesKeepOrder(deps, NameSet(ms), keys, []);
  }

  /** With distinct names, the methods of a method's name are that method. */
  lemma GroupOfDistinctName(methods: seq<Method>, i: nat)
    requires DistinctNames(methods) && i < |methods|
    ensures Group(methods, methods[i].name) == [methods[i]]
  {
    GroupPrefix(methods, i, |methods|);
    assert methods[..|methods|] == methods;
  }

  lemma {:induction false} GroupPrefix(methods: seq<Method>, i: nat, j: nat)
    requires DistinctNames(methods) && i < |methods| && j <= |methods|
    ensures Group(methods[..j], methods[i].name) == if j <= i then [] else [methods[i]]
  {
    if j > 0 {
      var p := methods[..j];
      assert p[..j - 1] == methods[..j - 1];
      GroupPrefix(methods, i, j - 1);
      var names := NameSeq(methods);
      assert names[j - 1] == methods[j - 1].name && names[i] == methods[i].name;
      assert methods[j - 1].name == methods[i].name <==> j - 1 == i;
      assert Group(p, methods[i].name) == Group(p[..j - 1], methods[i].name)
        + (if p[j - 1].name == methods[i].name then [p[j - 1]] else []);
    }
  }

  lemma {:induction false} GroupAllInSourceOrder(methods: seq<Method>, k: nat)
    requires DistinctNames(methods) && k <= |methods|
    ensures GroupAll(methods, NameSeq(methods)[..k]) == methods[..k]
  {
    if k > 0 {
      var o := NameSeq(methods)[..k];
      assert o[..k - 1] == NameSeq(methods)[..k - 1];
      assert o[k - 1] == methods[k - 1].name;
      GroupAllInSourceOrder(methods, k - 1);
      GroupOfDistinctName(methods, k - 1);
      assert GroupAll(methods, o) == GroupAll(methods, o[..k - 1]) + Group(methods, o[k - 1]);
      assert methods[..k] == methods[..k - 1] + [methods[k - 1]];
    }
  }

  /** When the step-down order is the source order, the rewrite gives back
      exactly the lines it replaces. */
  lemma ClassRewriteInSourceOrder(lines: seq<string>, cls: ClassDef)
    requires WellFormedClass(lines, cls) && DistinctNames(Methods(cls))
    requires ClassOrder(cls) == Ok(NameSeq(Methods(cls)))
    ensures cls.line <= RegionEnd(cls) <= |lines|
    ensures ClassRewrite(lines, cls) == Ok(lines[cls.line .. RegionEnd(cls)])
  {
    var ms := Methods(cls);
    if ms != [] {
      var last := |ms| - 1;
      assert ms[0].line <= ms[last].line;
      var order := NameSeq(ms);
      GroupAllInSourceOrder(ms, |ms|);
      assert order[..|ms|] == order && ms[..|ms|] == ms;
      assert GroupAll(ms, order) == ms;
      SourceOrderTiles(lines, ms, |ms|);
      var body := Concat(SpansOf(lines, ms, ms));
      assert body == lines[ms[0].line - 1 .. ms[last].lastLine];
      assert ClassRewrite(lines, cls) == Ok(Prefix(lines, cls) + body);
      assert cls.line <= ms[0].line - 1 <= |lines|;
      PrefixSlice(lines, cls);
      SliceSplit(lines, cls.line, ms[0].line - 1, ms[last].lastLine);
    } else {
      assert ClassRewrite(lines, cls) == Ok([]);
      assert lines[cls.line .. cls.line] == [];
    }
  }

  /** A class whose methods call no method of the class is left as it is. */
  lemma ClassWithoutSelfCallsUnchanged(lines: seq<string>, cls: ClassDef)
    requires WellFormedClass(lines, cls) && DistinctNames(Methods(cls)) && NoSelfCalls(Methods(cls))
    ensures cls.line <= RegionEnd(cls) <= |lines|
    ensures ClassRewrite(lines, cls) == Ok(lines[cls.line .. RegionEnd(cls)])
  {
    ClassOrderWithoutSelfCalls(cls);
    DictKeysOfDistinct(Methods(cls));
    ClassRewriteInSourceOrder(lines, cls);
  }

  lemma LookupIsGroup(methods: seq<Method>, name: string)
    requires DistinctNames(methods) && name in NameSet(methods)
    ensures Group(methods, name) == [MethodDictLookup(methods, name)]
  {
    var m := MethodDictLookup(methods, name);
    var i :| 0 <= i < |methods| && methods[i] == m;
    GroupOfDistinctName(methods, i);
  }

  lemma LastDefinitionsSnoc(methods: seq<Method>, order: seq<string>)
    requires order != [] && forall k :: k in order ==> k in NameSet(methods)
    ensures var n := |order| - 1;
            (forall k :: k in order[..n] ==> k in NameSet(methods))
            && LastDefinitions(methods, order) == LastDefinitions(methods, order[..n]) + [MethodDictLookup(methods, order[n])]
  {
    var n := |order| - 1;
    assert forall k :: k in order[..n] ==> k in order;
  }

  lemma {:induction false} LastDefinitionsOfDistinct(methods: seq<Method>, order: seq<string>)
    requires DistinctNames(methods) && forall k :: k in order ==> k in NameSet(methods)
    ensures LastDefinitions(methods, order) == GroupAll(methods, order)
  {
    if order != [] {
      var n := |order| - 1;
      LastDefinitionsSnoc(methods, order);
      LastDefinitionsOfDistinct(methods, order[..n]);
      LookupIsGroup(methods, order[n]);
    }
  }

  /** For a class with methods whose names are distinct, the corrected
      rewrite is the rewrite as written. */
  lemma AsWrittenAgreesWhenNamesDistinct(lines: seq<string>, cls: ClassDef)
    requires Methods(cls) != [] && DistinctNames(Methods(cls))
    ensures ClassRewriteAsWritten(lines, cls) == ClassRewrite(lines, cls)
  {
    var r := ClassOrder(cls);
    if r.Ok? {
      assert forall k :: k in r.value ==> k in Elems(r.value);
      LastDefinitionsOfDistinct(Methods(cls), r.value);
    }
  }

  /** Line 56 indexes `methods[0]`, so a class without methods (only
      attributes, say) raises IndexError; the corrected rewrite leaves such
      a class alone. */
  lemma ClassWithoutMethodsRaises(lines: seq<string>)
    ensures ClassRewriteAsWritten(lines, ClassDef(1, [OtherMember])) == Err(IndexError)
    ensures ClassRewrite(lines, ClassDef(1, [OtherMember])) == Ok([])
  {
    var cls := ClassDef(1, [OtherMember]);
    assert Methods(cls) == [];
    ClassOrderWithoutSelfCalls(cls);
  }

  /** The class of the counterexample below: a property whose getter and
      setter both define `x`, one line each. */
  function SharedNameClass(): ClassDef
  {
    ClassDef(1, [FunctionDef(Method("x", 2, 2, [])), FunctionDef(Method("x", 3, 3, []))])
  }

  lemma SharedNameMethodList()
    ensures Methods(SharedNameClass()) == [Method("x", 2, 2, []), Method("x", 3, 3, [])]
  {
    var g, st := Method("x", 2, 2, []), Method("x", 3, 3, []);
    var cls := SharedNameClass();
    assert cls.body[..1] == [FunctionDef(g)];
    assert [FunctionDef(g)][..0] == [];
    assert MethodsOf([FunctionDef(g)]) == [g];
  }

  lemma SharedNameWellFormed(lines: seq<string>)
    requires |lines| >= 3
    ensures WellFormedClass(lines, SharedNameClass()) && RegionEnd(SharedNameClass()) == 3
  {
    SharedNameMethodList();
  }

  lemma SharedNameMethods()
    ensures var ms := Methods(SharedNameClass());
            && ms == [Method("x", 2, 2, []), Method("x", 3, 3, [])]
            && MethodDictKeys(ms) == ["x"]
            && MethodDictLookup(ms, "x") == ms[1]
            && Group(ms, "x") == ms
  {
    SharedNameMethodList();
    var ms := Methods(SharedNameClass());
    var g := ms[0];
    assert NameSeq(ms) == ["x", "x"];
    assert ["x", "x"][..1] == ["x"] && ["x"][..0] == [];
    assert Dedup(["x"]) == ["x"];
    assert ms[..1] == [g] && [g][..0] == [];
    assert Group([g], "x") == [g];
  }

  lemma SharedNameSpans(lines: seq<string>, ms: seq<Method>)
    requires |lines| >= 3 && ms == [Method("x", 2, 2, []), Method("x", 3, 3, [])]
    ensures SpansOf(lines, ms, [ms[1]]) == [[lines[2]]]
    ensures SpansOf(lines, ms, ms) == [[lines[1]], [lines[2]]]
  {
    StopInOrder(ms, 0);
    StopInOrder(ms, 1);
    assert Span(lines, ms, ms[0]) == [lines[1]];
    assert Span(lines, ms, ms[1]) == [lines[2]];
  }

  lemma SharedNameOrder()
    ensures ClassOrder(SharedNameClass()) == Ok(["x"])
  {
    SharedNameMethods();
    ClassOrderWithoutSelfCalls(SharedNameClass());
  }

  lemma SharedNameAsWritten(lines: seq<string>)
    requires |lines| >= 3
    ensures ClassRewriteAsWritten(lines, SharedNameClass()) == Ok([lines[2]])
  {
    var cls := SharedNameClass();
    SharedNameMethods();
    SharedNameOrder();
    var ms := Methods(cls);
    assert LastDefinitions(ms, ["x"]) == [ms[1]];
    SharedNameSpans(lines, ms);
    assert Prefix(lines, cls) == [];
    assert Concat([[lines[2]]]) == [lines[2]] by {
      assert [[lines[2]]][..0] == [];
    }
  }

  lemma ConcatPair<T>(a: seq<T>, b: seq<T>)
    ensures Concat([a, b]) == a + b
  {
    assert [a, b][..1] == [a] && [a][..0] == [];
    assert Concat([a]) == Concat([]) + a;
    assert Concat([a, b]) == Concat([a]) + b;
  }

  lemma SharedNameGroupAll()
    ensures GroupAll(Methods(SharedNameClass()), ["x"]) == Methods(SharedNameClass())
  {
    SharedNameMethods();
    assert ["x"][..0] == [];
  }

  lemma ClassRewriteOk(lines: seq<string>, cls: ClassDef, order: seq<string>)
    requires Methods(cls) != [] && ClassOrder(cls) == Ok(order)
    ensures ClassRewrite(lines, cls) == Ok(Prefix(lines, cls) + Concat(SpansOf(lines, Methods(cls), GroupAll(Methods(cls), order))))
  {
  }

  lemma SharedNamePrefix(lines: seq<string>)
    requires |lines| >= 3
    ensures Methods(SharedNameClass()) != [] && Prefix(lines, SharedNameClass()) == []
  {
    SharedNameMethodList();
  }

  lemma SharedNameCorrected(lines: seq<string>, cls: ClassDef)
    requires |lines| >= 3 && cls == SharedNameClass()
    ensures ClassRewrite(lines, cls) == Ok([lines[1], lines[2]])
  {
    var ms := Methods(cls);
    calc {
      ClassRewrite(lines, cls);
      == { SharedNameOrder(); SharedNamePrefix(lines); ClassRewriteOk(lines, cls, ["x"]); }
      Ok(Prefix(lines, cls) + Concat(SpansOf(lines, ms, GroupAll(ms, ["x"]))));
      == { SharedNamePrefix(lines); SharedNameGroupAll(); }
      Ok([] + Concat(SpansOf(lines, ms, ms)));
      == { SharedNameMethods(); SharedNameSpans(lines, ms); }
      Ok([] + Concat([[lines[1]], [lines[2]]]));
      == { ConcatPair([lines[1]], [lines[2]]); }
      Ok([] + ([lines[1]] + [lines[2]]));
      == { assert [] + ([lines[1]] + [lines[2]]) == [lines[1], lines[2]]; }
      Ok([lines[1], lines[2]]);
    }
  }

  /** Line 57 takes one range per name, that of the last `def` of the name:
      of a getter and a setter both called `x`, the rewrite keeps the
      setter's line and drops the getter's, one line short of the two it
      replaces, while the corrected rewrite keeps both. */
  lemma SharedNameLosesLines(getter: string, setter: string)
    ensures var lines := ["class C:", getter, setter];
            var cls := SharedNameClass();
            && RegionEnd(cls) == 3
            && ClassRewriteAsWritten(lines, cls) == Ok([setter])
            && ClassRewrite(lines, cls) == Ok([getter, setter])
  {
    var lines := ["class C:", getter, setter];
    SharedNameMethodList();
    SharedNameAsWritten(lines);
    SharedNameCorrected(lines, SharedNameClass());
  }

  lemma ConcatSpansSnoc(lines: seq<string>, methods: seq<Method>, g: seq<Method>, m: Method)
    ensures Concat(SpansOf(lines, methods, g + [m])) == Concat(SpansOf(lines, methods, g)) + Span(lines, methods, m)
  {
    SpansOfAppend(lines, methods, g, [m]);
    ConcatAppend(SpansOf(lines, methods, g), SpansOf(lines, methods, [m]));
    assert SpansOf(lines, methods, [m]) == [Span(lines, methods, m)];
    assert Concat([Span(lines, methods, m)]) == Concat([]) + Span(lines, methods, m);
  }

  /** `_sort_methods_within_class` with the two corrections: the dependency
      map, the step-down order from a fresh `sorted_dict`, then the prefix
      and the range of every method, name after name (line 57 takes
      `GroupAll` of the order where it took one method per name). */
  method SortMethodsWithinClass(lines: seq<string>, cls: ClassDef) returns (r: Result<seq<string>>)
    ensures r == ClassRewrite(lines, cls)
  {
    var ms := Methods(cls);
    var keys := MethodDictKeys(ms);
    var deps := FindDependencies(ms);
    DependencyMapWithin(ms);
    assert forall k :: k in keys ==> k in Elems(keys);
    var sorted := SortKeys(deps, NameSet(ms), keys);
    if sorted.Err? {
      return Err(sorted.error);
    }
    if ms == [] {
      return Ok([]);
    }
    var result := ExtendWithSpans(lines, ms, GroupAll(ms, sorted.value), Prefix(lines, cls));
    return Ok(result);
  }

  /** Lines 57-63: the range of every method of `ordered` appended to
      `result0`, one after the other. */
  method ExtendWithSpans(lines: seq<string>, methods: seq<Method>, ordered: seq<Method>, result0: seq<string>)
    returns (result: seq<string>)
    ensures result == result0 + Concat(SpansOf(lines, methods, ordered))
  {
    result := result0;
    ghost var spans := SpansOf(lines, methods, ordered);
    var i := 0;
    while i < |ordered|
      invariant 0 <= i <= |ordered|
      invariant result == result0 + Concat(spans[..i])
    {
      var span := Span(lines, methods, ordered[i]);
      assert span == spans[i];
      ExtendStep(result0, spans, i);
      result := result + span;
      i := i + 1;
    }
    assert spans[..i] == spans;
  }
}
