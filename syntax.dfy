/** The parts of the parse tree the sorter looks at. The parser itself is not
    modelled: these records are what it hands over. */
module Syntax {
  import opened Seqs

  /** A 1-based line number as the parser reports it. */
  type LineNo = n: int | n >= 1 witness 1

  /** The callee of one call expression met while walking a method:
      `x.attr(...)`, `id(...)`, or anything else (`f()()`, `a[0](...)`). */
  datatype Callee = Attribute(attr: string) | Name(id: string) | OtherCallee

  /** A `def` directly inside a class body: its name, the line the parser
      reports for it, the largest line reported by any node inside it, and
      the callees of the calls inside it in walk order. */
  datatype Method = Method(name: string, line: LineNo, lastLine: LineNo, calls: seq<Callee>)

  /** A statement of a class body. Only plain `def`s are methods to the
      sorter; `async def`s and everything else stay where they are. */
  datatype ClassMember = FunctionDef(def: Method) | AsyncFunctionDef(asyncDef: Method) | OtherMember

  /** A top-level class: the line of its `class` keyword and its body. */
  datatype ClassDef = ClassDef(line: LineNo, body: seq<ClassMember>)

  /** A top-level statement of the module. */
  datatype Statement = ClassStatement(cls: ClassDef) | OtherStatement

  /** `_find_classes`: the top-level class definitions, in source order. */
  function FindClasses(body: seq<Statement>): seq<ClassDef>
  {
    if body == [] then []
    else
      var n := |body| - 1;
      var init := FindClasses(body[..n]);
      match body[n]
      case ClassStatement(c) => init + [c]
      case OtherStatement => init
  }

  /** The classes found are exactly the class statements of the module, and
      there are no more of them than statements. */
  lemma {:induction false} FindClassesMembers(body: seq<Statement>)
    ensures forall c :: c in FindClasses(body) <==> ClassStatement(c) in body
    ensures |FindClasses(body)| <= |body|
  {
    if body != [] {
      var n := |body| - 1;
      assert body == body[..n] + [body[n]];
      FindClassesMembers(body[..n]);
    }
  }

  /** FindClasses keeps source order: the classes of a concatenation are
      those of its parts, one after the other. */
  lemma {:induction false} FindClassesAppend(a: seq<Statement>, b: seq<Statement>)
    ensures FindClasses(a + b) == FindClasses(a) + FindClasses(b)
  {
    if b == [] {
      assert a + b == a;
    } else {
      var n := |b| - 1;
      assert (a + b)[..|a + b| - 1] == a + b[..n];
      FindClassesAppend(a, b[..n]);
    }
  }

  /** `[node for node in class_def.body if isinstance(node, FunctionDef)]` */
  function Methods(cls: ClassDef): seq<Method>
  {
    MethodsOf(cls.body)
  }

  function MethodsOf(body: seq<ClassMember>): seq<Method>
  {
    if body == [] then []
    else
      var n := |body| - 1;
      var init := MethodsOf(body[..n]);
      match body[n]
      case FunctionDef(m) => init + [m]
      case _ => init
  }

  /** The methods are exactly the plain `def`s of the class body. */
  lemma {:induction false} MethodsOfMembers(body: seq<ClassMember>)
    ensures forall m :: m in MethodsOf(body) <==> FunctionDef(m) in body
  {
    if body != [] {
      var n := |body| - 1;
      assert body == body[..n] + [body[n]];
      MethodsOfMembers(body[..n]);
    }
  }

  /** The method names in source order, repeats kept. */
  function NameSeq(methods: seq<Method>): (r: seq<string>)
    ensures |r| == |methods| && forall i :: 0 <= i < |methods| ==> r[i] == methods[i].name
  {
    seq(|methods|, i requires 0 <= i < |methods| => methods[i].name)
  }

  /** `set(m.name for m in methods)` */
  function NameSet(methods: seq<Method>): set<string>
  {
    set m | m in methods :: m.name
  }

  predicate DistinctNames(methods: seq<Method>)
  {
    Distinct(NameSeq(methods))
  }

  /** The keys of `{m.name: m for m in methods}` in iteration order: each
      name once, where it first occurs. */
  function MethodDictKeys(methods: seq<Method>): (r: seq<string>)
    ensures Distinct(r) && Elems(r) == NameSet(methods)
    ensures forall i, j :: 0 <= i < j < |r| ==>
      r[i] in NameSeq(methods) && r[j] in NameSeq(methods)
      && FirstIndex(NameSeq(methods), r[i]) < FirstIndex(NameSeq(methods), r[j])
  {
    var names := NameSeq(methods);
    DedupInFirstSeenOrder(names);
    assert forall x :: x in names <==> x in NameSet(methods) by {
      forall x ensures x in names <==> x in NameSet(methods) {
        if x in names {
          var i :| 0 <= i < |names| && names[i] == x;
          assert methods[i] in methods;
        }
      }
    }
    Dedup(names)
  }

  /** `method_dict[name]`: when several methods share a name, the last one. */
  function MethodDictLookup(methods: seq<Method>, name: string): (m: Method)
    requires name in NameSet(methods)
    ensures m.name == name
    ensures exists i :: 0 <= i < |methods| && methods[i] == m
                        && forall j :: i < j < |methods| ==> methods[j].name != name
  {
    var n := |methods| - 1;
    if methods[n].name == name then methods[n]
    else
      assert name in NameSet(methods[..n]) by {
        var x :| x in methods && x.name == name;
        var i :| 0 <= i < |methods| && methods[i] == x;
        assert i < n && methods[..n][i] == x;
      }
      MethodDictLookup(methods[..n], name)
  }

  /** With distinct names, looking up a method's name gives that method. */
  lemma LookupOwnName(methods: seq<Method>, i: nat)
    requires DistinctNames(methods) && i < |methods|
    ensures methods[i].name in NameSet(methods)
    ensures MethodDictLookup(methods, methods[i].name) == methods[i]
  {
    assert methods[i] in methods;
    var m := MethodDictLookup(methods, methods[i].name);
    var k :| 0 <= k < |methods| && methods[k] == m && forall j :: k < j < |methods| ==> methods[j].name != m.name;
    assert NameSeq(methods)[k] == NameSeq(methods)[i];
  }

  /** With distinct names, the dictionary's keys are the names in source order. */
  lemma DictKeysOfDistinct(methods: seq<Method>)
    requires DistinctNames(methods)
    ensures MethodDictKeys(methods) == NameSeq(methods)
  {
    DedupOfDistinct(NameSeq(methods));
  }
}
