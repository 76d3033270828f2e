# sdsort: a verified model of step-down method sorting

sdsort rewrites a Python file so that, inside every top-level class, a
method comes before the methods it calls through an attribute
(`self.helper()`): the "step-down" order. It never edits a line. Instead,
every method owns a range of source lines, from its `def` line up to the
line before the next method (the last method's range runs to the largest
line number inside it). The class body becomes:

- the lines between the `class` line and the first method (fields,
  docstring), unchanged;
- then the method ranges in step-down order.

The file is rebuilt around the rewritten classes, with the length of the
output so far as the read cursor.

The model follows `sdsort/__init__.py` piece by piece:

| piece | module | file |
|---|---|---|
| newline normalisation of `_read_file` | `Text` | `text.dfy` |
| splitting into lines and joining them | `Text` | `text.dfy` |
| the parse-tree records the sorter reads | `Syntax` | `syntax.dfy` |
| `_find_classes` | `Syntax` | `syntax.dfy` |
| `_find_dependencies` | `Dependencies` | `dependencies.dfy` |
| `_depth_first_sort` over the insertion-ordered `sorted_dict` | `StepDown` | `stepdown.dfy` |
| `_sort_methods_within_class` | `Splice` | `splice.dfy` |
| the splicing loop of `step_down_sort` | `Sorter` | `sorter.dfy` |

Two shared modules support them: `Seqs` holds sequence vocabulary, and
`Results` holds the exceptions and result values.

The code follows the source's own form:

- Methods with loops and invariants, each proved against a specification
  function:
  - `_find_dependencies` and its nested loops are
    `Dependencies.FindDependencies` and `Dependencies.WalkCalls`.
  - The pop-and-reinsert on `sorted_dict` is `StepDown.SortedDict`, a class
    whose `keys` field the method updates.
  - The recursion of `_depth_first_sort` is `StepDown.DepthFirstSort`.
  - The `extend` loops are `Splice.ExtendWithSpans` and
    `Sorter.StepDownSort`.
- Functions for the pure parts: the normalisation and `_find_classes`.

The main results are:

- **Step-down order.** When the sort of a class finishes, the final key
  order holds every method name exactly once, and every method comes before
  each method it calls.
- **Failure exactly on cycles.** The sort fails, with RecursionError,
  exactly when some chain of calls among the methods of a class comes back
  to where it started.
- **Class rewrite.** A class rewrite returns exactly as many lines as it
  replaces, and they are those same lines rearranged.
- **Rebuilt file.** Every line outside the class regions keeps its index,
  and the output is a rearrangement of the source lines.
- **Nothing to move.** When nothing needs to move (no calls between the
  methods of a class, and no two methods of one name), the file comes back
  with only its line terminators normalised.
- **Prefix in place.** The lines between a `class` line and its first
  method (fields, docstring) keep their indices in the rebuilt file.

The model takes the parser's output and the text of the file as inputs:

- A method is a record: its name, its `lineno`, the largest `lineno` found
  by `ast.walk` inside it, and the callees of its `Call` nodes in walk order.
- A class is its `lineno` and its body.
- The module is its list of top-level statements.

### Where the model extends or corrects the code

- **Cycles.** `_depth_first_sort` has no cycle guard (line 89 is a TODO). On
  a cycle it re-enters a method whose call is still on the stack and never
  returns, which Python ends with RecursionError. The model carries the
  stack of active calls as `path` and returns `Err(RecursionError)` at the
  point of re-entry. On acyclic dependencies this changes nothing.
- **Calls to a method of the same name.** A method that calls an attribute
  bearing its own name is its own dependency, even when the call goes to
  another object. `super().__init__()` inside `__init__` is such a call, so
  the sorter re-enters `__init__` forever and raises RecursionError
  (`Splice.SelfAttributeCallRecurses`, `Splice.SuperInitRecurses`). The
  model records this consequence of lines 72-74 and does not correct it.
- **Three defects, corrected** (see "## Findings"):
  - a class without methods raises IndexError;
  - two methods that share a name (a property's getter and setter) lose
    lines;
  - `str.splitlines` splits at more than LF.

  For each, the code as written is modelled and the defect exhibited. The
  rest of the model (`Splice.ClassRewrite`, `Sorter.SortedText`) uses the
  corrected behaviour.
- **The dataclass fixture.** `test/cases/dataclass.out.py` expects a blank
  line between `__repr__` and `salute`, and none after `salute`. The code
  moves each method's range whole, together with its trailing blank line,
  so it produces the opposite. `test/test_sdsort.py` runs only the cases
  listed at line 10, and the dataclass case is still a TODO there. The
  model follows the code.
- **Decorators.** Ranges start at the line the parser reports for a
  method. When that is the `def` line, a decorator line above it falls into
  the range of the method before it, or, for the first method, into the
  prefix kept in place (line 56). Which line the parser reports is part of
  the input (see "## Left out"). The model keeps this.

## Model

| member | source | states |
|---|---|---|
| Text.ReplaceCrLf | sdsort/__init__.py:29 | the CR LF replacement of line 29; it never lengthens the text, and `Text.ReplaceCrLfKeepsText` and `Text.ReplaceCrLfWithoutCr` state what it keeps |
| Text.ReplaceCr | sdsort/__init__.py:29 | the lone-CR replacement of line 29: the text keeps its length, each CR becomes an LF at its own index, every other character stays at its index, and no CR remains |
| Text.Normalize | sdsort/__init__.py:29-31 | the result has no CR and ends with LF; the characters other than CR and LF survive in order; text that has no CR and already ends with LF is returned unchanged; `Text.NormalizeKeepsLines` states where the terminators go |
| Text.NormalizeKeepsLines | sdsort/__init__.py:29-31 | for non-empty text whose only line boundaries are CR and LF, the normalised text split at LF gives exactly the lines `str.splitlines` finds in the text as read: each CR LF pair and each lone CR becomes one LF, so no line is merged or split |
| Text.NormalizeIdempotent | sdsort/__init__.py:29-31 | normalising twice gives the same text as normalising once |
| Text.ReplaceCrLfKeepsText | sdsort/__init__.py:29 | replacing CR LF by LF leaves the characters other than CR and LF in the same order |
| Text.ReplaceCrLfWithoutCr | sdsort/__init__.py:29 | text without CR is left unchanged by the CR LF replacement |
| Text.ReplaceCrKeepsText | sdsort/__init__.py:29 | replacing lone CR leaves the characters other than CR and LF in the same order, and text without CR unchanged |
| Text.SplitOnNewlineJoin | sdsort/__init__.py:13-22 | for text ending in LF, joining its LF-split lines with LF and appending LF gives the text back |
| Text.JoinSplitOnNewline | sdsort/__init__.py:13-22 | lines without LF, joined with LF and ended with LF, split back into exactly those lines |
| Text.SplitLines | sdsort/__init__.py:13 | `str.splitlines` as written: no line it returns holds a line boundary character |
| Text.SplitOnNewline | sdsort/__init__.py:13 | the corrected split at LF: no line holds LF, and non-empty text gives at least one line; `Text.SplitOnNewlineJoin` and `Text.JoinSplitOnNewline` make it the inverse of `Text.JoinLines` |
| Text.JoinLines | sdsort/__init__.py:22 | `"\n".join(...)`; the two round-trip lemmas above are its contract |
| Text.SplitLinesOnPlainText | sdsort/__init__.py:13 | on text whose only line boundary is LF, `splitlines` agrees with splitting at LF |
| Text.SplitLinesBreaksAtFormFeed | sdsort/__init__.py:13 | `splitlines` breaks "a", form feed, "b", LF into two lines, so the join at line 22 does not give the text back |
| Syntax.FindClasses | sdsort/__init__.py:35-38 | the top-level class statements in source order; `Syntax.FindClassesMembers` and `Syntax.FindClassesAppend` state this |
| Syntax.FindClassesMembers | sdsort/__init__.py:35-38 | the classes found are exactly the class statements of the module body, and there are at most as many as statements |
| Syntax.FindClassesAppend | sdsort/__init__.py:35-38 | the classes of two consecutive stretches of statements are those of the first, then those of the second (source order) |
| Syntax.MethodsOf | sdsort/__init__.py:45 | the plain `def`s of a class body in source order; `Syntax.MethodsOfMembers` states which ones |
| Syntax.MethodsOfMembers | sdsort/__init__.py:45 | the methods are exactly the plain `def`s of the class body (no `async def`, no other statement) |
| Syntax.MethodDictKeys | sdsort/__init__.py:46 | the keys of `method_dict` are duplicate-free, are exactly the method names, and come in the order in which each name first occurs (a repeated name keeps its first position) |
| Syntax.MethodDictLookup | sdsort/__init__.py:46 | `method_dict[name]` is a method of that name, and no later method has that name (the last definition wins) |
| Syntax.LookupOwnName | sdsort/__init__.py:46 | with distinct names, looking up a method's name gives that method |
| Syntax.DictKeysOfDistinct | sdsort/__init__.py:46 | with distinct names, the keys come in source order |
| Dependencies.AttributeTargets | sdsort/__init__.py:72-74 | the attribute callees that name methods of the class, in walk order; `Dependencies.AttributeTargetsMembers` states which |
| Dependencies.AttributeTargetsMembers | sdsort/__init__.py:72-74 | a name is collected from the calls exactly when it is a method name called as an attribute; bare-name calls give nothing |
| Dependencies.CallsOf | sdsort/__init__.py:70-71 | the calls walked for every method named `owner`, in source order; `Dependencies.CallsOfMembers` states which |
| Dependencies.AddCall | sdsort/__init__.py:72-75 | one walked call: append a method name called as an attribute unless already listed; `Dependencies.WalkCalls` and `Dependencies.DependenciesOf` state what the appends build |
| Dependencies.CallsOfMembers | sdsort/__init__.py:70-71 | the calls walked for a name are exactly the calls inside the methods of that name |
| Dependencies.DependenciesOf | sdsort/__init__.py:67-76 | a dependency list has no duplicates, and holds exactly the method names of the class that some method of that name calls as an attribute |
| Dependencies.DependenciesFirstSeen | sdsort/__init__.py:74-75 | the list keeps first-seen order: of two dependencies, the one whose first call is walked first comes first |
| Dependencies.NoSelfCallsNoEdges | sdsort/__init__.py:72-74 | a method with no attribute call naming a method of the class has no dependencies |
| Dependencies.DependenciesOfOwner | sdsort/__init__.py:74-75 | only the name of a method of the class can have dependencies |
| Dependencies.DependencyMap | sdsort/__init__.py:67-76 | every name reads as its dependency list, and a key exists exactly for names that have dependencies |
| Dependencies.WalkCalls | sdsort/__init__.py:71-75 | after walking the calls of one method, every list and every key is what the calls walked so far give |
| Dependencies.FindDependencies | sdsort/__init__.py:67-76 | the nested loops build exactly `DependencyMap` of the methods |
| StepDown.MoveToEnd | sdsort/__init__.py:86-87 | pop and reinsert: the name ends up last; the other keys keep their relative order; the key set only gains the name; no key is duplicated |
| StepDown.SortedDict.constructor | sdsort/__init__.py:52 | `sorted_dict` starts empty |
| StepDown.SortedDict.PopAndReinsert | sdsort/__init__.py:86-87 | the new key order is `MoveToEnd` of the old |
| StepDown.Visit | sdsort/__init__.py:79-90 | `_depth_first_sort` of one name, RecursionError on re-entering a name still on the stack; its properties are the frame, shape and cycle lemmas below |
| StepDown.VisitAll | sdsort/__init__.py:88-90 | the loop over a name's dependencies, ending at the first failing visit |
| StepDown.StepDownOrder | sdsort/__init__.py:52-54 | the sort of lines 52-54 from an empty `sorted_dict`; `StepDown.StepDownOrderSorted`, `StepDown.StepDownOrderPermutation` and `StepDown.StepDownOrderFailsIffCycle` state what it yields |
| StepDown.VisitFrame | sdsort/__init__.py:86-90 | whether a visit succeeds does not depend on the dictionary's contents; on success the names it touches move, in its own order, behind the untouched keys |
| StepDown.VisitAllFrame | sdsort/__init__.py:88-90 | the same for the loop over the dependencies |
| StepDown.VisitShape | sdsort/__init__.py:86-90 | a successful visit of a name produces it first, then the names it reaches; each name once, none on the stack, callers before callees |
| StepDown.VisitAllShape | sdsort/__init__.py:88-90 | a successful loop over the dependencies produces each of them, with the same properties |
| StepDown.StepDownOrderSorted | sdsort/__init__.py:52-54 | when the sort finishes, the keys are every method name exactly once, and each method comes before every method it calls |
| StepDown.StepDownOrderPermutation | sdsort/__init__.py:52-54 | when the sort finishes, the final key order is a permutation of the `method_dict` keys |
| StepDown.VisitErrHasCycle | sdsort/__init__.py:86-90 | a visit along a call chain fails only if the dependencies contain a cycle |
| StepDown.VisitAllErrHasCycle | sdsort/__init__.py:88-90 | the same for the loop over the dependencies |
| StepDown.VisitOkWalkSimple | sdsort/__init__.py:86-90 | if a visit from the first name of a call chain succeeds, the chain repeats no name and does not return to the stack |
| StepDown.VisitAllOk | sdsort/__init__.py:88-90 | if the loop over the dependencies succeeds, the visit of each of them succeeds on its own |
| StepDown.StepDownOrderFailsIffCycle | sdsort/__init__.py:52-54 | the sort fails exactly when the dependency graph has a cycle, and the error is then RecursionError |
| StepDown.VisitAllRecursionError | sdsort/__init__.py:88-90 | the only error a visit raises is RecursionError |
| StepDown.NoDependenciesKeepOrder | sdsort/__init__.py:52-54 | methods that call no method of the class are appended in key order |
| StepDown.DepthFirstSort | sdsort/__init__.py:79-90 | the recursive method passes or fails as the visit does; on success the dictionary's keys are the visit's order |
| StepDown.SortKeys | sdsort/__init__.py:52-54 | the loop over the keys from a fresh `sorted_dict` returns exactly `StepDownOrder` |
| Splice.NextStart | sdsort/__init__.py:58-60 | the `min` over later start lines, None when there are none; `Splice.NextStartIsMinimum` states it |
| Splice.Stop | sdsort/__init__.py:58-62 | where a method's range stops: the line before the next method, or the method's last line; it is at least 1; `Splice.StopInOrder` states it for ascending methods |
| Splice.Span | sdsort/__init__.py:63 | the slice of a method's range; `Splice.SpanInOrder` and `Splice.SourceOrderTiles` state what it covers |
| Splice.NextStartIsMinimum | sdsort/__init__.py:58-60 | the next start line is the least start line after the method's own, and is absent exactly when no method starts after it |
| Splice.StopInOrder | sdsort/__init__.py:58-62 | with ascending start lines, a method's range stops right before the next method, and the last method's range at its last line |
| Splice.SpanInOrder | sdsort/__init__.py:63 | each method's range is the slice from its `def` line to where the next range starts, within the file |
| Splice.SourceOrderTiles | sdsort/__init__.py:57-63 | taken in source order, the method ranges tile the lines from the first `def` to the end of the last method, without gap or overlap |
| Splice.GroupMembers | sdsort/__init__.py:57 | the group of a name holds exactly the methods of that name |
| Splice.GroupAllMembers | sdsort/__init__.py:57 | the groups of the names of an order hold exactly the methods whose name is in it |
| Splice.GroupAllPermutation | sdsort/__init__.py:57 | going through every name once, group by group, takes every method exactly once |
| Splice.SpansOfPermutation | sdsort/__init__.py:57-63 | reordering the methods reorders their ranges |
| Splice.MethodRangesRearranged | sdsort/__init__.py:57-63 | the ranges in step-down order are the lines from the first `def` to the end of the last method, rearranged |
| Splice.DependencyMapWithin | sdsort/__init__.py:69-75 | every dependency is a method name of the class, so `method_dict[...]` never misses |
| Splice.ClassOrder | sdsort/__init__.py:45-54 | a finished sort of a class yields each method name exactly once |
| Splice.ClassOrderFailsIffCycle | sdsort/__init__.py:45-54 | a class's sort fails exactly when its methods' calls contain a cycle, and the error is RecursionError |
| Splice.ClassRewriteAsWritten | sdsort/__init__.py:41-64 | the class rewrite as written: IndexError without methods, one range per dictionary key; `Splice.ClassWithoutMethodsRaises`, `Splice.SharedNameAsWritten` and `Splice.AsWrittenAgreesWhenNamesDistinct` state where it fails the intent and where it agrees |
| Splice.ClassRewrite | sdsort/__init__.py:41-64 | the corrected rewrite: the prefix, then every method's range in step-down order; `Splice.ClassRewriteRearranges` states what it yields |
| Splice.ClassRewriteKeepsPrefix | sdsort/__init__.py:56 | a successful rewrite of a class with methods begins with the lines between the `class` line and the first `def`, unchanged |
| Splice.ClassRewriteRearranges | sdsort/__init__.py:56-64 | for a well-formed class, the rewrite succeeds exactly when the sort does; it has exactly as many lines as the region from the `class` line to the end of the last method, and they are those lines rearranged |
| Splice.MethodsRearranged | sdsort/__init__.py:56-64 | the same for a class with methods, given its step-down order |
| Splice.ClassOrderWithoutSelfCalls | sdsort/__init__.py:52-54 | without calls between its methods, a class keeps its `method_dict` key order |
| Splice.GroupOfDistinctName | sdsort/__init__.py:57 | with distinct names, the group of a method's name is that method alone |
| Splice.GroupAllInSourceOrder | sdsort/__init__.py:57 | with distinct names, the groups in name order are the methods in source order |
| Splice.ClassRewriteInSourceOrder | sdsort/__init__.py:56-64 | when the step-down order is the source order, the rewrite is exactly the lines it replaces |
| Splice.ClassWithoutSelfCallsUnchanged | sdsort/__init__.py:41-64 | a class with distinct method names and no calls between its methods is left as it is |
| Splice.LookupIsGroup | sdsort/__init__.py:57 | with distinct names, the method `method_dict` gives for a name is the whole group of that name |
| Splice.LastDefinitionsOfDistinct | sdsort/__init__.py:57 | with distinct names, one method per key (as written) is the same as every method per name (corrected) |
| Splice.AsWrittenAgreesWhenNamesDistinct | sdsort/__init__.py:41-64 | for a class with methods whose names are distinct, the code as written and the corrected rewrite agree |
| Splice.ClassWithoutMethodsRaises | sdsort/__init__.py:56 | a class without methods makes the code as written raise IndexError; the corrected rewrite leaves it alone |
| Splice.SharedNameAsWritten | sdsort/__init__.py:57 | for a getter and a setter both named `x`, the code as written keeps only the setter's line |
| Splice.SharedNameCorrected | sdsort/__init__.py:57 | the corrected rewrite keeps both the getter's and the setter's lines |
| Splice.SharedNameLosesLines | sdsort/__init__.py:46-57 | a two-line region comes back one line short as written, and whole when corrected |
| Splice.SelfAttributeCallRecurses | sdsort/__init__.py:72-74 | a method that calls an attribute of its own name makes the sort of its class raise RecursionError |
| Splice.SuperInitRecurses | sdsort/__init__.py:72-90 | an `__init__` that calls `super().__init__()` makes the sort of its class raise RecursionError |
| Splice.SortMethodsWithinClass | sdsort/__init__.py:41-64 | the method computes exactly the corrected class rewrite |
| Splice.ExtendWithSpans | sdsort/__init__.py:57-63 | the loop appends the ranges of the ordered methods, one after the other |
| Sorter.Spliced | sdsort/__init__.py:16-18 | the loop's output: for each region, the source from the cursor to the region, then its block; `Sorter.SpliceLayout` states the layout |
| Sorter.SortedLines | sdsort/__init__.py:16-19 | the loop and the copy of the rest of the file; `Sorter.SortedLinesRearranges` and `Sorter.SortedLinesFailsIffCycle` state what it yields |
| Sorter.Rewrites | sdsort/__init__.py:16-18 | a successful rewrite yields one region per class |
| Sorter.SortedText | sdsort/__init__.py:9-22 | a successful result ends with LF |
| Sorter.SpliceLayout | sdsort/__init__.py:16-18 | the cursor stays aligned: the loop's output is as long as the source up to the last region; every region holds its block; every other line is the source line of the same index; the output rearranges that part of the source |
| Sorter.LayoutStep | sdsort/__init__.py:17-18 | one iteration of the loop keeps that layout |
| Sorter.SplicedFile | sdsort/__init__.py:16-19 | with the rest of the file copied, the output has as many lines as the source, every region holds its block, every other line is kept, and the output rearranges the source lines |
| Sorter.SpliceUnchanged | sdsort/__init__.py:16-18 | when every block is its region's own lines, the loop's output is the source up to the cursor |
| Sorter.RewritesShape | sdsort/__init__.py:16-18 | for classes in source order, finding the regions succeeds exactly when every class's sort finishes; the regions are nested in the file; each runs from after its `class` line to the end of its last method and holds that class's rewrite |
| Sorter.RewritesOkIffOrdered | sdsort/__init__.py:16-18 | the loop gets through every class exactly when every class's sort finishes |
| Sorter.RewritesNested | sdsort/__init__.py:16-18 | the regions found are nested in the file and belong to the classes, in order |
| Sorter.SortedLinesRearranges | sdsort/__init__.py:16-19 | the rebuilt lines fail exactly when some class's sort fails; otherwise they are as many as the source lines; each class's region holds its rewrite; every line outside the regions keeps its index; the whole is a rearrangement of the source lines |
| Sorter.SortedLinesFailsIffCycle | sdsort/__init__.py:16-19 | the file cannot be rewritten exactly when some class has a call cycle among its methods, and the error is RecursionError |
| Sorter.RewritesError | sdsort/__init__.py:16-18 | the only error of the loop over the classes is RecursionError |
| Sorter.SortedLinesUnchanged | sdsort/__init__.py:16-19 | when every class's rewrite is its own lines, the rebuilt lines are the source lines |
| Sorter.SortedTextUnchanged | sdsort/__init__.py:9-22 | when every class's rewrite is its own lines, the result is the normalised text |
| Sorter.SortedTextWithoutSelfCalls | sdsort/__init__.py:9-22 | when no class has calls among its methods or two methods of one name, only the line terminators change |
| Sorter.SortedTextSplits | sdsort/__init__.py:13-22 | the result succeeds exactly when the rebuilt lines do, and splitting it at LF gives the rebuilt lines back |
| Sorter.SortedLinesKeepsPrefix | sdsort/__init__.py:16-19 | every line between a `class` line and its first `def` keeps its index in the rebuilt file |
| Sorter.SharedNameFileAsWritten | sdsort/__init__.py:17-19 | for the class line, a getter and a setter named `x`, and one more line, the code as written gives the class line, the setter twice, and the last line |
| Sorter.SharedNameFileCorrected | sdsort/__init__.py:17-19 | the corrected rewrite gives that file back unchanged |
| Sorter.RewritesPrefixErr | sdsort/__init__.py:16-18 | once a class's sort fails, the loop ends with that error |
| Sorter.StepDownSort | sdsort/__init__.py:9-22 | the method with its cursor loop returns exactly `SortedText` |

## Left out

- File reading (`open`, lines 26-27) is left out. The text of the file is an
  input of `Sorter.SortedText` and `Sorter.StepDownSort`.
- `ast.parse` and `ast.walk` (lines 12, 62 and 71) belong to a foreign
  parser, so their output is an input.
  - Each method arrives with its `lineno`, the largest `lineno` inside it
    (line 62), and its callees in walk order (line 71).
  - Which line the parser reports for a decorated method is part of that
    input.
  - What the parser guarantees is stated as requires:
    `Splice.WellFormedClass` (ascending start lines) and
    `Sorter.ClassesInOrder` (each class starts after the one before ends).
- The debug `print` at line 55 is output only and is left out.
- Python's recursion limit on deep but acyclic call chains is not modelled.
  The model only raises RecursionError where the recursion never ends.
- Nested classes and nested functions are left out, as the code does not
  look at them: only top-level `ClassDef` nodes (lines 36-37) and direct
  `FunctionDef` children (line 45). Calls inside a nested function are part
  of the walk of its method, and the model gets them as part of that input.
- The reordering of top-level functions is not modelled, because
  `step_down_sort` only visits classes. Some fixtures
  (`test/cases/async_functions.out.py`, `test/cases/function_decorator.out.py`)
  show it.
- The fixtures for `comments`, `circular`, `nested_class` and
  `nested_function` (test/test_sdsort.py:10) are not part of this model.
- Writing the result back to the file is not done by the code either (line
  20 is a TODO), and is not modelled.
- `Sorter.SortedText` and `Sorter.StepDownSort` use the three corrections
  of "## Findings": the LF split instead of `str.splitlines` (as written:
  `Text.SplitLines`), no IndexError for a class without methods, and every
  method of a name moved by `Splice.GroupAll` (as written for both:
  `Splice.ClassRewriteAsWritten`).

## Findings

| source | as written | input that shows it | evidently intended | confidence | as-written member | corrected member |
|---|---|---|---|---|---|---|
| sdsort/__init__.py:56 | `methods[0]` is read even when the class has no plain `def` | a class whose body is only field annotations or `async def`s | leave a class without methods unchanged | not executed; high | Splice.ClassRewriteAsWritten (Splice.ClassWithoutMethodsRaises) | Splice.ClassRewrite (Splice.ClassRewriteRearranges) |
| sdsort/__init__.py:46-57 | one range per `method_dict` value, and the dictionary keeps only the last `def` of a name | a property's getter and setter both named `x`: the class's block is one line short and the cursor falls one line early, so the file (class line, getter, setter, one more line) becomes the class line, the setter twice, and the last line: the getter is lost, the setter doubled (Splice.SharedNameLosesLines, Sorter.SharedNameFileAsWritten) | move every method of a name, so the class keeps all its lines | not executed; high | Splice.ClassRewriteAsWritten (Splice.SharedNameAsWritten, Sorter.SharedNameFileAsWritten) | Splice.ClassRewrite with Splice.GroupAll (Splice.SharedNameCorrected, Sorter.SharedNameFileCorrected, Splice.ClassRewriteRearranges) |
| sdsort/__init__.py:13 | `str.splitlines` also breaks at vertical tab, form feed, the separators 0x1C-0x1E, NEL, and the Unicode line and paragraph separators | "a", form feed, "b", LF becomes two lines, which the join at line 22 turns into "a", LF, "b", LF (Text.SplitLinesBreaksAtFormFeed) | split at LF only, which after normalisation matches the parser's line numbers, so that untouched text comes back unchanged | not executed; medium | Text.SplitLines (Text.SplitLinesBreaksAtFormFeed) | Text.SplitOnNewline (Text.SplitOnNewlineJoin, Text.JoinSplitOnNewline, Text.NormalizeKeepsLines) |
