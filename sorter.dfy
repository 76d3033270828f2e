/** `step_down_sort`: the file is rebuilt line by line, copying what lies
    between classes and putting each class's rewrite in place of the lines it
    replaces, with the length of the output so far as the read cursor. */
module Sorter {
  import opened Seqs
  import opened Results
  import opened Text
  import opened Syntax
  import opened Dependencies
  import opened StepDown
  import opened Splice

  /** The rewrite of one class: the 0-based, half-open range of source
      lines it replaces and the lines that take their place. */
  datatype Region = Region(start: nat, end: nat, block: seq<string>)

  /** Line 18 for every class, in source order: the region each class's
      rewrite replaces, or the error of the first class whose sort fails. */
  function Rewrites(lines: seq<string>, classes: seq<ClassDef>): (r: Result<seq<Region>>)
    ensures r.Ok? ==> |r.value| == |classes|
  {
    if classes == [] then Ok([])
    else
      var n := |classes| - 1;
      var c := classes[n];
      match Rewrites(lines, classes[..n])
      case Err(e) => Err(e)
      case Ok(rs) =>
        match ClassRewrite(lines, c)
        case Err(e) => Err(e)
        case Ok(block) => Ok(rs + [Region(c.line, RegionEnd(c), block)])
  }

  /** Lines 16-18: the output after the loop over the regions. Each
      iteration copies the source from the cursor `|done|` up to the start
      of the region (the lines up to and including the `class` line), then
      appends the region's block. */
  function Spliced(lines: seq<string>, rs: seq<Region>): seq<string>
  {
    if rs == [] then []
    else
      var done := Spliced(lines, rs[..|rs| - 1]);
      var r := rs[|rs| - 1];
      done + PySlice(lines, |done|, r.start) + r.block
  }

  /** Lines 16-19: the loop, then the rest of the source after the cursor. */
  function SortedLines(lines: seq<string>, classes: seq<ClassDef>): Result<seq<string>>
  {
    match Rewrites(lines, classes)
    case Err(e) => Err(e)
    case Ok(rs) =>
      var done := Spliced(lines, rs);
      Ok(done + PySlice(lines, |done|, |lines|))
  }

  /** `step_down_sort` on the text of a file and its parsed module body:
      normalise, split into lines, rewrite every top-level class, join
      with LF and end with LF. */
  function SortedText(source: string, body: seq<Statement>): (r: Result<string>)
    ensures r.Ok? ==> |r.value| > 0 && r.value[|r.value| - 1] == '\n'
  {
    var lines := SplitOnNewline(Normalize(source));
    match SortedLines(lines, FindClasses(body))
    case Err(e) => Err(e)
    case Ok(out) => Ok(JoinLines(out) + "\n")
  }

  // ---------------------------------------------------------------------
  // Layout of the spliced output

  /** The regions lie within the file, one after the other, and each block
      has exactly the lines of its region, rearranged. */
  ghost predicate Nested(lines: seq<string>, rs: seq<Region>)
  {
    && (forall k :: 0 <= k < |rs| ==>
          rs[k].start <= rs[k].end <= |lines|
          && |rs[k].block| == rs[k].end - rs[k].start
          && multiset(rs[k].block) == multiset(lines[rs[k].start .. rs[k].end]))
    && (forall k :: 0 < k < |rs| ==> rs[k - 1].end <= rs[k].start)
  }

  /** Where the output of the loop ends: the end of the last region. */
  function End(rs: seq<Region>): nat
  {
    if rs == [] then 0 else rs[|rs| - 1].end
  }

  /** Every region of `rs` holds its block in `done`. */
  ghost predicate Placed(rs: seq<Region>, done: seq<string>)
  {
    forall k :: 0 <= k < |rs| ==> rs[k].start <= rs[k].end <= |done| && done[rs[k].start .. rs[k].end] == rs[k].block
  }

  /** Line `i` lies in none of the regions. */
  ghost predicate Outside(rs: seq<Region>, i: int)
  {
    forall k :: 0 <= k < |rs| ==> !(rs[k].start <= i < rs[k].end)
  }

  /** Outside the regions, `done` has the source line of the same index. */
  ghost predicate Verbatim(lines: seq<string>, rs: seq<Region>, done: seq<string>)
  {
    forall i :: 0 <= i < |done| && i < |lines| && Outside(rs, i) ==> done[i] == lines[i]
  }

  lemma NestedPrefix(lines: seq<string>, rs: seq<Region>, n: nat)
    requires Nested(lines, rs) && n <= |rs|
    ensures Nested(lines, rs[..n])
  {
    assert forall k :: 0 <= k < n ==> rs[..n][k] == rs[k];
  }

  /** Lines 16-18 keep the cursor aligned with the source: the output of the
      loop is as long as the source up to the end of the last region, every
      region holds its block, every other line is the source line of the
      same index, and the output is a rearrangement of that part of the
      source. */
  lemma {:induction false} SpliceLayout(lines: seq<string>, rs: seq<Region>)
    requires Nested(lines, rs)
    ensures var done := Spliced(lines, rs);
      && |done| == End(rs) <= |lines|
      && Placed(rs, done)
      && Verbatim(lines, rs, done)
      && multiset(done) == multiset(lines[..|done|])
  {
    if rs != [] {
      var n := |rs| - 1;
      var init, r := rs[..n], rs[n];
      assert init + [r] == rs;
      NestedPrefix(lines, rs, n);
      SpliceLayout(lines, init);
      SplicedSnoc(lines, init, r);
      LayoutStep(lines, init, r, Spliced(lines, init));
    }
  }

  /** One iteration of lines 16-18 keeps the layout. */
  lemma LayoutStep(lines: seq<string>, init: seq<Region>, r: Region, prev: seq<string>)
    requires Nested(lines, init + [r])
    requires |prev| == End(init) <= |lines| && Placed(init, prev) && Verbatim(lines, init, prev)
    requires multiset(prev) == multiset(lines[..|prev|])
    ensures var done := prev + PySlice(lines, |prev|, r.start) + r.block;
      && |done| == End(init + [r]) <= |lines|
      && Placed(init + [r], done)
      && Verbatim(lines, init + [r], done)
      && multiset(done) == multiset(lines[..|done|])
  {
    var rs := init + [r];
    var n := |init|;
    assert rs[n] == r;
    assert r.start <= r.end <= |lines| && |r.block| == r.end - r.start
           && multiset(r.block) == multiset(lines[r.start .. r.end]);
    assert |prev| <= r.start by {
      if n > 0 {
        assert rs[n - 1] == init[n - 1];
      }
    }
    var done := prev + lines[|prev| .. r.start] + r.block;
    assert PySlice(lines, |prev|, r.start) == lines[|prev| .. r.start];
    assert Placed(rs, done) by {
      StepPlaced(lines, init, prev, r);
    }
    assert Verbatim(lines, rs, done) by {
      StepVerbatim(lines, init, prev, r);
    }
    assert multiset(done) == multiset(lines[..|done|]) by {
      StepMultiset(lines, prev, r.start, r.end, r.block);
    }
  }


  lemma StepPlaced(lines: seq<string>, rs: seq<Region>, prev: seq<string>, r: Region)
    requires Placed(rs, prev) && |prev| <= r.start <= |lines| && |r.block| == r.end - r.start
    ensures Placed(rs + [r], prev + lines[|prev| .. r.start] + r.block)
  {
    var done := prev + lines[|prev| .. r.start] + r.block;
    var all := rs + [r];
    forall k | 0 <= k < |all|
      ensures all[k].start <= all[k].end <= |done| && done[all[k].start .. all[k].end] == all[k].block
    {
      if k < |rs| {
        assert all[k] == rs[k];
        assert done[rs[k].start .. rs[k].end] == prev[rs[k].start .. rs[k].end];
      } else {
        assert done[r.start .. r.end] == r.block;
      }
    }
  }

  lemma StepVerbatim(lines: seq<string>, rs: seq<Region>, prev: seq<string>, r: Region)
    requires Verbatim(lines, rs, prev) && |prev| <= r.start <= |lines| && |r.block| == r.end - r.start
    ensures Verbatim(lines, rs + [r], prev + lines[|prev| .. r.start] + r.block)
  {
    var e := |prev|;
    var gap := lines[e .. r.start];
    var done := prev + gap + r.block;
    var all := rs + [r];
    forall i | 0 <= i < |done| && i < |lines| && Outside(all, i) ensures done[i] == lines[i] {
      if i < e {
        assert Outside(rs, i) by {
          forall k | 0 <= k < |rs| ensures !(rs[k].start <= i < rs[k].end) {
            assert all[k] == rs[k];
          }
        }
        assert done[i] == prev[i];
      } else {
        assert all[|rs|] == r;
        assert done[i] == gap[i - e];
      }
    }
  }

  lemma StepMultiset(lines: seq<string>, prev: seq<string>, a: nat, b: nat, block: seq<string>)
    requires |prev| <= a <= b <= |lines|
    requires multiset(prev) == multiset(lines[..|prev|])
    requires multiset(block) == multiset(lines[a..b])
    ensures multiset(prev + lines[|prev| .. a] + block) == multiset(lines[..b])
  {
    var e := |prev|;
    SliceSplit(lines, 0, e, a);
    SliceSplit(lines, 0, a, b);
    assert lines[..e] == lines[0..e] && lines[..a] == lines[0..a] && lines[..b] == lines[0..b];
  }

  /** Lines 16-19: the output has as many lines as the source, every region
      holds its block, every other line is kept, and the output is a
      rearrangement of the source lines. */
  lemma SplicedFile(lines: seq<string>, rs: seq<Region>)
    requires Nested(lines, rs)
    ensures var done := Spliced(lines, rs);
      var out := done + PySlice(lines, |done|, |lines|);
      && |out| == |lines|
      && Placed(rs, out)
      && (forall i :: 0 <= i < |lines| && Outside(rs, i) ==> out[i] == lines[i])
      && multiset(out) == multiset(lines)
  {
    SpliceLayout(lines, rs);
    FileFromLayout(lines, rs, Spliced(lines, rs));
  }

  lemma FileFromLayout(lines: seq<string>, rs: seq<Region>, done: seq<string>)
    requires |done| <= |lines| && Placed(rs, done) && Verbatim(lines, rs, done)
    requires multiset(done) == multiset(lines[..|done|])
    ensures var out := done + PySlice(lines, |done|, |lines|);
      && |out| == |lines|
      && Placed(rs, out)
      && (forall i :: 0 <= i < |lines| && Outside(rs, i) ==> out[i] == lines[i])
      && multiset(out) == multiset(lines)
  {
    var rest := lines[|done|..];
    assert PySlice(lines, |done|, |lines|) == rest;
    PlacedExtend(rs, done, rest);
    VerbatimRest(lines, rs, done);
    assert lines == lines[..|done|] + rest;
  }

  lemma PlacedExtend(rs: seq<Region>, done: seq<string>, rest: seq<string>)
    requires Placed(rs, done)
    ensures Placed(rs, done + rest)
  {
    var out := done + rest;
    forall k | 0 <= k < |rs| ensures out[rs[k].start .. rs[k].end] == rs[k].block {
      assert out[rs[k].start .. rs[k].end] == done[rs[k].start .. rs[k].end];
    }
  }

  lemma VerbatimRest(lines: seq<string>, rs: seq<Region>, done: seq<string>)
    requires Verbatim(lines, rs, done) && |done| <= |lines|
    ensures var out := done + lines[|done|..];
      forall i :: 0 <= i < |lines| && Outside(rs, i) ==> out[i] == lines[i]
  {
    var rest := lines[|done|..];
    var out := done + rest;
    forall i | 0 <= i < |lines| && Outside(rs, i) ensures out[i] == lines[i] {
      if i >= |done| {
        assert out[i] == rest[i - |done|];
      }
    }
  }

  /** When every block is the region's own lines, the splice gives back the
      source up to the cursor. */
  lemma SpliceUnchanged(lines: seq<string>, rs: seq<Region>)
    requires Nested(lines, rs)
    requires forall k :: 0 <= k < |rs| ==> rs[k].block == lines[rs[k].start .. rs[k].end]
    ensures Spliced(lines, rs) == lines[..End(rs)]
  {
    SpliceLayout(lines, rs);
    var done := Spliced(lines, rs);
    forall i | 0 <= i < |done| ensures done[i] == lines[i] {
      if !Outside(rs, i) {
        var k :| 0 <= k < |rs| && rs[k].start <= i < rs[k].end;
        SameSliceAt(done, lines, rs[k].start, rs[k].end, i);
      }
    }
  }

  lemma SameSliceAt<T>(a: seq<T>, b: seq<T>, lo: nat, hi: nat, i: nat)
    requires lo <= i < hi <= |a| && hi <= |b| && a[lo..hi] == b[lo..hi]
    ensures a[i] == b[i]
  {
    assert a[lo..hi][i - lo] == b[lo..hi][i - lo];
  }

  // ---------------------------------------------------------------------
  // From the classes of a file to its regions

  /** What the parser guarantees about the classes of a file: each is
      well formed, and each starts after the last line of the one before. */
  predicate ClassesInOrder(lines: seq<string>, classes: seq<ClassDef>)
  {
    && (forall k :: 0 <= k < |classes| ==> WellFormedClass(lines, classes[k]))
    && (forall k :: 0 < k < |classes| ==> RegionEnd(classes[k - 1]) < classes[k].line)
  }

  /** The sort of every class finishes. */
  predicate AllOrdered(classes: seq<ClassDef>)
  {
    forall k :: 0 <= k < |classes| ==> ClassOrder(classes[k]).Ok?
  }

  lemma ClassesInOrderPrefix(lines: seq<string>, classes: seq<ClassDef>, n: nat)
    requires ClassesInOrder(lines, classes) && n <= |classes|
    ensures ClassesInOrder(lines, classes[..n])
  {
    assert forall k :: 0 <= k < n ==> classes[..n][k] == classes[k];
  }

  /** `r` is the region of class `c`: it runs from the line after the
      `class` line to the end of the last method and holds the rewrite. */
  predicate RegionOf(lines: seq<string>, c: ClassDef, r: Region)
  {
    r.start == c.line && r.end == RegionEnd(c) && ClassRewrite(lines, c) == Ok(r.block)
  }

  /** `rs` holds the region of every class, in order. */
  ghost predicate RegionsOf(lines: seq<string>, classes: seq<ClassDef>, rs: seq<Region>)
  {
    |rs| == |classes| && forall k :: 0 <= k < |classes| ==> RegionOf(lines, classes[k], rs[k])
  }

  /** The regions of the classes: each class's region runs from the line
      after its `class` line to the end of its last method and holds its
      rewrite; the regions are nested in the file. Finding them fails
      exactly when the sort of some class fails. */
  lemma RewritesShape(lines: seq<string>, classes: seq<ClassDef>)
    requires ClassesInOrder(lines, classes)
    ensures Rewrites(lines, classes).Ok? <==> AllOrdered(classes)
    ensures Rewrites(lines, classes).Ok? ==>
      var rs := Rewrites(lines, classes).value;
      Nested(lines, rs) && RegionsOf(lines, classes, rs)
  {
    RewritesOkIffOrdered(lines, classes);
    RewritesNested(lines, classes);
  }

  /** The loop gets through every class exactly when every class's sort
      finishes. */
  lemma {:induction false} RewritesOkIffOrdered(lines: seq<string>, classes: seq<ClassDef>)
    ensures Rewrites(lines, classes).Ok? <==> AllOrdered(classes)
  {
    if classes != [] {
      var n := |classes| - 1;
      var init, c := classes[..n], classes[n];
      RewritesOkIffOrdered(lines, init);
      RewritesLast(lines, classes);
      assert ClassRewrite(lines, c).Ok? <==> ClassOrder(c).Ok?;
      AllOrderedSnoc(classes);
    }
  }

  lemma AllOrderedSnoc(classes: seq<ClassDef>)
    requires classes != []
    ensures var n := |classes| - 1;
      AllOrdered(classes) <==> AllOrdered(classes[..n]) && ClassOrder(classes[n]).Ok?
  {
    var n := |classes| - 1;
    assert forall k :: 0 <= k < n ==> classes[..n][k] == classes[k];
  }

  lemma {:induction false} RewritesNested(lines: seq<string>, classes: seq<ClassDef>)
    requires ClassesInOrder(lines, classes)
    ensures Rewrites(lines, classes).Ok? ==>
      var rs := Rewrites(lines, classes).value;
      Nested(lines, rs) && RegionsOf(lines, classes, rs)
  {
    if classes != [] && Rewrites(lines, classes).Ok? {
      var n := |classes| - 1;
      ClassesInOrderPrefix(lines, classes, n);
      RewritesNested(lines, classes[..n]);
      RewritesLast(lines, classes);
      ShapeStep(lines, classes, Rewrites(lines, classes[..n]).value);
    }
  }


  /** The last class of the loop, in terms of the ones before it. */
  lemma RewritesLast(lines: seq<string>, classes: seq<ClassDef>)
    requires classes != []
    ensures var n := |classes| - 1;
      var init, c := Rewrites(lines, classes[..n]), classes[n];
      && (Rewrites(lines, classes).Ok? <==> init.Ok? && ClassRewrite(lines, c).Ok?)
      && (Rewrites(lines, classes).Ok? ==>
            Rewrites(lines, classes).value == init.value + [Region(c.line, RegionEnd(c), ClassRewrite(lines, c).value)])
  {
  }

  /** One more class keeps the regions nested and in step with the classes. */
  lemma ShapeStep(lines: seq<string>, classes: seq<ClassDef>, prev: seq<Region>)
    requires classes != [] && ClassesInOrder(lines, classes)
    requires Nested(lines, prev) && RegionsOf(lines, classes[..|classes| - 1], prev)
    requires ClassRewrite(lines, classes[|classes| - 1]).Ok?
    ensures var c := classes[|classes| - 1];
      var r := Region(c.line, RegionEnd(c), ClassRewrite(lines, c).value);
      Nested(lines, prev + [r]) && RegionsOf(lines, classes, prev + [r])
  {
    var n := |classes| - 1;
    var c := classes[n];
    var r := Region(c.line, RegionEnd(c), ClassRewrite(lines, c).value);
    ClassRewriteRearranges(lines, c);
    assert n > 0 ==> prev[n - 1].end < c.line by {
      if n > 0 {
        assert RegionOf(lines, classes[..n][n - 1], prev[n - 1]);
        assert classes[..n][n - 1] == classes[n - 1];
        assert RegionEnd(classes[n - 1]) < classes[n].line;
      }
    }
    NestedSnoc(lines, prev, r);
    RegionsSnoc(lines, classes, prev, r);
  }

  lemma NestedSnoc(lines: seq<string>, rs: seq<Region>, r: Region)
    requires Nested(lines, rs)
    requires r.start <= r.end <= |lines| && |r.block| == r.end - r.start
    requires multiset(r.block) == multiset(lines[r.start .. r.end])
    requires rs != [] ==> rs[|rs| - 1].end <= r.start
    ensures Nested(lines, rs + [r])
  {
    var all := rs + [r];
    assert forall k :: 0 <= k < |rs| ==> all[k] == rs[k];
  }

  lemma RegionsSnoc(lines: seq<string>, classes: seq<ClassDef>, rs: seq<Region>, r: Region)
    requires classes != [] && RegionsOf(lines, classes[..|classes| - 1], rs)
    requires RegionOf(lines, classes[|classes| - 1], r)
    ensures RegionsOf(lines, classes, rs + [r])
  {
    var all, n := rs + [r], |classes| - 1;
    forall k | 0 <= k < |classes| ensures RegionOf(lines, classes[k], all[k]) {
      if k < n {
        assert all[k] == rs[k] && classes[..n][k] == classes[k];
      }
    }
  }

  // ---------------------------------------------------------------------
  // The rebuilt file

  /** Line `i` lies in the region of none of the classes. */
  ghost predicate OutsideClasses(classes: seq<ClassDef>, i: int)
  {
    forall k :: 0 <= k < |classes| ==> !(classes[k].line <= i < RegionEnd(classes[k]))
  }

  /** Lines 16-19 for a file whose classes are in order: the output fails
      exactly when the sort of some class fails; otherwise it has as many
      lines as the source, each class's region holds the class's rewrite,
      every line outside the regions (the `class` lines, the lines between
      classes, the rest of the file) is kept at its index, and the output is
      a rearrangement of the source lines. */
  lemma SortedLinesRearranges(lines: seq<string>, classes: seq<ClassDef>)
    requires ClassesInOrder(lines, classes)
    ensures SortedLines(lines, classes).Ok? <==> AllOrdered(classes)
    ensures SortedLines(lines, classes).Ok? ==>
      var out := SortedLines(lines, classes).value;
      && |out| == |lines|
      && multiset(out) == multiset(lines)
      && (forall k :: 0 <= k < |classes| ==>
            classes[k].line <= RegionEnd(classes[k]) <= |out|
            && ClassRewrite(lines, classes[k]) == Ok(out[classes[k].line .. RegionEnd(classes[k])]))
      && (forall i :: 0 <= i < |lines| && OutsideClasses(classes, i) ==> out[i] == lines[i])
  {
    RewritesShape(lines, classes);
    if AllOrdered(classes) {
      var rs := Rewrites(lines, classes).value;
      SplicedFile(lines, rs);
      var out := SortedLines(lines, classes).value;
      assert out == Spliced(lines, rs) + PySlice(lines, |Spliced(lines, rs)|, |lines|);
      RegionsAreClasses(lines, classes, rs, out);
    }
  }

  lemma RegionsAreClasses(lines: seq<string>, classes: seq<ClassDef>, rs: seq<Region>, out: seq<string>)
    requires RegionsOf(lines, classes, rs) && |out| == |lines|
    requires Placed(rs, out)
    requires forall i :: 0 <= i < |lines| && Outside(rs, i) ==> out[i] == lines[i]
    ensures forall k :: 0 <= k < |classes| ==>
      classes[k].line <= RegionEnd(classes[k]) <= |out|
      && ClassRewrite(lines, classes[k]) == Ok(out[classes[k].line .. RegionEnd(classes[k])])
    ensures forall i :: 0 <= i < |lines| && OutsideClasses(classes, i) ==> out[i] == lines[i]
  {
    forall i | 0 <= i < |lines| && OutsideClasses(classes, i) ensures out[i] == lines[i] {
      assert Outside(rs, i) by {
        forall k | 0 <= k < |rs| ensures !(rs[k].start <= i < rs[k].end) {
          assert !(classes[k].line <= i < RegionEnd(classes[k]));
        }
      }
    }
  }

  /** The lines between each `class` line and its first `def` (fields,
      docstring) keep their index in the rebuilt lines. */
  lemma SortedLinesKeepsPrefix(lines: seq<string>, classes: seq<ClassDef>)
    requires ClassesInOrder(lines, classes)
    ensures SortedLines(lines, classes).Ok? ==>
      var out := SortedLines(lines, classes).value;
      forall k, i :: 0 <= k < |classes| && Methods(classes[k]) != [] && classes[k].line <= i < Methods(classes[k])[0].line - 1
        ==> i < |out| && out[i] == lines[i]
  {
    SortedLinesRearranges(lines, classes);
    if SortedLines(lines, classes).Ok? {
      var out := SortedLines(lines, classes).value;
      forall k, i | 0 <= k < |classes| && Methods(classes[k]) != [] && classes[k].line <= i < Methods(classes[k])[0].line - 1
        ensures i < |out| && out[i] == lines[i]
      {
        PrefixAt(lines, classes[k], out, i);
      }
    }
  }

  /** A line of a class's prefix, where the class's rewrite sits in `out`. */
  lemma PrefixAt(lines: seq<string>, c: ClassDef, out: seq<string>, i: nat)
    requires WellFormedClass(lines, c) && Methods(c) != [] && c.line <= i < Methods(c)[0].line - 1
    requires c.line <= RegionEnd(c) <= |out| && ClassRewrite(lines, c) == Ok(out[c.line .. RegionEnd(c)])
    ensures i < |out| && out[i] == lines[i]
  {
    ClassRewriteKeepsPrefix(lines, c);
    var b := Methods(c)[0].line - 1;
    var block := out[c.line .. RegionEnd(c)];
    assert block[..b - c.line][i - c.line] == lines[c.line .. b][i - c.line];
  }

  /** The file cannot be rewritten exactly when some class has a chain of
      calls among its methods that comes back to where it started; the
      error is then RecursionError. */
  lemma SortedLinesFailsIffCycle(lines: seq<string>, classes: seq<ClassDef>)
    requires ClassesInOrder(lines, classes)
    ensures SortedLines(lines, classes).Err? <==>
            exists k :: 0 <= k < |classes| && HasCycle(DependencyMap(Methods(classes[k])))
    ensures SortedLines(lines, classes).Err? ==> SortedLines(lines, classes).error == RecursionError
  {
    SortedLinesRearranges(lines, classes);
    forall k | 0 <= k < |classes| ensures ClassOrder(classes[k]).Err? <==> HasCycle(DependencyMap(Methods(classes[k]))) {
      ClassOrderFailsIffCycle(classes[k]);
    }
    RewritesError(lines, classes);
  }

  /** The error of the loop is that of the first class whose sort fails. */
  lemma {:induction false} RewritesError(lines: seq<string>, classes: seq<ClassDef>)
    ensures Rewrites(lines, classes).Err? ==> Rewrites(lines, classes).error == RecursionError
  {
    if classes != [] {
      var n := |classes| - 1;
      RewritesError(lines, classes[..n]);
      ClassOrderFailsIffCycle(classes[n]);
    }
  }

  /** When every class's rewrite is its own lines, the rebuilt file is the
      source. */
  lemma SortedLinesUnchanged(lines: seq<string>, classes: seq<ClassDef>)
    requires ClassesInOrder(lines, classes)
    requires forall k :: 0 <= k < |classes| ==>
      classes[k].line <= RegionEnd(classes[k]) <= |lines|
      && ClassRewrite(lines, classes[k]) == Ok(lines[classes[k].line .. RegionEnd(classes[k])])
    ensures SortedLines(lines, classes) == Ok(lines)
  {
    RewritesShape(lines, classes);
    var rs := Rewrites(lines, classes).value;
    assert forall k :: 0 <= k < |rs| ==> rs[k].block == lines[rs[k].start .. rs[k].end] by {
      forall k | 0 <= k < |rs| ensures rs[k].block == lines[rs[k].start .. rs[k].end] {
        assert RegionOf(lines, classes[k], rs[k]);
      }
    }
    SpliceUnchanged(lines, rs);
    SpliceLayout(lines, rs);
    RestOfSource(lines, Spliced(lines, rs));
  }

  lemma RestOfSource(lines: seq<string>, done: seq<string>)
    requires |done| <= |lines| && done == lines[..|done|]
    ensures done + PySlice(lines, |done|, |lines|) == lines
  {
    assert lines[..|done|] + lines[|done|..] == lines;
  }

  // ---------------------------------------------------------------------
  // The text of the file

  /** When every class's rewrite is its own lines, `step_down_sort` only
      normalises the line terminators of the file. */
  lemma SortedTextUnchanged(source: string, body: seq<Statement>)
    requires var lines := SplitOnNewline(Normalize(source));
      var classes := FindClasses(body);
      && ClassesInOrder(lines, classes)
      && forall k :: 0 <= k < |classes| ==>
           classes[k].line <= RegionEnd(classes[k]) <= |lines|
           && ClassRewrite(lines, classes[k]) == Ok(lines[classes[k].line .. RegionEnd(classes[k])])
    ensures SortedText(source, body) == Ok(Normalize(source))
  {
    var lines := SplitOnNewline(Normalize(source));
    SortedLinesUnchanged(lines, FindClasses(body));
    SplitOnNewlineJoin(Normalize(source));
  }

  /** A file none of whose classes has calls among its methods, or two
      methods of one name, comes back with only its line terminators
      normalised. */
  lemma SortedTextWithoutSelfCalls(source: string, body: seq<Statement>)
    requires var lines := SplitOnNewline(Normalize(source));
      var classes := FindClasses(body);
      && ClassesInOrder(lines, classes)
      && forall k :: 0 <= k < |classes| ==> DistinctNames(Methods(classes[k])) && NoSelfCalls(Methods(classes[k]))
    ensures SortedText(source, body) == Ok(Normalize(source))
  {
    var lines := SplitOnNewline(Normalize(source));
    var classes := FindClasses(body);
    forall k | 0 <= k < |classes|
      ensures classes[k].line <= RegionEnd(classes[k]) <= |lines|
      ensures ClassRewrite(lines, classes[k]) == Ok(lines[classes[k].line .. RegionEnd(classes[k])])
    {
      ClassWithoutSelfCallsUnchanged(lines, classes[k]);
    }
    SortedTextUnchanged(source, body);
  }

  /** Line 22 joins the rebuilt lines so that splitting the result at LF
      gives them back. */
  lemma SortedTextSplits(source: string, body: seq<Statement>)
    requires ClassesInOrder(SplitOnNewline(Normalize(source)), FindClasses(body))
    ensures var lines := SplitOnNewline(Normalize(source));
      var r := SortedText(source, body);
      && (r.Ok? <==> SortedLines(lines, FindClasses(body)).Ok?)
      && (r.Ok? ==> SplitOnNewline(r.value) == SortedLines(lines, FindClasses(body)).value)
  {
    var lines := SplitOnNewline(Normalize(source));
    var classes := FindClasses(body);
    SortedLinesRearranges(lines, classes);
    if SortedLines(lines, classes).Ok? {
      var out := SortedLines(lines, classes).value;
      LinesOfRearrangement(lines, out);
      JoinSplitOnNewline(out);
    }
  }

  lemma LinesOfRearrangement(lines: seq<string>, out: seq<string>)
    requires forall i :: 0 <= i < |lines| ==> '\n' !in lines[i]
    requires lines != [] && multiset(out) == multiset(lines)
    ensures |out| > 0 && forall i :: 0 <= i < |out| ==> '\n' !in out[i]
  {
    assert |out| == |multiset(out)| == |multiset(lines)| == |lines|;
    forall i | 0 <= i < |out| ensures '\n' !in out[i] {
      assert out[i] in multiset(lines);
      var j :| 0 <= j < |lines| && lines[j] == out[i];
    }
  }

  /** The file around a getter and a setter both named `x` (the class line,
      the getter, the setter, one more line): as written, the class's block
      is one line short, so the cursor of line 19 falls one line early and
      copies the setter a second time; the getter is lost and the setter
      doubled. */
  lemma SharedNameFileAsWritten(lines: seq<string>)
    requires |lines| == 4
    ensures RegionEnd(SharedNameClass()) == 3
    ensures ClassRewriteAsWritten(lines, SharedNameClass()) == Ok([lines[2]])
    ensures var done := Spliced(lines, [Region(1, 3, [lines[2]])]);
      done + PySlice(lines, |done|, |lines|) == [lines[0], lines[2], lines[2], lines[3]]
  {
    SharedNameAsWritten(lines);
    SharedNameWellFormed(lines);
    SplicedShortBlock(lines);
  }

  /** Four lines, with the block of lines 1..3 replaced by line 2 alone: the
      rest of the file is copied from 2, where the block should have ended. */
  lemma SplicedShortBlock(lines: seq<string>)
    requires |lines| == 4
    ensures var done := Spliced(lines, [Region(1, 3, [lines[2]])]);
      done + PySlice(lines, |done|, |lines|) == [lines[0], lines[2], lines[2], lines[3]]
  {
    var r := Region(1, 3, [lines[2]]);
    SplicedOne(lines, r);
    FourSlices(lines);
    assert PySlice(lines, 0, 1) == [lines[0]];
    var done := Spliced(lines, [r]);
    assert done == [lines[0], lines[2]];
    assert PySlice(lines, |done|, |lines|) == [lines[2], lines[3]];
  }

  /** The corrected rewrite gives the same file back. */
  lemma SharedNameFileCorrected(lines: seq<string>)
    requires |lines| == 4
    ensures SortedLines(lines, [SharedNameClass()]) == Ok(lines)
  {
    var cls := SharedNameClass();
    SharedNameWellFormed(lines);
    SharedNameCorrected(lines, cls);
    RewritesOne(lines, cls);
    SplicedWholeBlock(lines);
  }

  /** Four lines, with the block of lines 1..3 replaced by itself: the file
      comes back unchanged. */
  lemma SplicedWholeBlock(lines: seq<string>)
    requires |lines| == 4
    ensures var done := Spliced(lines, [Region(1, 3, [lines[1], lines[2]])]);
      done + PySlice(lines, |done|, |lines|) == lines
  {
    var r := Region(1, 3, [lines[1], lines[2]]);
    SplicedOne(lines, r);
    FourSlices(lines);
    assert PySlice(lines, 0, 1) == [lines[0]];
    var done := Spliced(lines, [r]);
    assert done == [lines[0], lines[1], lines[2]];
    assert PySlice(lines, |done|, |lines|) == [lines[3]];
  }

  // ---------------------------------------------------------------------
  // The loop as written

  /** Once a class's sort fails, the loop fails with that error. */
  lemma {:induction false} RewritesPrefixErr(lines: seq<string>, classes: seq<ClassDef>, i: nat)
    requires i <= |classes| && Rewrites(lines, classes[..i]).Err?
    ensures Rewrites(lines, classes) == Rewrites(lines, classes[..i])
    decreases |classes| - i
  {
    if i < |classes| {
      var n := |classes| - 1;
      assert classes[..n][..i] == classes[..i];
      RewritesPrefixErr(lines, classes[..n], i);
    } else {
      assert classes[..i] == classes;
    }
  }

  /** `step_down_sort` with the file's text and parse tree as inputs. */
  method StepDownSort(source: string, body: seq<Statement>) returns (r: Result<string>)
    ensures r == SortedText(source, body)
  {
    var lines := SplitOnNewline(Normalize(source));
    var classes := FindClasses(body);
    var modified: seq<string> := [];
    ghost var rs: seq<Region> := [];
    var i := 0;
    while i < |classes|
      invariant 0 <= i <= |classes|
      invariant Rewrites(lines, classes[..i]) == Ok(rs)
      invariant modified == Spliced(lines, rs)
    {
      var c := classes[i];
      modified := modified + PySlice(lines, |modified|, c.line);
      var block := SortMethodsWithinClass(lines, c);
      if block.Err? {
        RewritesStep(lines, classes, i, rs);
        RewritesPrefixErr(lines, classes, i + 1);
        return Err(block.error);
      }
      modified := modified + block.value;
      RewritesStep(lines, classes, i, rs);
      SplicedSnoc(lines, rs, Region(c.line, RegionEnd(c), block.value));
      rs := rs + [Region(c.line, RegionEnd(c), block.value)];
      i := i + 1;
    }
    assert classes[..i] == classes;
    modified := modified + PySlice(lines, |modified|, |lines|);
    return Ok(JoinLines(modified) + "\n");
  }

  /** One iteration of the loop over the classes. */
  lemma RewritesStep(lines: seq<string>, classes: seq<ClassDef>, i: nat, rs: seq<Region>)
    requires i < |classes| && Rewrites(lines, classes[..i]) == Ok(rs)
    ensures var c := classes[i];
      Rewrites(lines, classes[..i + 1]) ==
        match ClassRewrite(lines, c)
        case Err(e) => Err(e)
        case Ok(block) => Ok(rs + [Region(c.line, RegionEnd(c), block)])
  {
    assert classes[..i + 1][..i] == classes[..i];
  }

  /** One class: its region, when its rewrite succeeds. */
  lemma RewritesOne(lines: seq<string>, c: ClassDef)
    ensures ClassRewrite(lines, c).Ok? ==>
      Rewrites(lines, [c]) == Ok([Region(c.line, RegionEnd(c), ClassRewrite(lines, c).value)])
  {
    assert [c][..0] == [];
    assert Rewrites(lines, []) == Ok([]);
    if ClassRewrite(lines, c).Ok? {
      var r := Region(c.line, RegionEnd(c), ClassRewrite(lines, c).value);
      assert [] + [r] == [r];
    }
  }

  /** One region: the lines before it, then its block. */
  lemma SplicedOne(lines: seq<string>, r: Region)
    ensures Spliced(lines, [r]) == PySlice(lines, 0, r.start) + r.block
  {
    SplicedSnoc(lines, [], r);
    assert [] + [r] == [r];
  }

  lemma SplicedSnoc(lines: seq<string>, rs: seq<Region>, r: Region)
    ensures var done := Spliced(lines, rs);
      Spliced(lines, rs + [r]) == done + PySlice(lines, |done|, r.start) + r.block
  {
    assert (rs + [r])[..|rs|] == rs;
  }
}
