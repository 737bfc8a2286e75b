/** Wildcard paths of post-resolve transformations: `resolvePaths` replaces one `[]` of every
    path per pass; what it returns is one walk over the document. */
module PathExpansion {
  import opened Wrappers
  import opened JsonTree

  function Under(s: Segment, paths: seq<Path>): (r: seq<Path>)
    ensures |r| == |paths| && forall i :: 0 <= i < |r| ==> r[i] == [s] + paths[i]
  {
    seq(|paths|, i requires 0 <= i < |paths| => [s] + paths[i])
  }

  /** The concrete paths that a pattern stands for at a position, depth first and in document
      order.  Components after the last wildcard need not exist. */
  function Walk(mv: Option<Json>, pattern: Path): seq<Path>
    decreases pattern, 0
  {
    if pattern == [] then [[]]
    else if pattern[0] == Each then WalkItems(ElementsOf(mv), 0, pattern)
    else Under(pattern[0], Walk(ChildOf(mv, pattern[0]), pattern[1..]))
  }

  function WalkItems(items: seq<Json>, i: nat, pattern: Path): seq<Path>
    requires pattern != [] && i <= |items|
    decreases pattern[1..], 1, |items| - i
  {
    if i == |items| then []
    else Under(Index(i), Walk(Some(items[i]), pattern[1..])) + WalkItems(items, i + 1, pattern)
  }

  function WalkAll(input: Json, patterns: seq<Path>): seq<Path> {
    if patterns == [] then [] else Walk(Some(input), patterns[0]) + WalkAll(input, patterns[1..])
  }

  predicate Concrete(p: Path) {
    Each !in p
  }

  function Wildcards(p: Path): nat {
    if p == [] then 0 else (if p[0] == Each then 1 else 0) + Wildcards(p[1..])
  }

  // What the walk returns

  /** `q` is an instance of `pattern` in `doc`: a wildcard became the index of an element. */
  predicate Matches(doc: Json, q: Path, pattern: Path) {
    |q| == |pattern| &&
    forall i :: 0 <= i < |q| ==>
      if pattern[i] == Each then q[i].Index? && Get(doc, q[..i + 1]).Some? else q[i] == pattern[i]
  }

  /** `Matches` one component at a time, from a position that may be missing. */
  predicate MatchesFrom(mv: Option<Json>, q: Path, pattern: Path)
    decreases pattern
  {
    if pattern == [] then q == []
    else
      && q != []
      && (if pattern[0] == Each then q[0].Index? && ChildOf(mv, q[0]).Some? else q[0] == pattern[0])
      && MatchesFrom(ChildOf(mv, q[0]), q[1..], pattern[1..])
  }

  function GetFrom(mv: Option<Json>, path: Path): Option<Json> {
    if mv.None? then None else Get(mv.value, path)
  }

  predicate MatchesAt(mv: Option<Json>, q: Path, pattern: Path, i: nat)
    requires i < |q| == |pattern|
  {
    if pattern[i] == Each then q[i].Index? && GetFrom(mv, q[..i + 1]).Some? else q[i] == pattern[i]
  }

  lemma MatchesAtStep(mv: Option<Json>, q: Path, pattern: Path, i: nat)
    requires 0 < |q| == |pattern| && i < |q| - 1
    ensures MatchesAt(ChildOf(mv, q[0]), q[1..], pattern[1..], i) <==> MatchesAt(mv, q, pattern, i + 1)
  {
    assert q[..i + 2][1..] == q[1..][..i + 1] && q[..i + 2][0] == q[0];
  }

  lemma MatchesAtHead(mv: Option<Json>, q: Path, pattern: Path)
    requires 0 < |q| == |pattern|
    ensures MatchesAt(mv, q, pattern, 0) <==>
      if pattern[0] == Each then q[0].Index? && ChildOf(mv, q[0]).Some? else q[0] == pattern[0]
  {
    assert q[..1] == [q[0]] && [q[0]][1..] == [];
    assert mv.Some? && Child(mv.value, q[0]).Some? ==>
      Get(Child(mv.value, q[0]).value, []) == Child(mv.value, q[0]);
  }

  lemma {:induction false} MatchesFromExactly(mv: Option<Json>, q: Path, pattern: Path)
    ensures MatchesFrom(mv, q, pattern) <==>
            |q| == |pattern| && forall i :: 0 <= i < |q| ==> MatchesAt(mv, q, pattern, i)
    decreases pattern
  {
    if pattern != [] && q != [] {
      var c := ChildOf(mv, q[0]);
      MatchesFromExactly(c, q[1..], pattern[1..]);
      if |q| == |pattern| {
        MatchesAtHead(mv, q, pattern);
        forall i | 0 <= i < |q| - 1
          ensures MatchesAt(c, q[1..], pattern[1..], i) <==> MatchesAt(mv, q, pattern, i + 1)
        {
          MatchesAtStep(mv, q, pattern, i);
        }
        if forall i :: 0 <= i < |q[1..]| ==> MatchesAt(c, q[1..], pattern[1..], i) {
          forall i | 1 <= i < |q| ensures MatchesAt(mv, q, pattern, i) {
            assert MatchesAt(c, q[1..], pattern[1..], i - 1);
          }
        }
      }
    }
  }

  lemma {:induction false} WalkExact(mv: Option<Json>, pattern: Path, q: Path)
    ensures q in Walk(mv, pattern) <==> MatchesFrom(mv, q, pattern)
    decreases pattern
  {
    if pattern != [] {
      if pattern[0] == Each {
        ItemsExact(ElementsOf(mv), 0, pattern, q);
        if q != [] && q[0].Index? && q[0].i < |ElementsOf(mv)| {
          WalkExact(Some(ElementsOf(mv)[q[0].i]), pattern[1..], q[1..]);
        }
      } else {
        UnderExact(pattern[0], Walk(ChildOf(mv, pattern[0]), pattern[1..]), q);
        if q != [] {
          WalkExact(ChildOf(mv, pattern[0]), pattern[1..], q[1..]);
        }
      }
    }
  }

  lemma UnderExact(s: Segment, paths: seq<Path>, q: Path)
    ensures q in Under(s, paths) <==> q != [] && q[0] == s && q[1..] in paths
  {
    if q != [] && q[0] == s && q[1..] in paths {
      var i :| 0 <= i < |paths| && paths[i] == q[1..];
      assert Under(s, paths)[i] == [s] + q[1..] == q;
    }
  }

  lemma {:induction false} ItemsExact(items: seq<Json>, i: nat, pattern: Path, q: Path)
    requires pattern != [] && i <= |items|
    ensures q in WalkItems(items, i, pattern) <==>
      && q != [] && q[0].Index? && i <= q[0].i < |items|
      && q[1..] in Walk(Some(items[q[0].i]), pattern[1..])
    decreases |items| - i
  {
    if i < |items| {
      UnderExact(Index(i), Walk(Some(items[i]), pattern[1..]), q);
      ItemsExact(items, i + 1, pattern, q);
    }
  }

  /** The walk returns all instances of the pattern and nothing else. */
  lemma WalkIsAllMatches(doc: Json, pattern: Path, q: Path)
    ensures q in Walk(Some(doc), pattern) <==> Matches(doc, q, pattern)
  {
    WalkExact(Some(doc), pattern, q);
    MatchesFromExactly(Some(doc), q, pattern);
    assert forall i :: 0 <= i < |q| && |q| == |pattern| ==>
      (MatchesAt(Some(doc), q, pattern, i) <==>
       if pattern[i] == Each then q[i].Index? && Get(doc, q[..i + 1]).Some? else q[i] == pattern[i]);
  }

  /** At the first component where they differ, `p` has the smaller index. */
  predicate Before(p: Path, q: Path) {
    && p != [] && q != []
    && if p[0] == q[0] then Before(p[1..], q[1..])
       else p[0].Index? && q[0].Index? && p[0].i < q[0].i
  }

  /** Paths that part at an array are in the order of its elements. */
  lemma {:induction false} BeforeExactly(common: Path, i: nat, j: nat, p: Path, q: Path)
    requires i != j
    ensures Before(common + [Index(i)] + p, common + [Index(j)] + q) <==> i < j
  {
    var a, b := common + [Index(i)] + p, common + [Index(j)] + q;
    if common != [] {
      assert a[1..] == common[1..] + [Index(i)] + p && b[1..] == common[1..] + [Index(j)] + q;
      BeforeExactly(common[1..], i, j, p, q);
    }
  }

  ghost predicate InDocumentOrder(paths: seq<Path>) {
    forall i, j :: 0 <= i < j < |paths| ==> Before(paths[i], paths[j])
  }

  lemma {:induction false} BeforeIsStrict(p: Path, q: Path)
    requires Before(p, q)
    ensures p != q
  {
    if p[0] == q[0] {
      BeforeIsStrict(p[1..], q[1..]);
    }
  }

  /** The walk is in document order, so it repeats nothing. */
  lemma {:induction false} WalkOrdered(mv: Option<Json>, pattern: Path)
    ensures InDocumentOrder(Walk(mv, pattern))
    ensures forall q: Path :: q in Walk(mv, pattern) ==> |q| == |pattern| && Concrete(q)
    decreases pattern, 0
  {
    if pattern != [] {
      if pattern[0] == Each {
        ItemsOrdered(ElementsOf(mv), 0, pattern);
      } else {
        var c := ChildOf(mv, pattern[0]);
        WalkOrdered(c, pattern[1..]);
        UnderOrdered(pattern[0], Walk(c, pattern[1..]), pattern[1..]);
      }
    }
  }

  lemma UnderOrdered(s: Segment, paths: seq<Path>, pattern: Path)
    requires InDocumentOrder(paths) && s != Each
    requires forall q :: q in paths ==> |q| == |pattern| && Concrete(q)
    ensures InDocumentOrder(Under(s, paths))
    ensures forall q: Path :: q in Under(s, paths) ==> |q| == |pattern| + 1 && Concrete(q) && q[0] == s
  {
    forall i, j | 0 <= i < j < |paths| ensures Before([s] + paths[i], [s] + paths[j]) {
      assert ([s] + paths[i])[1..] == paths[i] && ([s] + paths[j])[1..] == paths[j];
    }
  }

  lemma {:induction false} ItemsOrdered(items: seq<Json>, i: nat, pattern: Path)
    requires pattern != [] && i <= |items|
    ensures InDocumentOrder(WalkItems(items, i, pattern))
    ensures forall q: Path :: q in WalkItems(items, i, pattern) ==>
      |q| == |pattern| && Concrete(q) && q[0].Index? && i <= q[0].i
    decreases pattern[1..], 1, |items| - i
  {
    if i < |items| {
      WalkOrdered(Some(items[i]), pattern[1..]);
      UnderOrdered(Index(i), Walk(Some(items[i]), pattern[1..]), pattern[1..]);
      ItemsOrdered(items, i + 1, pattern);
      var a, b := Under(Index(i), Walk(Some(items[i]), pattern[1..])), WalkItems(items, i + 1, pattern);
      forall k, l | 0 <= k < l < |a + b| ensures Before((a + b)[k], (a + b)[l]) {
        if k < |a| && l >= |a| {
          assert a[k] in a && b[l - |a|] in b;
        }
      }
    }
  }

  // One pass of `resolvePaths`

  lemma {:induction false} WalkConcrete(mv: Option<Json>, p: Path)
    requires Concrete(p)
    ensures Walk(mv, p) == [p]
    decreases p
  {
    if p != [] {
      WalkConcrete(ChildOf(mv, p[0]), p[1..]);
      assert [p[0]] + p[1..] == p;
    }
  }

  /** The paths made from `pre + [] + post` for the elements from `i` on. */
  function Expanded(pre: Path, post: Path, i: nat, n: nat): seq<Path>
    requires i <= n
  {
    seq(n - i, k requires 0 <= k < n - i => pre + [Index(i + k)] + post)
  }

  /** Walking the paths of one expansion is walking the path expanded. */
  lemma {:induction false} WalkFrom(mv: Option<Json>, pre: Path, post: Path)
    requires Concrete(pre)
    ensures Walk(mv, pre + [Each] + post) ==
      Joined(mv, Expanded(pre, post, 0, |ElementsOf(GetFrom(mv, pre))|))
    decreases pre
  {
    if pre == [] {
      assert pre + [Each] + post == [Each] + post && ([Each] + post)[1..] == post;
      WalkItemsJoined(mv, post, 0);
    } else {
      var c := ChildOf(mv, pre[0]);
      var n := |ElementsOf(GetFrom(mv, pre))|;
      assert (pre + [Each] + post)[1..] == pre[1..] + [Each] + post;
      WalkFrom(c, pre[1..], post);
      JoinedUnder(mv, pre, post, n, 0);
    }
  }

  /** `Walk` on each path, one after the other. */
  function Joined(mv: Option<Json>, paths: seq<Path>): seq<Path> {
    if paths == [] then [] else Walk(mv, paths[0]) + Joined(mv, paths[1..])
  }

  lemma WalkIndex(mv: Option<Json>, post: Path, i: nat)
    requires i < |ElementsOf(mv)|
    ensures Walk(mv, [Index(i)] + post) == Under(Index(i), Walk(Some(ElementsOf(mv)[i]), post))
  {
    assert ([Index(i)] + post)[1..] == post;
  }

  lemma ExpandedStep(pre: Path, post: Path, i: nat, n: nat)
    requires i < n
    ensures Expanded(pre, post, i, n) == [pre + [Index(i)] + post] + Expanded(pre, post, i + 1, n)
  {
  }

  lemma {:induction false} WalkItemsJoined(mv: Option<Json>, post: Path, i: nat)
    requires i <= |ElementsOf(mv)|
    ensures WalkItems(ElementsOf(mv), i, [Each] + post) == Joined(mv, Expanded([], post, i, |ElementsOf(mv)|))
    decreases |ElementsOf(mv)| - i
  {
    var items := ElementsOf(mv);
    if i < |items| {
      var first, rest := [Index(i)] + post, Expanded([], post, i + 1, |items|);
      WalkItemsJoined(mv, post, i + 1);
      WalkIndex(mv, post, i);
      ExpandedStep([], post, i, |items|);
      assert [] + [Index(i)] + post == first;
      assert ([first] + rest)[1..] == rest;
      assert ([Each] + post)[1..] == post;
    }
  }

  lemma JoinedStep(mv: Option<Json>, first: Path, rest: seq<Path>)
    ensures Joined(mv, [first] + rest) == Walk(mv, first) + Joined(mv, rest)
  {
    assert ([first] + rest)[1..] == rest;
  }

  lemma UnderAppend(s: Segment, x: seq<Path>, y: seq<Path>)
    ensures Under(s, x + y) == Under(s, x) + Under(s, y)
  {
  }

  lemma {:induction false} JoinedUnder(mv: Option<Json>, pre: Path, post: Path, n: nat, i: nat)
    requires pre != [] && pre[0] != Each && i <= n
    ensures Joined(mv, Expanded(pre, post, i, n)) ==
            Under(pre[0], Joined(ChildOf(mv, pre[0]), Expanded(pre[1..], post, i, n)))
    decreases n - i
  {
    if i < n {
      JoinedUnder(mv, pre, post, n, i + 1);
      var first, inner := pre + [Index(i)] + post, pre[1..] + [Index(i)] + post;
      var rest, innerRest := Expanded(pre, post, i + 1, n), Expanded(pre[1..], post, i + 1, n);
      ExpandedStep(pre, post, i, n);
      ExpandedStep(pre[1..], post, i, n);
      JoinedStep(mv, first, rest);
      JoinedStep(ChildOf(mv, pre[0]), inner, innerRest);
      assert first[0] == pre[0] && first[1..] == inner;
      UnderAppend(pre[0], Walk(ChildOf(mv, pre[0]), inner), Joined(ChildOf(mv, pre[0]), innerRest));
    }
  }

  lemma {:induction false} WalkAllIsJoined(input: Json, paths: seq<Path>)
    ensures WalkAll(input, paths) == Joined(Some(input), paths)
  {
    if paths != [] {
      WalkAllIsJoined(input, paths[1..]);
    }
  }

  /** `resolvePaths` distributes over concatenation. */
  lemma {:induction false} WalkAllAppend(input: Json, a: seq<Path>, b: seq<Path>)
    ensures WalkAll(input, a + b) == WalkAll(input, a) + WalkAll(input, b)
  {
    if a == [] {
      assert a + b == b;
    } else {
      assert (a + b)[1..] == a[1..] + b;
      WalkAllAppend(input, a[1..], b);
    }
  }

  lemma {:induction false} WalkAllConcrete(input: Json, paths: seq<Path>)
    requires forall p :: p in paths ==> Concrete(p)
    ensures WalkAll(input, paths) == paths
  {
    if paths != [] {
      WalkConcrete(Some(input), paths[0]);
      WalkAllConcrete(input, paths[1..]);
    }
  }

  /** Replacing the first wildcard by every index leaves the walk as it was. */
  lemma ExpandFirst(input: Json, p: Path, j: nat)
    requires j < |p| && p[j] == Each && Concrete(p[..j])
    ensures Walk(Some(input), p) ==
      WalkAll(input, Expanded(p[..j], p[j + 1..], 0, |ElementsOf(Get(input, p[..j]))|))
  {
    assert p[..j] + [Each] + p[j + 1..] == p;
    WalkFrom(Some(input), p[..j], p[j + 1..]);
    WalkAllIsJoined(input, Expanded(p[..j], p[j + 1..], 0, |ElementsOf(Get(input, p[..j]))|));
  }

  lemma {:induction false} WildcardsAppend(p: Path, q: Path)
    ensures Wildcards(p + q) == Wildcards(p) + Wildcards(q)
  {
    if p == [] {
      assert p + q == q;
    } else {
      assert (p + q)[1..] == p[1..] + q;
      WildcardsAppend(p[1..], q);
    }
  }

  lemma {:induction false} ConcreteExactly(p: Path)
    ensures Concrete(p) <==> Wildcards(p) == 0
  {
    if p != [] {
      ConcreteExactly(p[1..]);
      assert p == [p[0]] + p[1..];
    }
  }

  lemma ExpandedHasFewer(p: Path, j: nat, i: nat)
    requires j < |p| && p[j] == Each
    ensures Wildcards(p[..j] + [Index(i)] + p[j + 1..]) == Wildcards(p) - 1
  {
    assert p == p[..j] + [Each] + p[j + 1..];
    WildcardsAppend(p[..j] + [Each], p[j + 1..]);
    WildcardsAppend(p[..j], [Each]);
    WildcardsAppend(p[..j] + [Index(i)], p[j + 1..]);
    WildcardsAppend(p[..j], [Index(i)]);
    assert Wildcards([Each]) == 1 && Wildcards([Index(i)]) == 0;
  }

  function MostWildcards(paths: seq<Path>): nat {
    if paths == [] then 0
    else
      var here, rest := Wildcards(paths[0]), MostWildcards(paths[1..]);
      if here > rest then here else rest
  }

  lemma {:induction false} MostWildcardsBound(paths: seq<Path>)
    ensures forall p :: p in paths ==> Wildcards(p) <= MostWildcards(paths)
    ensures paths != [] ==> exists p :: p in paths && Wildcards(p) == MostWildcards(paths)
  {
    if paths != [] {
      MostWildcardsBound(paths[1..]);
      assert paths[0] in paths;
      assert forall p :: p in paths[1..] ==> p in paths;
      if |paths| == 1 {
        assert paths[1..] == [];
      }
    }
  }

  // The code

  method PathContainsArray(path: Path) returns (contains: bool, j: nat)
    ensures contains <==> !Concrete(path)
    ensures contains ==> j < |path| && path[j] == Each && Concrete(path[..j])
  {
    for i := 0 to |path|
      invariant Concrete(path[..i])
    {
      if path[i] == Each {
        return true, i;
      }
    }
    return false, 0;
  }

  method PathsContainArray(paths: seq<Path>) returns (contain: bool)
    ensures contain <==> exists p :: p in paths && !Concrete(p)
  {
    for i := 0 to |paths|
      invariant forall k :: 0 <= k < i ==> Concrete(paths[k])
    {
      var c, _ := PathContainsArray(paths[i]);
      if c {
        return true;
      }
    }
    return false;
  }

  /** Appends the paths that one wildcard of `path` expands to. */
  method ExpandPath(input: Json, path: Path, j: nat, out: seq<Path>) returns (r: seq<Path>)
    requires j < |path| && path[j] == Each
    ensures r == out + Expanded(path[..j], path[j + 1..], 0, |ElementsOf(Get(input, path[..j]))|)
  {
    var preArrayPath, postArrayPath := path[..j], path[j + 1..];
    var elements := ElementsOf(Get(input, preArrayPath));
    r := out;
    for index := 0 to |elements|
      invariant r == out + Expanded(preArrayPath, postArrayPath, 0, |elements|)[..index]
    {
      r := r + [preArrayPath + [Index(index)] + postArrayPath];
    }
  }

  /** `resolvePaths`: level by level, until no wildcard is left. */
  method ResolvePaths(input: Json, paths: seq<Path>) returns (out: seq<Path>)
    ensures out == WalkAll(input, paths)
    decreases MostWildcards(paths)
  {
    var contain := PathsContainArray(paths);
    if !contain {
      WalkAllConcrete(input, paths);
      return paths;
    }
    out := ExpandPass(input, paths);
    var more := PathsContainArray(out);
    if more {
      FewerAfterPass(paths, out);
      out := ResolvePaths(input, out);
    } else {
      WalkAllConcrete(input, out);
    }
  }

  lemma FewerAfterPass(paths: seq<Path>, out: seq<Path>)
    requires exists p :: p in paths && !Concrete(p)
    requires exists p :: p in out && !Concrete(p)
    requires forall q :: q in out ==> exists p :: p in paths && Fewer(q, p)
    ensures MostWildcards(out) < MostWildcards(paths)
  {
    MostWildcardsBound(out);
    MostWildcardsBound(paths);
    var q :| q in out && Wildcards(q) == MostWildcards(out);
    var w :| w in out && !Concrete(w);
    ConcreteExactly(w);
    assert Wildcards(q) > 0;
    var p :| p in paths && Fewer(q, p);
  }

  /** `q` has fewer wildcards than `p`, or none to lose. */
  predicate Fewer(q: Path, p: Path) {
    Wildcards(q) == 0 || Wildcards(q) < Wildcards(p)
  }

  /** One path of a pass: expanded at its first wildcard, or kept. */
  method ExpandOne(input: Json, path: Path, out: seq<Path>) returns (r: seq<Path>)
    ensures WalkAll(input, r) == WalkAll(input, out) + Walk(Some(input), path)
    ensures forall q :: q in r ==> q in out || Fewer(q, path)
  {
    var containsArray, j := PathContainsArray(path);
    if !containsArray {
      ConcreteExactly(path);
      WalkAllAppend(input, out, [path]);
      assert WalkAll(input, [path]) == Walk(Some(input), path);
      return out + [path];
    }
    r := ExpandPath(input, path, j, out);
    ghost var added := Expanded(path[..j], path[j + 1..], 0, |ElementsOf(Get(input, path[..j]))|);
    ExpandFirst(input, path, j);
    WalkAllAppend(input, out, added);
    forall q | q in added ensures Fewer(q, path) {
      var k :| 0 <= k < |added| && added[k] == q;
      ExpandedHasFewer(path, j, k);
    }
  }

  lemma WalkAllSnoc(input: Json, paths: seq<Path>, path: Path)
    ensures WalkAll(input, paths + [path]) == WalkAll(input, paths) + Walk(Some(input), path)
  {
    WalkAllAppend(input, paths, [path]);
    assert WalkAll(input, [path]) == Walk(Some(input), path);
  }

  /** One pass: the first wildcard of every path that has one. */
  method ExpandPass(input: Json, paths: seq<Path>) returns (out: seq<Path>)
    ensures WalkAll(input, out) == WalkAll(input, paths)
    ensures forall q :: q in out ==> exists p :: p in paths && Fewer(q, p)
  {
    out := [];
    for i := 0 to |paths|
      invariant WalkAll(input, out) == WalkAll(input, paths[..i])
      invariant forall q :: q in out ==> exists p :: p in paths && Fewer(q, p)
    {
      assert paths[..i + 1] == paths[..i] + [paths[i]];
      WalkAllSnoc(input, paths[..i], paths[i]);
      out := ExpandOne(input, paths[i], out);
    }
    assert paths[..|paths|] == paths;
  }
}
