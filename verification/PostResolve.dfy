/** Post-resolve transformations: each one moves a value within the response, once for every
    element that its wildcards range over. */
module PostResolve {
  import opened Wrappers
  import opened JsonTree
  import opened PathExpansion

  datatype Transformation = GetTransformation(from: Path, to: Path) | OtherKind

  datatype Error =
    | LengthMismatch
    | KeyPathNotFound   // `jsonparser.Set` with an empty path

  function OrNull(mv: Option<Json>): Json {
    if mv.Some? then mv.value else Null
  }

  // The sequence of edits

  /** The writes that `applyGet` is about to do have existing parents and do not overlap. */
  ghost predicate Writable(doc: Json, tos: seq<Path>) {
    && (forall i :: 0 <= i < |tos| ==> CanPut(doc, tos[i]))
    && (forall i, j :: 0 <= i < j < |tos| ==> Disjoint(tos[i], tos[j]))
  }

  lemma WriteKeepsWritable(doc: Json, tos: seq<Path>, x: Json)
    requires tos != [] && Writable(doc, tos)
    ensures CanPut(doc, tos[0]) && Writable(Put(doc, tos[0], x), tos[1..])
  {
    forall i | 0 <= i < |tos[1..]| ensures CanPut(Put(doc, tos[0], x), tos[1..][i]) {
      PutKeepsCanPut(doc, tos[0], tos[i + 1], x);
    }
  }

  /** One edit after the other, each reading the document that the previous one left. */
  ghost function EditAll(doc: Json, froms: seq<Path>, tos: seq<Path>): Json
    requires |froms| == |tos| && Writable(doc, tos)
    decreases tos
  {
    if tos == [] then doc
    else
      var x := OrNull(Get(doc, froms[0]));
      WriteKeepsWritable(doc, tos, x);
      EditAll(Put(doc, tos[0], x), froms[1..], tos[1..])
  }

  /** A position that no edit overlaps keeps its value. */
  lemma {:induction false} EditAllElsewhere(doc: Json, froms: seq<Path>, tos: seq<Path>, q: Path)
    requires |froms| == |tos| && Writable(doc, tos)
    requires forall i :: 0 <= i < |tos| ==> Disjoint(tos[i], q)
    ensures Get(EditAll(doc, froms, tos), q) == Get(doc, q)
    decreases tos
  {
    if tos != [] {
      var x := OrNull(Get(doc, froms[0]));
      WriteKeepsWritable(doc, tos, x);
      GetPutDisjoint(doc, tos[0], q, x);
      EditAllElsewhere(Put(doc, tos[0], x), froms[1..], tos[1..], q);
    }
  }

  /** Each target holds what its own source held before any edit, provided no edit writes into
      the source of another. */
  lemma {:induction false} EditAllAt(doc: Json, froms: seq<Path>, tos: seq<Path>, k: nat)
    requires |froms| == |tos| && Writable(doc, tos) && k < |tos|
    requires forall i, j :: 0 <= i < |tos| && 0 <= j < |tos| && i != j ==> Disjoint(tos[i], froms[j])
    ensures var source := Get(doc, froms[k]);
      Get(EditAll(doc, froms, tos), tos[k]) == if source.Some? then source else Some(Null)
    decreases tos
  {
    var x := OrNull(Get(doc, froms[0]));
    WriteKeepsWritable(doc, tos, x);
    var next := Put(doc, tos[0], x);
    if k == 0 {
      GetPut(doc, tos[0], x);
      forall i | 0 <= i < |tos[1..]| ensures Disjoint(tos[1..][i], tos[0]) {
        DisjointSymmetric(tos[0], tos[i + 1]);
      }
      EditAllElsewhere(next, froms[1..], tos[1..], tos[0]);
    } else {
      GetPutDisjoint(doc, tos[0], froms[k], x);
      forall i, j | 0 <= i < |tos[1..]| && 0 <= j < |tos[1..]| && i != j
        ensures Disjoint(tos[1..][i], froms[1..][j])
      {
        assert Disjoint(tos[i + 1], froms[j + 1]);
      }
      EditAllAt(next, froms[1..], tos[1..], k - 1);
    }
  }

  /** The last edit reads what the others left. */
  lemma {:induction false} EditAllSnoc(doc: Json, froms: seq<Path>, tos: seq<Path>, from: Path, to: Path)
    requires |froms| == |tos| && Writable(doc, tos + [to])
    ensures Writable(doc, tos) && CanPut(EditAll(doc, froms, tos), to)
    ensures var before := EditAll(doc, froms, tos); var source := Get(before, from);
      EditAll(doc, froms + [from], tos + [to]) == Put(before, to, if source.Some? then source.value else Null)
    decreases tos
  {
    var all := tos + [to];
    assert forall i :: 0 <= i < |tos| ==> all[i] == tos[i];
    assert all[|tos|] == to;
    if tos == [] {
      assert (froms + [from])[0] == from && all[0] == to && all[1..] == [] && (froms + [from])[1..] == [];
    } else {
      var x := OrNull(Get(doc, froms[0]));
      assert all[1..] == tos[1..] + [to] && (froms + [from])[1..] == froms[1..] + [from];
      WriteKeepsWritable(doc, all, x);
      EditAllSnoc(Put(doc, tos[0], x), froms[1..], tos[1..], from, to);
    }
  }

  // The same as one pass

  /** One element, with the value at `f` inside it also at `t` inside it. */
  function MoveIn(x: Json, f: Path, t: Path): Json {
    if CanPut(x, t) then Put(x, t, OrNull(Get(x, f))) else x
  }

  /** Every element that `prefix` stands for, each replaced by its own `MoveIn`. */
  function MoveAt(v: Json, prefix: Path, f: Path, t: Path): Json
    decreases prefix
  {
    if prefix == [] then MoveIn(v, f, t)
    else if prefix[0] == Each then
      if v.Arr?
      then Arr(seq(|v.items|, i requires 0 <= i < |v.items| => MoveAt(v.items[i], prefix[1..], f, t)))
      else v
    else
      match Child(v, prefix[0])
      case None => v
      case Some(c) => PutChild(v, prefix[0], MoveAt(c, prefix[1..], f, t))
  }

  /** `MoveIn` at one concrete position. */
  function MoveOne(v: Json, p: Path, f: Path, t: Path): Json {
    if p == [] then MoveIn(v, f, t)
    else
      match Child(v, p[0])
      case None => v
      case Some(c) => PutChild(v, p[0], MoveOne(c, p[1..], f, t))
  }

  function MoveEach(v: Json, ps: seq<Path>, f: Path, t: Path): Json
    decreases ps
  {
    if ps == [] then v else MoveEach(MoveOne(v, ps[0], f, t), ps[1..], f, t)
  }

  lemma {:induction false} MoveEachAppend(v: Json, a: seq<Path>, b: seq<Path>, f: Path, t: Path)
    ensures MoveEach(v, a + b, f, t) == MoveEach(MoveEach(v, a, f, t), b, f, t)
    decreases a
  {
    if a == [] {
      assert a + b == b;
    } else {
      assert (a + b)[0] == a[0] && (a + b)[1..] == a[1..] + b;
      MoveEachAppend(MoveOne(v, a[0], f, t), a[1..], b, f, t);
    }
  }

  /** Moves below one component are moves inside the child. */
  lemma {:induction false} MoveEachUnder(v: Json, s: Segment, ps: seq<Path>, f: Path, t: Path)
    ensures MoveEach(v, Under(s, ps), f, t) ==
            match Child(v, s) case None => v case Some(c) => PutChild(v, s, MoveEach(c, ps, f, t))
    decreases ps
  {
    if ps == [] {
      if Child(v, s).Some? {
        PutChildSame(v, s);
      }
    } else {
      assert Under(s, ps)[1..] == Under(s, ps[1..]);
      assert Under(s, ps)[0][1..] == ps[0];
      var next := MoveOne(v, Under(s, ps)[0], f, t);
      MoveEachUnder(next, s, ps[1..], f, t);
      if Child(v, s).Some? {
        PutChildLaws(v, s, MoveOne(Child(v, s).value, ps[0], f, t));
      }
    }
  }

  lemma PutChildSame(v: Json, s: Segment)
    requires Child(v, s).Some?
    ensures PutChild(v, s, Child(v, s).value) == v
  {
  }

  /** Moving at each path of the walk is moving everywhere at once. */
  lemma {:induction false} MoveEachIsMoveAt(v: Json, prefix: Path, f: Path, t: Path)
    ensures MoveEach(v, Walk(Some(v), prefix), f, t) == MoveAt(v, prefix, f, t)
    decreases prefix, 0
  {
    if prefix == [] {
      assert Walk(Some(v), prefix) == [[]];
      assert MoveEach(v, [[]], f, t) == MoveEach(MoveOne(v, [], f, t), [], f, t);
    } else if prefix[0] == Each {
      if v.Arr? {
        assert FirstMoved(v.items, prefix[1..], f, t, 0) == v.items;
        MoveItems(v.items, 0, prefix, f, t);
      }
    } else {
      MoveEachUnder(v, prefix[0], Walk(ChildOf(Some(v), prefix[0]), prefix[1..]), f, t);
      if Child(v, prefix[0]).Some? {
        MoveEachIsMoveAt(Child(v, prefix[0]).value, prefix[1..], f, t);
      }
    }
  }

  function FirstMoved(items: seq<Json>, rest: Path, f: Path, t: Path, n: nat): seq<Json> {
    seq(|items|, i requires 0 <= i < |items| => if i < n then MoveAt(items[i], rest, f, t) else items[i])
  }

  lemma {:induction false} MoveItems(items: seq<Json>, i: nat, prefix: Path, f: Path, t: Path)
    requires prefix != [] && prefix[0] == Each && i <= |items|
    ensures MoveEach(Arr(FirstMoved(items, prefix[1..], f, t, i)), WalkItems(items, i, prefix), f, t)
         == MoveAt(Arr(items), prefix, f, t)
    decreases prefix[1..], 1, |items| - i
  {
    var now := FirstMoved(items, prefix[1..], f, t, i);
    if i == |items| {
      assert now == MoveAt(Arr(items), prefix, f, t).items;
    } else {
      var here := Walk(Some(items[i]), prefix[1..]);
      MoveEachAppend(Arr(now), Under(Index(i), here), WalkItems(items, i + 1, prefix), f, t);
      MoveEachUnder(Arr(now), Index(i), here, f, t);
      MoveEachIsMoveAt(items[i], prefix[1..], f, t);
      assert now[i := MoveAt(items[i], prefix[1..], f, t)] == FirstMoved(items, prefix[1..], f, t, i + 1);
      MoveItems(items, i + 1, prefix, f, t);
    }
  }

  // Joining the two

  /** Both paths share `prefix`, and `prefix` holds all their wildcards and ends with the last. */
  predicate SharePrefix(from: Path, to: Path, prefix: Path, f: Path, t: Path) {
    && from == prefix + f && to == prefix + t
    && Concrete(f) && Concrete(t)
    && (prefix == [] || prefix[|prefix| - 1] == Each)
  }

  function Extended(ps: seq<Path>, tail: Path): (r: seq<Path>)
    ensures |r| == |ps| && forall i :: 0 <= i < |r| ==> r[i] == ps[i] + tail
  {
    seq(|ps|, i requires 0 <= i < |ps| => ps[i] + tail)
  }

  lemma {:induction false} WalkTail(mv: Option<Json>, prefix: Path, tail: Path)
    requires Concrete(tail)
    ensures Walk(mv, prefix + tail) == Extended(Walk(mv, prefix), tail)
    decreases prefix, 0
  {
    if prefix == [] {
      assert prefix + tail == tail;
      WalkConcrete(mv, tail);
      assert Walk(mv, []) == [[]] && [] + tail == tail;
    } else {
      assert (prefix + tail)[1..] == prefix[1..] + tail;
      if prefix[0] == Each {
        WalkItemsTail(ElementsOf(mv), 0, prefix, tail);
      } else {
        WalkTail(ChildOf(mv, prefix[0]), prefix[1..], tail);
        ExtendedUnder(prefix[0], Walk(ChildOf(mv, prefix[0]), prefix[1..]), tail);
      }
    }
  }

  lemma ExtendedUnder(s: Segment, ps: seq<Path>, tail: Path)
    ensures Under(s, Extended(ps, tail)) == Extended(Under(s, ps), tail)
  {
    forall i | 0 <= i < |ps| ensures Under(s, Extended(ps, tail))[i] == Extended(Under(s, ps), tail)[i] {
      assert [s] + (ps[i] + tail) == [s] + ps[i] + tail;
    }
  }

  lemma {:induction false} WalkItemsTail(items: seq<Json>, i: nat, prefix: Path, tail: Path)
    requires prefix != [] && i <= |items| && Concrete(tail)
    ensures WalkItems(items, i, prefix + tail) == Extended(WalkItems(items, i, prefix), tail)
    decreases prefix[1..], 1, |items| - i
  {
    if i < |items| {
      assert (prefix + tail)[1..] == prefix[1..] + tail;
      WalkTail(Some(items[i]), prefix[1..], tail);
      ExtendedUnder(Index(i), Walk(Some(items[i]), prefix[1..]), tail);
      WalkItemsTail(items, i + 1, prefix, tail);
    }
  }

  /** The elements a prefix stands for exist and do not overlap. */
  lemma PrefixPositions(doc: Json, prefix: Path)
    requires prefix == [] || prefix[|prefix| - 1] == Each
    ensures forall p :: p in Walk(Some(doc), prefix) ==> Get(doc, p).Some?
    ensures var ps := Walk(Some(doc), prefix);
      forall i, j :: 0 <= i < |ps| && 0 <= j < |ps| && i != j ==> Disjoint(ps[i], ps[j])
  {
    var ps := Walk(Some(doc), prefix);
    WalkOrdered(Some(doc), prefix);
    forall p | p in ps ensures Get(doc, p).Some? {
      WalkIsAllMatches(doc, prefix, p);
      if prefix != [] {
        assert p[..|p| - 1 + 1] == p;
      }
    }
    forall i, j | 0 <= i < |ps| && 0 <= j < |ps| && i != j ensures Disjoint(ps[i], ps[j]) {
      assert ps[i] in ps && ps[j] in ps;
      BeforeIsStrict(ps[if i < j then i else j], ps[if i < j then j else i]);
      SameLengthDisjoint(ps[i], ps[j]);
    }
  }

  /** A move at an existing position is a write below it. */
  lemma {:induction false} MoveOneIsPut(doc: Json, p: Path, f: Path, t: Path)
    requires Get(doc, p).Some? && CanPut(doc, p + t)
    ensures MoveOne(doc, p, f, t) == Put(doc, p + t, OrNull(Get(doc, p + f)))
  {
    var x := Get(doc, p).value;
    PutInside(doc, p, t, OrNull(Get(doc, p + f)));
    GetAppend(doc, p, f);
    if p != [] {
      var c := Child(doc, p[0]).value;
      assert (p + t)[1..] == p[1..] + t && (p + f)[1..] == p[1..] + f;
      PutInside(c, p[1..], t, Null);
      MoveOneIsPut(c, p[1..], f, t);
      PutInside(c, p[1..], t, OrNull(Get(doc, p + f)));
      var inner := PutStep(doc, p, Put(x, t, OrNull(Get(doc, p + f))));
    }
  }

  ghost predicate Apart(ps: seq<Path>) {
    forall i, j :: 0 <= i < |ps| && 0 <= j < |ps| && i != j ==> Disjoint(ps[i], ps[j])
  }

  lemma {:induction false} EditAllIsMoveEach(doc: Json, ps: seq<Path>, f: Path, t: Path)
    requires Apart(ps) && Writable(doc, Extended(ps, t))
    requires forall p :: p in ps ==> Get(doc, p).Some?
    ensures EditAll(doc, Extended(ps, f), Extended(ps, t)) == MoveEach(doc, ps, f, t)
    decreases ps
  {
    if ps != [] {
      var froms, tos := Extended(ps, f), Extended(ps, t);
      var x := OrNull(Get(doc, froms[0]));
      MoveOneIsPut(doc, ps[0], f, t);
      WriteKeepsWritable(doc, tos, x);
      var next := Put(doc, tos[0], x);
      forall p | p in ps[1..] ensures Get(next, p).Some? {
        var i :| 0 <= i < |ps[1..]| && ps[1..][i] == p;
        assert Disjoint(ps[0], ps[i + 1]);
        DisjointExtend(ps[0], p, t, []);
        assert p + [] == p;
        GetPutDisjoint(doc, tos[0], p, x);
      }
      assert tos[1..] == Extended(ps[1..], t) && froms[1..] == Extended(ps[1..], f);
      forall i, j | 0 <= i < |ps[1..]| && 0 <= j < |ps[1..]| && i != j ensures Disjoint(ps[1..][i], ps[1..][j]) {
        assert Disjoint(ps[i + 1], ps[j + 1]);
      }
      EditAllIsMoveEach(next, ps[1..], f, t);
    }
  }

  /** The parents of `to` exist: everywhere `to` stands for can be written. */
  ghost predicate ParentsExist(doc: Json, to: Path) {
    forall p :: p in Walk(Some(doc), to) ==> CanPut(doc, p)
  }

  lemma TargetsWritable(doc: Json, to: Path)
    requires ParentsExist(doc, to)
    ensures Writable(doc, Walk(Some(doc), to))
  {
    var tos := Walk(Some(doc), to);
    WalkOrdered(Some(doc), to);
    forall i, j | 0 <= i < j < |tos| ensures Disjoint(tos[i], tos[j]) {
      assert tos[i] in tos && tos[j] in tos;
      BeforeIsStrict(tos[i], tos[j]);
      SameLengthDisjoint(tos[i], tos[j]);
    }
    forall i | 0 <= i < |tos| ensures CanPut(doc, tos[i]) {
      assert tos[i] in tos;
    }
  }

  /** What `applyGet` computes. */
  ghost function ApplyGetResult(doc: Json, from: Path, to: Path): Result<Json, Error>
    requires ParentsExist(doc, to)
  {
    var froms, tos := Walk(Some(doc), from), Walk(Some(doc), to);
    TargetsWritable(doc, to);
    if |froms| != |tos| then Err(LengthMismatch)
    else if to == [] then Err(KeyPathNotFound)
    else Ok(EditAll(doc, froms, tos))
  }

  /** It fails exactly when the two paths stand for different numbers of positions, or the target is
      the whole document. */
  lemma ApplyGetFailsExactly(doc: Json, from: Path, to: Path)
    requires ParentsExist(doc, to)
    ensures var froms, tos, r := Walk(Some(doc), from), Walk(Some(doc), to), ApplyGetResult(doc, from, to);
      && (r == Err(LengthMismatch) <==> |froms| != |tos|)
      && (r == Err(KeyPathNotFound) <==> |froms| == |tos| && to == [])
      && (r.Ok? <==> |froms| == |tos| && to != [])
  {
  }

  /** Paths that share all their wildcards never disagree in number, and the edits equal an
      element-wise map: also when `to` is a prefix of `from`. */
  lemma SharedWildcardsMoveElementwise(doc: Json, from: Path, to: Path, prefix: Path, f: Path, t: Path)
    requires ParentsExist(doc, to) && to != [] && SharePrefix(from, to, prefix, f, t)
    ensures ApplyGetResult(doc, from, to) == Ok(MoveAt(doc, prefix, f, t))
  {
    var ps := Walk(Some(doc), prefix);
    WalkTail(Some(doc), prefix, f);
    WalkTail(Some(doc), prefix, t);
    TargetsWritable(doc, to);
    PrefixPositions(doc, prefix);
    EditAllIsMoveEach(doc, ps, f, t);
    MoveEachIsMoveAt(doc, prefix, f, t);
  }

  /** Position by position: every target holds the old value of its own source, or null, and
      whatever does not overlap a target is as before. */
  lemma SharedWildcardsPointwise(doc: Json, from: Path, to: Path, prefix: Path, f: Path, t: Path)
    requires ParentsExist(doc, to) && to != [] && SharePrefix(from, to, prefix, f, t)
    ensures var r := MoveAt(doc, prefix, f, t); var ps := Walk(Some(doc), prefix);
      && (forall p :: p in ps && Get(doc, p + f).Some? ==> Get(r, p + t) == Get(doc, p + f))
      && (forall p :: p in ps && Get(doc, p + f).None? ==> Get(r, p + t) == Some(Null))
      && (forall q :: (forall p :: p in ps ==> Disjoint(p + t, q)) ==> Get(r, q) == Get(doc, q))
  {
    var r, ps := MoveAt(doc, prefix, f, t), Walk(Some(doc), prefix);
    var froms, tos := Extended(ps, f), Extended(ps, t);
    SharedWildcardsMoveElementwise(doc, from, to, prefix, f, t);
    WalkTail(Some(doc), prefix, f);
    WalkTail(Some(doc), prefix, t);
    TargetsWritable(doc, to);
    PrefixPositions(doc, prefix);
    forall i, j | 0 <= i < |tos| && 0 <= j < |tos| && i != j ensures Disjoint(tos[i], froms[j]) {
      DisjointExtend(ps[i], ps[j], t, f);
    }
    forall p | p in ps
      ensures Get(r, p + t) == if Get(doc, p + f).Some? then Get(doc, p + f) else Some(Null)
    {
      var k :| 0 <= k < |ps| && ps[k] == p;
      EditAllAt(doc, froms, tos, k);
    }
    forall q | forall p :: p in ps ==> Disjoint(p + t, q) ensures Get(r, q) == Get(doc, q) {
      forall i | 0 <= i < |tos| ensures Disjoint(tos[i], q) {
        assert ps[i] in ps;
      }
      EditAllElsewhere(doc, froms, tos, q);
    }
  }

  /** Any shared prefix that holds all the wildcards can be cut back to end with the last one. */
  lemma {:induction false} CutBackPrefix(from: Path, to: Path, prefix: Path, f: Path, t: Path)
    returns (prefix': Path, f': Path, t': Path)
    requires from == prefix + f && to == prefix + t && Concrete(f) && Concrete(t)
    ensures SharePrefix(from, to, prefix', f', t')
    decreases prefix
  {
    if prefix == [] || prefix[|prefix| - 1] == Each {
      prefix', f', t' := prefix, f, t;
    } else {
      var n := |prefix| - 1;
      assert prefix == prefix[..n] + [prefix[n]];
      assert prefix[..n] + ([prefix[n]] + f) == prefix + f;
      assert prefix[..n] + ([prefix[n]] + t) == prefix + t;
      prefix', f', t' := CutBackPrefix(from, to, prefix[..n], [prefix[n]] + f, [prefix[n]] + t);
    }
  }

  // The code

  /** `applyGet` */
  method ApplyGet(input: Json, from: Path, to: Path) returns (r: Result<Json, Error>)
    requires ParentsExist(input, to)
    ensures r == ApplyGetResult(input, from, to)
  {
    var froms := ResolvePaths(input, [from]);
    var tos := ResolvePaths(input, [to]);
    assert froms == Walk(Some(input), from) && tos == Walk(Some(input), to);
    if |froms| != |tos| {
      return Err(LengthMismatch);
    }
    TargetsWritable(input, to);
    TargetLengths(input, to);
    r := ApplyEdits(input, froms, tos);
  }

  /** The loop of `applyGet`. */
  method ApplyEdits(input: Json, froms: seq<Path>, tos: seq<Path>) returns (r: Result<Json, Error>)
    requires |froms| == |tos| && Writable(input, tos)
    requires tos == [[]] || forall p :: p in tos ==> p != []
    ensures r == if tos == [[]] then Err(KeyPathNotFound) else Ok(EditAll(input, froms, tos))
  {
    var doc := input;
    for i := 0 to |froms|
      invariant Writable(doc, tos[i..]) && (tos == [[]] ==> i == 0)
      invariant EditAll(doc, froms[i..], tos[i..]) == EditAll(input, froms, tos)
    {
      if tos[i] == [] {
        return Err(KeyPathNotFound);
      }
      EditStep(doc, froms, tos, i);
      var value := Get(doc, froms[i]);
      doc := Put(doc, tos[i], if value.None? then Null else value.value);
    }
    return Ok(doc);
  }

  /** One turn of the loop. */
  lemma EditStep(doc: Json, froms: seq<Path>, tos: seq<Path>, i: nat)
    requires |froms| == |tos| && i < |tos| && Writable(doc, tos[i..])
    ensures CanPut(doc, tos[i])
    ensures var next := Put(doc, tos[i], OrNull(Get(doc, froms[i])));
      Writable(next, tos[i + 1..]) && EditAll(doc, froms[i..], tos[i..]) == EditAll(next, froms[i + 1..], tos[i + 1..])
  {
    assert tos[i..][1..] == tos[i + 1..] && froms[i..][1..] == froms[i + 1..];
    WriteKeepsWritable(doc, tos[i..], OrNull(Get(doc, froms[i])));
  }

  lemma TargetLengths(doc: Json, to: Path)
    ensures to == [] ==> Walk(Some(doc), to) == [[]]
    ensures to != [] ==> forall p :: p in Walk(Some(doc), to) ==> p != []
    ensures to != [] ==> Walk(Some(doc), to) != [[]]
  {
    WalkOrdered(Some(doc), to);
    assert to != [] ==> [] !in Walk(Some(doc), to);
    var empty: Path := [];
    assert empty in [empty];
  }

  /** The transformations one after the other, up to the first that fails. */
  ghost function Transformed(doc: Json, ts: seq<Transformation>): Result<Json, Error>
    requires ParentsExistThroughout(doc, ts)
    decreases ts
  {
    if ts == [] then Ok(doc)
    else if ts[0].OtherKind? then Transformed(doc, ts[1..])
    else
      match ApplyGetResult(doc, ts[0].from, ts[0].to)
      case Err(e) => Err(e)
      case Ok(next) => Transformed(next, ts[1..])
  }

  /** Every transformation finds the parents of its target when its turn comes. */
  ghost predicate ParentsExistThroughout(doc: Json, ts: seq<Transformation>)
    decreases ts
  {
    ts == []
    || (ts[0].OtherKind? && ParentsExistThroughout(doc, ts[1..]))
    || (&& ts[0].GetTransformation?
        && ParentsExist(doc, ts[0].to)
        && (ApplyGetResult(doc, ts[0].from, ts[0].to).Ok? ==>
              ParentsExistThroughout(ApplyGetResult(doc, ts[0].from, ts[0].to).value, ts[1..])))
  }

  lemma {:induction false} ParentsExistInParts(doc: Json, ts: seq<Transformation>, us: seq<Transformation>)
    ensures ParentsExistThroughout(doc, ts + us) <==>
            ParentsExistThroughout(doc, ts)
            && (Transformed(doc, ts).Ok? ==> ParentsExistThroughout(Transformed(doc, ts).value, us))
    decreases ts
  {
    if ts == [] {
      assert ts + us == us;
    } else {
      assert (ts + us)[0] == ts[0] && (ts + us)[1..] == ts[1..] + us;
      if ts[0].OtherKind? {
        ParentsExistInParts(doc, ts[1..], us);
      } else if ParentsExist(doc, ts[0].to) && ApplyGetResult(doc, ts[0].from, ts[0].to).Ok? {
        ParentsExistInParts(ApplyGetResult(doc, ts[0].from, ts[0].to).value, ts[1..], us);
      }
    }
  }

  /** Transforming by `ts` and `us` is transforming by `ts` and, if that succeeds, by `us`. */
  lemma {:induction false} TransformedInParts(doc: Json, ts: seq<Transformation>, us: seq<Transformation>)
    requires ParentsExistThroughout(doc, ts + us)
    ensures ParentsExistThroughout(doc, ts)
    ensures Transformed(doc, ts).Err? ==> Transformed(doc, ts + us) == Transformed(doc, ts)
    ensures Transformed(doc, ts).Ok? ==> var next := Transformed(doc, ts).value;
      ParentsExistThroughout(next, us) && Transformed(doc, ts + us) == Transformed(next, us)
    decreases ts
  {
    ParentsExistInParts(doc, ts, us);
    if ts == [] {
      assert ts + us == us;
    } else {
      assert (ts + us)[0] == ts[0] && (ts + us)[1..] == ts[1..] + us;
      if ts[0].OtherKind? {
        TransformedInParts(doc, ts[1..], us);
      } else if ApplyGetResult(doc, ts[0].from, ts[0].to).Ok? {
        TransformedInParts(ApplyGetResult(doc, ts[0].from, ts[0].to).value, ts[1..], us);
      }
    }
  }

  /** No transformation and another kind change nothing; a single get transformation is `applyGet`. */
  lemma TransformedOne(doc: Json, t: Transformation)
    requires ParentsExistThroughout(doc, [t])
    ensures Transformed(doc, []) == Ok(doc)
    ensures t.OtherKind? ==> Transformed(doc, [t]) == Ok(doc)
    ensures t.GetTransformation? ==>
      ParentsExist(doc, t.to) && Transformed(doc, [t]) == ApplyGetResult(doc, t.from, t.to)
  {
    assert [t][1..] == [];
  }

  /** Transformation `i` fails on what the earlier ones left. */
  ghost predicate FailsAt(doc: Json, ts: seq<Transformation>, i: nat)
    requires ParentsExistThroughout(doc, ts)
  {
    && i < |ts| && ts[i].GetTransformation?
    && ParentsExistThroughout(doc, ts[..i]) && Transformed(doc, ts[..i]).Ok?
    && var left := Transformed(doc, ts[..i]).value;
       ParentsExist(left, ts[i].to) && ApplyGetResult(left, ts[i].from, ts[i].to).Err?
  }

  lemma FailureStays(doc: Json, ts: seq<Transformation>, i: nat)
    requires ParentsExistThroughout(doc, ts) && FailsAt(doc, ts, i)
    ensures Transformed(doc, ts).Err?
  {
    assert ts == ts[..i] + ts[i..];
    TransformedInParts(doc, ts[..i], ts[i..]);
  }

  lemma {:induction false} FailureBegins(doc: Json, ts: seq<Transformation>) returns (i: nat)
    requires ParentsExistThroughout(doc, ts) && Transformed(doc, ts).Err?
    ensures FailsAt(doc, ts, i)
  {
    var n := |ts| - 1;
    assert ts == ts[..n] + [ts[n]];
    TransformedInParts(doc, ts[..n], [ts[n]]);
    if Transformed(doc, ts[..n]).Err? {
      i := FailureBegins(doc, ts[..n]);
      assert ts[..n][..i] == ts[..i];
    } else {
      TransformedOne(Transformed(doc, ts[..n]).value, ts[n]);
      i := n;
    }
  }

  /** The whole list fails exactly when some transformation fails on what the earlier ones left. */
  lemma TransformedFailsExactly(doc: Json, ts: seq<Transformation>)
    requires ParentsExistThroughout(doc, ts)
    ensures Transformed(doc, ts).Err? <==> exists i: nat :: FailsAt(doc, ts, i)
  {
    if i: nat :| FailsAt(doc, ts, i) {
      FailureStays(doc, ts, i);
    }
    if Transformed(doc, ts).Err? {
      var i := FailureBegins(doc, ts);
    }
  }

  /** A transformation whose two paths share `prefix`. */
  datatype Shared = Shared(prefix: Path, f: Path, t: Path)

  predicate Shares(ts: seq<Transformation>, shared: seq<Shared>) {
    |ts| == |shared| &&
    forall i :: 0 <= i < |ts| ==>
      && ts[i].GetTransformation? && ts[i].to != []
      && SharePrefix(ts[i].from, ts[i].to, shared[i].prefix, shared[i].f, shared[i].t)
  }

  /** One element-wise map after the other. */
  function MovedAll(doc: Json, shared: seq<Shared>): Json
    decreases shared
  {
    if shared == [] then doc
    else MovedAll(MoveAt(doc, shared[0].prefix, shared[0].f, shared[0].t), shared[1..])
  }

  /** A list of transformations with shared wildcards never fails, and is that many element-wise maps. */
  lemma {:induction false} SharedTransformationsMoveElementwise(
    doc: Json, ts: seq<Transformation>, shared: seq<Shared>)
    requires ParentsExistThroughout(doc, ts) && Shares(ts, shared)
    ensures Transformed(doc, ts) == Ok(MovedAll(doc, shared))
    decreases ts
  {
    if ts != [] {
      SharedWildcardsMoveElementwise(doc, ts[0].from, ts[0].to, shared[0].prefix, shared[0].f, shared[0].t);
      SharedTransformationsMoveElementwise(
        MoveAt(doc, shared[0].prefix, shared[0].f, shared[0].t), ts[1..], shared[1..]);
    }
  }

  /** `Transform` */
  method Transform(input: Json, transformations: seq<Transformation>) returns (r: Result<Json, Error>)
    requires ParentsExistThroughout(input, transformations)
    ensures r == Transformed(input, transformations)
  {
    var output := input;
    for i := 0 to |transformations|
      invariant ParentsExistThroughout(output, transformations[i..])
      invariant Transformed(output, transformations[i..]) == Transformed(input, transformations)
    {
      assert transformations[i..][0] == transformations[i] && transformations[i..][1..] == transformations[i + 1..];
      match transformations[i] {
        case GetTransformation(from, to) =>
          var result := ApplyGet(output, from, to);
          if result.Err? {
            return result;
          }
          output := result.value;
        case OtherKind =>
      }
    }
    return Ok(output);
  }
}
