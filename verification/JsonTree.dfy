/** JSON documents as trees, and the path-addressed reads and writes that the gateway
    performs on them through `jsonparser.Get` and `jsonparser.Set`.

    A document is what is left of the text once white space and member order are
    forgotten.  Numbers keep their text and strings their raw (escaped) contents, because
    the code copies those bytes. */
module JsonTree {
  import opened Wrappers

  datatype Json =
    | Null
    | Bool(value: bool)
    | Num(text: string)
    | Str(raw: string)
    | Arr(items: seq<Json>)
    | Obj(fields: map<string, Json>)

  /** One component of a path: an object key, the `[i]` of an array, or the wildcard `[]`. */
  datatype Segment = Key(name: string) | Index(i: nat) | Each

  type Path = seq<Segment>

  function Child(v: Json, s: Segment): Option<Json> {
    match (v, s)
    case (Obj(fields), Key(k)) => if k in fields then Some(fields[k]) else None
    case (Arr(items), Index(i)) => if i < |items| then Some(items[i]) else None
    case _ => None
  }

  /** A child of a value that may itself be missing. */
  function ChildOf(mv: Option<Json>, s: Segment): Option<Json> {
    if mv.Some? then Child(mv.value, s) else None
  }

  /** What `jsonparser.ArrayEach` iterates over: nothing unless the value is an array. */
  function ElementsOf(mv: Option<Json>): seq<Json> {
    if mv.Some? && mv.value.Arr? then mv.value.items else []
  }

  function Get(v: Json, path: Path): Option<Json> {
    if path == [] then Some(v)
    else
      match Child(v, path[0])
      case None => None
      case Some(c) => Get(c, path[1..])
  }

  /** `s` is a position inside `v`, or a key that can be added to it. */
  predicate Holds(v: Json, s: Segment) {
    (v.Obj? && s.Key?) || Child(v, s).Some?
  }

  /** Every proper prefix of `path` exists and its last component can be written. */
  predicate CanPut(v: Json, path: Path) {
    path == []
    || (|path| == 1 && Holds(v, path[0]))
    || (|path| > 1 && Child(v, path[0]).Some? && CanPut(Child(v, path[0]).value, path[1..]))
  }

  function PutChild(v: Json, s: Segment, x: Json): Json
    requires Holds(v, s)
  {
    match v
    case Obj(fields) => Obj(fields[s.name := x])
    case Arr(items) => Arr(items[s.i := x])
  }

  function Put(v: Json, path: Path, x: Json): Json
    requires CanPut(v, path)
  {
    if path == [] then x
    else if |path| == 1 then PutChild(v, path[0], x)
    else PutChild(v, path[0], Put(Child(v, path[0]).value, path[1..], x))
  }

  /** Neither path is a prefix of the other. */
  predicate Disjoint(p: Path, q: Path) {
    p != [] && q != [] && (p[0] != q[0] || Disjoint(p[1..], q[1..]))
  }

  // Laws of reads and writes

  lemma {:induction false} GetAppend(v: Json, p: Path, q: Path)
    ensures Get(v, p + q) == match Get(v, p) case None => None case Some(x) => Get(x, q)
  {
    if p == [] {
      assert p + q == q;
    } else {
      assert (p + q)[1..] == p[1..] + q;
      match Child(v, p[0])
      case None =>
      case Some(c) => GetAppend(c, p[1..], q);
    }
  }

  lemma {:induction false} ExistingCanPut(v: Json, p: Path)
    requires Get(v, p).Some?
    ensures CanPut(v, p)
  {
    if p != [] {
      ExistingCanPut(Child(v, p[0]).value, p[1..]);
    }
  }

  lemma PutChildLaws(v: Json, s: Segment, x: Json)
    requires Holds(v, s)
    ensures Holds(PutChild(v, s, x), s) && Child(PutChild(v, s, x), s) == Some(x)
    ensures forall y :: PutChild(PutChild(v, s, x), s, y) == PutChild(v, s, y)
  {
  }

  /** A write as a write of the first component. */
  lemma PutStep(v: Json, p: Path, x: Json) returns (inner: Json)
    requires CanPut(v, p) && p != []
    ensures Holds(v, p[0]) && Put(v, p, x) == PutChild(v, p[0], inner)
    ensures |p| == 1 ==> inner == x
    ensures |p| > 1 ==> CanPut(Child(v, p[0]).value, p[1..]) && inner == Put(Child(v, p[0]).value, p[1..], x)
  {
    inner := if |p| == 1 then x else Put(Child(v, p[0]).value, p[1..], x);
  }

  /** What was written is read back, and through it everything below. */
  lemma {:induction false} GetPutBelow(v: Json, p: Path, q: Path, x: Json)
    requires CanPut(v, p)
    ensures Get(Put(v, p, x), p + q) == Get(x, q)
  {
    if p == [] {
      assert p + q == q;
    } else {
      assert (p + q)[0] == p[0] && (p + q)[1..] == p[1..] + q;
      var inner := PutStep(v, p, x);
      PutChildLaws(v, p[0], inner);
      if |p| == 1 {
        assert p[1..] + q == q;
      } else {
        GetPutBelow(Child(v, p[0]).value, p[1..], q, x);
      }
    }
  }

  lemma GetPut(v: Json, p: Path, x: Json)
    requires CanPut(v, p)
    ensures Get(Put(v, p, x), p) == Some(x)
  {
    assert p + [] == p;
    GetPutBelow(v, p, [], x);
  }

  /** A write changes nothing that is neither above nor below it. */
  lemma {:induction false} GetPutDisjoint(v: Json, p: Path, q: Path, x: Json)
    requires CanPut(v, p) && Disjoint(p, q)
    ensures Get(Put(v, p, x), q) == Get(v, q)
  {
    if p[0] == q[0] {
      GetPutDisjoint(Child(v, p[0]).value, p[1..], q[1..], x);
    } else {
      assert Child(Put(v, p, x), q[0]) == Child(v, q[0]);
    }
  }

  lemma {:induction false} PutGet(v: Json, p: Path)
    requires Get(v, p).Some?
    ensures CanPut(v, p) && Put(v, p, Get(v, p).value) == v
  {
    ExistingCanPut(v, p);
    if p != [] {
      PutGet(Child(v, p[0]).value, p[1..]);
    }
  }

  /** Writing below an existing position is rewriting that position. */
  lemma {:induction false} PutInside(v: Json, p: Path, q: Path, x: Json)
    requires Get(v, p).Some?
    ensures CanPut(v, p)
    ensures CanPut(v, p + q) <==> CanPut(Get(v, p).value, q)
    ensures CanPut(v, p + q) ==> Put(v, p + q, x) == Put(v, p, Put(Get(v, p).value, q, x))
  {
    ExistingCanPut(v, p);
    if p == [] {
      assert p + q == q;
    } else {
      assert (p + q)[1..] == p[1..] + q;
      PutInside(Child(v, p[0]).value, p[1..], q, x);
      if q == [] {
        assert p + q == p;
      }
    }
  }

  lemma {:induction false} PutPut(v: Json, p: Path, x: Json, y: Json)
    requires CanPut(v, p)
    ensures CanPut(Put(v, p, x), p) && Put(Put(v, p, x), p, y) == Put(v, p, y)
  {
    if |p| == 1 {
      PutChildLaws(v, p[0], x);
    } else if |p| > 1 {
      var c := Child(v, p[0]).value;
      PutPut(c, p[1..], x, y);
      PutChildLaws(v, p[0], Put(c, p[1..], x));
    }
  }

  lemma {:induction false} PutKeepsCanPut(v: Json, p: Path, q: Path, x: Json)
    requires CanPut(v, p) && CanPut(v, q) && Disjoint(p, q)
    ensures CanPut(Put(v, p, x), q)
  {
    if p[0] == q[0] {
      if |p| > 1 && |q| > 1 {
        PutKeepsCanPut(Child(v, p[0]).value, p[1..], q[1..], x);
      }
    } else {
      assert Child(Put(v, p, x), q[0]) == Child(v, q[0]);
    }
  }

  lemma PutChildCommute(v: Json, s: Segment, t: Segment, x: Json, y: Json)
    requires Holds(v, s) && Holds(v, t) && s != t
    ensures Holds(PutChild(v, s, x), t) && Holds(PutChild(v, t, y), s)
    ensures Child(PutChild(v, s, x), t) == Child(v, t)
    ensures PutChild(PutChild(v, s, x), t, y) == PutChild(PutChild(v, t, y), s, x)
  {
  }

  /** Writes that part at the first component. */
  lemma PutsApart(v: Json, p: Path, q: Path, x: Json, y: Json)
    requires CanPut(v, p) && CanPut(v, q) && p != [] && q != [] && p[0] != q[0]
    requires CanPut(Put(v, p, x), q) && CanPut(Put(v, q, y), p)
    ensures Put(Put(v, p, x), q, y) == Put(Put(v, q, y), p, x)
  {
    var a := PutStep(v, p, x);
    var b := PutStep(v, q, y);
    PutChildCommute(v, p[0], q[0], a, b);
    PutChildCommute(v, q[0], p[0], b, a);
    PutElsewhere(v, p[0], a, q, y, b);
    PutElsewhere(v, q[0], b, p, x, a);
  }

  /** A write elsewhere does not change what is written under the first component of `q`. */
  lemma PutElsewhere(v: Json, s: Segment, a: Json, q: Path, y: Json, b: Json)
    requires Holds(v, s) && CanPut(v, q) && q != [] && q[0] != s && CanPut(PutChild(v, s, a), q)
    requires b == if |q| == 1 then y else Put(Child(v, q[0]).value, q[1..], y)
    ensures Put(PutChild(v, s, a), q, y) == PutChild(PutChild(v, s, a), q[0], b)
  {
    assert Child(PutChild(v, s, a), q[0]) == Child(v, q[0]);
  }

  /** Writes that share the first component are writes inside that child. */
  lemma PutsInside(v: Json, p: Path, q: Path, x: Json, y: Json)
    requires CanPut(v, p) && CanPut(v, q) && |p| > 1 && |q| > 1 && p[0] == q[0]
    requires CanPut(Put(Child(v, p[0]).value, p[1..], x), q[1..])
    ensures CanPut(Put(v, p, x), q)
    ensures Put(Put(v, p, x), q, y) == PutChild(v, p[0], Put(Put(Child(v, p[0]).value, p[1..], x), q[1..], y))
  {
    var a := Put(Child(v, p[0]).value, p[1..], x);
    PutChildLaws(v, p[0], a);
    assert Put(v, p, x) == PutChild(v, p[0], a);
    var b := PutStep(PutChild(v, p[0], a), q, y);
  }

  /** Writes at disjoint positions commute. */
  lemma {:induction false} PutCommute(v: Json, p: Path, q: Path, x: Json, y: Json)
    requires CanPut(v, p) && CanPut(v, q) && Disjoint(p, q)
    ensures CanPut(Put(v, p, x), q) && CanPut(Put(v, q, y), p)
    ensures Put(Put(v, p, x), q, y) == Put(Put(v, q, y), p, x)
  {
    DisjointSymmetric(p, q);
    PutKeepsCanPut(v, p, q, x);
    PutKeepsCanPut(v, q, p, y);
    if p[0] != q[0] {
      PutsApart(v, p, q, x, y);
    } else {
      PutCommute(Child(v, p[0]).value, p[1..], q[1..], x, y);
      PutsInside(v, p, q, x, y);
      PutsInside(v, q, p, y, x);
    }
  }

  lemma {:induction false} DisjointSymmetric(p: Path, q: Path)
    ensures Disjoint(p, q) == Disjoint(q, p)
  {
    if p != [] && q != [] {
      DisjointSymmetric(p[1..], q[1..]);
    }
  }

  lemma {:induction false} DisjointExtend(p: Path, q: Path, s: Path, t: Path)
    requires Disjoint(p, q)
    ensures Disjoint(p + s, q + t)
  {
    assert (p + s)[1..] == p[1..] + s && (q + t)[1..] == q[1..] + t;
    if p[0] == q[0] {
      DisjointExtend(p[1..], q[1..], s, t);
    }
  }

  /** Different paths of one length are disjoint. */
  lemma {:induction false} SameLengthDisjoint(p: Path, q: Path)
    requires |p| == |q| && p != q
    ensures Disjoint(p, q)
  {
    if p[0] == q[0] {
      assert p == [p[0]] + p[1..] && q == [q[0]] + q[1..];
      SameLengthDisjoint(p[1..], q[1..]);
    }
  }
}
