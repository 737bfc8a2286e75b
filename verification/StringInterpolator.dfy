/** The interpolator itself: the visited-set search of `configure`, and the in-place,
    path-addressed edits of `traverse`. */
module StringInterpolators {
  import opened Wrappers
  import opened Lists
  import opened JsonTree
  import opened Schemas
  import opened Interpolation
  import opened FastPath
  import opened Recursion

  /** The document behind the pointer that `traverse` writes through. */
  class Document {
    var root: Json

    constructor (root: Json)
      ensures this.root == root
    {
      this.root := root;
    }
  }

  /** `v` with the properties in `done` interpolated and the others untouched: the value under
      the path while the loop over the (unordered) property map is running. */
  function PartlyInterpolated(cfg: Config, e: Schema, v: Json, done: set<string>): Json {
    if v.Obj? then
      Obj(map k | k in v.fields ::
        if k in done && k in e.properties then Interpolated(cfg, e.properties[k], v.fields[k]) else v.fields[k])
    else v
  }

  /** The same for the elements of an array before `n`. */
  function FirstInterpolated(cfg: Config, s: Schema, v: Json, n: nat): Json {
    if v.Arr? then
      Arr(seq(|v.items|, i requires 0 <= i < |v.items| =>
        if i < n then Interpolated(cfg, s, v.items[i]) else v.items[i]))
    else v
  }

  /** `doc` is `before` with `x` in place of the value at `path`. */
  ghost predicate Rewritten(before: Json, path: Path, x: Json, after: Json) {
    CanPut(before, path) && after == Put(before, path, x)
  }

  /** What a call of `traverse` at `path` makes of a document. */
  ghost predicate Traversed(cfg: Config, s: Schema, before: Json, path: Path, after: Json) {
    match Get(before, path)
    case None => after == before
    case Some(v) => Rewritten(before, path, Interpolated(cfg, s, v), after)
  }

  /** The document during the loop over the properties of an object at `path`. */
  ghost predicate PartlyTraversed(cfg: Config, e: Schema, before: Json, path: Path, done: set<string>, now: Json) {
    match Get(before, path)
    case None => now == before
    case Some(v) => Rewritten(before, path, PartlyInterpolated(cfg, e, v, done), now)
  }

  lemma UntouchedIsRewritten(root: Json, path: Path)
    requires Get(root, path).Some?
    ensures Rewritten(root, path, Get(root, path).value, root)
  {
    PutGet(root, path);
  }

  /** One call below a position that has been rewritten already rewrites that position again. */
  lemma RewrittenBelow(before: Json, path: Path, x: Json, mid: Json, seg: Segment, y: Json, after: Json)
    requires Get(before, path).Some? && Rewritten(before, path, x, mid)
    requires Child(x, seg).Some? && Rewritten(mid, path + [seg], y, after)
    ensures Rewritten(before, path, PutChild(x, seg, y), after)
  {
    GetPut(before, path, x);
    PutInside(mid, path, [seg], y);
    PutPut(before, path, x, PutChild(x, seg, y));
  }

  lemma GetOneBelow(root: Json, path: Path, seg: Segment)
    ensures Get(root, path + [seg]) ==
            match Get(root, path) case None => None case Some(v) => Child(v, seg)
  {
    GetAppend(root, path, [seg]);
  }

  lemma PropertiesBegin(cfg: Config, e: Schema, before: Json, path: Path)
    ensures PartlyTraversed(cfg, e, before, path, {}, before)
  {
    if Get(before, path).Some? {
      UntouchedIsRewritten(before, path);
      var v := Get(before, path).value;
      assert PartlyInterpolated(cfg, e, v, {}) == v;
    }
  }

  lemma PropertiesEnd(cfg: Config, s: Schema, e: Schema, before: Json, path: Path, done: set<string>, after: Json)
    requires Resolve(cfg, s) == Some(e) && IsObject(e) && e.properties.Keys <= done
    requires PartlyTraversed(cfg, e, before, path, done, after)
    ensures Traversed(cfg, s, before, path, after)
  {
    if Get(before, path).Some? {
      var v := Get(before, path).value;
      if v.Obj? {
        assert PartlyInterpolated(cfg, e, v, done).fields == Interpolated(cfg, s, v).fields;
      }
    }
  }

  /** The step of the property loop, whichever property comes next. */
  lemma PropertyStep(cfg: Config, e: Schema, before: Json, path: Path, done: set<string>, k: string,
                     mid: Json, after: Json)
    requires k in e.properties && k !in done && PartlyTraversed(cfg, e, before, path, done, mid)
    requires Traversed(cfg, e.properties[k], mid, path + [Key(k)], after)
    ensures PartlyTraversed(cfg, e, before, path, done + {k}, after)
  {
    GetOneBelow(mid, path, Key(k));
    if Get(before, path).None? {
      return;
    }
    var v := Get(before, path).value;
    var x := PartlyInterpolated(cfg, e, v, done);
    GetPut(before, path, x);
    if Child(x, Key(k)).Some? {
      var y := Interpolated(cfg, e.properties[k], v.fields[k]);
      RewrittenBelow(before, path, x, mid, Key(k), y, after);
      assert PutChild(x, Key(k), y).fields == PartlyInterpolated(cfg, e, v, done + {k}).fields;
    } else if v.Obj? {
      assert x.fields == PartlyInterpolated(cfg, e, v, done + {k}).fields;
    }
  }

  /** A property that the loop has not come to is still what it was. */
  lemma PropertyChild(cfg: Config, e: Schema, before: Json, path: Path, done: set<string>, k: string, mid: Json)
    requires k !in done && PartlyTraversed(cfg, e, before, path, done, mid)
    ensures Get(mid, path + [Key(k)]) == ChildOf(Get(before, path), Key(k))
  {
    GetOneBelow(mid, path, Key(k));
    if Get(before, path).Some? {
      GetPut(before, path, PartlyInterpolated(cfg, e, Get(before, path).value, done));
    }
  }

  /** An element that the loop has not come to is still what it was. */
  lemma ElementChild(cfg: Config, s: Schema, before: Json, path: Path, i: nat, mid: Json)
    requires Get(before, path).Some? && Get(before, path).value.Arr? && i < |Get(before, path).value.items|
    requires Rewritten(before, path, FirstInterpolated(cfg, s, Get(before, path).value, i), mid)
    ensures Get(mid, path + [Index(i)]) == Some(Get(before, path).value.items[i])
  {
    GetOneBelow(mid, path, Index(i));
    GetPut(before, path, FirstInterpolated(cfg, s, Get(before, path).value, i));
  }

  lemma ElementStep(cfg: Config, s: Schema, before: Json, path: Path, i: nat, mid: Json, after: Json)
    requires Get(before, path).Some? && Get(before, path).value.Arr? && i < |Get(before, path).value.items|
    requires Rewritten(before, path, FirstInterpolated(cfg, s, Get(before, path).value, i), mid)
    requires Traversed(cfg, s, mid, path + [Index(i)], after)
    ensures Rewritten(before, path, FirstInterpolated(cfg, s, Get(before, path).value, i + 1), after)
  {
    var v := Get(before, path).value;
    var x := FirstInterpolated(cfg, s, v, i);
    GetPut(before, path, x);
    GetOneBelow(mid, path, Index(i));
    var y := Interpolated(cfg, s, v.items[i]);
    RewrittenBelow(before, path, x, mid, Index(i), y, after);
    assert PutChild(x, Index(i), y).items == FirstInterpolated(cfg, s, v, i + 1).items;
  }

  // The search, one call at a time

  /** What a call of `configure` on `s` makes of the flag and of the set of opened references. */
  ghost predicate Searched(cfg: Config, s: Schema, had: bool, seen: set<string>, has: bool, seen': set<string>) {
    if had then has && seen' == seen
    else
      && seen <= seen'
      && (has ==> Finds(cfg, s))
      && (!has ==> Clean(cfg, s, seen') && Settled(cfg, seen' - seen, seen'))
  }

  /** The same for the loop over properties, once those in `done` have been searched. */
  ghost predicate SearchedSome(
    cfg: Config, s: Schema, done: set<string>, seen: set<string>, has: bool, seen': set<string>)
  {
    && seen <= seen'
    && (has ==> Finds(cfg, s))
    && (!has ==> Settled(cfg, seen' - seen, seen'))
    && (!has ==> forall k :: k in s.properties && k in done ==> Clean(cfg, s.properties[k], seen'))
  }

  lemma SearchedStop(cfg: Config, s: Schema, seen: set<string>)
    requires s.ref == "" && Stops(cfg, s)
    ensures Searched(cfg, s, false, seen, true, seen)
  {
    assert Found(cfg, s, 0);
  }

  lemma SearchedDeadEnd(cfg: Config, s: Schema, seen: set<string>)
    requires s.ref == "" && !Stops(cfg, s) && !IsObject(s) && !IsList(s)
    ensures Searched(cfg, s, false, seen, false, seen)
  {
  }

  lemma SearchedProperties(cfg: Config, s: Schema, done: set<string>, seen: set<string>, has: bool, seen': set<string>)
    requires s.ref == "" && IsObject(s) && s.properties.Keys <= done
    requires SearchedSome(cfg, s, done, seen, has, seen')
    ensures Searched(cfg, s, false, seen, has, seen')
  {
  }

  lemma SearchedReference(cfg: Config, s: Schema, seen: set<string>, has: bool, seen': set<string>)
    requires s.ref != "" && s.ref !in seen && Resolve(cfg, s).Some?
    requires Searched(cfg, Resolve(cfg, s).value, false, seen + {s.ref}, has, seen')
    ensures Searched(cfg, s, false, seen, has, seen')
  {
    if has {
      var n: nat :| Found(cfg, Resolve(cfg, s).value, n);
      FoundThroughRef(cfg, s, n);
    } else {
      assert Referenced(cfg, s.ref) == Resolve(cfg, s);
      forall r | r in seen' - seen && Referenced(cfg, r).Some? ensures Clean(cfg, Referenced(cfg, r).value, seen') {
        assert r == s.ref || r in seen' - (seen + {s.ref});
      }
    }
  }

  lemma SearchedProperty(cfg: Config, s: Schema, done: set<string>, k: string,
                         seen: set<string>, had: bool, mid: set<string>, has: bool, seen': set<string>)
    requires s.ref == "" && IsObject(s) && k in s.properties
    requires SearchedSome(cfg, s, done, seen, had, mid)
    requires Searched(cfg, s.properties[k], had, mid, has, seen')
    ensures SearchedSome(cfg, s, done + {k}, seen, has, seen')
  {
    if has {
      if !had {
        var n: nat :| Found(cfg, s.properties[k], n);
        assert Found(cfg, s, n + 1);
      }
    } else {
      SettledMonotone(cfg, mid - seen, mid, seen');
      forall j | j in s.properties && j in done + {k} ensures Clean(cfg, s.properties[j], seen') {
        if j != k {
          CleanMonotone(cfg, s.properties[j], mid, seen');
        }
      }
      forall r | r in seen' - seen && Referenced(cfg, r).Some? ensures Clean(cfg, Referenced(cfg, r).value, seen') {
        assert r in mid - seen || r in seen' - mid;
      }
    }
  }

  lemma SearchedItems(cfg: Config, s: Schema, seen: set<string>, has: bool, seen': set<string>)
    requires s.ref == "" && IsList(s) && Searched(cfg, s.items.value, false, seen, has, seen')
    ensures Searched(cfg, s, false, seen, has, seen')
  {
    if has {
      var n: nat :| Found(cfg, s.items.value, n);
      assert Found(cfg, s, n + 1);
    }
  }

  class StringInterpolator {
    const schema: Schema
    const jsonOnlyMode: bool
    const defs: map<string, Schema>
    /** `json.Marshal` of the raw value as a Go string. */
    const quoted: Json -> string
    var hasInterpolations: bool
    var configuredDefs: set<string>

    ghost function Cfg(): Config {
      Config(jsonOnlyMode, defs, quoted)
    }

    /** All references that the search can meet. */
    ghost function Universe(): set<string> {
      Refs(schema) + (set name, r | name in defs && r in Refs(defs[name]) :: r)
    }

    ghost predicate ClosedUnderDefs(universe: set<string>) {
      forall name :: name in defs ==> Refs(defs[name]) <= universe
    }

    constructor NewStringInterpolator(schema: Schema, quoted: Json -> string)
      ensures this.schema == schema && this.quoted == quoted
      ensures !jsonOnlyMode && defs == schema.defs
      ensures hasInterpolations <==> Finds(Cfg(), schema)
    {
      this.schema := schema;
      this.jsonOnlyMode := false;
      this.defs := schema.defs;
      this.quoted := quoted;
      this.hasInterpolations := false;
      this.configuredDefs := {};
      new;
      Configure(this.schema, Universe());
      ConfiguredExactly();
    }

    /** JSON-only mode does not keep the definitions. */
    constructor NewStringInterpolatorJSONOnly(schema: Schema, quoted: Json -> string)
      ensures this.schema == schema && this.quoted == quoted
      ensures jsonOnlyMode && defs == map[]
      ensures hasInterpolations <==> Finds(Cfg(), schema)
    {
      this.schema := schema;
      this.jsonOnlyMode := true;
      this.defs := map[];
      this.quoted := quoted;
      this.hasInterpolations := false;
      this.configuredDefs := {};
      new;
      Configure(this.schema, Universe());
      ConfiguredExactly();
    }

    lemma ConfiguredExactly()
      requires hasInterpolations ==> Finds(Cfg(), schema)
      requires !hasInterpolations ==>
        Clean(Cfg(), schema, configuredDefs) && Settled(Cfg(), configuredDefs, configuredDefs)
      ensures hasInterpolations <==> Finds(Cfg(), schema)
    {
      if !hasInterpolations {
        forall n: nat ensures !Found(Cfg(), schema, n) {
          SettledMissesNothing(Cfg(), schema, configuredDefs, n);
        }
      }
    }

    /** The depth-first search of `configure`; it ends because each reference is opened once. */
    method Configure(s: Schema, ghost universe: set<string>)
      requires configuredDefs <= universe && Refs(s) <= universe && ClosedUnderDefs(universe)
      modifies this`hasInterpolations, this`configuredDefs
      ensures configuredDefs <= universe
      ensures Searched(Cfg(), s, old(hasInterpolations), old(configuredDefs), hasInterpolations, configuredDefs)
      decreases |universe - configuredDefs|, s, 2
    {
      if hasInterpolations {
        return;
      }
      if s.ref != "" {
        ConfigureReference(s, universe);
        return;
      }
      ghost var seen := configuredDefs;
      var typ := FindType(s);
      if (typ == "string" && !jsonOnlyMode) || typ == "" {
        hasInterpolations := true;
        SearchedStop(Cfg(), s, seen);
      } else if typ == "object" {
        ConfigureProperties(s, universe);
      } else if typ == "array" && s.items.Some? {
        Configure(s.items.value, universe);
        SearchedItems(Cfg(), s, seen, hasInterpolations, configuredDefs);
      } else {
        SearchedDeadEnd(Cfg(), s, seen);
      }
    }

    /** The `$ref` case: a reference is opened the first time it is met. */
    method ConfigureReference(s: Schema, ghost universe: set<string>)
      requires configuredDefs <= universe && Refs(s) <= universe && ClosedUnderDefs(universe)
      requires s.ref != "" && !hasInterpolations
      modifies this`hasInterpolations, this`configuredDefs
      ensures configuredDefs <= universe
      ensures Searched(Cfg(), s, false, old(configuredDefs), hasInterpolations, configuredDefs)
      decreases |universe - configuredDefs|, s, 0
    {
      if s.ref in configuredDefs {
        return;
      }
      ghost var seen := configuredDefs;
      SmallerSet(universe - (seen + {s.ref}), universe - seen);
      configuredDefs := configuredDefs + {s.ref};
      var name := DefName(s.ref);
      if name !in defs {
        return;
      }
      Configure(defs[name], universe);
      SearchedReference(Cfg(), s, seen, hasInterpolations, configuredDefs);
    }

    /** The `object` case: the property map is searched in any order. */
    method ConfigureProperties(s: Schema, ghost universe: set<string>)
      requires configuredDefs <= universe && Refs(s) <= universe && ClosedUnderDefs(universe)
      requires s.ref == "" && IsObject(s) && !hasInterpolations
      modifies this`hasInterpolations, this`configuredDefs
      ensures configuredDefs <= universe
      ensures Searched(Cfg(), s, false, old(configuredDefs), hasInterpolations, configuredDefs)
      decreases |universe - configuredDefs|, s, 1
    {
      ghost var seen := configuredDefs;
      var todo := s.properties.Keys;
      ghost var done: set<string> := {};
      while todo != {}
        invariant todo <= s.properties.Keys && done == s.properties.Keys - todo
        invariant configuredDefs <= universe
        invariant SearchedSome(Cfg(), s, done, seen, hasInterpolations, configuredDefs)
        decreases |todo|
      {
        var k :| k in todo;
        ConfigureProperty(s, k, universe, seen, done);
        todo, done := todo - {k}, done + {k};
      }
      SearchedProperties(Cfg(), s, done, seen, hasInterpolations, configuredDefs);
    }

    method ConfigureProperty(
      s: Schema, k: string, ghost universe: set<string>, ghost seen: set<string>, ghost done: set<string>)
      requires configuredDefs <= universe && Refs(s) <= universe && ClosedUnderDefs(universe)
      requires s.ref == "" && IsObject(s) && k in s.properties
      requires SearchedSome(Cfg(), s, done, seen, hasInterpolations, configuredDefs)
      modifies this`hasInterpolations, this`configuredDefs
      ensures configuredDefs <= universe
      ensures SearchedSome(Cfg(), s, done + {k}, seen, hasInterpolations, configuredDefs)
      decreases |universe - seen|, s, 0
    {
      ghost var had, mid := hasInterpolations, configuredDefs;
      LargerSet(universe - mid, universe - seen);
      Configure(s.properties[k], universe);
      SearchedProperty(Cfg(), s, done, k, seen, had, mid, hasInterpolations, configuredDefs);
    }

    /** `traverse`: the value at `path` becomes its interpolation, whatever the order of the
        property map, and nothing else in the document changes.  `calls` bounds the nesting of
        calls; there is such a bound exactly when the code returns. */
    method Traverse(s: Schema, doc: Document, path: Path, ghost calls: nat)
      requires Returns(Cfg(), s, Get(doc.root, path), calls)
      requires path == [] ==> !EditableAt(Cfg(), s, [])
      modifies doc
      ensures Traversed(Cfg(), s, old(doc.root), path, doc.root)
      decreases calls, 2
    {
      if Get(doc.root, path).Some? {
        UntouchedIsRewritten(doc.root, path);
      }
      var e := s;
      if s.ref != "" {
        var name := DefName(s.ref);
        if name !in defs {
          return;
        }
        e := defs[name];
      }
      var typ := FindType(e);
      if typ == "string" {
        if jsonOnlyMode {
          return;
        }
        var value := Get(doc.root, path);
        match value {
          case Some(Num(text)) => doc.root := Put(doc.root, path, Str(text));
          case Some(Bool(b)) => doc.root := Put(doc.root, path, Str(if b then "true" else "false"));
          case _ =>
        }
      } else if typ == "object" {
        TraverseProperties(s, e, doc, path, calls);
      } else if typ == "array" {
        if e.items.None? {
          return;
        }
        TraverseItems(s, e, doc, path, calls);
      } else if typ == "" {
        if !jsonOnlyMode {
          return;
        }
        var value := Get(doc.root, path);
        match value {
          case None =>
          case Some(Str(raw)) => doc.root := Put(doc.root, path, Str(raw));
          case Some(v) => doc.root := Put(doc.root, path, Str(quoted(v)));
        }
      }
    }

    /** The `object` case of `traverse`: `e` is what `s` resolves to. */
    method TraverseProperties(ghost s: Schema, e: Schema, doc: Document, path: Path, ghost calls: nat)
      requires Resolve(Cfg(), s) == Some(e) && IsObject(e)
      requires Returns(Cfg(), s, Get(doc.root, path), calls)
      modifies doc
      ensures Traversed(Cfg(), s, old(doc.root), path, doc.root)
      decreases calls, 1
    {
      ghost var before := doc.root;
      var todo := e.properties.Keys;
      ghost var done: set<string> := {};
      PropertiesBegin(Cfg(), e, before, path);
      while todo != {}
        invariant todo <= e.properties.Keys && done == e.properties.Keys - todo
        invariant PartlyTraversed(Cfg(), e, before, path, done, doc.root)
        decreases |todo|
      {
        var k :| k in todo;
        TraverseProperty(e, k, doc, path, before, done, calls - 1);
        todo, done := todo - {k}, done + {k};
      }
      PropertiesEnd(Cfg(), s, e, before, path, done, doc.root);
    }

    /** The body of the property loop: properties in `done` have been dealt with since `before`. */
    method TraverseProperty(
      e: Schema, k: string, doc: Document, path: Path, ghost before: Json, ghost done: set<string>, ghost calls: nat)
      requires IsObject(e) && k in e.properties && k !in done
      requires var mv := Get(before, path);
        Enters(e, mv, k) ==> Returns(Cfg(), e.properties[k], ChildOf(mv, Key(k)), calls)
      requires PartlyTraversed(Cfg(), e, before, path, done, doc.root)
      modifies doc
      ensures PartlyTraversed(Cfg(), e, before, path, done + {k}, doc.root)
      decreases calls, 3
    {
      ghost var mid := doc.root;
      PropertyChild(Cfg(), e, before, path, done, k, mid);
      var isRequired := IsRequired(e, k);
      var child := Get(doc.root, path + [Key(k)]);
      if child.Some? || isRequired {
        Traverse(e.properties[k], doc, path + [Key(k)], calls);
      }
      PropertyStep(Cfg(), e, before, path, done, k, mid, doc.root);
    }

    /** The `array` case of `traverse`: as many elements as the array had when the loop began. */
    method TraverseItems(ghost s: Schema, e: Schema, doc: Document, path: Path, ghost calls: nat)
      requires Resolve(Cfg(), s) == Some(e) && IsList(e)
      requires Returns(Cfg(), s, Get(doc.root, path), calls)
      modifies doc
      ensures Traversed(Cfg(), s, old(doc.root), path, doc.root)
      decreases calls, 0
    {
      ghost var cfg, before := Cfg(), doc.root;
      var list := Get(doc.root, path);
      if list.Some? {
        UntouchedIsRewritten(before, path);
      }
      if list.None? || !list.value.Arr? {
        return;
      }
      var items := list.value.items;
      assert ElementsOf(list) == items;
      assert FirstInterpolated(cfg, e.items.value, list.value, 0) == list.value;
      for i := 0 to |items|
        invariant Rewritten(before, path, FirstInterpolated(cfg, e.items.value, list.value, i), doc.root)
      {
        ghost var mid := doc.root;
        ElementChild(cfg, e.items.value, before, path, i, mid);
        Traverse(e.items.value, doc, path + [Index(i)], calls - 1);
        ElementStep(cfg, e.items.value, before, path, i, mid, doc.root);
      }
      assert FirstInterpolated(cfg, e.items.value, list.value, |items|) == Interpolated(cfg, s, list.value);
    }

    /** A document after `Interpolate`: edited when the search found something to do. */
    method Interpolate(doc: Document)
      requires hasInterpolations ==> Terminates(Cfg(), schema, Some(doc.root))
      requires !EditableAt(Cfg(), schema, [])
      modifies doc
      ensures doc.root ==
        if hasInterpolations then Interpolated(Cfg(), schema, old(doc.root)) else old(doc.root)
      ensures (hasInterpolations <==> Finds(Cfg(), schema)) && !HidesEdit(Cfg(), schema) ==>
        doc.root == Interpolated(Cfg(), schema, old(doc.root))
    {
      if !hasInterpolations {
        if !Finds(Cfg(), schema) {
          FastPathExact(Cfg(), schema);
        }
        return;
      }
      ghost var calls: nat :| Returns(Cfg(), schema, Some(doc.root), calls);
      Traverse(schema, doc, [], calls);
    }
  }
}
