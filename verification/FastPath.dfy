/** When `configure` may decide that `traverse` has nothing to do.

    `configure` walks references transitively and looks past a definition that is itself a
    reference.  `traverse` follows a reference once and then uses the definition's own type.
    The two searches therefore differ, and this module says exactly when that matters. */
module FastPath {
  import opened Wrappers
  import opened JsonTree
  import opened Schemas
  import opened Interpolation

  /** The types at which `configure` stops with `hasInterpolations` set. */
  predicate Stops(cfg: Config, s: Schema) {
    TypeString(s) == "" || (TypeString(s) == "string" && !cfg.jsonOnly)
  }

  /** `configure` meets a stopping type within `n` steps. */
  ghost predicate Found(cfg: Config, s: Schema, n: nat)
    decreases n
  {
    if s.ref != "" then Resolve(cfg, s).Some? && n > 0 && Found(cfg, Resolve(cfg, s).value, n - 1)
    else
      || Stops(cfg, s)
      || (IsObject(s) && n > 0 && exists k :: k in s.properties && Found(cfg, s.properties[k], n - 1))
      || (IsList(s) && n > 0 && Found(cfg, s.items.value, n - 1))
  }

  ghost predicate Finds(cfg: Config, s: Schema) {
    exists n: nat :: Found(cfg, s, n)
  }

  /** `traverse` can arrive at an editable position within `n` steps. */
  ghost predicate ReachesEdit(cfg: Config, s: Schema, n: nat)
    decreases n
  {
    match Resolve(cfg, s)
    case None => false
    case Some(e) =>
      || Editable(cfg, e)
      || (IsObject(e) && n > 0 && exists k :: k in e.properties && ReachesEdit(cfg, e.properties[k], n - 1))
      || (IsList(e) && n > 0 && ReachesEdit(cfg, e.items.value, n - 1))
  }

  ghost predicate Reaches(cfg: Config, s: Schema) {
    exists n: nat :: ReachesEdit(cfg, s, n)
  }

  /** `traverse` can pass a reference to a definition that is itself a reference, and whose own
      type, properties or items lead to an editable position. */
  ghost predicate Hidden(cfg: Config, s: Schema, n: nat)
    decreases n
  {
    match Resolve(cfg, s)
    case None => false
    case Some(e) =>
      || (s.ref != "" && e.ref != "" && ReachesEdit(cfg, s, n))
      || (IsObject(e) && n > 0 && exists k :: k in e.properties && Hidden(cfg, e.properties[k], n - 1))
      || (IsList(e) && n > 0 && Hidden(cfg, e.items.value, n - 1))
  }

  ghost predicate HidesEdit(cfg: Config, s: Schema) {
    exists n: nat :: Hidden(cfg, s, n)
  }

  // The visited-set search

  /** `s` was searched without a stop, given that the references in `seen` were. */
  ghost predicate Clean(cfg: Config, s: Schema, seen: set<string>)
    decreases s
  {
    if s.ref != "" then s.ref in seen
    else
      && !Stops(cfg, s)
      && (IsObject(s) ==> forall k :: k in s.properties ==> Clean(cfg, s.properties[k], seen))
      && (IsList(s) ==> Clean(cfg, s.items.value, seen))
  }

  function Referenced(cfg: Config, ref: string): Option<Schema> {
    if DefName(ref) in cfg.defs then Some(cfg.defs[DefName(ref)]) else None
  }

  /** Every reference in `refs` is unresolvable or leads to a definition clean under `seen`. */
  ghost predicate Settled(cfg: Config, refs: set<string>, seen: set<string>) {
    forall r :: r in refs ==> Referenced(cfg, r).Some? ==> Clean(cfg, Referenced(cfg, r).value, seen)
  }

  lemma {:induction false} CleanMonotone(cfg: Config, s: Schema, seen: set<string>, more: set<string>)
    requires Clean(cfg, s, seen) && seen <= more
    ensures Clean(cfg, s, more)
    decreases s
  {
    if s.ref == "" {
      if IsObject(s) {
        forall k | k in s.properties ensures Clean(cfg, s.properties[k], more) {
          CleanMonotone(cfg, s.properties[k], seen, more);
        }
      }
      if IsList(s) {
        CleanMonotone(cfg, s.items.value, seen, more);
      }
    }
  }

  lemma SettledMonotone(cfg: Config, refs: set<string>, seen: set<string>, more: set<string>)
    requires Settled(cfg, refs, seen) && seen <= more
    ensures Settled(cfg, refs, more)
  {
    forall r | r in refs && Referenced(cfg, r).Some? ensures Clean(cfg, Referenced(cfg, r).value, more) {
      CleanMonotone(cfg, Referenced(cfg, r).value, seen, more);
    }
  }

  /** A finished search that set no flag has missed nothing, however the definitions loop. */
  lemma {:induction false} SettledMissesNothing(cfg: Config, s: Schema, seen: set<string>, n: nat)
    requires Clean(cfg, s, seen) && Settled(cfg, seen, seen)
    ensures !Found(cfg, s, n)
    decreases n
  {
    if s.ref != "" {
      if Resolve(cfg, s).Some? && n > 0 {
        assert Referenced(cfg, s.ref) == Resolve(cfg, s);
        SettledMissesNothing(cfg, Resolve(cfg, s).value, seen, n - 1);
      }
    } else if n > 0 {
      if IsObject(s) {
        forall k | k in s.properties ensures !Found(cfg, s.properties[k], n - 1) {
          SettledMissesNothing(cfg, s.properties[k], seen, n - 1);
        }
      }
      if IsList(s) {
        SettledMissesNothing(cfg, s.items.value, seen, n - 1);
      }
    }
  }

  // What the flag is worth

  /** An arrival of `traverse` that passes no hidden definition is an arrival of `configure`. */
  lemma {:induction false} VisibleIsFound(cfg: Config, s: Schema, n: nat)
    requires ReachesEdit(cfg, s, n) && !HidesEdit(cfg, s)
    ensures Finds(cfg, s)
    decreases n
  {
    var e := Resolve(cfg, s).value;
    assert !Hidden(cfg, s, n);
    assert e.ref == "";
    if Editable(cfg, e) {
      assert Found(cfg, e, 0);
      FoundThroughRef(cfg, s, 0);
    } else if IsObject(e) {
      var k :| k in e.properties && ReachesEdit(cfg, e.properties[k], n - 1);
      forall m: nat ensures !Hidden(cfg, e.properties[k], m) {
        assert !Hidden(cfg, s, m + 1);
      }
      VisibleIsFound(cfg, e.properties[k], n - 1);
      var m: nat :| Found(cfg, e.properties[k], m);
      assert Found(cfg, e, m + 1);
      FoundThroughRef(cfg, s, m + 1);
    } else {
      forall m: nat ensures !Hidden(cfg, e.items.value, m) {
        assert !Hidden(cfg, s, m + 1);
      }
      VisibleIsFound(cfg, e.items.value, n - 1);
      var m: nat :| Found(cfg, e.items.value, m);
      assert Found(cfg, e, m + 1);
      FoundThroughRef(cfg, s, m + 1);
    }
  }

  lemma FoundThroughRef(cfg: Config, s: Schema, n: nat)
    requires Resolve(cfg, s).Some? && Found(cfg, Resolve(cfg, s).value, n)
    ensures Finds(cfg, s)
  {
    assert s.ref != "" ==> Found(cfg, s, n + 1);
    assert s.ref == "" ==> Found(cfg, s, n);
  }

  lemma {:induction false} HiddenIsReached(cfg: Config, s: Schema, n: nat)
    requires Hidden(cfg, s, n)
    ensures ReachesEdit(cfg, s, n)
    decreases n
  {
    var e := Resolve(cfg, s).value;
    if !(s.ref != "" && e.ref != "" && ReachesEdit(cfg, s, n)) {
      if IsObject(e) {
        var k :| k in e.properties && Hidden(cfg, e.properties[k], n - 1);
        HiddenIsReached(cfg, e.properties[k], n - 1);
      } else {
        HiddenIsReached(cfg, e.items.value, n - 1);
      }
    }
  }

  /** A document that interpolation changes, for every schema that can arrive at an edit. */
  lemma {:induction false} ChangedWitness(cfg: Config, s: Schema, n: nat) returns (v: Json)
    requires ReachesEdit(cfg, s, n)
    ensures Interpolated(cfg, s, v) != v
    decreases n
  {
    var e := Resolve(cfg, s).value;
    if Editable(cfg, e) {
      v := Num("0");
    } else if IsObject(e) {
      var k :| k in e.properties && ReachesEdit(cfg, e.properties[k], n - 1);
      var x := ChangedWitness(cfg, e.properties[k], n - 1);
      v := Obj(map[k := x]);
      assert Interpolated(cfg, s, v).fields[k] != v.fields[k];
    } else {
      var x := ChangedWitness(cfg, e.items.value, n - 1);
      v := Arr([x]);
      assert Interpolated(cfg, s, v).items[0] != v.items[0];
    }
  }

  lemma {:induction false} ChangeIsReached(cfg: Config, s: Schema, v: Json)
    requires !Reaches(cfg, s)
    ensures Interpolated(cfg, s, v) == v
    decreases v
  {
    if Resolve(cfg, s).Some? {
      var e := Resolve(cfg, s).value;
      assert !ReachesEdit(cfg, s, 0);
      if IsObject(e) && v.Obj? {
        forall k | k in v.fields && k in e.properties
          ensures Interpolated(cfg, e.properties[k], v.fields[k]) == v.fields[k]
        {
          forall n: nat ensures !ReachesEdit(cfg, e.properties[k], n) {
            assert !ReachesEdit(cfg, s, n + 1);
          }
          ChangeIsReached(cfg, e.properties[k], v.fields[k]);
        }
        assert Interpolated(cfg, s, v).fields == v.fields;
      } else if IsList(e) && v.Arr? {
        forall n: nat ensures !ReachesEdit(cfg, e.items.value, n) {
          assert !ReachesEdit(cfg, s, n + 1);
        }
        forall i | 0 <= i < |v.items| {
          ChangeIsReached(cfg, e.items.value, v.items[i]);
        }
      }
    }
  }

  /** `traverse` leaves every document unchanged exactly when no editable position is reachable. */
  lemma ReachesExactlyChanges(cfg: Config, s: Schema)
    ensures Reaches(cfg, s) <==> exists v :: Interpolated(cfg, s, v) != v
  {
    if Reaches(cfg, s) {
      var n: nat :| ReachesEdit(cfg, s, n);
      var v := ChangedWitness(cfg, s, n);
    }
    if v :| Interpolated(cfg, s, v) != v {
      if !Reaches(cfg, s) {
        ChangeIsReached(cfg, s, v);
      }
    }
  }

  /** Skipping `traverse` when the search finds nothing is right for every document, exactly
      when the schema hides no editable position behind a definition that is a reference. */
  lemma FastPathExact(cfg: Config, s: Schema)
    requires !Finds(cfg, s)
    ensures (forall v :: Interpolated(cfg, s, v) == v) <==> !HidesEdit(cfg, s)
  {
    ReachesExactlyChanges(cfg, s);
    if HidesEdit(cfg, s) {
      var n: nat :| Hidden(cfg, s, n);
      HiddenIsReached(cfg, s, n);
    } else if Reaches(cfg, s) {
      var n: nat :| ReachesEdit(cfg, s, n);
      VisibleIsFound(cfg, s, n);
    }
  }

  /** In particular when no definition is itself a reference, and always in JSON-only mode,
      where references lead nowhere. */
  lemma PlainDefinitionsHideNothing(cfg: Config, s: Schema)
    requires forall name :: name in cfg.defs ==> cfg.defs[name].ref == ""
    ensures !HidesEdit(cfg, s)
  {
    forall n: nat ensures !Hidden(cfg, s, n) {
      PlainDefinitionsNotHidden(cfg, s, n);
    }
  }

  lemma {:induction false} PlainDefinitionsNotHidden(cfg: Config, s: Schema, n: nat)
    requires forall name :: name in cfg.defs ==> cfg.defs[name].ref == ""
    ensures !Hidden(cfg, s, n)
    decreases n
  {
    if Resolve(cfg, s).Some? && n > 0 {
      var e := Resolve(cfg, s).value;
      if IsObject(e) {
        forall k | k in e.properties ensures !Hidden(cfg, e.properties[k], n - 1) {
          PlainDefinitionsNotHidden(cfg, e.properties[k], n - 1);
        }
      }
      if IsList(e) {
        PlainDefinitionsNotHidden(cfg, e.items.value, n - 1);
      }
    }
  }

  // A schema for which the fast path is wrong

  // What the search looks for

  /** A position at which the type is missing or, in string mode, a string. */
  ghost predicate StopsAt(cfg: Config, s: Schema, path: Path) {
    var e := SchemaAt(cfg, s, path);
    e.Some? && (TypeString(e.value) == "" || (TypeString(e.value) == "string" && !cfg.jsonOnly))
  }

  lemma {:induction false} FoundAt(cfg: Config, s: Schema, n: nat) returns (path: Path)
    requires Found(cfg, s, n) && forall name :: name in cfg.defs ==> cfg.defs[name].ref == ""
    ensures StopsAt(cfg, s, path)
    decreases n
  {
    path := [];
    if s.ref != "" {
      path := FoundAt(cfg, Resolve(cfg, s).value, n - 1);
    } else if !Stops(cfg, s) {
      if IsObject(s) {
        var k :| k in s.properties && Found(cfg, s.properties[k], n - 1);
        var rest := FoundAt(cfg, s.properties[k], n - 1);
        path := [Key(k)] + rest;
        assert path[1..] == rest;
      } else {
        var rest := FoundAt(cfg, s.items.value, n - 1);
        path := [Index(0)] + rest;
        assert path[1..] == rest;
      }
    }
  }

  lemma {:induction false} AtIsFound(cfg: Config, s: Schema, path: Path)
    requires StopsAt(cfg, s, path) && forall name :: name in cfg.defs ==> cfg.defs[name].ref == ""
    ensures Finds(cfg, s)
    decreases path
  {
    var e := Resolve(cfg, s).value;
    if path == [] {
      assert Found(cfg, e, 0);
      FoundThroughRef(cfg, s, 0);
    } else {
      var child := if IsObject(e) then e.properties[path[0].name] else e.items.value;
      AtIsFound(cfg, child, path[1..]);
      var n: nat :| Found(cfg, child, n);
      assert Found(cfg, e, n + 1);
      FoundThroughRef(cfg, s, n + 1);
    }
  }

  /** Where no definition is itself a reference, the search finds something exactly when some
      position has no type or, in string mode, is a string. */
  lemma FindsExactly(cfg: Config, s: Schema)
    requires forall name :: name in cfg.defs ==> cfg.defs[name].ref == ""
    ensures Finds(cfg, s) <==> exists path :: StopsAt(cfg, s, path)
  {
    if Finds(cfg, s) {
      var n: nat :| Found(cfg, s, n);
      var path := FoundAt(cfg, s, n);
    }
    if path :| StopsAt(cfg, s, path) {
      AtIsFound(cfg, s, path);
    }
  }

  function Leaf(typ: TypeField, ref: string): Schema {
    Schema(typ, map[], None, [], ref, map[])
  }

  const HIDING_DEFS := map[
    "A" := Leaf(OneType("string"), "#/$defs/B"),
    "B" := Leaf(OneType("integer"), "")]

  const HIDING_SCHEMA :=
    Schema(OneType("object"), map["id" := Leaf(NoType, "#/$defs/A")], None, [], "", HIDING_DEFS)

  lemma HidingSchemaSkipsAnEdit(quoted: Json -> string)
    ensures var cfg := Config(false, HIDING_DEFS, quoted);
      !Finds(cfg, HIDING_SCHEMA)
      && HidesEdit(cfg, HIDING_SCHEMA)
      && Interpolated(cfg, HIDING_SCHEMA, Obj(map["id" := Num("1")])) == Obj(map["id" := Str("1")])
  {
    var cfg := Config(false, HIDING_DEFS, quoted);
    var id := Leaf(NoType, "#/$defs/A");
    assert DefName("#/$defs/A") == "A" && DefName("#/$defs/B") == "B";
    assert Resolve(cfg, id) == Some(HIDING_DEFS["A"]);
    assert ReachesEdit(cfg, id, 0);
    assert Hidden(cfg, id, 0);
    assert HIDING_SCHEMA.properties["id"] == id;
    assert Hidden(cfg, HIDING_SCHEMA, 1);
    var seen := {"#/$defs/A", "#/$defs/B"};
    assert Clean(cfg, HIDING_DEFS["A"], seen) && Clean(cfg, HIDING_DEFS["B"], seen);
    assert Clean(cfg, HIDING_SCHEMA, seen) && Settled(cfg, seen, seen);
    forall n: nat ensures !Found(cfg, HIDING_SCHEMA, n) {
      SettledMissesNothing(cfg, HIDING_SCHEMA, seen, n);
    }
    assert Interpolated(cfg, id, Num("1")) == Str("1");
    assert Interpolated(cfg, HIDING_SCHEMA, Obj(map["id" := Num("1")])).fields == map["id" := Str("1")];
  }
}
