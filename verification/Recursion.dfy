/** When `traverse` comes to an end.

    A property that the document lacks is entered only when the schema requires it, so on a
    recursive schema the descent is bounded by the document except along required properties.
    The rule of GraphQL (October 2021, section 3.10, Circular References) that a chain of
    non-null input fields must not close on itself is exactly what is needed. */
module Recursion {
  import opened Wrappers
  import opened Lists
  import opened JsonTree
  import opened Schemas
  import opened Interpolation

  /** At an object-typed position holding `mv`, `traverse` enters property `k` of `e`. */
  predicate Enters(e: Schema, mv: Option<Json>, k: string) {
    k in e.properties && (ChildOf(mv, Key(k)).Some? || k in e.required)
  }

  /** `traverse`, at a position that holds `mv`, returns within `n` nested calls. */
  ghost predicate Returns(cfg: Config, s: Schema, mv: Option<Json>, n: nat)
    decreases n
  {
    n > 0 &&
    match Resolve(cfg, s)
    case None => true
    case Some(e) =>
      && (IsObject(e) ==>
            forall k :: Enters(e, mv, k) ==> Returns(cfg, e.properties[k], ChildOf(mv, Key(k)), n - 1))
      && (IsList(e) ==>
            forall x :: x in ElementsOf(mv) ==> Returns(cfg, e.items.value, Some(x), n - 1))
  }

  ghost predicate Terminates(cfg: Config, s: Schema, mv: Option<Json>) {
    exists n: nat :: Returns(cfg, s, mv, n)
  }

  /** The definitions that `s` leads to through required properties alone. */
  function Needs(s: Schema): set<string>
    decreases s, 1
  {
    if s.ref != "" then {DefName(s.ref)} else BodyNeeds(s)
  }

  function BodyNeeds(s: Schema): set<string>
    decreases s, 0
  {
    if IsObject(s)
    then set k, name | k in s.properties && name in Needs(s.properties[k]) && k in s.required :: name
    else {}
  }

  lemma {:induction false} ReturnsLater(cfg: Config, s: Schema, mv: Option<Json>, n: nat, m: nat)
    requires Returns(cfg, s, mv, n) && n <= m
    ensures Returns(cfg, s, mv, m)
    decreases n, 1
  {
    if Resolve(cfg, s).Some? {
      if IsObject(Resolve(cfg, s).value) {
        FieldsReturnLater(cfg, s, Resolve(cfg, s).value, mv, n, m);
      }
      if IsList(Resolve(cfg, s).value) {
        ItemsReturnLater(cfg, s, Resolve(cfg, s).value, mv, n, m);
      }
    }
  }

  lemma {:induction false} FieldsReturnLater(
    cfg: Config, s: Schema, e: Schema, mv: Option<Json>, n: nat, m: nat)
    requires Resolve(cfg, s) == Some(e) && IsObject(e) && Returns(cfg, s, mv, n) && n <= m
    ensures forall k :: Enters(e, mv, k) ==> Returns(cfg, e.properties[k], ChildOf(mv, Key(k)), m - 1)
    decreases n, 0
  {
    forall k | Enters(e, mv, k) ensures Returns(cfg, e.properties[k], ChildOf(mv, Key(k)), m - 1) {
      ReturnsLater(cfg, e.properties[k], ChildOf(mv, Key(k)), n - 1, m - 1);
    }
  }

  lemma {:induction false} ItemsReturnLater(
    cfg: Config, s: Schema, e: Schema, mv: Option<Json>, n: nat, m: nat)
    requires Resolve(cfg, s) == Some(e) && IsList(e) && Returns(cfg, s, mv, n) && n <= m
    ensures forall x :: x in ElementsOf(mv) ==> Returns(cfg, e.items.value, Some(x), m - 1)
    decreases n, 0
  {
    forall x | x in ElementsOf(mv) ensures Returns(cfg, e.items.value, Some(x), m - 1) {
      ReturnsLater(cfg, e.items.value, Some(x), n - 1, m - 1);
    }
  }

  /** Finitely many calls that each return have a common bound. */
  lemma {:induction false} CommonForKeys(cfg: Config, e: Schema, mv: Option<Json>, keys: set<string>) returns (n: nat)
    requires forall k :: k in keys && Enters(e, mv, k) ==> Terminates(cfg, e.properties[k], ChildOf(mv, Key(k)))
    ensures forall k :: k in keys && Enters(e, mv, k) ==> Returns(cfg, e.properties[k], ChildOf(mv, Key(k)), n)
    decreases |keys|
  {
    n := 0;
    if keys != {} {
      var k :| k in keys;
      n := CommonForKeys(cfg, e, mv, keys - {k});
      if Enters(e, mv, k) {
        var here: nat :| Returns(cfg, e.properties[k], ChildOf(mv, Key(k)), here);
        var rest := n;
        n := here + rest;
        forall j | j in keys && Enters(e, mv, j) ensures Returns(cfg, e.properties[j], ChildOf(mv, Key(j)), n) {
          ReturnsLater(cfg, e.properties[j], ChildOf(mv, Key(j)), if j == k then here else rest, n);
        }
      }
    }
  }

  lemma {:induction false} CommonForElements(cfg: Config, s: Schema, xs: seq<Json>) returns (n: nat)
    requires forall x :: x in xs ==> Terminates(cfg, s, Some(x))
    ensures forall x :: x in xs ==> Returns(cfg, s, Some(x), n)
  {
    n := 0;
    if xs != [] {
      assert xs[0] in xs;
      var here: nat :| Returns(cfg, s, Some(xs[0]), here);
      var rest := CommonForElements(cfg, s, xs[1..]);
      n := here + rest;
      forall x | x in xs ensures Returns(cfg, s, Some(x), n) {
        if x != xs[0] {
          assert x in xs[1..];
        }
        ReturnsLater(cfg, s, Some(x), if x == xs[0] then here else rest, n);
      }
    }
  }

  // Required cycles

  /** A chain of `n` required-property edges leads from definition `a` to definition `b`. */
  ghost predicate Leads(cfg: Config, a: string, b: string, n: nat)
    decreases n
  {
    && a in cfg.defs && b in cfg.defs
    && if n == 0 then a == b
       else exists m :: m in BodyNeeds(cfg.defs[a]) && Leads(cfg, m, b, n - 1)
  }

  ghost predicate OnCycle(cfg: Config, name: string) {
    exists n: nat :: n > 0 && Leads(cfg, name, name, n)
  }

  /** A document can take `traverse` from `s` to a reference to `name` within `n` steps. */
  ghost predicate Visits(cfg: Config, s: Schema, name: string, n: nat)
    decreases n
  {
    || (s.ref != "" && DefName(s.ref) == name && name in cfg.defs)
    || (n > 0 && Resolve(cfg, s).Some? &&
        var e := Resolve(cfg, s).value;
        || (IsObject(e) && exists k :: k in e.properties && Visits(cfg, e.properties[k], name, n - 1))
        || (IsList(e) && Visits(cfg, e.items.value, name, n - 1)))
  }

  /** No definition that can be visited from `s` requires itself through a chain of required
      properties. */
  ghost predicate NoCycle(cfg: Config, s: Schema) {
    forall name, n: nat :: Visits(cfg, s, name, n) ==> !OnCycle(cfg, name)
  }

  lemma {:induction false} LeadsFurther(cfg: Config, a: string, b: string, c: string, n: nat)
    requires Leads(cfg, a, b, n) && c in BodyNeeds(cfg.defs[b]) && c in cfg.defs
    ensures Leads(cfg, a, c, n + 1)
    decreases n
  {
    if n == 0 {
      assert Leads(cfg, c, c, 0);
    } else {
      var m :| m in BodyNeeds(cfg.defs[a]) && Leads(cfg, m, b, n - 1);
      LeadsFurther(cfg, m, b, c, n - 1);
    }
  }

  lemma NoCycleBelow(cfg: Config, s: Schema, child: Schema)
    requires NoCycle(cfg, s) && Resolve(cfg, s).Some?
    requires var e := Resolve(cfg, s).value;
      (IsObject(e) && exists k :: k in e.properties && e.properties[k] == child)
      || (IsList(e) && e.items.value == child)
    ensures NoCycle(cfg, child)
  {
    forall name, n: nat | Visits(cfg, child, name, n) ensures !OnCycle(cfg, name) {
      assert Visits(cfg, s, name, n + 1);
    }
  }

  /** Every definition of `chain` leads to every definition that `s` needs. */
  ghost predicate Follows(cfg: Config, s: Schema, chain: set<string>) {
    && chain <= cfg.defs.Keys
    && forall a, m :: a in chain && m in Needs(s) && m in cfg.defs ==> exists n: nat :: n > 0 && Leads(cfg, a, m, n)
  }

  /** On the missing value, `traverse` follows required properties alone, through the definitions
      in `chain` so far.  Without a cycle each is met once. */
  lemma {:induction false} MissingTerminates(cfg: Config, s: Schema, chain: set<string>)
    requires NoCycle(cfg, s) && Follows(cfg, s, chain)
    ensures Terminates(cfg, s, None)
    decreases |cfg.defs.Keys - chain|, s
  {
    var n := 0;
    if Resolve(cfg, s).Some? {
      var e := Resolve(cfg, s).value;
      if IsObject(e) {
        forall k | k in e.properties && Enters(e, None, k) ensures Terminates(cfg, e.properties[k], None) {
          var child := e.properties[k];
          NoCycleBelow(cfg, s, child);
          if s.ref == "" {
            assert Needs(child) <= Needs(s);
            MissingTerminates(cfg, child, chain);
          } else {
            var name := DefName(s.ref);
            ChainGrows(cfg, s, child, k, chain);
            assert cfg.defs.Keys - (chain + {name}) < cfg.defs.Keys - chain;
            SmallerSet(cfg.defs.Keys - (chain + {name}), cfg.defs.Keys - chain);
            MissingTerminates(cfg, child, chain + {name});
          }
        }
        n := CommonForKeys(cfg, e, None, e.properties.Keys);
      }
    }
    assert Returns(cfg, s, None, n + 1);
  }

  lemma ChainGrows(cfg: Config, s: Schema, child: Schema, k: string, chain: set<string>)
    requires NoCycle(cfg, s) && Follows(cfg, s, chain)
    requires s.ref != "" && DefName(s.ref) in cfg.defs
    requires var e := cfg.defs[DefName(s.ref)];
      IsObject(e) && k in e.properties && k in e.required && e.properties[k] == child
    ensures DefName(s.ref) !in chain && Follows(cfg, child, chain + {DefName(s.ref)})
  {
    var name := DefName(s.ref);
    assert Visits(cfg, s, name, 0);
    assert name in Needs(s);
    forall a, m | a in chain + {name} && m in Needs(child) && m in cfg.defs
      ensures exists n: nat :: n > 0 && Leads(cfg, a, m, n)
    {
      assert m in BodyNeeds(cfg.defs[name]);
      var n: nat := 0;
      if a in chain {
        n :| n > 0 && Leads(cfg, a, name, n);
      } else {
        assert Leads(cfg, name, name, 0);
      }
      LeadsFurther(cfg, a, name, m, n);
    }
  }

  /** On a document, a property that is there leads to a smaller value; one that is not leads to
      the missing value. */
  lemma {:induction false} DocumentTerminates(cfg: Config, s: Schema, v: Json)
    requires NoCycle(cfg, s)
    ensures Terminates(cfg, s, Some(v))
    decreases v
  {
    var n := 0;
    if Resolve(cfg, s).Some? {
      var e := Resolve(cfg, s).value;
      if IsObject(e) {
        forall k | k in e.properties && Enters(e, Some(v), k)
          ensures Terminates(cfg, e.properties[k], ChildOf(Some(v), Key(k)))
        {
          NoCycleBelow(cfg, s, e.properties[k]);
          if Child(v, Key(k)).Some? {
            DocumentTerminates(cfg, e.properties[k], Child(v, Key(k)).value);
          } else {
            MissingTerminates(cfg, e.properties[k], {});
          }
        }
        n := CommonForKeys(cfg, e, Some(v), e.properties.Keys);
      }
      if IsList(e) {
        NoCycleBelow(cfg, s, e.items.value);
        forall x | x in ElementsOf(Some(v)) ensures Terminates(cfg, e.items.value, Some(x)) {
          DocumentTerminates(cfg, e.items.value, x);
        }
        n := CommonForElements(cfg, e.items.value, ElementsOf(Some(v)));
      }
    }
    assert Returns(cfg, s, Some(v), n + 1);
  }

  // The other direction

  /** A reference to the definition called `name`. */
  function RefTo(name: string): Schema {
    Schema(NoType, map[], None, [], DEFS_PREFIX + name, map[])
  }

  /** On a missing value of the definition called `name`. */
  ghost predicate MissingReturns(cfg: Config, name: string, n: nat) {
    Returns(cfg, RefTo(name), None, n)
  }

  /** What a missing value needs is done with in as many calls. */
  lemma {:induction false} NeedReturns(cfg: Config, s: Schema, name: string, n: nat)
    requires Returns(cfg, s, None, n) && name in Needs(s) && name in cfg.defs
    ensures MissingReturns(cfg, name, n)
    decreases s
  {
    assert DefName(RefTo(name).ref) == name;
    if s.ref == "" {
      var k :| k in s.properties && name in Needs(s.properties[k]) && k in s.required;
      assert Enters(s, None, k);
      NeedReturns(cfg, s.properties[k], name, n - 1);
      ReturnsLater(cfg, RefTo(name), None, n - 1, n);
    }
  }

  lemma NeedReturnsEarlier(cfg: Config, name: string, m: string, n: nat)
    requires name in cfg.defs && m in BodyNeeds(cfg.defs[name]) && m in cfg.defs
    requires MissingReturns(cfg, name, n)
    ensures n > 0 && MissingReturns(cfg, m, n - 1)
  {
    assert DefName(RefTo(name).ref) == name;
    var e := cfg.defs[name];
    var k :| k in e.properties && m in Needs(e.properties[k]) && k in e.required;
    assert Enters(e, None, k);
    NeedReturns(cfg, e.properties[k], m, n - 1);
  }

  lemma CycleGoesOn(cfg: Config, name: string) returns (m: string)
    requires OnCycle(cfg, name)
    ensures name in cfg.defs && m in BodyNeeds(cfg.defs[name]) && m in cfg.defs && OnCycle(cfg, m)
  {
    var n: nat :| n > 0 && Leads(cfg, name, name, n);
    m :| m in BodyNeeds(cfg.defs[name]) && Leads(cfg, m, name, n - 1);
    LeadsFurther(cfg, m, name, m, n - 1);
  }

  /** On a missing value of a definition that requires itself no number of calls is enough. */
  lemma {:induction false} CycleNeverReturns(cfg: Config, name: string, n: nat)
    requires OnCycle(cfg, name)
    ensures !MissingReturns(cfg, name, n)
    decreases n
  {
    if MissingReturns(cfg, name, n) {
      var m := CycleGoesOn(cfg, name);
      NeedReturnsEarlier(cfg, name, m, n);
      CycleNeverReturns(cfg, m, n - 1);
    }
  }

  /** A document on which `traverse` does not return, for every schema from which a required cycle
      can be visited: the empty object, at the place where the cycle begins. */
  lemma {:induction false} DivergingDocument(cfg: Config, s: Schema, name: string, n: nat) returns (v: Json)
    requires Visits(cfg, s, name, n) && OnCycle(cfg, name)
    ensures !Terminates(cfg, s, Some(v))
    decreases n
  {
    var e := Resolve(cfg, s).value;
    if s.ref != "" && DefName(s.ref) == name {
      v := Obj(map[]);
      forall m: nat ensures !Returns(cfg, s, Some(v), m) {
        CycleNeverReturns(cfg, name, m);
        assert DefName(RefTo(name).ref) == name;
        if Returns(cfg, s, Some(v), m) {
          EmptyIsMissing(e);
          assert MissingReturns(cfg, name, m);
        }
      }
    } else if IsObject(e) {
      var k :| k in e.properties && Visits(cfg, e.properties[k], name, n - 1);
      var x := DivergingDocument(cfg, e.properties[k], name, n - 1);
      v := Obj(map[k := x]);
      assert ChildOf(Some(v), Key(k)) == Some(x);
      assert forall m: nat :: Returns(cfg, s, Some(v), m) ==> Returns(cfg, e.properties[k], Some(x), m - 1);
    } else {
      var x := DivergingDocument(cfg, e.items.value, name, n - 1);
      v := Arr([x]);
      assert x in ElementsOf(Some(v));
      assert forall m: nat :: Returns(cfg, s, Some(v), m) ==> Returns(cfg, e.items.value, Some(x), m - 1);
    }
  }

  /** An empty object has what a missing value has: no property and no element. */
  lemma EmptyIsMissing(e: Schema)
    ensures forall k :: ChildOf(Some(Obj(map[])), Key(k)) == ChildOf(None, Key(k))
    ensures forall k :: Enters(e, Some(Obj(map[])), k) <==> Enters(e, None, k)
    ensures ElementsOf(Some(Obj(map[]))) == ElementsOf(None)
  {
  }

  /** `traverse` returns on every document exactly when no required cycle can be visited. */
  lemma TerminatesExactly(cfg: Config, s: Schema)
    ensures (forall v :: Terminates(cfg, s, Some(v))) <==> NoCycle(cfg, s)
  {
    if NoCycle(cfg, s) {
      forall v ensures Terminates(cfg, s, Some(v)) {
        DocumentTerminates(cfg, s, v);
      }
    } else {
      var name, n: nat :| Visits(cfg, s, name, n) && OnCycle(cfg, name);
      var v := DivergingDocument(cfg, s, name, n);
    }
  }

  /** A list whose nodes must have a next node. */
  const ENDLESS_DEFS := map[
    "Node" := Schema(OneType("object"), map["next" := RefTo("Node")], None, ["next"], "", map[])]

  const ENDLESS_SCHEMA :=
    Schema(OneType("object"), map["list" := RefTo("Node")], None, [], "", ENDLESS_DEFS)

  /** `traverse` does not return on `{"list":{}}`, but it does on `{}`. */
  lemma EndlessListNeverReturns(jsonOnly: bool, quoted: Json -> string)
    ensures var cfg := Config(jsonOnly, ENDLESS_DEFS, quoted);
      && !Terminates(cfg, ENDLESS_SCHEMA, Some(Obj(map["list" := Obj(map[])])))
      && Terminates(cfg, ENDLESS_SCHEMA, Some(Obj(map[])))
  {
    var cfg := Config(jsonOnly, ENDLESS_DEFS, quoted);
    var node, list := ENDLESS_DEFS["Node"], RefTo("Node");
    assert DefName(list.ref) == "Node" && Resolve(cfg, list) == Some(node);
    assert "Node" in Needs(node.properties["next"]) && "next" in node.required;
    assert "Node" in BodyNeeds(node);
    assert Leads(cfg, "Node", "Node", 0) && Leads(cfg, "Node", "Node", 1);
    var v := Obj(map["list" := Obj(map[])]);
    assert ChildOf(Some(v), Key("list")) == Some(Obj(map[])) && Enters(ENDLESS_SCHEMA, Some(v), "list");
    forall n: nat ensures !Returns(cfg, ENDLESS_SCHEMA, Some(v), n) {
      if Returns(cfg, ENDLESS_SCHEMA, Some(v), n) {
        EmptyIsMissing(node);
        assert Returns(cfg, list, Some(Obj(map[])), n - 1);
        assert Returns(cfg, list, None, n - 1);
        assert MissingReturns(cfg, "Node", n - 1);
        CycleNeverReturns(cfg, "Node", n - 1);
      }
    }
    assert Returns(cfg, ENDLESS_SCHEMA, Some(Obj(map[])), 1);
  }
}
