/** What interpolation means: one structural pass over a value, steered by a schema.
    `StringInterpolator` reaches the same result by path-addressed edits in any order. */
module Interpolation {
  import opened Wrappers
  import opened JsonTree
  import opened Schemas

  /** How an interpolator was built.  `quoted` stands for `json.Marshal` of a raw value as a
      Go string; `NewStringInterpolatorJSONOnly` leaves `defs` empty. */
  datatype Config = Config(jsonOnly: bool, defs: map<string, Schema>, quoted: Json -> string)

  /** `traverse` follows a `$ref` once: the definition's own `$ref` is not looked at. */
  function Resolve(cfg: Config, s: Schema): Option<Schema> {
    if s.ref == "" then Some(s)
    else if DefName(s.ref) in cfg.defs then Some(cfg.defs[DefName(s.ref)])
    else None
  }

  predicate Editable(cfg: Config, e: Schema) {
    TypeString(e) == if cfg.jsonOnly then "" else "string"
  }

  function Edited(cfg: Config, v: Json): Json {
    if cfg.jsonOnly then
      if v.Str? then v else Str(cfg.quoted(v))
    else
      match v
      case Num(text) => Str(text)
      case Bool(b) => Str(if b then "true" else "false")
      case _ => v
  }

  predicate IsObject(e: Schema) {
    TypeString(e) == "object"
  }

  predicate IsList(e: Schema) {
    TypeString(e) == "array" && e.items.Some?
  }

  /** The one-pass recursion over the value. */
  function Interpolated(cfg: Config, s: Schema, v: Json): Json
    decreases v
  {
    match Resolve(cfg, s)
    case None => v
    case Some(e) =>
      if Editable(cfg, e) then Edited(cfg, v)
      else if IsObject(e) && v.Obj? then
        Obj(map k | k in v.fields ::
          if k in e.properties then Interpolated(cfg, e.properties[k], v.fields[k]) else v.fields[k])
      else if IsList(e) && v.Arr? then
        Arr(seq(|v.items|, i requires 0 <= i < |v.items| => Interpolated(cfg, e.items.value, v.items[i])))
      else v
  }

  /** Interpolating twice is interpolating once. */
  lemma {:induction false} Idempotent(cfg: Config, s: Schema, v: Json)
    ensures Interpolated(cfg, s, Interpolated(cfg, s, v)) == Interpolated(cfg, s, v)
    decreases v
  {
    var r := Resolve(cfg, s);
    if r.Some? && !Editable(cfg, r.value) {
      var e := r.value;
      if IsObject(e) && v.Obj? {
        forall k | k in v.fields && k in e.properties {
          Idempotent(cfg, e.properties[k], v.fields[k]);
        }
        assert Interpolated(cfg, s, Interpolated(cfg, s, v)).fields == Interpolated(cfg, s, v).fields;
      } else if IsList(e) && v.Arr? {
        forall i | 0 <= i < |v.items| {
          Idempotent(cfg, e.items.value, v.items[i]);
        }
      }
    }
  }

  // Where the edits are

  /** The schema that governs a position, if any: the path is walked through properties,
      items and resolved references. */
  function SchemaAt(cfg: Config, s: Schema, path: Path): Option<Schema>
    decreases path
  {
    match Resolve(cfg, s)
    case None => None
    case Some(e) =>
      if path == [] then Some(e)
      else if IsObject(e) && path[0].Key? && path[0].name in e.properties then
        SchemaAt(cfg, e.properties[path[0].name], path[1..])
      else if IsList(e) && path[0].Index? then SchemaAt(cfg, e.items.value, path[1..])
      else None
  }

  /** A reference is the name of a definition behind the prefix, or a bare name. */
  predicate Spells(ref: string, name: string) {
    ref == "#/$defs/" + name || (ref == name && !("#/$defs/" <= ref))
  }

  predicate Defines(cfg: Config, ref: string, e: Schema) {
    exists name :: name in cfg.defs && cfg.defs[name] == e && Spells(ref, name)
  }

  /** Which schema governs a position, one component at a time: a key goes to a property of an object,
      an index to the items of an array, and a reference to its definition first. */
  lemma SchemaAtExactly(cfg: Config, s: Schema, e: Schema, seg: Segment, rest: Path)
    requires if s.ref == "" then e == s else Defines(cfg, s.ref, e)
    ensures SchemaAt(cfg, s, []) == Some(e)
    ensures TypeString(e) == "object" && seg.Key? && seg.name in e.properties ==>
      SchemaAt(cfg, s, [seg] + rest) == SchemaAt(cfg, e.properties[seg.name], rest)
    ensures TypeString(e) == "array" && seg.Index? && e.items.Some? ==>
      SchemaAt(cfg, s, [seg] + rest) == SchemaAt(cfg, e.items.value, rest)
    ensures !(TypeString(e) == "object" && seg.Key? && seg.name in e.properties) ==>
      !(TypeString(e) == "array" && seg.Index? && e.items.Some?) ==> SchemaAt(cfg, s, [seg] + rest) == None
  {
    if s.ref != "" {
      var name :| name in cfg.defs && cfg.defs[name] == e && Spells(s.ref, name);
      DefNameExactly(s.ref);
      assert s.ref == "#/$defs/" + name ==> s.ref[8..] == name;
      assert DefName(s.ref) == name;
    }
    assert ([seg] + rest)[1..] == rest;
  }

  predicate EditableAt(cfg: Config, s: Schema, path: Path) {
    SchemaAt(cfg, s, path).Some? && Editable(cfg, SchemaAt(cfg, s, path).value)
  }

  /** Some proper prefix of `path` is an editable position. */
  predicate BelowEdit(cfg: Config, s: Schema, path: Path)
    decreases path
  {
    path != [] &&
    match Resolve(cfg, s)
    case None => false
    case Some(e) =>
      Editable(cfg, e)
      || (IsObject(e) && path[0].Key? && path[0].name in e.properties
          && BelowEdit(cfg, e.properties[path[0].name], path[1..]))
      || (IsList(e) && path[0].Index? && BelowEdit(cfg, e.items.value, path[1..]))
  }

  /** A definition, once resolved, is used as if it carried no `$ref` of its own. */
  lemma EffectiveSchema(cfg: Config, s: Schema, v: Json)
    requires Resolve(cfg, s).Some?
    ensures Interpolated(cfg, s, v) == Interpolated(cfg, Resolve(cfg, s).value.(ref := ""), v)
  {
    var e := Resolve(cfg, s).value;
    assert TypeString(e.(ref := "")) == TypeString(e);
  }

  /** Every position that is not below an edit: the value there is interpolated by the schema
      that governs it, and a position no schema governs keeps its value. */
  lemma {:induction false} InterpolatedAt(cfg: Config, s: Schema, v: Json, path: Path)
    requires !BelowEdit(cfg, s, path)
    ensures var e := SchemaAt(cfg, s, path); var x := Get(v, path);
      Get(Interpolated(cfg, s, v), path) ==
      if x.Some? && e.Some? then Some(Interpolated(cfg, e.value.(ref := ""), x.value)) else x
    decreases path
  {
    var r := Resolve(cfg, s);
    if path == [] {
      if r.Some? {
        EffectiveSchema(cfg, s, v);
      }
    } else if r.Some? && Child(v, path[0]).Some? {
      var e := r.value;
      var c := Child(v, path[0]).value;
      if IsObject(e) && path[0].Key? && path[0].name in e.properties {
        InterpolatedAt(cfg, e.properties[path[0].name], c, path[1..]);
      } else if IsList(e) && path[0].Index? {
        InterpolatedAt(cfg, e.items.value, c, path[1..]);
      }
    }
  }

  /** Every position at or below an edit is read through the edited value. */
  lemma InterpolatedBelow(cfg: Config, s: Schema, v: Json, path: Path, rest: Path)
    requires EditableAt(cfg, s, path) && !BelowEdit(cfg, s, path)
    ensures Get(Interpolated(cfg, s, v), path + rest) ==
            match Get(v, path) case None => None case Some(x) => Get(Edited(cfg, x), rest)
  {
    InterpolatedAt(cfg, s, v, path);
    GetAppend(Interpolated(cfg, s, v), path, rest);
    var e := SchemaAt(cfg, s, path).value;
    assert TypeString(e.(ref := "")) == TypeString(e);
  }

  /** What becomes of an editable position, in every document.  String mode: a number keeps its text
      and a boolean its literal, as a string; everything else stays.  JSON-only mode: a string stays
      and everything else is quoted. */
  lemma EditableExactly(cfg: Config, s: Schema, v: Json, path: Path)
    requires SchemaAt(cfg, s, path).Some?
    requires TypeString(SchemaAt(cfg, s, path).value) == if cfg.jsonOnly then "" else "string"
    ensures var x, r := Get(v, path), Get(Interpolated(cfg, s, v), path);
      && (x.None? ==> r.None?)
      && (!cfg.jsonOnly && x.Some? ==>
            && (x.value.Num? ==> r == Some(Str(x.value.text)))
            && (x.value == Bool(true) ==> r == Some(Str("true")))
            && (x.value == Bool(false) ==> r == Some(Str("false")))
            && (!x.value.Num? && !x.value.Bool? ==> r == x))
      && (cfg.jsonOnly && x.Some? ==>
            && (x.value.Str? ==> r == x)
            && (!x.value.Str? ==> r == Some(Str(cfg.quoted(x.value)))))
  {
    GovernedNotBelow(cfg, s, path);
    InterpolatedBelow(cfg, s, v, path, []);
    assert path + [] == path;
  }

  /** Every other governed position: objects keep their keys, arrays their length, and anything else
      is unchanged.  Positions that no schema governs are those of `InterpolatedAt`. */
  lemma OthersKeepTheirShape(cfg: Config, s: Schema, v: Json, path: Path)
    requires SchemaAt(cfg, s, path).Some? && Get(v, path).Some?
    requires TypeString(SchemaAt(cfg, s, path).value) != if cfg.jsonOnly then "" else "string"
    ensures Get(Interpolated(cfg, s, v), path).Some?
    ensures var x, r := Get(v, path).value, Get(Interpolated(cfg, s, v), path).value;
      && (x.Obj? ==> r.Obj? && r.fields.Keys == x.fields.Keys)
      && (x.Arr? ==> r.Arr? && |r.items| == |x.items|)
      && (!x.Obj? && !x.Arr? ==> r == x)
  {
    GovernedNotBelow(cfg, s, path);
    InterpolatedAt(cfg, s, v, path);
    var e := SchemaAt(cfg, s, path).value;
    assert TypeString(e.(ref := "")) == TypeString(e);
  }

  /** String mode: nothing below a string-typed position is governed by a schema, so this is
      every string-typed position there is. */
  lemma {:induction false} NoScalarAtString(cfg: Config, s: Schema, v: Json, path: Path)
    requires !cfg.jsonOnly && EditableAt(cfg, s, path)
    ensures var x := Get(Interpolated(cfg, s, v), path); x.Some? ==> !x.value.Num? && !x.value.Bool?
  {
    GovernedNotBelow(cfg, s, path);
    InterpolatedBelow(cfg, s, v, path, []);
    assert path + [] == path;
  }

  lemma {:induction false} GovernedNotBelow(cfg: Config, s: Schema, path: Path)
    requires SchemaAt(cfg, s, path).Some?
    ensures !BelowEdit(cfg, s, path)
    decreases path
  {
    if path != [] {
      var e := Resolve(cfg, s).value;
      if IsObject(e) && path[0].Key? && path[0].name in e.properties {
        GovernedNotBelow(cfg, e.properties[path[0].name], path[1..]);
      } else {
        GovernedNotBelow(cfg, e.items.value, path[1..]);
      }
    }
  }
}
