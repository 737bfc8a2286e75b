/** The JSON schemas that steer interpolation (`Schema`, its `typeString` and `IsRequired`). */
module Schemas {
  import opened Wrappers

  /** The decoded `type` member: one name, or a list whose elements need not all be strings.
      Anything else, and a missing member, is `NoType`. */
  datatype TypeField = NoType | OneType(name: string) | TypeList(names: seq<Option<string>>)

  /** A nil `properties` map behaves like an empty one. */
  datatype Schema = Schema(
    typ: TypeField,
    properties: map<string, Schema>,
    items: Option<Schema>,
    required: seq<string>,
    ref: string,
    defs: map<string, Schema>)

  predicate Names(n: Option<string>) {
    n.Some? && n.value != "null"
  }

  function FirstName(names: seq<Option<string>>): string {
    if names == [] then ""
    else if Names(names[0]) then names[0].value
    else FirstName(names[1..])
  }

  function TypeString(s: Schema): string {
    match s.typ
    case NoType => ""
    case OneType(name) => name
    case TypeList(names) => FirstName(names)
  }

  lemma {:induction false} FirstNameFrom(names: seq<Option<string>>, i: nat)
    requires i <= |names| && forall j :: 0 <= j < i ==> !Names(names[j])
    ensures FirstName(names) == FirstName(names[i..])
  {
    if i == 0 {
      assert names[0..] == names;
    } else {
      FirstNameFrom(names[1..], i - 1);
      assert names[1..][i - 1..] == names[i..];
    }
  }

  /** The type of a list is its first entry that is a string other than "null"; there is none when
      all entries are something else. */
  lemma TypeStringExactly(s: Schema)
    ensures s.typ.NoType? ==> TypeString(s) == ""
    ensures s.typ.OneType? ==> TypeString(s) == s.typ.name
    ensures s.typ.TypeList? ==> var names := s.typ.names;
      || (TypeString(s) == "" && forall j :: 0 <= j < |names| ==> names[j] in {None, Some("null")})
      || (exists i :: 0 <= i < |names| && names[i] == Some(TypeString(s)) && TypeString(s) != "null"
            && forall j :: 0 <= j < i ==> names[j] in {None, Some("null")})
  {
    if s.typ.TypeList? {
      FirstNameExactly(s.typ.names);
    }
  }

  lemma {:induction false} FirstNameExactly(names: seq<Option<string>>)
    ensures
      || (FirstName(names) == "" && forall j :: 0 <= j < |names| ==> names[j] in {None, Some("null")})
      || (exists i :: 0 <= i < |names| && names[i] == Some(FirstName(names)) && FirstName(names) != "null"
            && forall j :: 0 <= j < i ==> names[j] in {None, Some("null")})
  {
    if names != [] && names[0] in {None, Some("null")} {
      FirstNameExactly(names[1..]);
      if i :| 0 <= i < |names[1..]| && names[1..][i] == Some(FirstName(names)) && FirstName(names) != "null"
            && forall j :: 0 <= j < i ==> names[1..][j] in {None, Some("null")} {
        assert names[i + 1] == Some(FirstName(names));
      }
    }
  }

  /** A reference names what follows the prefix; one without the prefix names itself. */
  lemma DefNameExactly(ref: string)
    ensures "#/$defs/" <= ref ==> ref == "#/$defs/" + DefName(ref)
    ensures !("#/$defs/" <= ref) ==> DefName(ref) == ref
  {
  }

  /** The loop of `typeString` over a list of names. */
  method FindType(s: Schema) returns (name: string)
    ensures name == TypeString(s)
  {
    match s.typ {
      case NoType => return "";
      case OneType(t) => return t;
      case TypeList(names) =>
        for i := 0 to |names|
          invariant forall j :: 0 <= j < i ==> !Names(names[j])
        {
          if Names(names[i]) {
            FirstNameFrom(names, i);
            return names[i].value;
          }
        }
        FirstNameFrom(names, |names|);
        return "";
    }
  }

  method IsRequired(s: Schema, name: string) returns (found: bool)
    ensures found <==> name in s.required
  {
    for i := 0 to |s.required|
      invariant name !in s.required[..i]
    {
      if s.required[i] == name {
        return true;
      }
    }
    return false;
  }

  const DEFS_PREFIX := "#/$defs/"

  function TrimPrefix(s: string, prefix: string): string {
    if prefix <= s then s[|prefix|..] else s
  }

  function DefName(ref: string): string {
    TrimPrefix(ref, DEFS_PREFIX)
  }

  /** Every `$ref` written in the tree of `s`, definitions not opened. */
  function Refs(s: Schema): set<string> {
    {s.ref}
    + (set k, r | k in s.properties && r in Refs(s.properties[k]) :: r)
    + (if s.items.Some? then Refs(s.items.value) else {})
  }
}
