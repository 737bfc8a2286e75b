/** `mergeRequiredFields`: the field requirements of a plan, merged entry by entry. */
module RequiredFields {
  import opened Lists
  import opened Deduplication

  /** A field configuration; `rest` stands for the members the merge does not touch. */
  datatype Field = Field(typeName: string, fieldName: string, requiresFields: seq<string>, rest: string)

  predicate SameField(a: Field, b: Field) {
    a.typeName == b.typeName && a.fieldName == b.fieldName
  }

  // What the loops compute

  /** The names of `add` that are new, behind those of `names`. */
  function MergedNames(names: seq<string>, add: seq<string>): seq<string>
    decreases add
  {
    if add == [] then names
    else MergedNames(if add[0] in names then names else names + [add[0]], add[1..])
  }

  /** The index of the first entry for the field of `f`, or the length. */
  function FirstFor(fields: seq<Field>, f: Field): (i: nat)
    ensures i <= |fields| && (i < |fields| ==> SameField(f, fields[i]))
    ensures forall j :: 0 <= j < i ==> !SameField(f, fields[j])
  {
    if fields == [] || SameField(f, fields[0]) then 0 else 1 + FirstFor(fields[1..], f)
  }

  function MergedOne(fields: seq<Field>, f: Field): seq<Field> {
    var i := FirstFor(fields, f);
    if i == |fields| then fields + [f]
    else fields[i := fields[i].(requiresFields := MergedNames(fields[i].requiresFields, f.requiresFields))]
  }

  function MergedAll(fields: seq<Field>, required: seq<Field>): seq<Field>
    decreases required
  {
    if required == [] then fields else MergedAll(MergedOne(fields, required[0]), required[1..])
  }

  // What the merge is for

  lemma {:induction false} MergedNamesProperties(names: seq<string>, add: seq<string>)
    ensures var r := MergedNames(names, add);
      && names <= r
      && (forall n :: n in r <==> n in names || n in add)
      && (Distinct(names) ==> Distinct(r))
      && ((forall n :: n in add ==> n in names) ==> r == names)
    decreases add
  {
    if add != [] {
      MergedNamesProperties(if add[0] in names then names else names + [add[0]], add[1..]);
    }
  }

  /** The names appended are those of `add` that are new, each once, in the order of `add`. */
  lemma {:induction false} MergedNamesInOrder(names: seq<string>, add: seq<string>)
    ensures MergedNames(names, add) == names + FirstOccurrences(add, Elements(names))
    decreases add
  {
    if add != [] {
      if add[0] in names {
        MergedNamesInOrder(names, add[1..]);
      } else {
        MergedNamesInOrder(names + [add[0]], add[1..]);
        assert Elements(names + [add[0]]) == Elements(names) + {add[0]};
      }
    }
  }

  /** Every entry behind the old ones is a requirement, as it was except for more required names. */
  lemma {:induction false} MergeAppends(fields: seq<Field>, required: seq<Field>, i: nat)
    requires |fields| <= i < |MergedAll(fields, required)|
    ensures var r := MergedAll(fields, required)[i];
      exists f :: f in required
        && r.(requiresFields := f.requiresFields) == f && f.requiresFields <= r.requiresFields
    decreases required
  {
    var next := MergedOne(fields, required[0]);
    MergeExtends(next, required[1..]);
    if i < |next| {
      assert next[i] == required[0];
    } else {
      MergeAppends(next, required[1..], i);
    }
  }

  /** Entry `i` of the result is entry `i` of the input, with more required names behind. */
  ghost predicate Extends(fields: seq<Field>, r: seq<Field>) {
    |fields| <= |r| &&
    forall i :: 0 <= i < |fields| ==>
      && r[i].(requiresFields := fields[i].requiresFields) == fields[i]
      && fields[i].requiresFields <= r[i].requiresFields
  }

  lemma ExtendsOne(fields: seq<Field>, f: Field)
    ensures Extends(fields, MergedOne(fields, f))
  {
    var i := FirstFor(fields, f);
    if i < |fields| {
      MergedNamesProperties(fields[i].requiresFields, f.requiresFields);
    }
  }

  lemma ExtendsTransitive(a: seq<Field>, b: seq<Field>, c: seq<Field>)
    requires Extends(a, b) && Extends(b, c)
    ensures Extends(a, c)
  {
  }

  /** The input stays an order-preserving prefix whose requirements only grow. */
  lemma {:induction false} MergeExtends(fields: seq<Field>, required: seq<Field>)
    ensures Extends(fields, MergedAll(fields, required))
    decreases required
  {
    if required != [] {
      ExtendsOne(fields, required[0]);
      MergeExtends(MergedOne(fields, required[0]), required[1..]);
      ExtendsTransitive(fields, MergedOne(fields, required[0]), MergedAll(fields, required));
    }
  }

  /** `name` is required by some entry for the field of `f`. */
  predicate Requires(fields: seq<Field>, f: Field, name: string) {
    exists i :: 0 <= i < |fields| && name in fields[i].requiresFields
      && fields[i].typeName == f.typeName && fields[i].fieldName == f.fieldName
  }

  predicate Mentions(fields: seq<Field>, f: Field) {
    exists i :: 0 <= i < |fields| && fields[i].typeName == f.typeName && fields[i].fieldName == f.fieldName
  }

  lemma UnionOne(fields: seq<Field>, g: Field, f: Field, name: string)
    ensures Requires(MergedOne(fields, g), f, name) <==>
            Requires(fields, f, name) || (SameField(f, g) && name in g.requiresFields)
    ensures Mentions(MergedOne(fields, g), f) <==> Mentions(fields, f) || SameField(f, g)
  {
    var r, k := MergedOne(fields, g), FirstFor(fields, g);
    if k == |fields| {
      assert r[k] == g;
      assert forall i :: 0 <= i < |fields| ==> r[i] == fields[i];
    } else {
      MergedNamesProperties(fields[k].requiresFields, g.requiresFields);
      assert forall i :: 0 <= i < |fields| ==> SameField(f, r[i]) == SameField(f, fields[i]);
      assert SameField(f, g) ==> SameField(f, r[k]);
    }
  }

  /** Per field, the required names are the union of both inputs, and no field is invented. */
  lemma {:induction false} MergeIsUnion(fields: seq<Field>, required: seq<Field>, f: Field, name: string)
    ensures Requires(MergedAll(fields, required), f, name) <==>
            Requires(fields, f, name) || Requires(required, f, name)
    ensures Mentions(MergedAll(fields, required), f) <==> Mentions(fields, f) || Mentions(required, f)
    decreases required
  {
    if required != [] {
      var g, rest := required[0], required[1..];
      UnionOne(fields, g, f, name);
      MergeIsUnion(MergedOne(fields, g), rest, f, name);
      assert forall i :: 0 <= i < |rest| ==> rest[i] == required[i + 1];
      if Requires(required, f, name) && !(SameField(f, g) && name in g.requiresFields) {
        var i :| 0 <= i < |required| && SameField(f, required[i]) && name in required[i].requiresFields;
        assert rest[i - 1] == required[i];
      }
      if Mentions(required, f) && !SameField(f, g) {
        var i :| 0 <= i < |required| && SameField(f, required[i]);
        assert rest[i - 1] == required[i];
      }
    }
  }

  predicate DistinctFields(fields: seq<Field>) {
    forall i, j :: 0 <= i < j < |fields| ==>
      fields[i].typeName != fields[j].typeName || fields[i].fieldName != fields[j].fieldName
  }

  predicate DistinctNames(fields: seq<Field>) {
    forall i :: 0 <= i < |fields| ==> Distinct(fields[i].requiresFields)
  }

  /** No duplicate field appears, and no duplicate name when the inputs have none. */
  lemma {:induction false} MergeKeepsDistinct(fields: seq<Field>, required: seq<Field>)
    ensures DistinctFields(fields) ==> DistinctFields(MergedAll(fields, required))
    ensures DistinctNames(fields) && DistinctNames(required) ==> DistinctNames(MergedAll(fields, required))
    decreases required
  {
    if required != [] {
      var f := required[0];
      var i := FirstFor(fields, f);
      if i < |fields| {
        MergedNamesProperties(fields[i].requiresFields, f.requiresFields);
      }
      MergeKeepsDistinct(MergedOne(fields, f), required[1..]);
    }
  }

  /** Merging `f` again would change nothing. */
  ghost predicate Absorbed(fields: seq<Field>, f: Field) {
    var i := FirstFor(fields, f);
    i < |fields| && forall n :: n in f.requiresFields ==> n in fields[i].requiresFields
  }

  lemma AbsorbedOne(fields: seq<Field>, f: Field)
    ensures Absorbed(MergedOne(fields, f), f)
  {
    var i, r := FirstFor(fields, f), MergedOne(fields, f);
    if i < |fields| {
      MergedNamesProperties(fields[i].requiresFields, f.requiresFields);
      assert SameField(f, r[i]) && forall j :: 0 <= j < i ==> !SameField(f, r[j]);
    } else {
      assert SameField(f, r[i]);
    }
    assert FirstFor(r, f) == i;
  }

  lemma AbsorbedStays(fields: seq<Field>, r: seq<Field>, f: Field)
    requires Absorbed(fields, f) && Extends(fields, r)
    ensures Absorbed(r, f)
  {
    var i := FirstFor(fields, f);
    assert forall j :: 0 <= j <= i ==> SameField(f, r[j]) == SameField(f, fields[j]);
    assert FirstFor(r, f) == i;
  }

  lemma {:induction false} MergeAbsorbs(fields: seq<Field>, required: seq<Field>, f: Field)
    requires f in required
    ensures Absorbed(MergedAll(fields, required), f)
    decreases required
  {
    if f == required[0] {
      AbsorbedOne(fields, f);
      MergeExtends(MergedOne(fields, f), required[1..]);
      AbsorbedStays(MergedOne(fields, f), MergedAll(fields, required), f);
    } else {
      MergeAbsorbs(MergedOne(fields, required[0]), required[1..], f);
    }
  }

  lemma {:induction false} AbsorbedUnchanged(fields: seq<Field>, required: seq<Field>)
    requires forall f :: f in required ==> Absorbed(fields, f)
    ensures MergedAll(fields, required) == fields
    decreases required
  {
    if required != [] {
      var f := required[0];
      assert f in required;
      var i := FirstFor(fields, f);
      MergedNamesProperties(fields[i].requiresFields, f.requiresFields);
      assert MergedOne(fields, f) == fields;
      AbsorbedUnchanged(fields, required[1..]);
    }
  }

  /** Merging the same requirements twice is merging them once. */
  lemma MergeIdempotent(fields: seq<Field>, required: seq<Field>)
    ensures MergedAll(MergedAll(fields, required), required) == MergedAll(fields, required)
  {
    forall f | f in required ensures Absorbed(MergedAll(fields, required), f) {
      MergeAbsorbs(fields, required, f);
    }
    AbsorbedUnchanged(MergedAll(fields, required), required);
  }

  // The code

  method MergeNames(names: seq<string>, add: seq<string>) returns (r: seq<string>)
    ensures r == MergedNames(names, add)
  {
    r := names;
    for i := 0 to |add|
      invariant MergedNames(r, add[i..]) == MergedNames(names, add)
    {
      assert add[i..][0] == add[i] && add[i..][1..] == add[i + 1..];
      var found := false;
      for j := 0 to |r|
        invariant found <==> add[i] in r[..j]
      {
        if r[j] == add[i] {
          found := true;
          assert add[i] in r[..j + 1];
        }
      }
      assert r[..|r|] == r;
      if !found {
        r := r + [add[i]];
      }
    }
  }

  method MergeRequiredFields(fields: seq<Field>, fieldsRequired: seq<Field>) returns (r: seq<Field>)
    ensures r == MergedAll(fields, fieldsRequired)
  {
    r := fields;
    for n := 0 to |fieldsRequired|
      invariant MergedAll(r, fieldsRequired[n..]) == MergedAll(fields, fieldsRequired)
    {
      assert fieldsRequired[n..][0] == fieldsRequired[n] && fieldsRequired[n..][1..] == fieldsRequired[n + 1..];
      r := MergeField(r, fieldsRequired[n]);
    }
  }

  /** The body of the outer loop. */
  method MergeField(fields: seq<Field>, required: Field) returns (r: seq<Field>)
    ensures r == MergedOne(fields, required)
  {
    for i := 0 to |fields|
      invariant forall j :: 0 <= j < i ==> !SameField(required, fields[j])
    {
      if SameField(required, fields[i]) {
        assert i == FirstFor(fields, required);
        var names := MergeNames(fields[i].requiresFields, required.requiresFields);
        return fields[i := fields[i].(requiresFields := names)];
      }
    }
    assert |fields| == FirstFor(fields, required);
    return fields + [required];
  }
}
