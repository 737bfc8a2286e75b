/** Grouping of API dependencies by organization, for the integrations file. */
module Integrations {
  import opened Wrappers
  import opened Lists
  import opened Deduplication

  /** A resolved dependency; `json` is what `json.Marshal` makes of it, if it succeeds. */
  datatype Dependency = Dependency(organization: string, name: string, optional: seq<bool>, json: Option<string>)

  datatype Api = Api(
    name: string, hasVariables: bool, variablesAreOptional: bool, dependency: Dependency, rawConfig: string)

  datatype Organization = Organization(name: string, apis: seq<Api>)

  predicate AllOptional(optional: seq<bool>) {
    forall i :: 0 <= i < |optional| ==> optional[i]
  }

  function ApiOf(d: Dependency): Api
    requires d.json.Some?
  {
    Api(d.name, |d.optional| > 0, AllOptional(d.optional), d, d.json.value)
  }

  // The grouping, organization by organization

  /** The organizations of the dependencies that can be marshalled, one entry each. */
  function Names(ds: seq<Dependency>): seq<string> {
    if ds == [] then []
    else (if ds[0].json.Some? then [ds[0].organization] else []) + Names(ds[1..])
  }

  /** The APIs of one organization, in the order of the dependencies. */
  function ApisOf(ds: seq<Dependency>, name: string): seq<Api> {
    if ds == [] then []
    else (if ds[0].json.Some? && ds[0].organization == name then [ApiOf(ds[0])] else []) + ApisOf(ds[1..], name)
  }

  function GroupsFor(ds: seq<Dependency>, names: seq<string>): (r: seq<Organization>)
    ensures |r| == |names|
    ensures forall i :: 0 <= i < |r| ==> r[i] == Organization(names[i], ApisOf(ds, names[i]))
  {
    seq(|names|, i requires 0 <= i < |names| => Organization(names[i], ApisOf(ds, names[i])))
  }

  /** The organizations in the order in which they first appear, each with all its APIs. */
  function Grouped(ds: seq<Dependency>): seq<Organization> {
    GroupsFor(ds, Unique(Names(ds)))
  }

  lemma {:induction false} NamesSnoc(ds: seq<Dependency>, d: Dependency)
    ensures Names(ds + [d]) == Names(ds) + if d.json.Some? then [d.organization] else []
  {
    if ds == [] {
      assert ds + [d] == [d];
    } else {
      assert (ds + [d])[0] == ds[0] && (ds + [d])[1..] == ds[1..] + [d];
      NamesSnoc(ds[1..], d);
    }
  }

  lemma {:induction false} ApisSnoc(ds: seq<Dependency>, d: Dependency, name: string)
    ensures ApisOf(ds + [d], name) ==
      ApisOf(ds, name) + if d.json.Some? && d.organization == name then [ApiOf(d)] else []
  {
    if ds == [] {
      assert ds + [d] == [d];
    } else {
      assert (ds + [d])[0] == ds[0] && (ds + [d])[1..] == ds[1..] + [d];
      ApisSnoc(ds[1..], d, name);
    }
  }

  lemma {:induction false} NoApis(ds: seq<Dependency>, name: string)
    ensures ApisOf(ds, name) == [] <==> name !in Names(ds)
  {
    if ds != [] {
      NoApis(ds[1..], name);
    }
  }

  lemma GroupedDistinct(ds: seq<Dependency>)
    ensures forall i, j :: 0 <= i < j < |Grouped(ds)| ==> Grouped(ds)[i].name != Grouped(ds)[j].name
    ensures forall i :: 0 <= i < |Grouped(ds)| ==> Grouped(ds)[i].apis != []
  {
    FirstOccurrencesProperties(Names(ds), {});
    forall i | 0 <= i < |Grouped(ds)| ensures Grouped(ds)[i].apis != [] {
      var name := Unique(Names(ds))[i];
      assert name in Elements(Unique(Names(ds)));
      NoApis(ds, name);
    }
  }

  function ApiCount(groups: seq<Organization>): nat {
    if groups == [] then 0 else |groups[0].apis| + ApiCount(groups[1..])
  }

  function Grown(groups: seq<Organization>, i: nat, api: Api): seq<Organization>
    requires i < |groups|
  {
    groups[i := groups[i].(apis := groups[i].apis + [api])]
  }

  lemma {:induction false} GrownCount(groups: seq<Organization>, i: nat, api: Api)
    requires i < |groups|
    ensures ApiCount(Grown(groups, i, api)) == ApiCount(groups) + 1
  {
    if i > 0 {
      assert Grown(groups, i, api)[1..] == Grown(groups[1..], i - 1, api);
      GrownCount(groups[1..], i - 1, api);
    } else {
      assert Grown(groups, i, api)[1..] == groups[1..];
    }
  }

  lemma {:induction false} CountSnoc(groups: seq<Organization>, o: Organization)
    ensures ApiCount(groups + [o]) == ApiCount(groups) + |o.apis|
  {
    if groups == [] {
      assert groups + [o] == [o];
    } else {
      assert (groups + [o])[0] == groups[0] && (groups + [o])[1..] == groups[1..] + [o];
      CountSnoc(groups[1..], o);
    }
  }

  // One more dependency: ignored, or in a new organization, or behind the APIs of its own.

  lemma GroupedIgnores(ds: seq<Dependency>, d: Dependency)
    requires d.json.None?
    ensures Grouped(ds + [d]) == Grouped(ds)
  {
    NamesSnoc(ds, d);
    assert Names(ds) + [] == Names(ds);
    GroupsUntouched(ds, d, Unique(Names(ds)));
  }

  lemma GroupedOpens(ds: seq<Dependency>, d: Dependency)
    requires d.json.Some? && d.organization !in Unique(Names(ds))
    ensures Grouped(ds + [d]) == Grouped(ds) + [Organization(d.organization, [ApiOf(d)])]
  {
    var names := Unique(Names(ds));
    NamesSnoc(ds, d);
    UniqueSnoc(Names(ds), d.organization);
    GroupsUntouched(ds, d, names);
    NoApis(ds, d.organization);
    ApisSnoc(ds, d, d.organization);
    assert ApisOf(ds, d.organization) == [] && [] + [ApiOf(d)] == [ApiOf(d)];
    assert ApisOf(ds + [d], d.organization) == [ApiOf(d)];
    assert GroupsFor(ds + [d], names + [d.organization])
        == GroupsFor(ds + [d], names) + [Organization(d.organization, ApisOf(ds + [d], d.organization))];
  }

  lemma GroupedGrows(ds: seq<Dependency>, d: Dependency, i: nat)
    requires d.json.Some? && i < |Grouped(ds)| && Grouped(ds)[i].name == d.organization
    ensures Grouped(ds + [d]) == Grown(Grouped(ds), i, ApiOf(d))
  {
    var names := Unique(Names(ds));
    NamesSnoc(ds, d);
    UniqueSnoc(Names(ds), d.organization);
    FirstOccurrencesProperties(Names(ds), {});
    assert names[i] in names;
    GroupsGrown(ds, d, names, i);
  }

  lemma GroupsUntouched(ds: seq<Dependency>, d: Dependency, names: seq<string>)
    requires d.json.None? || d.organization !in names
    ensures GroupsFor(ds + [d], names) == GroupsFor(ds, names)
  {
    forall k | 0 <= k < |names| ensures GroupsFor(ds + [d], names)[k] == GroupsFor(ds, names)[k] {
      ApisSnoc(ds, d, names[k]);
      assert names[k] in names;
    }
  }

  lemma GroupsGrown(ds: seq<Dependency>, d: Dependency, names: seq<string>, i: nat)
    requires d.json.Some? && Distinct(names) && i < |names| && names[i] == d.organization
    ensures GroupsFor(ds + [d], names) == Grown(GroupsFor(ds, names), i, ApiOf(d))
  {
    forall k | 0 <= k < |names|
      ensures GroupsFor(ds + [d], names)[k] == Grown(GroupsFor(ds, names), i, ApiOf(d))[k]
    {
      ApisSnoc(ds, d, names[k]);
      assert k < i ==> names[k] != names[i];
      assert k > i ==> names[i] != names[k];
    }
  }

  /** Nothing is lost or repeated: there are as many APIs as dependencies that can be marshalled. */
  lemma {:induction false} GroupedLossFree(ds: seq<Dependency>)
    ensures ApiCount(Grouped(ds)) == |Names(ds)|
  {
    if ds != [] {
      var init, d := ds[..|ds| - 1], ds[|ds| - 1];
      assert ds == init + [d];
      GroupedLossFree(init);
      NamesSnoc(init, d);
      if d.json.None? {
        GroupedIgnores(init, d);
      } else if d.organization in Unique(Names(init)) {
        var i :| 0 <= i < |Unique(Names(init))| && Unique(Names(init))[i] == d.organization;
        GroupedGrows(init, d, i);
        GrownCount(Grouped(init), i, ApiOf(d));
      } else {
        GroupedOpens(init, d);
        CountSnoc(Grouped(init), Organization(d.organization, [ApiOf(d)]));
      }
    }
  }

  /** What the file says of each API: its dependency, which is one of this organization, and of that
      the name, the marshalled form, whether there are variables, and whether all are optional. */
  lemma GroupedDescribes(ds: seq<Dependency>, o: Organization, a: Api)
    requires o in Grouped(ds) && a in o.apis
    ensures var d := a.dependency;
      && d in ds && d.organization == o.name
      && a.name == d.name && d.json == Some(a.rawConfig)
      && (a.hasVariables <==> d.optional != [])
      && (a.variablesAreOptional <==> forall k :: 0 <= k < |d.optional| ==> d.optional[k])
  {
    ApisDescribe(ds, o.name, a);
  }

  lemma {:induction false} ApisDescribe(ds: seq<Dependency>, name: string, a: Api)
    requires a in ApisOf(ds, name)
    ensures a.dependency in ds && a.dependency.organization == name
    ensures a.dependency.json.Some? && a == ApiOf(a.dependency)
  {
    if a in ApisOf(ds[1..], name) {
      ApisDescribe(ds[1..], name, a);
    }
  }

  /** The APIs of an organization are its marshalled dependencies, each one once and in their order. */
  lemma {:induction false} ApisAreStable(ds: seq<Dependency>, name: string) returns (places: seq<nat>)
    ensures |places| == |ApisOf(ds, name)|
    ensures forall j :: 0 <= j < |places| ==>
      places[j] < |ds| && ApisOf(ds, name)[j].dependency == ds[places[j]]
    ensures forall j, k :: 0 <= j < k < |places| ==> places[j] < places[k]
    ensures forall i :: 0 <= i < |ds| ==> (i in places <==> ds[i].json.Some? && ds[i].organization == name)
  {
    places := [];
    if ds != [] {
      var n := |ds| - 1;
      var init, d := ds[..n], ds[n];
      assert ds == init + [d];
      ApisSnoc(init, d, name);
      places := ApisAreStable(init, name);
      if d.json.Some? && d.organization == name {
        places := places + [n];
      }
    }
  }

  // The code

  method VariablesAreOptional(optional: seq<bool>) returns (r: bool)
    ensures r == AllOptional(optional)
  {
    for i := 0 to |optional|
      invariant forall k :: 0 <= k < i ==> optional[k]
    {
      if !optional[i] {
        return false;
      }
    }
    return true;
  }

  /** The grouping loop of `renderIntegrations`. */
  method Group(dependencies: seq<Dependency>) returns (organizations: seq<Organization>)
    ensures organizations == Grouped(dependencies)
  {
    organizations := [];
    for n := 0 to |dependencies|
      invariant organizations == Grouped(dependencies[..n])
    {
      var d := dependencies[n];
      assert dependencies[..n + 1] == dependencies[..n] + [d];
      var variablesAreOptional := VariablesAreOptional(d.optional);
      if d.json.Some? {
        var api := Api(d.name, |d.optional| > 0, variablesAreOptional, d, d.json.value);
        organizations := AddApi(organizations, d, api, dependencies[..n]);
      } else {
        GroupedIgnores(dependencies[..n], d);
      }
    }
    assert dependencies[..|dependencies|] == dependencies;
  }

  method AddApi(organizations: seq<Organization>, d: Dependency, api: Api, ghost before: seq<Dependency>)
    returns (r: seq<Organization>)
    requires d.json.Some? && api == ApiOf(d) && organizations == Grouped(before)
    ensures r == Grouped(before + [d])
  {
    for i := 0 to |organizations|
      invariant forall k :: 0 <= k < i ==> organizations[k].name != d.organization
    {
      if organizations[i].name == d.organization {
        GroupedGrows(before, d, i);
        return organizations[i := organizations[i].(apis := organizations[i].apis + [api])];
      }
    }
    assert forall k :: 0 <= k < |organizations| ==> organizations[k].name == Unique(Names(before))[k];
    GroupedOpens(before, d);
    return organizations + [Organization(d.organization, [api])];
  }
}
