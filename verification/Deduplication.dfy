/** Duplicate removal: the recursive restart-and-shift of the manifest, and the single passes of
    the node, compute the same list. */
module Deduplication {
  import opened Lists

  /** The first occurrence of each element, in order, of those not in `seen`. */
  function FirstOccurrences(s: seq<string>, seen: set<string>): seq<string>
    decreases s
  {
    if s == [] then []
    else if s[0] in seen then FirstOccurrences(s[1..], seen)
    else [s[0]] + FirstOccurrences(s[1..], seen + {s[0]})
  }

  function Unique(s: seq<string>): seq<string> {
    FirstOccurrences(s, {})
  }

  // What the list of first occurrences is

  lemma {:induction false} FirstOccurrencesProperties(s: seq<string>, seen: set<string>)
    ensures var r := FirstOccurrences(s, seen);
      && Distinct(r)
      && Elements(r) == Elements(s) - seen
      && |r| <= |s|
      && (|r| == |s| <==> Distinct(s) && Elements(s) !! seen)
      && (|r| == |s| ==> r == s)
    decreases s
  {
    if s != [] {
      var seen' := seen + {s[0]};
      FirstOccurrencesProperties(s[1..], if s[0] in seen then seen else seen');
      assert s == [s[0]] + s[1..];
      assert Elements(s) == {s[0]} + Elements(s[1..]);
      if s[0] !in seen {
        var r := FirstOccurrences(s[1..], seen');
        assert forall x :: x in r ==> x in Elements(r);
        assert Elements([s[0]] + r) == {s[0]} + Elements(r);
        DistinctCons(s);
        assert s[0] in Elements(s[1..]) <==> s[0] in s[1..];
      } else {
        assert s[0] in Elements(s);
      }
    }
  }

  lemma DistinctCons(s: seq<string>)
    requires s != []
    ensures Distinct(s) <==> s[0] !in s[1..] && Distinct(s[1..])
  {
    assert forall i :: 0 <= i < |s[1..]| ==> s[1..][i] == s[i + 1];
    if s[0] !in s[1..] && Distinct(s[1..]) {
      forall i, j | 0 <= i < j < |s| ensures s[i] != s[j] {
        assert s[j] == s[1..][j - 1];
      }
    }
  }

  lemma {:induction false} FirstOccurrencesAppend(a: seq<string>, b: seq<string>, seen: set<string>)
    ensures FirstOccurrences(a + b, seen) == FirstOccurrences(a, seen) + FirstOccurrences(b, seen + Elements(a))
    decreases a
  {
    if a == [] {
      assert a + b == b && seen + Elements(a) == seen;
    } else {
      assert (a + b)[0] == a[0] && (a + b)[1..] == a[1..] + b;
      assert Elements(a) == {a[0]} + Elements(a[1..]) by {
        assert a == [a[0]] + a[1..];
      }
      if a[0] in seen {
        FirstOccurrencesAppend(a[1..], b, seen);
        assert seen + Elements(a) == seen + Elements(a[1..]);
      } else {
        FirstOccurrencesAppend(a[1..], b, seen + {a[0]});
        assert seen + {a[0]} + Elements(a[1..]) == seen + Elements(a);
      }
    }
  }

  lemma ElementsAppend(a: seq<string>, b: seq<string>)
    ensures Elements(a + b) == Elements(a) + Elements(b)
  {
  }

  /** Dropping an element that occurs before changes nothing. */
  lemma DropLater(s: seq<string>, j: nat)
    requires j < |s| && s[j] in s[..j]
    ensures Unique(s[..j] + s[j + 1..]) == Unique(s)
  {
    var a, b := s[..j], s[j + 1..];
    assert s == a + ([s[j]] + b);
    FirstOccurrencesAppend(a, b, {});
    FirstOccurrencesAppend(a, [s[j]] + b, {});
    assert s[j] in Elements(a);
    assert ([s[j]] + b)[1..] == b;
  }

  /** One more element at the end. */
  lemma UniqueSnoc(before: seq<string>, x: string)
    ensures Unique(before + [x]) == if x in before then Unique(before) else Unique(before) + [x]
    ensures x in Unique(before) <==> x in before
  {
    FirstOccurrencesAppend(before, [x], {});
    FirstOccurrencesProperties(before, {});
    assert [x][1..] == [];
    assert x in before <==> x in Elements(before);
    assert x in Unique(before) <==> x in Elements(Unique(before));
  }

  // The code

  /** `uniqueStrings` */
  method UniqueStrings(slice: seq<string>) returns (list: seq<string>)
    ensures list == Unique(slice)
  {
    var keys: set<string> := {};
    list := [];
    for i := 0 to |slice|
      invariant keys == Elements(slice[..i])
      invariant list == Unique(slice[..i])
    {
      assert slice[..i + 1] == slice[..i] + [slice[i]];
      UniqueSnoc(slice[..i], slice[i]);
      assert slice[i] in keys <==> slice[i] in slice[..i];
      ElementsAppend(slice[..i], [slice[i]]);
      if slice[i] !in keys {
        keys := keys + {slice[i]};
        list := list + [slice[i]];
      }
    }
    assert slice[..|slice|] == slice;
  }

  function NonEmpty(hosts: seq<string>): seq<string> {
    if hosts == [] then []
    else (if hosts[0] == "" then [] else [hosts[0]]) + NonEmpty(hosts[1..])
  }

  lemma {:induction false} NonEmptyAppend(a: seq<string>, b: seq<string>)
    ensures NonEmpty(a + b) == NonEmpty(a) + NonEmpty(b)
  {
    if a == [] {
      assert a + b == b;
    } else {
      assert (a + b)[0] == a[0] && (a + b)[1..] == a[1..] + b;
      NonEmptyAppend(a[1..], b);
    }
  }

  /** Filtering afterwards is never taking the empty string in the first place. */
  lemma {:induction false} NonEmptyFirstOccurrences(s: seq<string>, seen: set<string>)
    ensures NonEmpty(FirstOccurrences(s, seen)) == FirstOccurrences(s, seen + {""})
    decreases s
  {
    if s != [] {
      NonEmptyFirstOccurrences(s[1..], seen);
      NonEmptyFirstOccurrences(s[1..], seen + {s[0]});
      assert seen + {s[0]} + {""} == seen + {""} + {s[0]};
      assert s[0] == "" ==> seen + {s[0]} + {""} == seen + {""};
      var rest := FirstOccurrences(s[1..], seen + {s[0]});
      assert ([s[0]] + rest)[1..] == rest;
    }
  }

  /** `filterHosts`: each host once, in order of appearance with the primary host first, and
      never the empty one. */
  method FilterHosts(primaryHost: string, apiHosts: seq<string>) returns (filtered: seq<string>)
    ensures filtered == FirstOccurrences([primaryHost] + apiHosts, {""})
  {
    var hosts := [primaryHost];
    ghost var all := [primaryHost] + apiHosts;
    UniqueSnoc([], primaryHost);
    assert all[..1] == [] + [primaryHost] && Unique([]) + [primaryHost] == [primaryHost];
    for i := 0 to |apiHosts|
      invariant hosts == Unique(all[..i + 1])
    {
      assert all[..i + 2] == all[..i + 1] + [apiHosts[i]];
      hosts := AddHost(hosts, apiHosts[i], all[..i + 1]);
    }
    assert all[..|all|] == all;
    NonEmptyFirstOccurrences(all, {});
    assert {} + {""} == {""};
    filtered := [];
    for i := 0 to |hosts|
      invariant filtered == NonEmpty(hosts[..i])
    {
      assert hosts[..i + 1] == hosts[..i] + [hosts[i]];
      NonEmptyAppend(hosts[..i], [hosts[i]]);
      if hosts[i] != "" {
        filtered := filtered + [hosts[i]];
      }
    }
    assert hosts[..|hosts|] == hosts;
  }

  method AddHost(hosts: seq<string>, host: string, ghost before: seq<string>) returns (r: seq<string>)
    requires hosts == Unique(before)
    ensures r == Unique(before + [host])
  {
    UniqueSnoc(before, host);
    for j := 0 to |hosts|
      invariant host !in hosts[..j]
    {
      if hosts[j] == host {
        return hosts;
      }
    }
    assert hosts[..|hosts|] == hosts;
    return hosts + [host];
  }
}
