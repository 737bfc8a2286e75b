/** The manifest of API dependencies and the grouping of its integrations. */
module Manifests {
  import opened Wrappers
  import opened Lists
  import opened Deduplication

  /** wundergraph.manifest.json: a file without the member leaves the list alone. */
  datatype File = Missing | Unreadable | Text(dependencies: Option<seq<string>>)

  /** The list after `json.Unmarshal` into a manifest that holds `current`. */
  function Loaded(file: File, current: seq<string>): seq<string> {
    if file.Text? && file.dependencies.Some? then file.dependencies.value else current
  }

  function RemovedOne(s: seq<string>, x: string): seq<string> {
    if s == [] then []
    else if s[0] == x then s[1..]
    else [s[0]] + RemovedOne(s[1..], x)
  }

  function RemovedAll(s: seq<string>, xs: seq<string>): seq<string>
    decreases xs
  {
    if xs == [] then s else RemovedAll(RemovedOne(s, xs[0]), xs[1..])
  }

  /** `s` without the members of `xs`. */
  function Without(s: seq<string>, xs: set<string>): seq<string> {
    if s == [] then []
    else if s[0] in xs then Without(s[1..], xs)
    else [s[0]] + Without(s[1..], xs)
  }

  class Manifest {
    var dependencies: seq<string>
    var hasChanges: bool
    var file: File

    constructor (file: File)
      ensures dependencies == [] && !hasChanges && this.file == file
    {
      dependencies, hasChanges := [], false;
      this.file := file;
    }

    /** `removeDuplicates`: delete one duplicate, then start again. */
    method RemoveDuplicates()
      modifies this`dependencies, this`hasChanges
      ensures dependencies == Unique(old(dependencies))
      ensures hasChanges == (old(hasChanges) || !Distinct(old(dependencies)))
      decreases |dependencies|
    {
      for i := 0 to |dependencies|
        invariant dependencies == old(dependencies) && hasChanges == old(hasChanges)
        invariant forall k, l :: 0 <= k < i && 0 <= l < |dependencies| && k != l ==> dependencies[k] != dependencies[l]
      {
        for j := 0 to |dependencies|
          invariant dependencies == old(dependencies) && hasChanges == old(hasChanges)
          invariant forall l :: 0 <= l < j && l != i ==> dependencies[i] != dependencies[l]
        {
          if i != j && dependencies[i] == dependencies[j] {
            assert i < j;
            assert dependencies[j] == dependencies[..j][i];
            DropLater(dependencies, j);
            hasChanges := true;
            dependencies := dependencies[..j] + dependencies[j + 1..];
            RemoveDuplicates();
            return;
          }
        }
      }
      FirstOccurrencesProperties(dependencies, {});
      assert Distinct(dependencies);
    }

    /** `Load` */
    method Load() returns (ok: bool)
      modifies this`dependencies, this`hasChanges
      ensures ok <==> !file.Unreadable?
      ensures !file.Text? ==> dependencies == old(dependencies) && hasChanges == old(hasChanges)
      ensures file.Text? && file.dependencies.Some? ==>
        && dependencies == Unique(file.dependencies.value)
        && hasChanges == (old(hasChanges) || !Distinct(file.dependencies.value))
      ensures file == Text(None) ==>
        && dependencies == Unique(old(dependencies))
        && hasChanges == (old(hasChanges) || !Distinct(old(dependencies)))
    {
      match file {
        case Missing => return true;
        case Unreadable => return false;
        case Text(read) =>
          if read.Some? {
            dependencies := read.value;
          }
          RemoveDuplicates();
          return true;
      }
    }

    method PersistChanges()
      modifies this`file
      ensures file == if hasChanges then Text(Some(dependencies)) else old(file)
    {
      if hasChanges {
        file := Text(Some(dependencies));
      }
    }

    method AddDependencies(added: seq<string>) returns (ok: bool)
      modifies this`dependencies, this`hasChanges
      ensures ok <==> !file.Unreadable?
      ensures ok ==> hasChanges && dependencies == Unique(Loaded(file, old(dependencies)) + added)
      ensures !ok ==> dependencies == old(dependencies) && hasChanges == old(hasChanges)
    {
      ok := Load();
      if !ok {
        return;
      }
      UniqueTwice(Loaded(file, old(dependencies)), added);
      dependencies := dependencies + added;
      RemoveDuplicates();
      hasChanges := true;
    }

    method RemoveDependencies(removed: seq<string>) returns (ok: bool)
      modifies this`dependencies, this`hasChanges
      ensures ok <==> !file.Unreadable?
      ensures file.Missing? ==> dependencies == RemovedAll(old(dependencies), removed)
      ensures file.Text? ==> dependencies == RemovedAll(Unique(Loaded(file, old(dependencies))), removed)
      ensures !ok ==> dependencies == old(dependencies)
      ensures hasChanges <==>
        || old(hasChanges)
        || (ok && !(Elements(removed) !! Elements(Loaded(file, old(dependencies)))))
        || (file.Text? && !Distinct(Loaded(file, old(dependencies))))
    {
      ok := Load();
      if !ok {
        return;
      }
      ghost var loaded, had := dependencies, hasChanges;
      for n := 0 to |removed|
        invariant RemovedAll(dependencies, removed[n..]) == RemovedAll(loaded, removed)
        invariant hasChanges == (had || !(Elements(removed[..n]) !! Elements(loaded)))
        invariant !(Elements(removed[..n]) !! Elements(loaded)) || dependencies == loaded
      {
        assert removed[n..][0] == removed[n] && removed[n..][1..] == removed[n + 1..];
        assert Elements(removed[..n + 1]) == Elements(removed[..n]) + {removed[n]};
        RemoveFirst(removed[n]);
      }
      assert removed[..|removed|] == removed;
      FirstOccurrencesProperties(Loaded(file, old(dependencies)), {});
    }

    /** The inner loop of `RemoveDependencies`. */
    method RemoveFirst(dependency: string)
      modifies this`dependencies, this`hasChanges
      ensures dependencies == RemovedOne(old(dependencies), dependency)
      ensures hasChanges == (old(hasChanges) || dependency in old(dependencies))
      ensures dependency !in old(dependencies) ==> dependencies == old(dependencies)
    {
      for i := 0 to |dependencies|
        invariant dependencies == old(dependencies) && hasChanges == old(hasChanges)
        invariant dependency !in dependencies[..i]
      {
        if dependencies[i] == dependency {
          RemovedAt(dependencies, i);
          dependencies := dependencies[..i] + dependencies[i + 1..];
          hasChanges := true;
          return;
        }
      }
      assert dependencies[..|dependencies|] == dependencies;
      RemovedAbsent(dependencies, dependency);
    }

    /** Adding, saving and removing again, as two commands would. */
    method AddAndRemove(names: seq<string>) returns (ok: bool)
      modifies this
      ensures ok <==> !old(file).Unreadable?
      ensures ok ==> (dependencies == Unique(Loaded(old(file), old(dependencies)))
        <==> Elements(names) !! Elements(Loaded(old(file), old(dependencies))))
    {
      ghost var before := Loaded(file, dependencies);
      ok := AddDependencies(names);
      if !ok {
        return;
      }
      PersistChanges();
      ghost var saved := dependencies;
      FirstOccurrencesProperties(before + names, {});
      FirstOccurrencesProperties(saved, {});
      ok := RemoveDependencies(names);
      AddThenRemoveExact(before, names);
    }
  }

  lemma UniqueTwice(a: seq<string>, b: seq<string>)
    ensures Unique(Unique(a) + b) == Unique(a + b)
  {
    FirstOccurrencesProperties(a, {});
    FirstOccurrencesProperties(Unique(a), {});
    assert Unique(Unique(a)) == Unique(a);
    assert {} + Elements(Unique(a)) == {} + Elements(a);
    FirstOccurrencesAppend(Unique(a), b, {});
    FirstOccurrencesAppend(a, b, {});
  }

  lemma {:induction false} RemovedAt(s: seq<string>, i: nat)
    requires i < |s| && s[i] !in s[..i]
    ensures RemovedOne(s, s[i]) == s[..i] + s[i + 1..]
  {
    if i > 0 {
      assert s[..i] == [s[0]] + s[1..][..i - 1];
      RemovedAt(s[1..], i - 1);
    }
  }

  lemma {:induction false} RemovedAbsent(s: seq<string>, x: string)
    requires x !in s
    ensures RemovedOne(s, x) == s
  {
    if s != [] {
      RemovedAbsent(s[1..], x);
    }
  }

  // Adding and removing

  lemma {:induction false} WithoutProperties(s: seq<string>, xs: set<string>)
    ensures Distinct(s) ==> Distinct(Without(s, xs))
    ensures Elements(Without(s, xs)) == Elements(s) - xs
    ensures Without(s, xs) == s <==> Elements(s) !! xs
    ensures |Without(s, xs)| <= |s|
  {
    if s != [] {
      WithoutProperties(s[1..], xs);
      DistinctCons(s);
      assert s == [s[0]] + s[1..];
      ElementsAppend([s[0]], s[1..]);
      var rest := Without(s[1..], xs);
      assert s[0] in Elements(rest) <==> s[0] in rest;
      assert s[0] in Elements(s[1..]) <==> s[0] in s[1..];
      if s[0] !in xs {
        assert ([s[0]] + rest)[1..] == rest;
        DistinctCons([s[0]] + rest);
        ElementsAppend([s[0]], rest);
      }
    }
  }

  lemma {:induction false} RemovedOneIsWithout(s: seq<string>, x: string)
    requires Distinct(s)
    ensures RemovedOne(s, x) == Without(s, {x})
  {
    if s != [] {
      DistinctCons(s);
      RemovedOneIsWithout(s[1..], x);
      if s[0] == x {
        RemovedAbsent(s[1..], x);
      }
    }
  }

  lemma {:induction false} WithoutTwice(s: seq<string>, a: set<string>, b: set<string>)
    ensures Without(Without(s, a), b) == Without(s, a + b)
  {
    if s != [] {
      WithoutTwice(s[1..], a, b);
      assert ([s[0]] + Without(s[1..], a))[1..] == Without(s[1..], a);
    }
  }

  /** On a list without duplicates, removing the first occurrence of each is removing all. */
  lemma {:induction false} RemovedAllIsWithout(s: seq<string>, xs: seq<string>)
    requires Distinct(s)
    ensures RemovedAll(s, xs) == Without(s, Elements(xs))
    decreases xs
  {
    if xs == [] {
      assert Elements(xs) == {};
      WithoutProperties(s, {});
    } else {
      RemovedOneIsWithout(s, xs[0]);
      WithoutProperties(s, {xs[0]});
      RemovedAllIsWithout(Without(s, {xs[0]}), xs[1..]);
      WithoutTwice(s, {xs[0]}, Elements(xs[1..]));
      assert xs == [xs[0]] + xs[1..];
      ElementsAppend([xs[0]], xs[1..]);
      assert Elements([xs[0]]) == {xs[0]};
    }
  }

  lemma {:induction false} WithoutAppend(a: seq<string>, b: seq<string>, xs: set<string>)
    ensures Without(a + b, xs) == Without(a, xs) + Without(b, xs)
  {
    if a == [] {
      assert a + b == b;
    } else {
      assert (a + b)[0] == a[0] && (a + b)[1..] == a[1..] + b;
      WithoutAppend(a[1..], b, xs);
    }
  }

  /** Removing what was added restores the original list (without its duplicates), exactly when
      none of it was there before. */
  lemma AddThenRemoveExact(before: seq<string>, names: seq<string>)
    ensures RemovedAll(Unique(before + names), names) == Unique(before) <==> Elements(names) !! Elements(before)
  {
    var added := FirstOccurrences(names, {} + Elements(before));
    FirstOccurrencesProperties(before + names, {});
    FirstOccurrencesProperties(before, {});
    FirstOccurrencesProperties(names, {} + Elements(before));
    FirstOccurrencesAppend(before, names, {});
    RemovedAllIsWithout(Unique(before + names), names);
    WithoutAppend(Unique(before), added, Elements(names));
    WithoutProperties(added, Elements(names));
    assert Elements(added) <= Elements(names);
    NoElements(Without(added, Elements(names)));
    WithoutProperties(Unique(before), Elements(names));
  }
}
