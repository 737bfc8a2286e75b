/** The file watcher: paths collect in a set that a debounced callback flushes. */
module Watcher {
  import opened Lists

  // Sorted lists of paths

  predicate Less(a: string, b: string) {
    b != [] && (a == [] || a[0] < b[0] || (a[0] == b[0] && Less(a[1..], b[1..])))
  }

  lemma {:induction false} LessTotal(a: string, b: string)
    ensures Less(a, b) || Less(b, a) || a == b
    ensures !(Less(a, b) && Less(b, a)) && !Less(a, a)
  {
    if a != [] && b != [] {
      LessTotal(a[1..], b[1..]);
      if a[0] == b[0] && a[1..] == b[1..] {
        assert a == [a[0]] + a[1..] && b == [b[0]] + b[1..];
      }
    }
    if a != [] {
      LessTotal(a[1..], a[1..]);
    }
  }

  lemma {:induction false} LessTransitive(a: string, b: string, c: string)
    requires Less(a, b) && Less(b, c)
    ensures Less(a, c)
  {
    if a != [] && a[0] == b[0] == c[0] {
      LessTransitive(a[1..], b[1..], c[1..]);
    }
  }

  /** The order of `sort.Strings`: a proper prefix comes first, otherwise the first difference decides. */
  lemma {:induction false} LessExactly(common: string, a: string, b: string)
    requires a != [] && b != [] && a[0] != b[0]
    ensures Less(common, common + a)
    ensures Less(common + a, common + b) <==> a[0] < b[0]
  {
    if common == [] {
      assert common + a == a && common + b == b;
    } else {
      assert (common + a)[1..] == common[1..] + a && (common + b)[1..] == common[1..] + b;
      LessExactly(common[1..], a, b);
    }
  }

  predicate StrictlySorted(s: seq<string>) {
    forall i, j :: 0 <= i < j < |s| ==> Less(s[i], s[j])
  }

  /** A set has only one strictly sorted list, whatever order it was read in. */
  lemma {:induction false} SortedUnique(a: seq<string>, b: seq<string>)
    requires StrictlySorted(a) && StrictlySorted(b) && Elements(a) == Elements(b)
    ensures a == b
  {
    NoElements(a);
    NoElements(b);
    if a != [] {
      assert a[0] in Elements(a) && b[0] in Elements(b);
      SameFirst(a, b);
      SameFirst(b, a);
      LessTotal(a[0], b[0]);
      SortedTail(a);
      SortedTail(b);
      SortedUnique(a[1..], b[1..]);
      assert a == [a[0]] + a[1..] && b == [b[0]] + b[1..];
    }
  }

  lemma SameFirst(a: seq<string>, b: seq<string>)
    requires a != [] && StrictlySorted(a) && b != [] && b[0] in Elements(a)
    ensures a[0] == b[0] || Less(a[0], b[0])
  {
    var i :| 0 <= i < |a| && a[i] == b[0];
  }

  lemma SortedTail(a: seq<string>)
    requires a != [] && StrictlySorted(a)
    ensures StrictlySorted(a[1..]) && Elements(a[1..]) == Elements(a) - {a[0]}
  {
    forall x | x in a[1..] ensures x != a[0] {
      var i :| 0 <= i < |a[1..]| && a[1..][i] == x;
      assert Less(a[0], a[i + 1]);
      LessTotal(a[0], a[0]);
    }
    assert a == [a[0]] + a[1..];
  }

  /** `sort.Strings` on a list without duplicates, one element at a time. */
  method Insert(sorted: seq<string>, x: string) returns (r: seq<string>)
    requires StrictlySorted(sorted) && x !in sorted
    ensures StrictlySorted(r) && Elements(r) == Elements(sorted) + {x}
  {
    var i := 0;
    while i < |sorted| && Less(sorted[i], x)
      invariant i <= |sorted| && forall j :: 0 <= j < i ==> Less(sorted[j], x)
    {
      i := i + 1;
    }
    r := sorted[..i] + [x] + sorted[i..];
    Inserted(sorted, x, i);
  }

  lemma Inserted(sorted: seq<string>, x: string, i: nat)
    requires StrictlySorted(sorted) && x !in sorted && i <= |sorted|
    requires forall j :: 0 <= j < i ==> Less(sorted[j], x)
    requires i < |sorted| ==> !Less(sorted[i], x)
    ensures var r := sorted[..i] + [x] + sorted[i..];
      StrictlySorted(r) && Elements(r) == Elements(sorted) + {x}
  {
    var r := sorted[..i] + [x] + sorted[i..];
    forall j | i <= j < |sorted| ensures Less(x, sorted[j]) {
      LessTotal(sorted[i], x);
      if j > i {
        LessTransitive(x, sorted[i], sorted[j]);
      }
    }
    forall j, k | 0 <= j < k < |r| ensures Less(r[j], r[k]) {
      var p, q := if j < i then j else j - 1, if k < i then k else k - 1;
      assert j != i ==> r[j] == sorted[p];
      assert k != i ==> r[k] == sorted[q];
    }
    assert sorted == sorted[..i] + sorted[i..];
  }

  /** `pathSet` */
  class PathSet {
    var paths: set<string>

    constructor ()
      ensures paths == {}
    {
      paths := {};
    }

    method Add(path: string)
      modifies this
      ensures paths == old(paths) + {path}
    {
      paths := paths + {path};
    }

    /** What was stored, strictly sorted; nothing is stored any more. */
    method Flush() returns (flushed: seq<string>)
      modifies this
      ensures StrictlySorted(flushed) && Elements(flushed) == old(paths)
      ensures paths == {}
    {
      flushed := [];
      var rest := paths;
      while rest != {}
        invariant paths == old(paths) && rest <= paths
        invariant StrictlySorted(flushed) && Elements(flushed) == paths - rest
        decreases |rest|
      {
        var path :| path in rest;
        assert path !in Elements(flushed);
        flushed := Insert(flushed, path);
        rest := rest - {path};
      }
      assert Elements(flushed) == paths;
      paths := {};
    }
  }

  // Events, debounce and callbacks

  /** One call of Flush: what it returned, and the range of additions since the one before. */
  datatype Flushed = Flushed(from: nat, upTo: nat, paths: seq<string>)

  /** `trigger` adds a path and then calls the debouncer: `triggering` is the moment in between.
      The debouncer stops its timer and starts a new one; a timer that fires runs a callback,
      and several callbacks can be under way before they flush. */
  datatype State = State(
    paths: set<string>,
    triggering: bool,
    armed: bool,
    callbacks: nat,
    added: seq<string>,
    flushes: seq<Flushed>)

  datatype Step = Add(path: string) | Debounce | Fire | Flush(result: seq<string>)

  function Init(): State {
    State({}, false, false, 0, [], [])
  }

  function Cut(s: State): nat {
    if s.flushes == [] then 0 else s.flushes[|s.flushes| - 1].upTo
  }

  predicate Enabled(s: State, step: Step) {
    match step
    case Add(_) => !s.triggering
    case Debounce => s.triggering
    case Fire => s.armed
    case Flush(result) => s.callbacks > 0 && StrictlySorted(result) && Elements(result) == s.paths
  }

  function Apply(s: State, step: Step): State
    requires Enabled(s, step)
  {
    match step
    case Add(path) => s.(paths := s.paths + {path}, triggering := true, added := s.added + [path])
    case Debounce => s.(triggering := false, armed := true)
    case Fire => s.(armed := false, callbacks := s.callbacks + 1)
    case Flush(result) =>
      s.(paths := {}, callbacks := s.callbacks - 1,
         flushes := s.flushes + [Flushed(Cut(s), |s.added|, result)])
  }

  predicate Valid(s: State, steps: seq<Step>)
    decreases steps
  {
    steps == [] || (Enabled(s, steps[0]) && Valid(Apply(s, steps[0]), steps[1..]))
  }

  function Run(s: State, steps: seq<Step>): State
    requires Valid(s, steps)
    decreases steps
  {
    if steps == [] then s else Run(Apply(s, steps[0]), steps[1..])
  }

  /** Something is going to flush. */
  predicate Pending(s: State) {
    s.triggering || s.armed || s.callbacks > 0
  }

  /** Flush `i` continues where the one before stopped, and returned what was added there. */
  ghost predicate FlushFits(s: State, i: nat)
    requires i < |s.flushes|
  {
    var f := s.flushes[i];
    && f.from <= f.upTo <= |s.added|
    && f.from == (if i == 0 then 0 else s.flushes[i - 1].upTo)
    && StrictlySorted(f.paths) && Elements(f.paths) == Elements(s.added[f.from..f.upTo])
  }

  ghost predicate Inv(s: State) {
    && (forall i :: 0 <= i < |s.flushes| ==> FlushFits(s, i))
    && Cut(s) <= |s.added| && s.paths == Elements(s.added[Cut(s)..])
    && (s.paths != {} ==> Pending(s))
  }

  lemma InvKept(s: State, step: Step)
    requires Inv(s) && Enabled(s, step)
    ensures Inv(Apply(s, step))
  {
    var t := Apply(s, step);
    assert t.flushes != [] && step.Flush? ==> Cut(t) == |s.added|;
    match step
    case Add(path) =>
      assert t.added[Cut(s)..] == s.added[Cut(s)..] + [path];
      forall i | 0 <= i < |t.flushes| ensures FlushFits(t, i) {
        assert FlushFits(s, i);
        assert t.added[s.flushes[i].from..s.flushes[i].upTo] == s.added[s.flushes[i].from..s.flushes[i].upTo];
      }
    case Flush(result) =>
      assert s.added[Cut(s)..|s.added|] == s.added[Cut(s)..] && s.added[|s.added|..] == [];
      forall i | 0 <= i < |t.flushes| ensures FlushFits(t, i) {
        assert i < |s.flushes| ==> FlushFits(s, i);
      }
    case _ =>
      forall i | 0 <= i < |t.flushes| ensures FlushFits(t, i) {
        assert FlushFits(s, i);
      }
  }

  lemma {:induction false} InvRun(s: State, steps: seq<Step>)
    requires Inv(s) && Valid(s, steps)
    ensures Inv(Run(s, steps))
    decreases steps
  {
    if steps != [] {
      InvKept(s, steps[0]);
      InvRun(Apply(s, steps[0]), steps[1..]);
    }
  }

  /** In every interleaving, each flush returned in strict order exactly what was added since the
      flush before it. */
  lemma FlushesAreExact(steps: seq<Step>, i: nat)
    requires Valid(Init(), steps) && i < |Run(Init(), steps).flushes|
    ensures FlushFits(Run(Init(), steps), i)
  {
    InvRun(Init(), steps);
  }

  /** The flush that covers addition `k`, which is not older than it. */
  lemma {:induction false} CoveringFlush(s: State, k: nat, n: nat) returns (i: nat)
    requires Inv(s) && 0 < n <= |s.flushes| && k < s.flushes[n - 1].upTo
    ensures i < n && s.flushes[i].from <= k < s.flushes[i].upTo && k < |s.added| && s.added[k] in s.flushes[i].paths
    decreases n
  {
    assert FlushFits(s, n - 1);
    var f := s.flushes[n - 1];
    if f.from <= k {
      i := n - 1;
      assert s.added[f.from..f.upTo][k - f.from] == s.added[k];
      assert s.added[k] in Elements(f.paths);
    } else {
      i := CoveringFlush(s, k, n - 1);
    }
  }

  /** Every path ever added has been returned by a later flush or is still in the set, and then a
      trigger is under way, the timer is running, or a callback has yet to flush. */
  lemma NothingIsLost(steps: seq<Step>, k: nat)
    requires Valid(Init(), steps) && k < |Run(Init(), steps).added|
    ensures var s := Run(Init(), steps);
      || (exists i :: 0 <= i < |s.flushes| && s.flushes[i].from <= k < s.flushes[i].upTo
            && s.added[k] in s.flushes[i].paths)
      || (s.added[k] in s.paths && Pending(s))
  {
    InvRun(Init(), steps);
    var s := Run(Init(), steps);
    if k < Cut(s) {
      var i := CoveringFlush(s, k, |s.flushes|);
    } else {
      assert s.added[Cut(s)..][k - Cut(s)] == s.added[k];
      assert s.added[k] in s.added[Cut(s)..];
      assert s.added[k] in s.paths && s.paths != {};
    }
  }

  /** So at quiescence everything has been flushed. */
  lemma QuiescentIsFlushed(steps: seq<Step>, k: nat)
    requires Valid(Init(), steps) && !Pending(Run(Init(), steps)) && k < |Run(Init(), steps).added|
    ensures var s := Run(Init(), steps);
      s.paths == {} && exists i :: 0 <= i < |s.flushes| && s.added[k] in s.flushes[i].paths
  {
    InvRun(Init(), steps);
    NothingIsLost(steps, k);
  }

  /** Nothing is invented either: what a flush returned was added. */
  lemma FlushedWasAdded(steps: seq<Step>, i: nat, path: string)
    requires Valid(Init(), steps) && i < |Run(Init(), steps).flushes|
    requires path in Run(Init(), steps).flushes[i].paths
    ensures path in Run(Init(), steps).added
  {
    FlushesAreExact(steps, i);
    var s := Run(Init(), steps);
    var f := s.flushes[i];
    assert path in Elements(f.paths);
    assert path in s.added[f.from..f.upTo];
  }
}
