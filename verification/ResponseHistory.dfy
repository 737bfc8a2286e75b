/** The response cache seen over whole runs: which step stored what a HIT serves, and how long
    before, by the clock. */
module ResponseHistory {
  import opened Wrappers
  import opened ResponseCache

  lemma {:induction false} PrefixValid(cfg: Config, s: State, steps: seq<Step>, n: nat)
    requires Valid(cfg, s, steps) && n <= |steps|
    ensures Valid(cfg, s, steps[..n])
    decreases n
  {
    if n > 0 {
      RunSnoc(cfg, s, steps, n - 1);
    }
  }

  /** The state before step `n` of a run. */
  ghost function At(cfg: Config, now: nat, steps: seq<Step>, n: nat): State
    requires Valid(cfg, Init(now), steps) && n <= |steps|
  {
    PrefixValid(cfg, Init(now), steps, n);
    Run(cfg, Init(now), steps[..n])
  }

  lemma AtNext(cfg: Config, now: nat, steps: seq<Step>, n: nat)
    requires Valid(cfg, Init(now), steps) && n < |steps|
    ensures Enabled(At(cfg, now, steps, n), steps[n])
    ensures At(cfg, now, steps, n + 1) == Apply(cfg, At(cfg, now, steps, n), steps[n])
  {
    RunSnoc(cfg, Init(now), steps, n);
  }

  /** The whole seconds on the clock before step `n`. */
  ghost function Seconds(cfg: Config, now: nat, steps: seq<Step>, n: nat): int
    requires Valid(cfg, Init(now), steps) && n <= |steps|
  {
    At(cfg, now, steps, n).now / 1_000_000_000
  }

  /** Step `m` stores `data` for `uri`: a MISS that has been resolved and post-processed, or a
      refresh that has been resolved. */
  ghost predicate Stores(cfg: Config, now: nat, steps: seq<Step>, m: nat, uri: string, data: string)
    requires Valid(cfg, Init(now), steps)
  {
    m < |steps| &&
    var s := At(cfg, now, steps, m);
    match steps[m]
    case Resolve(r, Some(x)) => r in s.waiting && s.waiting[r].0 == uri && cfg.post(x) == Some(data)
    case Refresh(r, Some(x)) => r in s.refreshing && s.refreshing[r] == uri && x == data
    case _ => false
  }

  /** The entry that step `m` makes of `data`: stamped with the seconds, and good for the two
      lifetimes together. */
  ghost function EntryOf(cfg: Config, now: nat, steps: seq<Step>, m: nat, data: string): Entry
    requires Valid(cfg, Init(now), steps) && m <= |steps|
  {
    Entry(data, Seconds(cfg, now, steps, m),
          At(cfg, now, steps, m).now + (cfg.maxAge + cfg.staleWhileRevalidate) * 1_000_000_000)
  }

  ghost predicate StoredBefore(cfg: Config, now: nat, steps: seq<Step>, n: nat, key: string, e: Entry)
    requires Valid(cfg, Init(now), steps)
  {
    exists m: nat, uri ::
      && m < n && Stores(cfg, now, steps, m, uri, e.data)
      && key == cfg.configHash + uri && e == EntryOf(cfg, now, steps, m, e.data)
  }

  ghost predicate AllStoredBefore(cfg: Config, now: nat, steps: seq<Step>, n: nat)
    requires Valid(cfg, Init(now), steps) && n <= |steps|
  {
    var s := At(cfg, now, steps, n);
    && (forall key :: key in s.cache ==> StoredBefore(cfg, now, steps, n, key, s.cache[key]))
    && (forall key, e :: (key, e) in s.buffered ==> StoredBefore(cfg, now, steps, n, key, e))
  }

  lemma StoredEarlier(cfg: Config, now: nat, steps: seq<Step>, n: nat, key: string, e: Entry)
    requires Valid(cfg, Init(now), steps) && StoredBefore(cfg, now, steps, n, key, e)
    ensures StoredBefore(cfg, now, steps, n + 1, key, e)
  {
  }

  /** What a step adds to the buffer, it has stored. */
  lemma BufferedByStep(cfg: Config, now: nat, steps: seq<Step>, n: nat, key: string, e: Entry)
    requires Valid(cfg, Init(now), steps) && n < |steps|
    requires (key, e) in At(cfg, now, steps, n + 1).buffered && (key, e) !in At(cfg, now, steps, n).buffered
    ensures StoredBefore(cfg, now, steps, n + 1, key, e)
  {
    AtNext(cfg, now, steps, n);
    var s := At(cfg, now, steps, n);
    match steps[n]
    case Resolve(r, raw) => assert Stores(cfg, now, steps, n, s.waiting[r].0, e.data);
    case Refresh(r, raw) => assert Stores(cfg, now, steps, n, s.refreshing[r], e.data);
    case _ =>
  }

  /** Everything in the cache, and everything on its way there, was stored by an earlier step. */
  lemma {:induction false} EntriesOfARun(cfg: Config, now: nat, steps: seq<Step>, n: nat)
    requires Valid(cfg, Init(now), steps) && n <= |steps|
    ensures AllStoredBefore(cfg, now, steps, n)
    decreases n
  {
    if n > 0 {
      EntriesOfARun(cfg, now, steps, n - 1);
      AtNext(cfg, now, steps, n - 1);
      var s, t := At(cfg, now, steps, n - 1), At(cfg, now, steps, n);
      forall key, e | (key, e) in t.buffered ensures StoredBefore(cfg, now, steps, n, key, e) {
        if (key, e) in s.buffered {
          StoredEarlier(cfg, now, steps, n - 1, key, e);
        } else {
          BufferedByStep(cfg, now, steps, n - 1, key, e);
        }
      }
      forall key | key in t.cache ensures StoredBefore(cfg, now, steps, n, key, t.cache[key]) {
        CachedByStep(cfg, s, steps[n - 1], key);
        StoredEarlier(cfg, now, steps, n - 1, key, t.cache[key]);
      }
    }
  }

  /** What is in the cache was there before, or in the buffer. */
  lemma CachedByStep(cfg: Config, s: State, step: Step, key: string)
    requires Enabled(s, step) && key in Apply(cfg, s, step).cache
    ensures var e := Apply(cfg, s, step).cache[key];
      (key in s.cache && s.cache[key] == e) || (key, e) in s.buffered
  {
  }

  // Requests

  /** Step `n` is a request, and the cache then holds, unexpired, the entry that step `m` made. */
  ghost predicate Serves(cfg: Config, now: nat, steps: seq<Step>, n: nat, m: nat, data: string)
    requires Valid(cfg, Init(now), steps)
  {
    n < |steps| && m < n && steps[n].Request? && Stores(cfg, now, steps, m, steps[n].uri, data) &&
    var s, key := At(cfg, now, steps, n), cfg.configHash + steps[n].uri;
    && key in s.cache && s.cache[key] == EntryOf(cfg, now, steps, m, data)
    && s.now - At(cfg, now, steps, m).now <= (cfg.maxAge + cfg.staleWhileRevalidate) * 1_000_000_000
  }

  /** The time that has passed by the clock, in seconds as they are shown. */
  ghost function Elapsed(cfg: Config, now: nat, steps: seq<Step>, m: nat, n: nat): int
    requires Valid(cfg, Init(now), steps) && m <= |steps| && n <= |steps|
  {
    Seconds(cfg, now, steps, n) - Seconds(cfg, now, steps, m)
  }

  lemma ServedEntry(cfg: Config, now: nat, steps: seq<Step>, n: nat) returns (m: nat, data: string)
    requires Valid(cfg, Init(now), steps) && n < |steps| && steps[n].Request?
    requires Lookup(At(cfg, now, steps, n), CacheKey(cfg, steps[n].uri)).Some?
    ensures Serves(cfg, now, steps, n, m, data)
  {
    EntriesOfARun(cfg, now, steps, n);
    var s, key := At(cfg, now, steps, n), CacheKey(cfg, steps[n].uri);
    var e := s.cache[key];
    assert StoredBefore(cfg, now, steps, n, key, e);
    var k: nat, uri :| k < n && Stores(cfg, now, steps, k, uri, e.data)
      && key == cfg.configHash + uri && e == EntryOf(cfg, now, steps, k, e.data);
    CacheKeyInjective(cfg, cfg, uri, steps[n].uri);
    m, data := k, e.data;
  }

  /** Every request of every run.  Either an earlier step stored what the cache holds for its URI: it
      is a HIT with that body, its age is the time passed since, by the clock, and a refresh is owed
      exactly when this is more than maxAge.  Or it is a MISS and waits for the resolver. */
  lemma RequestsOfARun(cfg: Config, now: nat, steps: seq<Step>, n: nat)
    requires Valid(cfg, Init(now), steps) && n < |steps| && steps[n].Request?
    ensures var s, t, step := At(cfg, now, steps, n), At(cfg, now, steps, n + 1), steps[n];
      && (forall m, data :: Serves(cfg, now, steps, n, m, data) ==>
            var age := Elapsed(cfg, now, steps, m, n);
            && t.responses == s.responses + [Response(true, step.uri, data, ETag(cfg, data), age,
                                                      step.ifNoneMatch, step.ifNoneMatch == ETag(cfg, data))]
            && t.refreshing == if age > cfg.maxAge then s.refreshing[step.r := step.uri] else s.refreshing)
      && ((forall m, data :: !Serves(cfg, now, steps, n, m, data)) ==>
            && t.responses == s.responses && t.refreshing == s.refreshing
            && t.waiting == s.waiting[step.r := (step.uri, step.ifNoneMatch)])
  {
    AtNext(cfg, now, steps, n);
    if Lookup(At(cfg, now, steps, n), CacheKey(cfg, steps[n].uri)).Some? {
      var m, data := ServedEntry(cfg, now, steps, n);
    }
    forall m, data | Serves(cfg, now, steps, n, m, data)
      ensures var s, t, step := At(cfg, now, steps, n), At(cfg, now, steps, n + 1), steps[n];
        var age := Elapsed(cfg, now, steps, m, n);
        && t.responses == s.responses + [Response(true, step.uri, data, ETag(cfg, data), age,
                                                  step.ifNoneMatch, step.ifNoneMatch == ETag(cfg, data))]
        && t.refreshing == if age > cfg.maxAge then s.refreshing[step.r := step.uri] else s.refreshing
    {
      HitOfARun(cfg, now, steps, n, m, data);
    }
  }

  lemma HitOfARun(cfg: Config, now: nat, steps: seq<Step>, n: nat, m: nat, data: string)
    requires Valid(cfg, Init(now), steps) && Serves(cfg, now, steps, n, m, data)
    ensures var s, t, step := At(cfg, now, steps, n), At(cfg, now, steps, n + 1), steps[n];
      var age := Elapsed(cfg, now, steps, m, n);
      && t.responses == s.responses + [Response(true, step.uri, data, ETag(cfg, data), age,
                                                step.ifNoneMatch, step.ifNoneMatch == ETag(cfg, data))]
      && t.refreshing == if age > cfg.maxAge then s.refreshing[step.r := step.uri] else s.refreshing
  {
    AtNext(cfg, now, steps, n);
    var s, key := At(cfg, now, steps, n), CacheKey(cfg, steps[n].uri);
    assert Lookup(s, key) == Some(EntryOf(cfg, now, steps, m, data));
  }

  // Responses

  /** A request that waits asked before, and was a MISS. */
  ghost predicate Asked(cfg: Config, now: nat, steps: seq<Step>, k: nat, r: nat, uri: string, ifNoneMatch: string)
    requires Valid(cfg, Init(now), steps)
  {
    && k < |steps| && steps[k] == Request(r, uri, ifNoneMatch)
    && forall m, data :: !Serves(cfg, now, steps, k, m, data)
  }

  lemma {:induction false} WaitingHasAsked(cfg: Config, now: nat, steps: seq<Step>, n: nat, r: nat) returns (k: nat)
    requires Valid(cfg, Init(now), steps) && n <= |steps| && r in At(cfg, now, steps, n).waiting
    ensures k < n
    ensures var (uri, ifNoneMatch) := At(cfg, now, steps, n).waiting[r];
      Asked(cfg, now, steps, k, r, uri, ifNoneMatch)
    decreases n
  {
    assert n > 0;
    AtNext(cfg, now, steps, n - 1);
    var s := At(cfg, now, steps, n - 1);
    WaitingByStep(cfg, s, steps[n - 1], r);
    if r in s.waiting {
      k := WaitingHasAsked(cfg, now, steps, n - 1, r);
    } else {
      k := n - 1;
      MissServesNothing(cfg, now, steps, k);
    }
  }

  lemma WaitingByStep(cfg: Config, s: State, step: Step, r: nat)
    requires Enabled(s, step) && r in Apply(cfg, s, step).waiting
    ensures var (uri, ifNoneMatch) := Apply(cfg, s, step).waiting[r];
      if r in s.waiting then s.waiting[r] == (uri, ifNoneMatch)
      else step == Request(r, uri, ifNoneMatch) && Lookup(s, CacheKey(cfg, uri)).None?
  {
  }

  lemma MissServesNothing(cfg: Config, now: nat, steps: seq<Step>, n: nat)
    requires Valid(cfg, Init(now), steps) && n < |steps| && steps[n].Request?
    requires Lookup(At(cfg, now, steps, n), CacheKey(cfg, steps[n].uri)).None?
    ensures forall m, data :: !Serves(cfg, now, steps, n, m, data)
  {
  }

  /** Over every run, the step that sends response `i`.  A HIT is sent by a request, serves what an
      earlier step stored for its URI, and shows as its age the time passed since then by the clock,
      which is at most maxAge + staleWhileRevalidate seconds.  A MISS is sent when the resolver
      answers a request that found nothing, serves the post-processed body, and has age 0.  The
      ETag is that of the body, and 304 is answered exactly to the tag the request showed. */
  lemma ResponsesOfARun(cfg: Config, now: nat, steps: seq<Step>, i: nat) returns (n: nat)
    requires Expires(cfg) && Valid(cfg, Init(now), steps) && i < |Run(cfg, Init(now), steps).responses|
    ensures n < |steps| && Emits(cfg, now, steps, n + 1, i)
    ensures var a := Run(cfg, Init(now), steps).responses[i];
      && a.etag == ETag(cfg, a.body)
      && (a.notModified <==> a.ifNoneMatch == a.etag)
      && (a.hit ==>
            && 0 <= a.age <= cfg.maxAge + cfg.staleWhileRevalidate
            && steps[n].Request? && steps[n].uri == a.uri && steps[n].ifNoneMatch == a.ifNoneMatch
            && exists m: nat ::
                 m < n && Serves(cfg, now, steps, n, m, a.body) && a.age == Elapsed(cfg, now, steps, m, n))
      && (!a.hit ==>
            && a.age == 0
            && steps[n].Resolve? && steps[n].raw.Some? && cfg.post(steps[n].raw.value) == Some(a.body)
            && exists k: nat :: k < n && Asked(cfg, now, steps, k, steps[n].r, a.uri, a.ifNoneMatch))
  {
    var after := EmittedFits(cfg, now, steps, i);
    n := after - 1;
    AtNext(cfg, now, steps, n);
    var s, t := At(cfg, now, steps, n), At(cfg, now, steps, n + 1);
    var a := Run(cfg, Init(now), steps).responses[i];
    assert t.responses[i] == a && |s.responses| == i && |t.responses| == i + 1;
    if steps[n].Request? {
      RequestsOfARun(cfg, now, steps, n);
      var m, data :| Serves(cfg, now, steps, n, m, data);
      assert a.body == data;
    } else {
      MissOfARun(cfg, s, steps[n]);
      var k := WaitingHasAsked(cfg, now, steps, n, steps[n].r);
    }
  }

  /** The only other step that sends a response. */
  lemma MissOfARun(cfg: Config, s: State, step: Step)
    requires Enabled(s, step) && !step.Request? && |Apply(cfg, s, step).responses| == |s.responses| + 1
    ensures step.Resolve? && step.raw.Some? && cfg.post(step.raw.value).Some?
    ensures var a := Apply(cfg, s, step).responses[|s.responses|];
      && !a.hit && a.age == 0 && Some(a.body) == cfg.post(step.raw.value)
      && s.waiting[step.r] == (a.uri, a.ifNoneMatch)
  {
  }

  /** When the resolver answers a MISS: a post-processed body is sent with age 0 and is on its way into
      the cache; a failure sends and stores nothing. */
  lemma ResolvedOfARun(cfg: Config, now: nat, steps: seq<Step>, n: nat)
    requires Valid(cfg, Init(now), steps) && n < |steps| && steps[n].Resolve?
    ensures steps[n].r in At(cfg, now, steps, n).waiting
    ensures var s, t := At(cfg, now, steps, n), At(cfg, now, steps, n + 1);
      var raw := steps[n].raw; var (uri, ifNoneMatch) := s.waiting[steps[n].r];
      && t.waiting == s.waiting - {steps[n].r} && t.refreshing == s.refreshing && t.cache == s.cache
      && (raw.Some? && cfg.post(raw.value).Some? ==> var body := cfg.post(raw.value).value;
            && t.responses == s.responses + [Response(false, uri, body, ETag(cfg, body), 0,
                                                      ifNoneMatch, ifNoneMatch == ETag(cfg, body))]
            && t.buffered == s.buffered + {(cfg.configHash + uri, EntryOf(cfg, now, steps, n, body))})
      && (raw.None? || cfg.post(raw.value).None? ==> t.responses == s.responses && t.buffered == s.buffered)
  {
    AtNext(cfg, now, steps, n);
  }

  // Revalidation

  /** Request `i` is for `uri` and is served what was stored more than maxAge seconds before. */
  ghost predicate ServesStale(cfg: Config, now: nat, steps: seq<Step>, uri: string, i: nat)
    requires Valid(cfg, Init(now), steps)
  {
    exists m, data ::
      && Serves(cfg, now, steps, i, m, data) && steps[i].uri == uri
      && Elapsed(cfg, now, steps, m, i) > cfg.maxAge
  }

  ghost function StaleServes(cfg: Config, now: nat, steps: seq<Step>, uri: string, n: nat): set<nat>
    requires Valid(cfg, Init(now), steps)
  {
    set i: nat | i < n && ServesStale(cfg, now, steps, uri, i)
  }

  /** The stale HITs by their age are those by the clock. */
  lemma {:induction false} StaleByTheClock(cfg: Config, now: nat, steps: seq<Step>, uri: string, n: nat)
    requires Valid(cfg, Init(now), steps) && n <= |steps|
    ensures StaleHits(cfg, uri, At(cfg, now, steps, n).responses) == |StaleServes(cfg, now, steps, uri, n)|
    decreases n
  {
    if n == 0 {
      assert StaleServes(cfg, now, steps, uri, 0) == {};
    } else {
      StaleByTheClock(cfg, now, steps, uri, n - 1);
      AtNext(cfg, now, steps, n - 1);
      var s := At(cfg, now, steps, n - 1);
      StaleServesNext(cfg, now, steps, uri, n - 1);
      if steps[n - 1].Request? {
        RequestIsStaleByTheClock(cfg, now, steps, uri, n - 1);
      } else {
        OtherStepIsNotStale(cfg, s, steps[n - 1], uri);
      }
    }
  }

  lemma OtherStepIsNotStale(cfg: Config, s: State, step: Step, uri: string)
    requires Enabled(s, step) && !step.Request?
    ensures StaleHits(cfg, uri, Apply(cfg, s, step).responses) == StaleHits(cfg, uri, s.responses)
  {
    var after := Apply(cfg, s, step).responses;
    AtMostOneResponse(cfg, s, step);
    if after != s.responses {
      MissOfARun(cfg, s, step);
      StaleHitsSnoc(cfg, uri, s.responses, after[|s.responses|]);
      assert after == s.responses + [after[|s.responses|]];
    }
  }

  lemma StaleServesNext(cfg: Config, now: nat, steps: seq<Step>, uri: string, n: nat)
    requires Valid(cfg, Init(now), steps)
    ensures |StaleServes(cfg, now, steps, uri, n + 1)| ==
            |StaleServes(cfg, now, steps, uri, n)| + if ServesStale(cfg, now, steps, uri, n) then 1 else 0
  {
    OneMore(StaleServes(cfg, now, steps, uri, n), StaleServes(cfg, now, steps, uri, n + 1), n,
            ServesStale(cfg, now, steps, uri, n));
  }

  lemma OneMore(before: set<nat>, after: set<nat>, n: nat, added: bool)
    requires n !in before && forall i :: i in after <==> i in before || (added && i == n)
    ensures |after| == |before| + if added then 1 else 0
  {
    assert after == if added then before + {n} else before;
  }

  lemma RequestIsStaleByTheClock(cfg: Config, now: nat, steps: seq<Step>, uri: string, n: nat)
    requires Valid(cfg, Init(now), steps) && n < |steps| && steps[n].Request?
    ensures StaleHits(cfg, uri, At(cfg, now, steps, n + 1).responses) ==
            StaleHits(cfg, uri, At(cfg, now, steps, n).responses)
            + if ServesStale(cfg, now, steps, uri, n) then 1 else 0
  {
    RequestsOfARun(cfg, now, steps, n);
    var s := At(cfg, now, steps, n);
    if m, data :| Serves(cfg, now, steps, n, m, data) {
      var etag := ETag(cfg, data);
      var a := Response(true, steps[n].uri, data, etag, Elapsed(cfg, now, steps, m, n),
                        steps[n].ifNoneMatch, steps[n].ifNoneMatch == etag);
      StaleHitsSnoc(cfg, uri, s.responses, a);
      SameEntrySameTime(cfg, now, steps, n, m, data);
    }
  }

  /** The entry tells when it was stored. */
  lemma SameEntrySameTime(cfg: Config, now: nat, steps: seq<Step>, n: nat, m: nat, data: string)
    requires Valid(cfg, Init(now), steps) && Serves(cfg, now, steps, n, m, data)
    ensures forall m', data' :: Serves(cfg, now, steps, n, m', data') ==>
      Elapsed(cfg, now, steps, m', n) == Elapsed(cfg, now, steps, m, n)
  {
  }

  /** Over every run and for every URI: the refreshes carried out and those still owed are as many
      as the requests that were served something stored more than maxAge seconds before, by the
      clock.  This holds of every prefix, so no refresh comes before the request that it follows.
      Without a stale-while-revalidate window there are none. */
  lemma RevalidatesExactlyWhenStale(cfg: Config, now: nat, steps: seq<Step>, uri: string)
    requires Expires(cfg) && Valid(cfg, Init(now), steps)
    ensures var s := Run(cfg, Init(now), steps);
      && Refreshes(cfg, uri, Init(now), steps) + |Owing(s, uri)|
         == |StaleServes(cfg, now, steps, uri, |steps|)|
      && (cfg.staleWhileRevalidate <= 0 ==>
            StaleServes(cfg, now, steps, uri, |steps|) == {} && s.refreshing == map[])
  {
    RefreshesBalance(cfg, now, steps, uri);
    StaleByTheClock(cfg, now, steps, uri, |steps|);
    assert steps[..|steps|] == steps;
  }
}
