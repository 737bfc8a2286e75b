/** The response cache of the query handler: maxAge, stale-while-revalidate and ETags.

    Requests run concurrently.  The cache may lose an entry, or never show a stored one, at any
    time.  What the handler does with a response after the resolver (post-resolve
    transformations, the mutatingPostResolve hook) is the parameter `post`, which can fail. */
module ResponseCache {
  import opened Wrappers
  import opened Decimal

  const NANOS := 1_000_000_000

  datatype Config = Config(
    configHash: string,
    maxAge: int,
    staleWhileRevalidate: int,
    hash: string -> nat,
    post: string -> Option<string>)

  /** `CacheItem`, with the expiry that the cache keeps beside it. */
  datatype Entry = Entry(data: string, insertUnix: int, expires: int)

  datatype Response = Response(hit: bool, uri: string, body: string, etag: string, age: int,
                               ifNoneMatch: string, notModified: bool)

  datatype State = State(
    now: nat,                               // nanoseconds
    cache: map<string, Entry>,
    buffered: set<(string, Entry)>,         // stored, not visible yet
    waiting: map<nat, (string, string)>,    // misses being resolved: URI and If-None-Match
    refreshing: map<nat, string>,           // stale hits answered, whose deferred refresh is due: URI
    resolved: set<(string, string)>,        // every URI and body that the resolver has produced
    responses: seq<Response>)

  datatype Step =
    | Request(r: nat, uri: string, ifNoneMatch: string)
    | Resolve(r: nat, raw: Option<string>)
    | Refresh(r: nat, raw: Option<string>)
    | Land(key: string, entry: Entry) | Lose(key: string, entry: Entry)
    | Evict(key: string)
    | Tick(nanos: nat)

  function Init(now: nat): State {
    State(now, map[], {}, map[], map[], {}, [])
  }

  function Ttl(cfg: Config): int {
    cfg.maxAge + cfg.staleWhileRevalidate
  }

  function Unix(nanos: int): int {
    nanos / NANOS
  }

  function CacheKey(cfg: Config, uri: string): string {
    cfg.configHash + uri
  }

  function ETag(cfg: Config, body: string): string {
    "W/\"" + Digits(cfg.hash(cfg.configHash + body)) + "\""
  }

  /** `Cache.Get`: an expired entry is a miss. */
  function Lookup(s: State, key: string): Option<Entry> {
    if key in s.cache && s.now <= s.cache[key].expires then Some(s.cache[key]) else None
  }

  /** `SetWithTTL` */
  function Stored(cfg: Config, s: State, uri: string, data: string): (string, Entry) {
    (CacheKey(cfg, uri), Entry(data, Unix(s.now), s.now + Ttl(cfg) * NANOS))
  }

  function HitResponse(cfg: Config, s: State, e: Entry, uri: string, ifNoneMatch: string): Response {
    var etag := ETag(cfg, e.data);
    Response(true, uri, e.data, etag, Unix(s.now) - e.insertUnix, ifNoneMatch, ifNoneMatch == etag)
  }

  function MissResponse(cfg: Config, body: string, uri: string, ifNoneMatch: string): Response {
    var etag := ETag(cfg, body);
    Response(false, uri, body, etag, 0, ifNoneMatch, ifNoneMatch == etag)
  }

  predicate Enabled(s: State, step: Step) {
    match step
    case Request(r, _, _) => r !in s.waiting && r !in s.refreshing
    case Resolve(r, _) => r in s.waiting
    case Refresh(r, _) => r in s.refreshing
    case Land(key, entry) => (key, entry) in s.buffered
    case Lose(key, entry) => (key, entry) in s.buffered
    case Evict(_) => true
    case Tick(_) => true
  }

  function Requested(cfg: Config, s: State, r: nat, uri: string, ifNoneMatch: string): State {
    match Lookup(s, CacheKey(cfg, uri))
    case None => s.(waiting := s.waiting[r := (uri, ifNoneMatch)])
    case Some(e) =>
      var response := HitResponse(cfg, s, e, uri, ifNoneMatch);
      var answered := s.(responses := s.responses + [response]);
      if response.age > cfg.maxAge
      then answered.(refreshing := s.refreshing[r := uri])
      else answered
  }

  /** A failed resolution or post-processing stores nothing and answers with an error. */
  function Resolved(cfg: Config, s: State, r: nat, raw: Option<string>): State
    requires r in s.waiting
  {
    var (uri, ifNoneMatch) := s.waiting[r];
    var rest := s.(waiting := s.waiting - {r});
    match raw
    case None => rest
    case Some(x) =>
      var known := rest.(resolved := s.resolved + {(uri, x)});
      match cfg.post(x)
      case None => known
      case Some(body) =>
        known.(buffered := s.buffered + {Stored(cfg, s, uri, body)},
               responses := s.responses + [MissResponse(cfg, body, uri, ifNoneMatch)])
  }

  /** The deferred refresh stores what the resolver wrote, as it is. */
  function Refreshed(cfg: Config, s: State, r: nat, raw: Option<string>): State
    requires r in s.refreshing
  {
    var uri := s.refreshing[r];
    var rest := s.(refreshing := s.refreshing - {r});
    match raw
    case None => rest
    case Some(x) =>
      rest.(resolved := s.resolved + {(uri, x)}, buffered := s.buffered + {Stored(cfg, s, uri, x)})
  }

  function Apply(cfg: Config, s: State, step: Step): State
    requires Enabled(s, step)
  {
    match step
    case Request(r, uri, ifNoneMatch) => Requested(cfg, s, r, uri, ifNoneMatch)
    case Resolve(r, raw) => Resolved(cfg, s, r, raw)
    case Refresh(r, raw) => Refreshed(cfg, s, r, raw)
    case Land(key, entry) => s.(cache := s.cache[key := entry], buffered := s.buffered - {(key, entry)})
    case Lose(key, entry) => s.(buffered := s.buffered - {(key, entry)})
    case Evict(key) => s.(cache := s.cache - {key})
    case Tick(nanos) => s.(now := s.now + nanos)
  }

  predicate Valid(cfg: Config, s: State, steps: seq<Step>)
    decreases steps
  {
    steps == [] || (Enabled(s, steps[0]) && Valid(cfg, Apply(cfg, s, steps[0]), steps[1..]))
  }

  function Run(cfg: Config, s: State, steps: seq<Step>): State
    requires Valid(cfg, s, steps)
    decreases steps
  {
    if steps == [] then s else Run(cfg, Apply(cfg, s, steps[0]), steps[1..])
  }

  // What every run keeps

  /** `data` is the post-processed form of a body resolved for this URI or, if `rawToo`, such a
      body as it is. */
  ghost predicate Sourced(cfg: Config, rawToo: bool, resolved: set<(string, string)>, uri: string, data: string) {
    exists x :: (uri, x) in resolved && (cfg.post(x) == Some(data) || (rawToo && data == x))
  }

  /** An entry was stored at some moment not later than `now`, for this URI. */
  ghost predicate EntryFits(cfg: Config, rawToo: bool, s: State, key: string, e: Entry) {
    var stored := e.expires - Ttl(cfg) * NANOS;
    && 0 <= stored <= s.now
    && e.insertUnix == Unix(stored)
    && exists uri :: key == CacheKey(cfg, uri) && Sourced(cfg, rawToo, s.resolved, uri, e.data)
  }

  ghost predicate EntriesFit(cfg: Config, rawToo: bool, s: State) {
    && (forall key :: key in s.cache ==> EntryFits(cfg, rawToo, s, key, s.cache[key]))
    && (forall key, e :: (key, e) in s.buffered ==> EntryFits(cfg, rawToo, s, key, e))
  }

  ghost predicate ResponseFits(cfg: Config, rawToo: bool, resolved: set<(string, string)>, a: Response) {
    && a.etag == ETag(cfg, a.body)
    && (a.notModified <==> a.ifNoneMatch == a.etag)
    && Sourced(cfg, rawToo && a.hit, resolved, a.uri, a.body)
    && 0 <= a.age && (a.hit ==> a.age <= Ttl(cfg)) && (!a.hit ==> a.age == 0)
  }

  ghost predicate ResponsesFit(cfg: Config, rawToo: bool, s: State) {
    forall i :: 0 <= i < |s.responses| ==> ResponseFits(cfg, rawToo, s.resolved, s.responses[i])
  }

  /** The keys of one handler determine the URI; config hashes of one length determine both. */
  lemma CacheKeyInjective(c: Config, d: Config, u: string, w: string)
    requires |c.configHash| == |d.configHash| && CacheKey(c, u) == CacheKey(d, w)
    ensures c.configHash == d.configHash && u == w
  {
    assert CacheKey(c, u)[..|c.configHash|] == c.configHash && CacheKey(d, w)[..|d.configHash|] == d.configHash;
    assert CacheKey(c, u)[|c.configHash|..] == u && CacheKey(d, w)[|d.configHash|..] == w;
  }

  /** Whole-second age of an entry that has not expired. */
  lemma AgeBound(cfg: Config, stored: int, now: int)
    requires 0 <= stored <= now <= stored + Ttl(cfg) * NANOS
    ensures 0 <= Unix(now) - Unix(stored) <= Ttl(cfg)
  {
  }

  lemma HitFits(cfg: Config, rawToo: bool, s: State, uri: string, ifNoneMatch: string)
    requires EntriesFit(cfg, rawToo, s) && Lookup(s, CacheKey(cfg, uri)).Some?
    ensures var e := Lookup(s, CacheKey(cfg, uri)).value;
      ResponseFits(cfg, rawToo, s.resolved, HitResponse(cfg, s, e, uri, ifNoneMatch))
  {
    var key := CacheKey(cfg, uri);
    var e := s.cache[key];
    assert EntryFits(cfg, rawToo, s, key, e);
    AgeBound(cfg, e.expires - Ttl(cfg) * NANOS, s.now);
    var u :| key == CacheKey(cfg, u) && Sourced(cfg, rawToo, s.resolved, u, e.data);
    CacheKeyInjective(cfg, cfg, uri, u);
  }

  lemma SourcedGrows(cfg: Config, rawToo: bool, resolved: set<(string, string)>, more: set<(string, string)>,
                     uri: string, data: string)
    requires Sourced(cfg, rawToo, resolved, uri, data) && resolved <= more
    ensures Sourced(cfg, rawToo, more, uri, data)
  {
    var x :| (uri, x) in resolved && (cfg.post(x) == Some(data) || (rawToo && data == x));
    assert (uri, x) in more;
  }

  lemma EntryFitsLater(cfg: Config, rawToo: bool, s: State, t: State, key: string, e: Entry)
    requires EntryFits(cfg, rawToo, s, key, e) && s.now <= t.now && s.resolved <= t.resolved
    ensures EntryFits(cfg, rawToo, t, key, e)
  {
    var uri :| key == CacheKey(cfg, uri) && Sourced(cfg, rawToo, s.resolved, uri, e.data);
    SourcedGrows(cfg, rawToo, s.resolved, t.resolved, uri, e.data);
  }

  lemma EntriesFitLater(cfg: Config, rawToo: bool, s: State, t: State)
    requires EntriesFit(cfg, rawToo, s) && s.now <= t.now && s.resolved <= t.resolved
    requires t.cache == s.cache && t.buffered == s.buffered
    ensures EntriesFit(cfg, rawToo, t)
  {
    forall key | key in t.cache ensures EntryFits(cfg, rawToo, t, key, t.cache[key]) {
      EntryFitsLater(cfg, rawToo, s, t, key, t.cache[key]);
    }
    forall key, e | (key, e) in t.buffered ensures EntryFits(cfg, rawToo, t, key, e) {
      EntryFitsLater(cfg, rawToo, s, t, key, e);
    }
  }

  lemma StoredFits(cfg: Config, rawToo: bool, s: State, t: State, uri: string, data: string)
    requires t.now == s.now && Sourced(cfg, rawToo, t.resolved, uri, data)
    ensures EntryFits(cfg, rawToo, t, Stored(cfg, s, uri, data).0, Stored(cfg, s, uri, data).1)
  {
  }

  ghost predicate Inv(cfg: Config, rawToo: bool, s: State) {
    EntriesFit(cfg, rawToo, s) && ResponsesFit(cfg, rawToo, s)
  }

  lemma ResponsesFitLater(cfg: Config, rawToo: bool, s: State, t: State)
    requires ResponsesFit(cfg, rawToo, s) && s.resolved <= t.resolved && t.responses == s.responses
    ensures ResponsesFit(cfg, rawToo, t)
  {
    forall i | 0 <= i < |t.responses| ensures ResponseFits(cfg, rawToo, t.resolved, t.responses[i]) {
      var a := s.responses[i];
      assert ResponseFits(cfg, rawToo, s.resolved, a);
      SourcedGrows(cfg, rawToo && a.hit, s.resolved, t.resolved, a.uri, a.body);
    }
  }

  lemma RequestKeeps(cfg: Config, rawToo: bool, s: State, r: nat, uri: string, ifNoneMatch: string)
    requires Inv(cfg, rawToo, s)
    ensures Inv(cfg, rawToo, Requested(cfg, s, r, uri, ifNoneMatch))
  {
    var t := Requested(cfg, s, r, uri, ifNoneMatch);
    EntriesFitLater(cfg, rawToo, s, t);
    if Lookup(s, CacheKey(cfg, uri)).Some? {
      HitFits(cfg, rawToo, s, uri, ifNoneMatch);
    }
  }

  lemma ResolveKeeps(cfg: Config, rawToo: bool, s: State, r: nat, raw: Option<string>)
    requires Inv(cfg, rawToo, s) && r in s.waiting
    ensures Inv(cfg, rawToo, Resolved(cfg, s, r, raw))
  {
    var t := Resolved(cfg, s, r, raw);
    var (uri, ifNoneMatch) := s.waiting[r];
    var mid := t.(cache := s.cache, buffered := s.buffered, responses := s.responses);
    EntriesFitLater(cfg, rawToo, s, mid);
    ResponsesFitLater(cfg, rawToo, s, mid);
    if raw.Some? && cfg.post(raw.value).Some? {
      var body := cfg.post(raw.value).value;
      assert (uri, raw.value) in t.resolved;
      assert Sourced(cfg, rawToo, t.resolved, uri, body) && Sourced(cfg, false, t.resolved, uri, body);
      StoredFits(cfg, rawToo, s, t, uri, body);
      AddedFits(cfg, rawToo, mid, t, Stored(cfg, s, uri, body));
    }
  }

  lemma AddedFits(cfg: Config, rawToo: bool, s: State, t: State, added: (string, Entry))
    requires EntriesFit(cfg, rawToo, s) && EntryFits(cfg, rawToo, t, added.0, added.1)
    requires t.now == s.now && t.resolved == s.resolved && t.cache == s.cache && t.buffered == s.buffered + {added}
    ensures EntriesFit(cfg, rawToo, t)
  {
    forall key | key in t.cache ensures EntryFits(cfg, rawToo, t, key, t.cache[key]) {
      assert EntryFits(cfg, rawToo, s, key, s.cache[key]);
    }
    forall key, e | (key, e) in t.buffered ensures EntryFits(cfg, rawToo, t, key, e) {
      if (key, e) in s.buffered {
        assert EntryFits(cfg, rawToo, s, key, e);
      } else {
        assert (key, e) == added;
      }
    }
  }

  lemma RefreshKeeps(cfg: Config, rawToo: bool, s: State, r: nat, raw: Option<string>)
    requires rawToo && Inv(cfg, rawToo, s) && r in s.refreshing
    ensures Inv(cfg, rawToo, Refreshed(cfg, s, r, raw))
  {
    var t := Refreshed(cfg, s, r, raw);
    var uri := s.refreshing[r];
    var mid := t.(buffered := s.buffered);
    EntriesFitLater(cfg, rawToo, s, mid);
    ResponsesFitLater(cfg, rawToo, s, mid);
    if raw.Some? {
      assert (uri, raw.value) in t.resolved;
      StoredFits(cfg, rawToo, s, t, uri, raw.value);
      AddedFits(cfg, rawToo, mid, t, Stored(cfg, s, uri, raw.value));
    }
    assert ResponsesFit(cfg, rawToo, t);
  }

  lemma CacheKeeps(cfg: Config, rawToo: bool, s: State, step: Step)
    requires Inv(cfg, rawToo, s) && Enabled(s, step) && !step.Request? && !step.Resolve? && !step.Refresh?
    ensures Inv(cfg, rawToo, Apply(cfg, s, step))
  {
    var t := Apply(cfg, s, step);
    forall key | key in t.cache ensures EntryFits(cfg, rawToo, t, key, t.cache[key]) {
      EntryFitsLater(cfg, rawToo, s, t, key, t.cache[key]);
    }
    forall key, e | (key, e) in t.buffered ensures EntryFits(cfg, rawToo, t, key, e) {
      EntryFitsLater(cfg, rawToo, s, t, key, e);
    }
    ResponsesFitLater(cfg, rawToo, s, t);
  }

  /** Without a stale-while-revalidate window nothing is ever refreshed. */
  lemma RequestRefreshes(cfg: Config, rawToo: bool, s: State, r: nat, uri: string, ifNoneMatch: string)
    requires Inv(cfg, rawToo, s) && cfg.staleWhileRevalidate <= 0
    ensures Requested(cfg, s, r, uri, ifNoneMatch).refreshing == s.refreshing
  {
    if Lookup(s, CacheKey(cfg, uri)).Some? {
      HitFits(cfg, rawToo, s, uri, ifNoneMatch);
    }
  }

  lemma StepKeeps(cfg: Config, rawToo: bool, s: State, step: Step)
    requires Inv(cfg, rawToo, s) && Enabled(s, step)
    requires rawToo || (cfg.staleWhileRevalidate <= 0 && s.refreshing == map[])
    ensures Inv(cfg, rawToo, Apply(cfg, s, step))
    ensures rawToo || Apply(cfg, s, step).refreshing == map[]
  {
    match step
    case Request(r, uri, ifNoneMatch) =>
      RequestKeeps(cfg, rawToo, s, r, uri, ifNoneMatch);
      if !rawToo {
        RequestRefreshes(cfg, rawToo, s, r, uri, ifNoneMatch);
      }
    case Resolve(r, raw) => ResolveKeeps(cfg, rawToo, s, r, raw);
    case Refresh(r, raw) => RefreshKeeps(cfg, rawToo, s, r, raw);
    case _ => CacheKeeps(cfg, rawToo, s, step);
  }

  lemma {:induction false} InvRun(cfg: Config, rawToo: bool, s: State, steps: seq<Step>)
    requires Inv(cfg, rawToo, s) && Valid(cfg, s, steps)
    requires rawToo || (cfg.staleWhileRevalidate <= 0 && s.refreshing == map[])
    ensures Inv(cfg, rawToo, Run(cfg, s, steps))
    ensures rawToo || Run(cfg, s, steps).refreshing == map[]
    decreases steps
  {
    if steps != [] {
      StepKeeps(cfg, rawToo, s, steps[0]);
      InvRun(cfg, rawToo, Apply(cfg, s, steps[0]), steps[1..]);
    }
  }

  /** The cache treats a TTL of zero as "for ever", so the lifetimes must not cancel out. */
  predicate Expires(cfg: Config) {
    Ttl(cfg) > 0
  }

  lemma {:induction false} RunSnoc(cfg: Config, s: State, steps: seq<Step>, n: nat)
    requires Valid(cfg, s, steps) && n < |steps|
    ensures Valid(cfg, s, steps[..n]) && Valid(cfg, s, steps[..n + 1])
    ensures Enabled(Run(cfg, s, steps[..n]), steps[n])
    ensures Run(cfg, s, steps[..n + 1]) == Apply(cfg, Run(cfg, s, steps[..n]), steps[n])
    decreases n
  {
    if n == 0 {
      assert steps[..1][1..] == [];
    } else {
      assert steps[..n][1..] == steps[1..][..n - 1] && steps[..n + 1][1..] == steps[1..][..n];
      RunSnoc(cfg, Apply(cfg, s, steps[0]), steps[1..], n - 1);
    }
  }

  /** Step `n - 1` of the run sends response `i`. */
  ghost predicate Emits(cfg: Config, now: nat, steps: seq<Step>, n: nat, i: nat)
    requires Valid(cfg, Init(now), steps) && i < |Run(cfg, Init(now), steps).responses|
  {
    && n <= |steps| && Valid(cfg, Init(now), steps[..n])
    && Run(cfg, Init(now), steps[..n]).responses == Run(cfg, Init(now), steps).responses[..i + 1]
    && 0 < n && Valid(cfg, Init(now), steps[..n - 1])
    && |Run(cfg, Init(now), steps[..n - 1]).responses| == i
  }

  lemma AtMostOneResponse(cfg: Config, s: State, step: Step)
    requires Enabled(s, step)
    ensures s.responses <= Apply(cfg, s, step).responses
    ensures |Apply(cfg, s, step).responses| <= |s.responses| + 1
  {
  }

  lemma {:induction false} EmittedBy(cfg: Config, now: nat, steps: seq<Step>, n: nat, i: nat) returns (m: nat)
    requires Valid(cfg, Init(now), steps) && n <= |steps| && Valid(cfg, Init(now), steps[..n])
    requires i < |Run(cfg, Init(now), steps[..n]).responses|
    ensures m <= n && Valid(cfg, Init(now), steps[..m])
    ensures Run(cfg, Init(now), steps[..m]).responses == Run(cfg, Init(now), steps[..n]).responses[..i + 1]
    ensures 0 < m && Valid(cfg, Init(now), steps[..m - 1])
    ensures |Run(cfg, Init(now), steps[..m - 1]).responses| == i
    decreases n
  {
    assert n > 0;
    RunSnoc(cfg, Init(now), steps, n - 1);
    var s := Run(cfg, Init(now), steps[..n - 1]);
    var before, after := s.responses, Run(cfg, Init(now), steps[..n]).responses;
    AtMostOneResponse(cfg, s, steps[n - 1]);
    if i < |before| {
      m := EmittedBy(cfg, now, steps, n - 1, i);
      assert after[..i + 1] == before[..i + 1];
    } else {
      m := n;
      assert after[..i + 1] == after;
    }
  }

  /** Over every run, at the moment response `i` is sent: it carries the ETag of its body, 304 is
      sent exactly to a client that shows this ETag, and the body goes back to one resolved by then
      for the same URI.  A MISS serves it post-processed; a HIT may serve it as it is, and is at
      most maxAge + staleWhileRevalidate seconds old. */
  lemma EmittedFits(cfg: Config, now: nat, steps: seq<Step>, i: nat) returns (n: nat)
    requires Expires(cfg) && Valid(cfg, Init(now), steps) && i < |Run(cfg, Init(now), steps).responses|
    ensures Emits(cfg, now, steps, n, i)
    ensures var resolved := Run(cfg, Init(now), steps[..n]).resolved;
      var a := Run(cfg, Init(now), steps).responses[i];
      && a.etag == ETag(cfg, a.body)
      && (a.notModified <==> a.ifNoneMatch == a.etag)
      && (!a.hit ==> exists x :: (a.uri, x) in resolved && cfg.post(x) == Some(a.body))
      && (a.hit ==> exists x :: (a.uri, x) in resolved && (cfg.post(x) == Some(a.body) || a.body == x))
      && (a.hit ==> 0 <= a.age <= cfg.maxAge + cfg.staleWhileRevalidate)
  {
    assert steps[..|steps|] == steps;
    n := EmittedBy(cfg, now, steps, |steps|, i);
    InvRun(cfg, true, Init(now), steps[..n]);
    var s := Run(cfg, Init(now), steps[..n]);
    assert s.responses[i] == Run(cfg, Init(now), steps).responses[i];
    assert ResponseFits(cfg, true, s.resolved, s.responses[i]);
  }

  lemma ETagInjective(cfg: Config, a: string, b: string)
    requires ETag(cfg, a) == ETag(cfg, b)
    ensures cfg.hash(cfg.configHash + a) == cfg.hash(cfg.configHash + b)
  {
    var m, n := cfg.hash(cfg.configHash + a), cfg.hash(cfg.configHash + b);
    assert ETag(cfg, a)[3..|ETag(cfg, a)| - 1] == Digits(m);
    assert ETag(cfg, b)[3..|ETag(cfg, b)| - 1] == Digits(n);
    DigitsInjective(m, n);
  }

  /** A client that revalidates with the ETag of response `j` and gets a 304 in response `i`
      holds the very body that `i` stands for, unless the hash collides on the two. */
  lemma NotModifiedMeansSameBody(cfg: Config, now: nat, steps: seq<Step>, i: nat, j: nat)
    requires Expires(cfg) && Valid(cfg, Init(now), steps)
    requires var rs := Run(cfg, Init(now), steps).responses;
      && i < |rs| && j < |rs| && rs[i].notModified && rs[i].ifNoneMatch == rs[j].etag
      && (cfg.hash(cfg.configHash + rs[i].body) == cfg.hash(cfg.configHash + rs[j].body)
          ==> rs[i].body == rs[j].body)
    ensures var rs := Run(cfg, Init(now), steps).responses; rs[i].body == rs[j].body
  {
    var _ := EmittedFits(cfg, now, steps, i);
    var _ := EmittedFits(cfg, now, steps, j);
    var rs := Run(cfg, Init(now), steps).responses;
    ETagInjective(cfg, rs[i].body, rs[j].body);
  }

  // Revalidation

  predicate StaleHit(cfg: Config, uri: string, a: Response) {
    a.hit && a.uri == uri && a.age > cfg.maxAge
  }

  /** The HITs on `uri` that were older than maxAge. */
  function StaleHits(cfg: Config, uri: string, responses: seq<Response>): nat {
    if responses == [] then 0
    else
      var n := |responses| - 1;
      StaleHits(cfg, uri, responses[..n]) + if StaleHit(cfg, uri, responses[n]) then 1 else 0
  }

  /** The deferred refreshes of `uri` that the run carries out. */
  function Refreshes(cfg: Config, uri: string, s: State, steps: seq<Step>): nat
    requires Valid(cfg, s, steps)
    decreases steps
  {
    if steps == [] then 0
    else
      (if steps[0].Refresh? && s.refreshing[steps[0].r] == uri then 1 else 0)
      + Refreshes(cfg, uri, Apply(cfg, s, steps[0]), steps[1..])
  }

  /** The requests that still owe a refresh of `uri`. */
  function Owing(s: State, uri: string): set<nat> {
    set r | r in s.refreshing && s.refreshing[r] == uri
  }

  lemma StaleHitsSnoc(cfg: Config, uri: string, responses: seq<Response>, a: Response)
    ensures StaleHits(cfg, uri, responses + [a]) ==
            StaleHits(cfg, uri, responses) + if StaleHit(cfg, uri, a) then 1 else 0
  {
    assert (responses + [a])[..|responses|] == responses;
  }

  /** The stale HITs on `uri` whose refresh is not owed any more. */
  function Unowed(cfg: Config, uri: string, s: State): int {
    StaleHits(cfg, uri, s.responses) - |Owing(s, uri)|
  }

  lemma RequestOwes(cfg: Config, uri: string, s: State, r: nat, asked: string, ifNoneMatch: string)
    requires r !in s.refreshing
    ensures Unowed(cfg, uri, Requested(cfg, s, r, asked, ifNoneMatch)) == Unowed(cfg, uri, s)
  {
    var found := Lookup(s, CacheKey(cfg, asked));
    if found.Some? {
      var a := HitResponse(cfg, s, found.value, asked, ifNoneMatch);
      StaleHitsSnoc(cfg, uri, s.responses, a);
      OwingOneMore(s, uri, r, asked);
    }
  }

  lemma OwingOneMore(s: State, uri: string, r: nat, asked: string)
    requires r !in s.refreshing
    ensures |Owing(s.(refreshing := s.refreshing[r := asked]), uri)| == |Owing(s, uri)| + if asked == uri then 1 else 0
  {
    assert Owing(s.(refreshing := s.refreshing[r := asked]), uri)
        == if asked == uri then Owing(s, uri) + {r} else Owing(s, uri);
  }

  lemma OtherStepOwes(cfg: Config, uri: string, s: State, step: Step)
    requires Enabled(s, step) && !step.Request?
    ensures Unowed(cfg, uri, Apply(cfg, s, step)) ==
            Unowed(cfg, uri, s) + if step.Refresh? && s.refreshing[step.r] == uri then 1 else 0
  {
    var t := Apply(cfg, s, step);
    if step.Refresh? {
      assert Owing(t, uri) == Owing(s, uri) - {step.r};
    } else if t.responses != s.responses {
      StaleHitsSnoc(cfg, uri, s.responses, t.responses[|s.responses|]);
    }
  }

  lemma {:induction false} RefreshesFrom(cfg: Config, uri: string, s: State, steps: seq<Step>)
    requires Valid(cfg, s, steps)
    ensures Unowed(cfg, uri, Run(cfg, s, steps)) == Unowed(cfg, uri, s) + Refreshes(cfg, uri, s, steps)
    decreases steps
  {
    if steps != [] {
      match steps[0] {
        case Request(r, asked, ifNoneMatch) => RequestOwes(cfg, uri, s, r, asked, ifNoneMatch);
        case step => OtherStepOwes(cfg, uri, s, step);
      }
      RefreshesFrom(cfg, uri, Apply(cfg, s, steps[0]), steps[1..]);
    }
  }

  /** Over every run and for every URI: the refreshes carried out and those still owed are as many
      as the HITs on the URI that were older than maxAge.  This holds of every prefix, so no refresh
      comes before the HIT that it follows.  Without a stale-while-revalidate window there are none. */
  lemma RefreshesBalance(cfg: Config, now: nat, steps: seq<Step>, uri: string)
    requires Expires(cfg) && Valid(cfg, Init(now), steps)
    ensures var s := Run(cfg, Init(now), steps);
      && Refreshes(cfg, uri, Init(now), steps) + |Owing(s, uri)| == StaleHits(cfg, uri, s.responses)
      && (cfg.staleWhileRevalidate <= 0 ==> StaleHits(cfg, uri, s.responses) == 0 && s.refreshing == map[])
  {
    RefreshesFrom(cfg, uri, Init(now), steps);
    if cfg.staleWhileRevalidate <= 0 {
      InvRun(cfg, false, Init(now), steps);
      var rs := Run(cfg, Init(now), steps).responses;
      assert forall i :: 0 <= i < |rs| ==> ResponseFits(cfg, false, Run(cfg, Init(now), steps).resolved, rs[i]);
      NoStaleHits(cfg, uri, rs);
    }
  }

  lemma {:induction false} NoStaleHits(cfg: Config, uri: string, responses: seq<Response>)
    requires forall i :: 0 <= i < |responses| ==> responses[i].hit ==> responses[i].age <= cfg.maxAge
    ensures StaleHits(cfg, uri, responses) == 0
  {
    if responses != [] {
      NoStaleHits(cfg, uri, responses[..|responses| - 1]);
    }
  }

  // When a HIT serves what a MISS would have served

  /** Every HIT of the run serves the post-processed form of a body resolved for its URI. */
  ghost predicate HitsProcessed(cfg: Config, s: State) {
    forall i :: 0 <= i < |s.responses| && s.responses[i].hit ==>
      Sourced(cfg, false, s.resolved, s.responses[i].uri, s.responses[i].body)
  }

  /** Nothing is ever refreshed, or post-processing changes nothing, or it always fails. */
  ghost predicate RefreshHarmless(cfg: Config) {
    || cfg.staleWhileRevalidate <= 0
    || (forall x :: cfg.post(x) == Some(x))
    || (forall x :: cfg.post(x) == None)
  }

  ghost predicate NothingStored(s: State) {
    s.cache == map[] && s.buffered == {} && s.responses == []
  }

  lemma {:induction false} NothingStoredRun(cfg: Config, s: State, steps: seq<Step>)
    requires (forall x :: cfg.post(x) == None) && NothingStored(s) && s.refreshing == map[] && Valid(cfg, s, steps)
    ensures NothingStored(Run(cfg, s, steps))
    decreases steps
  {
    if steps != [] {
      NothingStoredRun(cfg, Apply(cfg, s, steps[0]), steps[1..]);
    }
  }

  lemma HarmlessIsProcessed(cfg: Config, now: nat, steps: seq<Step>)
    requires RefreshHarmless(cfg) && Valid(cfg, Init(now), steps)
    ensures HitsProcessed(cfg, Run(cfg, Init(now), steps))
  {
    var s := Run(cfg, Init(now), steps);
    if cfg.staleWhileRevalidate <= 0 {
      InvRun(cfg, false, Init(now), steps);
      assert forall i :: 0 <= i < |s.responses| ==> ResponseFits(cfg, false, s.resolved, s.responses[i]);
    } else if forall x :: cfg.post(x) == Some(x) {
      InvRun(cfg, true, Init(now), steps);
      forall i | 0 <= i < |s.responses| && s.responses[i].hit
        ensures Sourced(cfg, false, s.resolved, s.responses[i].uri, s.responses[i].body)
      {
        assert ResponseFits(cfg, true, s.resolved, s.responses[i]);
        var a := s.responses[i];
        var x :| (a.uri, x) in s.resolved && (cfg.post(x) == Some(a.body) || (true && a.body == x));
        assert cfg.post(x) == Some(x);
      }
    } else {
      NothingStoredRun(cfg, Init(now), steps);
    }
  }

  lemma Prepend(cfg: Config, s: State, step: Step, rest: seq<Step>) returns (steps: seq<Step>)
    requires Enabled(s, step) && Valid(cfg, Apply(cfg, s, step), rest)
    ensures Valid(cfg, s, steps) && Run(cfg, s, steps) == Run(cfg, Apply(cfg, s, step), rest)
  {
    steps := [step] + rest;
    assert steps[1..] == rest;
  }

  /** `first` is resolved, served and goes stale; the refresh resolves `second`; the next HIT
      serves `second` as it is. */
  lemma RefreshServesRaw(cfg: Config, first: string, second: string) returns (steps: seq<Step>)
    requires Expires(cfg) && cfg.staleWhileRevalidate > 0 && cfg.post(first).Some?
    ensures Valid(cfg, Init(0), steps)
    ensures var s := Run(cfg, Init(0), steps);
      && s.resolved == {("/", first), ("/", second)}
      && s.responses != [] && s.responses[|s.responses| - 1].hit
      && s.responses[|s.responses| - 1].uri == "/" && s.responses[|s.responses| - 1].body == second
  {
    var stale := StaleState(cfg, first);
    steps := StaleToRaw(cfg, first, second);
    steps := InitToStale(cfg, first, steps);
  }

  /** `first` has been stored for "/" and is exactly as old as the TTL. */
  function StaleState(cfg: Config, first: string): State
    requires Ttl(cfg) > 0 && cfg.post(first).Some?
  {
    var body := cfg.post(first).value;
    State(Ttl(cfg) * NANOS, map[CacheKey(cfg, "/") := Entry(body, 0, Ttl(cfg) * NANOS)], {}, map[], map[],
          {("/", first)}, [MissResponse(cfg, body, "/", "")])
  }

  lemma InitToStale(cfg: Config, first: string, rest: seq<Step>) returns (steps: seq<Step>)
    requires Ttl(cfg) > 0 && cfg.post(first).Some? && Valid(cfg, StaleState(cfg, first), rest)
    ensures Valid(cfg, Init(0), steps) && Run(cfg, Init(0), steps) == Run(cfg, StaleState(cfg, first), rest)
  {
    var key, entry := CacheKey(cfg, "/"), Entry(cfg.post(first).value, 0, Ttl(cfg) * NANOS);
    var asked := Init(0).(waiting := map[0 := ("/", "")]);
    assert asked == Apply(cfg, Init(0), Request(0, "/", ""));
    var stored := Apply(cfg, asked, Resolve(0, Some(first)));
    assert stored.buffered == {(key, entry)} && stored.waiting == map[];
    var landed := Apply(cfg, stored, Land(key, entry));
    assert landed.cache == map[key := entry] && landed.buffered == {};
    assert Apply(cfg, landed, Tick(Ttl(cfg) * NANOS)) == StaleState(cfg, first);
    steps := Prepend(cfg, landed, Tick(Ttl(cfg) * NANOS), rest);
    steps := Prepend(cfg, stored, Land(key, entry), steps);
    steps := Prepend(cfg, asked, Resolve(0, Some(first)), steps);
    steps := Prepend(cfg, Init(0), Request(0, "/", ""), steps);
  }

  lemma StaleToRaw(cfg: Config, first: string, second: string) returns (steps: seq<Step>)
    requires Ttl(cfg) > 0 && cfg.staleWhileRevalidate > 0 && cfg.post(first).Some?
    ensures Valid(cfg, StaleState(cfg, first), steps)
    ensures var s := Run(cfg, StaleState(cfg, first), steps);
      && s.resolved == {("/", first), ("/", second)}
      && s.responses != [] && s.responses[|s.responses| - 1].hit
      && s.responses[|s.responses| - 1].uri == "/" && s.responses[|s.responses| - 1].body == second
  {
    var stale, key := StaleState(cfg, first), CacheKey(cfg, "/");
    var hit := Apply(cfg, stale, Request(1, "/", ""));
    assert Lookup(stale, key) == Some(stale.cache[key]);
    assert Unix(stale.now) == Ttl(cfg);
    assert hit.refreshing == map[1 := "/"];
    var refreshed := Apply(cfg, hit, Refresh(1, Some(second)));
    var entry := Stored(cfg, hit, "/", second).1;
    var landed := Apply(cfg, refreshed, Land(key, entry));
    assert Lookup(landed, key) == Some(entry);
    steps := Prepend(cfg, landed, Request(2, "/", ""), []);
    steps := Prepend(cfg, refreshed, Land(key, entry), steps);
    steps := Prepend(cfg, hit, Refresh(1, Some(second)), steps);
    steps := Prepend(cfg, stale, Request(1, "/", ""), steps);
  }

  /** The deferred refresh stores the raw resolver output.  So in all runs every HIT serves what
      a MISS would have served, exactly when a refresh cannot happen or cannot matter. */
  lemma HitsProcessedExactly(cfg: Config)
    requires Expires(cfg)
    ensures RefreshHarmless(cfg) <==>
            forall now, steps :: Valid(cfg, Init(now), steps) ==> HitsProcessed(cfg, Run(cfg, Init(now), steps))
  {
    if RefreshHarmless(cfg) {
      forall now: nat, steps | Valid(cfg, Init(now), steps) ensures HitsProcessed(cfg, Run(cfg, Init(now), steps)) {
        HarmlessIsProcessed(cfg, now, steps);
      }
    } else {
      var x :| cfg.post(x) != Some(x);
      var y :| cfg.post(y) != None;
      var second := if cfg.post(y) == Some(x) then y else x;
      var steps := RefreshServesRaw(cfg, y, second);
      var s := Run(cfg, Init(0), steps);
      var i := |s.responses| - 1;
      assert !Sourced(cfg, false, s.resolved, "/", second);
      assert s.responses[i].hit && s.responses[i].uri == "/" && s.responses[i].body == second;
      assert !HitsProcessed(cfg, s);
    }
  }
}
