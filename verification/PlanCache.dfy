/** The prepared-plan cache of the GraphQL handler: concurrent requests read the map, and those
    that miss plan through a singleflight group. */
module PlanCache {
  import opened Wrappers
  import opened Decimal

  const WORDS := 0x1_0000_0000_0000_0000
  const HALF := 0x8000_0000_0000_0000

  type uint64 = n: int | 0 <= n < 0x1_0000_0000_0000_0000

  /** What the hash is taken of: the operation name and the printed document. */
  datatype Document = Document(operationName: string, text: string)

  type Plan = string

  /** Planning is deterministic; `None` is the invalid operation. */
  datatype Config = Config(hash: Document -> uint64, plan: Document -> Option<Plan>)

  /** Go's `int(h)` on a 64-bit machine. */
  function AsInt(h: uint64): int {
    if h < HALF then h else h - WORDS
  }

  function FlightKey(h: uint64): string {
    Itoa(AsInt(h))
  }

  /** Distinct hashes never share a flight. */
  lemma FlightKeyInjective(g: uint64, h: uint64)
    requires FlightKey(g) == FlightKey(h)
    ensures g == h
  {
    ItoaInjective(AsInt(g), AsInt(h));
  }

  datatype Phase =
    | Missed(doc: Document)
    | Planning(doc: Document)                            // runs the function of its flight
    | Finishing(doc: Document, result: Option<Plan>)     // has planned, flight not closed yet
    | Joined(doc: Document, leader: nat)                 // waits for the flight of another
    | Done(doc: Document, result: Option<Plan>)

  datatype State = State(
    prepared: map<uint64, Plan>,
    flights: map<string, nat>,          // key to the request that leads
    landed: map<nat, Option<Plan>>,     // results of closed flights, by leader
    requests: map<nat, Phase>)

  datatype Step =
    | Read(r: nat, doc: Document)
    | Enter(r: nat)      // singleflight Do
    | Prepare(r: nat)    // plan and, if valid, write the entry
    | Close(r: nat)      // the flight is over
    | Wake(r: nat)       // a joined request returns

  function Init(): State {
    State(map[], map[], map[], map[])
  }

  predicate Enabled(s: State, step: Step) {
    match step
    case Read(r, _) => r !in s.requests
    case Enter(r) => r in s.requests && s.requests[r].Missed?
    case Prepare(r) => r in s.requests && s.requests[r].Planning?
    case Close(r) => r in s.requests && s.requests[r].Finishing?
    case Wake(r) => r in s.requests && s.requests[r].Joined? && s.requests[r].leader in s.landed
  }

  function At(s: State, r: nat, p: Phase): State {
    s.(requests := s.requests[r := p])
  }

  function Apply(cfg: Config, s: State, step: Step): State
    requires Enabled(s, step)
  {
    match step
    case Read(r, doc) =>
      var h := cfg.hash(doc);
      if h in s.prepared then At(s, r, Done(doc, Some(s.prepared[h]))) else At(s, r, Missed(doc))
    case Enter(r) =>
      var doc := s.requests[r].doc;
      var key := FlightKey(cfg.hash(doc));
      if key in s.flights then At(s, r, Joined(doc, s.flights[key]))
      else At(s, r, Planning(doc)).(flights := s.flights[key := r])
    case Prepare(r) =>
      var doc := s.requests[r].doc;
      var result := cfg.plan(doc);
      var t := At(s, r, Finishing(doc, result));
      if result.None? then t else t.(prepared := s.prepared[cfg.hash(doc) := result.value])
    case Close(r) =>
      var doc := s.requests[r].doc;
      var result := s.requests[r].result;
      At(s, r, Done(doc, result)).(
        flights := s.flights - {FlightKey(cfg.hash(doc))}, landed := s.landed[r := result])
    case Wake(r) =>
      var doc := s.requests[r].doc;
      At(s, r, Done(doc, s.landed[s.requests[r].leader]))
  }

  predicate Valid(cfg: Config, s: State, steps: seq<Step>)
    decreases steps
  {
    steps == [] || (Enabled(s, steps[0]) && Valid(cfg, Apply(cfg, s, steps[0]), steps[1..]))
  }

  function Run(cfg: Config, s: State, steps: seq<Step>): State
    requires Valid(cfg, s, steps)
    decreases steps
  {
    if steps == [] then s else Run(cfg, Apply(cfg, s, steps[0]), steps[1..])
  }

  // What every run keeps

  predicate Leads(p: Phase) {
    p.Planning? || p.Finishing?
  }

  /** Requests with one hash have one plan. */
  ghost predicate CollisionFree(cfg: Config) {
    forall a, b :: cfg.hash(a) == cfg.hash(b) ==> cfg.plan(a) == cfg.plan(b)
  }

  /** The flight of a hash is led by the one request that plans it. */
  ghost predicate FlightsFit(cfg: Config, s: State) {
    forall r :: r in s.requests && Leads(s.requests[r]) ==> FlightFits(cfg, s, r)
  }

  ghost predicate FlightFits(cfg: Config, s: State, r: nat)
    requires r in s.requests
  {
    var key := FlightKey(cfg.hash(s.requests[r].doc));
    key in s.flights && s.flights[key] == r
  }

  ghost predicate PreparedFits(cfg: Config, s: State) {
    forall h :: h in s.prepared ==> exists doc :: cfg.hash(doc) == h && cfg.plan(doc) == Some(s.prepared[h])
  }

  /** Where a request stands, its result is the plan of its own document. */
  ghost predicate RequestFits(cfg: Config, s: State, r: nat)
    requires r in s.requests
  {
    match s.requests[r]
    case Missed(_) => true
    case Planning(_) => true
    case Finishing(doc, result) => result == cfg.plan(doc)
    case Joined(doc, leader) =>
      leader in s.requests && !s.requests[leader].Missed? && !s.requests[leader].Joined?
      && cfg.hash(s.requests[leader].doc) == cfg.hash(doc)
    case Done(doc, result) => result == cfg.plan(doc)
  }

  ghost predicate LandedFits(cfg: Config, s: State) {
    forall r :: r in s.landed ==> r in s.requests && s.requests[r].Done? && s.landed[r] == s.requests[r].result
  }

  /** A flight that is listed has a leader that is still busy with it. */
  ghost predicate FlightsLed(cfg: Config, s: State) {
    forall key :: key in s.flights ==>
      var r := s.flights[key];
      r in s.requests && Leads(s.requests[r]) && key == FlightKey(cfg.hash(s.requests[r].doc))
  }

  ghost predicate RequestsFit(cfg: Config, s: State) {
    forall r :: r in s.requests ==> RequestFits(cfg, s, r)
  }

  ghost predicate Inv(cfg: Config, s: State) {
    && FlightsFit(cfg, s) && FlightsLed(cfg, s) && PreparedFits(cfg, s)
    && RequestsFit(cfg, s) && LandedFits(cfg, s)
  }

  lemma EnterFits(cfg: Config, s: State, r: nat, q: nat)
    requires FlightsFit(cfg, s) && Enabled(s, Enter(r))
    requires q in Apply(cfg, s, Enter(r)).requests && Leads(Apply(cfg, s, Enter(r)).requests[q])
    ensures FlightFits(cfg, Apply(cfg, s, Enter(r)), q)
  {
    if q != r {
      assert FlightFits(cfg, s, q);
    }
  }

  lemma CloseFits(cfg: Config, s: State, r: nat, q: nat)
    requires FlightsFit(cfg, s) && Enabled(s, Close(r))
    requires q in Apply(cfg, s, Close(r)).requests && Leads(Apply(cfg, s, Close(r)).requests[q])
    ensures FlightFits(cfg, Apply(cfg, s, Close(r)), q)
  {
    assert FlightFits(cfg, s, q) && FlightFits(cfg, s, r);
  }

  /** The other steps leave the flights alone, and who leads them. */
  lemma OtherStepFits(cfg: Config, s: State, step: Step, q: nat)
    requires FlightsFit(cfg, s) && Enabled(s, step) && !step.Enter? && !step.Close?
    requires q in Apply(cfg, s, step).requests && Leads(Apply(cfg, s, step).requests[q])
    ensures FlightFits(cfg, Apply(cfg, s, step), q)
  {
    assert q in s.requests && Leads(s.requests[q]);
    assert FlightFits(cfg, s, q);
  }

  lemma FlightsFitKept(cfg: Config, s: State, step: Step)
    requires FlightsFit(cfg, s) && Enabled(s, step)
    ensures FlightsFit(cfg, Apply(cfg, s, step))
  {
    var t := Apply(cfg, s, step);
    forall q | q in t.requests && Leads(t.requests[q]) ensures FlightFits(cfg, t, q) {
      match step
      case Enter(r) => EnterFits(cfg, s, r, q);
      case Close(r) => CloseFits(cfg, s, r, q);
      case _ => OtherStepFits(cfg, s, step, q);
    }
  }

  lemma FlightsLedKept(cfg: Config, s: State, step: Step)
    requires FlightsFit(cfg, s) && FlightsLed(cfg, s) && Enabled(s, step)
    ensures FlightsLed(cfg, Apply(cfg, s, step))
  {
    var t := Apply(cfg, s, step);
    forall key | key in t.flights
      ensures var r := t.flights[key];
        r in t.requests && Leads(t.requests[r]) && key == FlightKey(cfg.hash(t.requests[r].doc))
    {
      if key in s.flights {
        var r := s.flights[key];
        assert r in s.requests && Leads(s.requests[r]);
      }
    }
  }

  lemma LandedKept(cfg: Config, s: State, step: Step)
    requires LandedFits(cfg, s) && Enabled(s, step)
    ensures LandedFits(cfg, Apply(cfg, s, step))
  {
  }

  lemma PreparedKept(cfg: Config, s: State, step: Step)
    requires PreparedFits(cfg, s) && Enabled(s, step)
    ensures PreparedFits(cfg, Apply(cfg, s, step))
  {
  }

  /** A request that a step leaves alone. */
  lemma OthersFit(cfg: Config, s: State, step: Step, r: nat)
    requires Inv(cfg, s) && Enabled(s, step) && r in s.requests && r != step.r
    ensures var t := Apply(cfg, s, step); r in t.requests && t.requests[r] == s.requests[r] && RequestFits(cfg, t, r)
  {
    assert RequestFits(cfg, s, r);
    if s.requests[r].Joined? {
      assert RequestFits(cfg, s, s.requests[r].leader);
    }
  }

  lemma MoverFits(cfg: Config, s: State, step: Step)
    requires CollisionFree(cfg) && Inv(cfg, s) && Enabled(s, step)
    ensures var t := Apply(cfg, s, step); step.r in t.requests && RequestFits(cfg, t, step.r)
  {
    var t := Apply(cfg, s, step);
    match step
    case Enter(r) =>
      var h := cfg.hash(s.requests[r].doc);
      if FlightKey(h) in s.flights {
        FlightKeyInjective(cfg.hash(s.requests[s.flights[FlightKey(h)]].doc), h);
      }
    case Close(r) => assert RequestFits(cfg, s, r);
    case Wake(r) =>
      assert RequestFits(cfg, s, r);
      assert RequestFits(cfg, s, s.requests[r].leader);
    case _ =>
  }

  lemma RequestsKept(cfg: Config, s: State, step: Step)
    requires CollisionFree(cfg) && Inv(cfg, s) && Enabled(s, step)
    ensures RequestsFit(cfg, Apply(cfg, s, step))
  {
    var t := Apply(cfg, s, step);
    forall r | r in t.requests ensures RequestFits(cfg, t, r) {
      if r == step.r {
        MoverFits(cfg, s, step);
      } else {
        OthersFit(cfg, s, step, r);
      }
    }
  }

  lemma InvKept(cfg: Config, s: State, step: Step)
    requires CollisionFree(cfg) && Inv(cfg, s) && Enabled(s, step)
    ensures Inv(cfg, Apply(cfg, s, step))
  {
    FlightsFitKept(cfg, s, step);
    FlightsLedKept(cfg, s, step);
    PreparedKept(cfg, s, step);
    RequestsKept(cfg, s, step);
    LandedKept(cfg, s, step);
  }

  lemma {:induction false} InvRun(cfg: Config, s: State, steps: seq<Step>)
    requires CollisionFree(cfg) && Inv(cfg, s) && Valid(cfg, s, steps)
    ensures Inv(cfg, Run(cfg, s, steps))
    decreases steps
  {
    if steps != [] {
      InvKept(cfg, s, steps[0]);
      InvRun(cfg, Apply(cfg, s, steps[0]), steps[1..]);
    }
  }

  // What it is for

  /** Every request that is done used the plan that planning its own document would give. */
  ghost predicate OwnPlans(cfg: Config, s: State) {
    forall r :: r in s.requests && s.requests[r].Done? ==> s.requests[r].result == cfg.plan(s.requests[r].doc)
  }

  /** Every entry is the plan of every document with its hash. */
  lemma EntriesArePlans(cfg: Config, steps: seq<Step>, doc: Document)
    requires CollisionFree(cfg) && Valid(cfg, Init(), steps)
    ensures var s := Run(cfg, Init(), steps);
      cfg.hash(doc) in s.prepared ==> cfg.plan(doc) == Some(s.prepared[cfg.hash(doc)])
  {
    InvRun(cfg, Init(), steps);
  }

  /** Valid documents with one hash have one plan; invalid ones are never stored. */
  ghost predicate PlansAgree(cfg: Config) {
    forall a, b :: cfg.hash(a) == cfg.hash(b) && cfg.plan(a).Some? && cfg.plan(b).Some? ==> cfg.plan(a) == cfg.plan(b)
  }

  /** The run `more`, continuing `steps`, changes the entry of `h`. */
  ghost predicate Changes(cfg: Config, steps: seq<Step>, more: seq<Step>, h: uint64) {
    && Valid(cfg, Init(), steps) && Valid(cfg, Run(cfg, Init(), steps), more)
    && h in Run(cfg, Init(), steps).prepared
    && var s := Run(cfg, Init(), steps); var t := Run(cfg, s, more);
       !(h in t.prepared && t.prepared[h] == s.prepared[h])
  }

  /** An entry never changes once it is written, although two requests may write it, exactly when
      no two valid documents with different plans share a hash. */
  lemma EntriesAreStable(cfg: Config)
    ensures PlansAgree(cfg) <==> !exists steps, more, h :: Changes(cfg, steps, more, h)
  {
    if PlansAgree(cfg) {
      forall steps, more, h ensures !Changes(cfg, steps, more, h) {
        if Changes(cfg, steps, more, h) {
          PreparedRun(cfg, Init(), steps);
          EntriesStayFrom(cfg, Run(cfg, Init(), steps), more, h);
        }
      }
    } else {
      var a, b :| cfg.hash(a) == cfg.hash(b) && cfg.plan(a).Some? && cfg.plan(b).Some? && cfg.plan(a) != cfg.plan(b);
      var steps, more := EntryIsOverwritten(cfg, a, b);
      assert Changes(cfg, steps, more, cfg.hash(a));
    }
  }

  lemma {:induction false} PreparedRun(cfg: Config, s: State, steps: seq<Step>)
    requires PreparedFits(cfg, s) && Valid(cfg, s, steps)
    ensures PreparedFits(cfg, Run(cfg, s, steps))
    decreases steps
  {
    if steps != [] {
      PreparedKept(cfg, s, steps[0]);
      PreparedRun(cfg, Apply(cfg, s, steps[0]), steps[1..]);
    }
  }

  lemma {:induction false} EntriesStayFrom(cfg: Config, s: State, steps: seq<Step>, h: uint64)
    requires PlansAgree(cfg) && PreparedFits(cfg, s) && Valid(cfg, s, steps) && h in s.prepared
    ensures h in Run(cfg, s, steps).prepared && Run(cfg, s, steps).prepared[h] == s.prepared[h]
    decreases steps
  {
    if steps != [] {
      PreparedKept(cfg, s, steps[0]);
      var t := Apply(cfg, s, steps[0]);
      var doc :| cfg.hash(doc) == h && cfg.plan(doc) == Some(s.prepared[h]);
      assert t.prepared[h] == s.prepared[h];
      EntriesStayFrom(cfg, t, steps[1..], h);
    }
  }

  /** A request that has missed plans while no other does. */
  lemma PlannedAlone(cfg: Config, s: State, r: nat, doc: Document) returns (t: State, steps: seq<Step>)
    requires r in s.requests && s.requests[r] == Missed(doc) && s.flights == map[] && cfg.plan(doc).Some?
    ensures Valid(cfg, s, steps) && Run(cfg, s, steps) == t
    ensures t.prepared == s.prepared[cfg.hash(doc) := cfg.plan(doc).value] && t.flights == map[]
    ensures forall q :: q in s.requests && q != r ==> q in t.requests && t.requests[q] == s.requests[q]
  {
    var s1 := Apply(cfg, s, Enter(r));
    var s2 := Apply(cfg, s1, Prepare(r));
    t := Apply(cfg, s2, Close(r));
    steps := Prepend(cfg, s2, Close(r), []);
    steps := Prepend(cfg, s1, Prepare(r), steps);
    steps := Prepend(cfg, s, Enter(r), steps);
  }

  /** Both requests miss; the second enters when the flight of the first has landed. */
  lemma EntryIsOverwritten(cfg: Config, a: Document, b: Document) returns (steps: seq<Step>, more: seq<Step>)
    requires cfg.hash(a) == cfg.hash(b) && cfg.plan(a).Some? && cfg.plan(b).Some?
    ensures Valid(cfg, Init(), steps) && Valid(cfg, Run(cfg, Init(), steps), more)
    ensures Run(cfg, Init(), steps).prepared == map[cfg.hash(a) := cfg.plan(a).value]
    ensures Run(cfg, Run(cfg, Init(), steps), more).prepared == map[cfg.hash(a) := cfg.plan(b).value]
  {
    var s1 := Apply(cfg, Init(), Read(0, a));
    var s2 := Apply(cfg, s1, Read(1, b));
    assert s2 == State(map[], map[], map[], map[0 := Missed(a), 1 := Missed(b)]);
    var s3;
    s3, steps := PlannedAlone(cfg, s2, 0, a);
    steps := Prepend(cfg, s1, Read(1, b), steps);
    steps := Prepend(cfg, Init(), Read(0, a), steps);
    var s4;
    s4, more := PlannedAlone(cfg, s3, 1, b);
  }

  // What the cache is worth

  /** A request that has got a plan: its hash has an entry.  One that has joined waits for a request
      with its hash. */
  ghost predicate Stored(cfg: Config, s: State, r: nat)
    requires r in s.requests
  {
    match s.requests[r]
    case Finishing(doc, result) => result.Some? ==> cfg.hash(doc) in s.prepared
    case Done(doc, result) => result.Some? ==> cfg.hash(doc) in s.prepared
    case Joined(doc, leader) =>
      leader in s.requests && !s.requests[leader].Missed? && !s.requests[leader].Joined?
      && cfg.hash(s.requests[leader].doc) == cfg.hash(doc)
    case _ => true
  }

  ghost predicate AllStored(cfg: Config, s: State) {
    && FlightsFit(cfg, s) && FlightsLed(cfg, s) && LandedFits(cfg, s)
    && forall r :: r in s.requests ==> Stored(cfg, s, r)
  }

  lemma OthersStored(cfg: Config, s: State, step: Step, r: nat)
    requires AllStored(cfg, s) && Enabled(s, step) && r in s.requests && r != step.r
    ensures var t := Apply(cfg, s, step); r in t.requests && Stored(cfg, t, r)
  {
    assert Stored(cfg, s, r);
    OthersStay(cfg, s, step, r);
    if s.requests[r].Joined? && s.requests[r].leader == step.r {
      LeaderStays(cfg, s, step);
    }
  }

  lemma OthersStay(cfg: Config, s: State, step: Step, r: nat)
    requires Enabled(s, step) && r in s.requests && r != step.r
    ensures var t := Apply(cfg, s, step);
      r in t.requests && t.requests[r] == s.requests[r] && s.prepared.Keys <= t.prepared.Keys
    ensures var t := Apply(cfg, s, step);
      forall q :: q in s.requests && q != step.r ==> q in t.requests && t.requests[q] == s.requests[q]
  {
  }

  /** A request that has entered does not go back. */
  lemma LeaderStays(cfg: Config, s: State, step: Step)
    requires Enabled(s, step) && step.r in s.requests && !s.requests[step.r].Missed? && !s.requests[step.r].Joined?
    ensures var t := Apply(cfg, s, step);
      step.r in t.requests && !t.requests[step.r].Missed? && !t.requests[step.r].Joined?
      && t.requests[step.r].doc == s.requests[step.r].doc
  {
  }

  lemma MoverStored(cfg: Config, s: State, step: Step)
    requires AllStored(cfg, s) && Enabled(s, step)
    ensures var t := Apply(cfg, s, step); step.r in t.requests && Stored(cfg, t, step.r)
  {
    match step
    case Enter(r) =>
      var h := cfg.hash(s.requests[r].doc);
      if FlightKey(h) in s.flights {
        FlightKeyInjective(cfg.hash(s.requests[s.flights[FlightKey(h)]].doc), h);
      }
    case Close(r) => assert Stored(cfg, s, r);
    case Wake(r) =>
      assert Stored(cfg, s, r);
      assert Stored(cfg, s, s.requests[r].leader);
    case _ =>
  }

  lemma {:induction false} AllStoredRun(cfg: Config, s: State, steps: seq<Step>)
    requires AllStored(cfg, s) && Valid(cfg, s, steps)
    ensures AllStored(cfg, Run(cfg, s, steps))
    decreases steps
  {
    if steps != [] {
      var t := Apply(cfg, s, steps[0]);
      FlightsFitKept(cfg, s, steps[0]);
      FlightsLedKept(cfg, s, steps[0]);
      LandedKept(cfg, s, steps[0]);
      forall r | r in t.requests ensures Stored(cfg, t, r) {
        if r == steps[0].r {
          MoverStored(cfg, s, steps[0]);
        } else {
          OthersStored(cfg, s, steps[0], r);
        }
      }
      AllStoredRun(cfg, t, steps[1..]);
    }
  }

  /** In every run a request that ends with a plan, also one that waited for another, leaves an
      entry for its hash. */
  lemma PlansAreStored(cfg: Config, steps: seq<Step>, r: nat)
    requires Valid(cfg, Init(), steps) && r in Run(cfg, Init(), steps).requests
    requires Run(cfg, Init(), steps).requests[r].Done? && Run(cfg, Init(), steps).requests[r].result.Some?
    ensures cfg.hash(Run(cfg, Init(), steps).requests[r].doc) in Run(cfg, Init(), steps).prepared
  {
    AllStoredRun(cfg, Init(), steps);
    assert Stored(cfg, Run(cfg, Init(), steps), r);
  }

  /** From then on no request for that hash plans, waits or fails: it has a plan as soon as it has
      read the cache. */
  lemma {:induction false} LaterRequestsHit(cfg: Config, s: State, more: seq<Step>, r: nat, doc: Document)
    requires Valid(cfg, s, more) && cfg.hash(doc) in s.prepared
    requires r in s.requests && s.requests[r].doc == doc ==> s.requests[r].Done? && s.requests[r].result.Some?
    ensures var t := Run(cfg, s, more);
      r in t.requests && t.requests[r].doc == doc ==> t.requests[r].Done? && t.requests[r].result.Some?
    decreases more
  {
    if more != [] {
      var t := Apply(cfg, s, more[0]);
      assert cfg.hash(doc) in t.prepared;
      assert r in s.requests ==> r in t.requests && t.requests[r].doc == s.requests[r].doc;
      LaterRequestsHit(cfg, t, more[1..], r, doc);
    }
  }

  /** At most one request at a time plans for a hash: the flight keys do not mix hashes. */
  lemma OnePlannerPerHash(cfg: Config, steps: seq<Step>, q: nat, r: nat)
    requires Valid(cfg, Init(), steps)
    requires var s := Run(cfg, Init(), steps);
      && q in s.requests && r in s.requests && s.requests[q].Planning? && s.requests[r].Planning?
      && cfg.hash(s.requests[q].doc) == cfg.hash(s.requests[r].doc)
    ensures q == r
  {
    FlightsRun(cfg, Init(), steps);
  }

  lemma {:induction false} FlightsRun(cfg: Config, s: State, steps: seq<Step>)
    requires FlightsFit(cfg, s) && FlightsLed(cfg, s) && Valid(cfg, s, steps)
    ensures FlightsFit(cfg, Run(cfg, s, steps)) && FlightsLed(cfg, Run(cfg, s, steps))
    decreases steps
  {
    if steps != [] {
      FlightsFitKept(cfg, s, steps[0]);
      FlightsLedKept(cfg, s, steps[0]);
      FlightsRun(cfg, Apply(cfg, s, steps[0]), steps[1..]);
    }
  }

  lemma Prepend(cfg: Config, s: State, step: Step, rest: seq<Step>) returns (steps: seq<Step>)
    requires Enabled(s, step) && Valid(cfg, Apply(cfg, s, step), rest)
    ensures Valid(cfg, s, steps) && Run(cfg, s, steps) == Run(cfg, Apply(cfg, s, step), rest)
  {
    steps := [step] + rest;
    assert steps[1..] == rest;
  }

  /** Two documents with one hash, of which the first can be planned: the second gets its plan. */
  lemma CollisionServesTheOther(cfg: Config, a: Document, b: Document) returns (steps: seq<Step>)
    requires cfg.hash(a) == cfg.hash(b) && cfg.plan(a).Some?
    ensures Valid(cfg, Init(), steps)
    ensures var s := Run(cfg, Init(), steps); 1 in s.requests && s.requests[1] == Done(b, cfg.plan(a))
  {
    var h, plan := cfg.hash(a), cfg.plan(a).value;
    var missed := State(map[], map[], map[], map[0 := Missed(a)]);
    var planning := State(map[], map[FlightKey(h) := 0], map[], map[0 := Planning(a)]);
    var planned := State(map[h := plan], map[FlightKey(h) := 0], map[], map[0 := Finishing(a, Some(plan))]);
    assert Apply(cfg, Init(), Read(0, a)) == missed;
    assert Apply(cfg, missed, Enter(0)) == planning;
    assert Apply(cfg, planning, Prepare(0)) == planned;
    steps := Prepend(cfg, planned, Read(1, b), []);
    steps := Prepend(cfg, planning, Prepare(0), steps);
    steps := Prepend(cfg, missed, Enter(0), steps);
    steps := Prepend(cfg, Init(), Read(0, a), steps);
  }

  /** In all runs every request uses its own plan, exactly when no two documents with different
      plans share a hash. */
  lemma OwnPlansExactly(cfg: Config)
    ensures CollisionFree(cfg) <==>
            forall steps :: Valid(cfg, Init(), steps) ==> OwnPlans(cfg, Run(cfg, Init(), steps))
  {
    if CollisionFree(cfg) {
      forall steps | Valid(cfg, Init(), steps) ensures OwnPlans(cfg, Run(cfg, Init(), steps)) {
        InvRun(cfg, Init(), steps);
        var s := Run(cfg, Init(), steps);
        assert forall r :: r in s.requests ==> RequestFits(cfg, s, r);
      }
    } else {
      var a, b :| cfg.hash(a) == cfg.hash(b) && cfg.plan(a) != cfg.plan(b);
      var x, y := if cfg.plan(a).Some? then a else b, if cfg.plan(a).Some? then b else a;
      var steps := CollisionServesTheOther(cfg, x, y);
      assert !OwnPlans(cfg, Run(cfg, Init(), steps));
    }
  }
}
